/** CBC decryption with PKCS#7 unpadding over a stream of chunks, for any block cipher. */
module Cbc {
  import opened Bytes

  datatype CryptoError = InvalidInputLength | BadPadding | AlreadyFinalized | InvalidIvLength(expected: nat, got: nat)

  /** A keyed block cipher; both directions map blocks of `size` bytes to such blocks. */
  datatype Cipher = Cipher(size: nat, encrypt: bytes -> bytes, decrypt: bytes -> bytes)
  {
    ghost predicate Valid()
    {
      size > 0 && forall b: bytes | |b| == size :: |decrypt(b)| == size
    }

    ghost predicate Inverts()
    {
      forall b: bytes | |b| == size :: |encrypt(b)| == size && decrypt(encrypt(b)) == b
    }
  }

  /** Exclusive or of the low `n` bits, least significant first. */
  function XorBits(a: nat, b: nat, n: nat): (x: nat)
    ensures x < Pow2(n)
  {
    if n == 0 then 0 else (a + b) % 2 + 2 * XorBits(a / 2, b / 2, n - 1)
  }

  function XorByte(a: byte, b: byte): byte
  {
    assert Pow2(8) == 256;
    XorBits(a, b, 8)
  }

  lemma {:induction false} XorBitsCancels(a: nat, b: nat, n: nat)
    requires a < Pow2(n)
    ensures XorBits(XorBits(a, b, n), b, n) == a
    decreases n
  {
    if n > 0 {
      XorBitsCancels(a / 2, b / 2, n - 1);
      XorSteps(a, b, n);
      var x := XorBits(a, b, n);
      XorSteps(x, b, n);
      LowBitCancels(a, b, x);
    }
  }

  lemma XorSteps(a: nat, b: nat, n: nat)
    requires n > 0
    ensures var x := XorBits(a, b, n); x % 2 == (a + b) % 2 && x / 2 == XorBits(a / 2, b / 2, n - 1)
  {
  }

  lemma LowBitCancels(a: nat, b: nat, x: nat)
    requires x % 2 == (a + b) % 2
    ensures (x + b) % 2 == a % 2
  {
  }

  function Xor(a: bytes, b: bytes): (r: bytes)
    requires |a| == |b|
    ensures |r| == |a|
  {
    seq(|a|, i requires 0 <= i < |a| => XorByte(a[i], b[i]))
  }

  lemma XorCancels(a: bytes, b: bytes)
    requires |a| == |b|
    ensures Xor(Xor(a, b), b) == a
  {
    assert Pow2(8) == 256;
    forall i | 0 <= i < |a| ensures Xor(Xor(a, b), b)[i] == a[i] {
      XorBitsCancels(a[i], b[i], 8);
    }
  }

  /** `n` bytes are whole blocks. */
  predicate Whole(n: nat, size: nat)
  {
    size > 0 && n % size == 0
  }

  lemma ModUnique(n: int, q: int, r: nat, size: nat)
    requires 0 <= r < size && n == q * size + r
    ensures n % size == r
  {
    var d := q - n / size;
    assert n == (n / size) * size + n % size;
    assert d * size == n % size - r;
    MulBound(d, size);
  }

  lemma MulBound(d: int, size: int)
    requires size > 0
    ensures d >= 1 ==> d * size >= size
    ensures d <= -1 ==> d * size <= -size
  {
  }

  lemma OneBlock(n: nat, size: nat)
    requires n > 0 && Whole(n, size)
    ensures n >= size && Whole(n - size, size)
  {
    if n < size {
      ModUnique(n, 0, n, size);
    }
    var q := n / size;
    assert n == q * size;
    ModUnique(n - size, q - 1, 0, size);
  }

  lemma WholeAdd(a: nat, b: nat, size: nat)
    requires Whole(a, size)
    ensures Whole(a + b, size) <==> Whole(b, size)
  {
    assert a == (a / size) * size && b == (b / size) * size + b % size;
    assert a + b == (a / size + b / size) * size + b % size;
    ModUnique(a + b, a / size + b / size, b % size, size);
  }

  lemma WholeShort(n: nat, size: nat)
    requires 0 < n < 2 * size
    ensures Whole(n, size) <==> n == size
  {
    ModUnique(n, if n < size then 0 else 1, if n < size then n else n - size, size);
  }

  // ---- One-shot CBC ----

  /** One block: P(j) = D(C(j)) xor C(j-1), with C(0) the initialisation vector. */
  function Plain(cipher: Cipher, iv: bytes, ct: bytes): (pt: bytes)
    requires cipher.Valid() && |iv| == cipher.size == |ct|
    ensures |pt| == cipher.size
  {
    Xor(cipher.decrypt(ct), iv)
  }

  /** A ciphertext of whole blocks, each chained to the one before. */
  function Decrypt(cipher: Cipher, iv: bytes, ct: bytes): (pt: bytes)
    requires cipher.Valid() && |iv| == cipher.size && Whole(|ct|, cipher.size)
    ensures |pt| == |ct|
    decreases |ct|
  {
    if ct == [] then []
    else
      OneBlock(|ct|, cipher.size);
      var b := ct[..cipher.size];
      Plain(cipher, iv, b) + Decrypt(cipher, b, ct[cipher.size..])
  }

  /** C(j) = E(P(j) xor C(j-1)). */
  function Sealed(cipher: Cipher, iv: bytes, pt: bytes): (ct: bytes)
    requires cipher.Valid() && cipher.Inverts() && |iv| == cipher.size == |pt|
    ensures |ct| == cipher.size
  {
    cipher.encrypt(Xor(pt, iv))
  }

  function Encrypt(cipher: Cipher, iv: bytes, pt: bytes): (ct: bytes)
    requires cipher.Valid() && cipher.Inverts() && |iv| == cipher.size && Whole(|pt|, cipher.size)
    ensures |ct| == |pt|
    decreases |pt|
  {
    if pt == [] then []
    else
      OneBlock(|pt|, cipher.size);
      var b := Sealed(cipher, iv, pt[..cipher.size]);
      b + Encrypt(cipher, b, pt[cipher.size..])
  }

  /** Padding fills the last block with its own length, a whole block when there is nothing to fill. */
  function Pad(pt: bytes, size: nat): (padded: bytes)
    requires 0 < size < 256
    ensures Whole(|padded|, size) && |padded| > 0
  {
    var n := size - |pt| % size;
    PadLength(|pt|, size);
    pt + seq(n, _ => n)
  }

  lemma PadLength(n: nat, size: nat)
    requires size > 0
    ensures Whole(n + (size - n % size), size)
  {
    ModUnique(n + (size - n % size), n / size + 1, 0, size);
  }

  /** The length of a block without its padding. */
  function Unpad(block: bytes): (r: Result<nat, CryptoError>)
    ensures r.Ok? ==> r.value < |block|
  {
    if block == [] then Err(BadPadding)
    else
      var last: int := block[|block| - 1];
      if last == 0 || last > |block| then Err(BadPadding)
      else if exists i | |block| - last <= i < |block| :: block[i] != last then Err(BadPadding)
      else Ok(|block| - last)
  }

  /** Unpadding a block inverts padding it, and nothing else is accepted. */
  lemma UnpadExact(block: bytes, n: nat)
    requires 0 < |block| < 256
    ensures Unpad(block) == Ok(n) <==> n < |block| && block == Pad(block[..n], |block|)
  {
    if n < |block| {
      var size := |block|;
      assert n % size == n by { ModUnique(n, 0, n, size); }
      var padded := Pad(block[..n], size);
      assert |padded| == size && forall i | n <= i < size :: padded[i] == size - n;
      assert padded[size - 1] == size - n;
      if Unpad(block) == Ok(n) {
        forall i | 0 <= i < size ensures block[i] == padded[i] {
        }
      }
    }
  }

  /** Decryption of a whole ciphertext at once. */
  function OneShot(cipher: Cipher, iv: bytes, ct: bytes): Result<bytes, CryptoError>
    requires cipher.Valid() && |iv| == cipher.size
  {
    if ct == [] then Ok([])
    else if !Whole(|ct|, cipher.size) then Err(InvalidInputLength)
    else
      OneBlock(|ct|, cipher.size);
      var pt := Decrypt(cipher, iv, ct);
      var last := |pt| - cipher.size;
      match Unpad(pt[last..])
      case Err(e) => Err(e)
      case Ok(n) => Ok(pt[..last + n])
  }

  lemma PlainInverts(cipher: Cipher, iv: bytes, b: bytes)
    requires cipher.Valid() && cipher.Inverts() && |iv| == cipher.size == |b|
    ensures Plain(cipher, iv, Sealed(cipher, iv, b)) == b
  {
    XorCancels(b, iv);
  }

  lemma {:induction false} DecryptInvertsEncrypt(cipher: Cipher, iv: bytes, pt: bytes)
    requires cipher.Valid() && cipher.Inverts() && |iv| == cipher.size && Whole(|pt|, cipher.size)
    ensures Decrypt(cipher, iv, Encrypt(cipher, iv, pt)) == pt
    decreases |pt|
  {
    hide Whole, Plain, Sealed, Cipher.Valid, Cipher.Inverts;
    if pt != [] {
      OneBlock(|pt|, cipher.size);
      var head, tail := pt[..cipher.size], pt[cipher.size..];
      var b := Sealed(cipher, iv, head);
      var ct := Encrypt(cipher, iv, pt);
      assert ct[..cipher.size] == b && ct[cipher.size..] == Encrypt(cipher, b, tail);
      PlainInverts(cipher, iv, head);
      DecryptInvertsEncrypt(cipher, b, tail);
      assert head + tail == pt;
    }
  }

  /** Any plaintext that was padded and encrypted is recovered. */
  lemma Recovers(cipher: Cipher, iv: bytes, pt: bytes)
    requires cipher.Valid() && cipher.Inverts() && |iv| == cipher.size < 256
    ensures OneShot(cipher, iv, Encrypt(cipher, iv, Pad(pt, cipher.size))) == Ok(pt)
  {
    hide Decrypt, Encrypt, Whole, Unpad, Pad, Cipher.Inverts;
    var padded := Pad(pt, cipher.size);
    DecryptInvertsEncrypt(cipher, iv, padded);
    PadUnpads(pt, cipher.size);
  }

  lemma PadUnpads(pt: bytes, size: nat)
    requires 0 < size < 256
    ensures var padded := Pad(pt, size);
            var last := |padded| - size;
            && 0 <= last <= |pt| < |padded| && Unpad(padded[last..]) == Ok(|pt| - last) && padded[..|pt|] == pt
  {
    hide Unpad, Whole, Pad;
    var padded := Pad(pt, size);
    var last := PadTail(pt, size);
    assert padded[last..][..|pt| - last] == pt[last..];
    UnpadExact(padded[last..], |pt| - last);
  }

  /** The last block of a padded text is its own incomplete block, padded. */
  lemma PadTail(pt: bytes, size: nat) returns (last: nat)
    requires 0 < size < 256
    ensures last <= |pt| < last + size == |Pad(pt, size)|
    ensures Pad(pt, size)[last..] == Pad(pt[last..], size) && Pad(pt, size)[..|pt|] == pt
  {
    var r := |pt| % size;
    last := |pt| - r;
    ModUnique(r, 0, r, size);
    assert pt == pt[..last] + pt[last..];
    Assoc(pt[..last], pt[last..], seq(size - r, _ => size - r));
  }

  // ---- Streaming ----

  /** The block the next one is chained to: the last block of what has been decrypted, or the initialisation vector. */
  function Chain(cipher: Cipher, iv: bytes, done: bytes): (b: bytes)
    requires cipher.Valid() && |iv| == cipher.size && Whole(|done|, cipher.size)
    ensures |b| == cipher.size
  {
    if done == [] then iv else OneBlock(|done|, cipher.size); done[|done| - cipher.size..]
  }

  /** Decrypting in two parts chains the second to the first. */
  lemma {:induction false} DecryptAppend(cipher: Cipher, iv: bytes, a: bytes, b: bytes)
    requires cipher.Valid() && |iv| == cipher.size && Whole(|a|, cipher.size) && Whole(|b|, cipher.size)
    ensures Whole(|a + b|, cipher.size)
    ensures Decrypt(cipher, iv, a + b) == Decrypt(cipher, iv, a) + Decrypt(cipher, Chain(cipher, iv, a), b)
    decreases |a|
  {
    hide Whole, Plain;
    WholeAdd(|a|, |b|, cipher.size);
    if a == [] {
      assert a + b == b;
    } else {
      OneBlock(|a|, cipher.size);
      var head, tail := a[..cipher.size], a[cipher.size..];
      assert (a + b)[..cipher.size] == head && (a + b)[cipher.size..] == tail + b;
      DecryptAppend(cipher, head, tail, b);
      assert Chain(cipher, head, tail) == Chain(cipher, iv, a);
      Assoc(Plain(cipher, iv, head), Decrypt(cipher, head, tail), Decrypt(cipher, Chain(cipher, iv, a), b));
    }
  }

  lemma DecryptOne(cipher: Cipher, iv: bytes, b: bytes)
    requires cipher.Valid() && |iv| == cipher.size == |b|
    ensures Whole(|b|, cipher.size) && Decrypt(cipher, iv, b) == Plain(cipher, iv, b)
  {
    hide Whole;
    WholeShort(cipher.size, cipher.size);
    assert b[..cipher.size] == b && b[cipher.size..] == [];
  }

  /** Where a stream stands: whole blocks decrypted, and the bytes still held back. */
  ghost predicate Streaming(cipher: Cipher, iv0: bytes, done: bytes, iv: bytes, held: bytes, given: bytes)
  {
    && cipher.Valid() && |iv0| == cipher.size && Whole(|done|, cipher.size)
    && iv == Chain(cipher, iv0, done) && given == Decrypt(cipher, iv0, done)
    && (done != [] ==> |held| >= cipher.size)
  }

  /** One more block decrypted. */
  lemma StreamingNext(cipher: Cipher, iv0: bytes, done: bytes, iv: bytes, held: bytes, given: bytes)
    requires Streaming(cipher, iv0, done, iv, held, given) && |held| >= 2 * cipher.size
    ensures var b := held[..cipher.size];
            Streaming(cipher, iv0, done + b, b, held[cipher.size..], given + Plain(cipher, iv, b))
  {
    hide Whole, Plain, Decrypt;
    var b := held[..cipher.size];
    DecryptOne(cipher, iv, b);
    DecryptAppend(cipher, iv0, done, b);
    assert (done + b)[|done + b| - cipher.size..] == b;
  }

  /** What is held back at the end decides the result as the whole ciphertext does. */
  lemma StreamingEnd(cipher: Cipher, iv0: bytes, done: bytes, iv: bytes, held: bytes, given: bytes)
    requires Streaming(cipher, iv0, done, iv, held, given) && |held| < 2 * cipher.size
    ensures held == [] ==> OneShot(cipher, iv0, done + held) == Ok(given)
    ensures held != [] && |held| != cipher.size ==> OneShot(cipher, iv0, done + held) == Err(InvalidInputLength)
    ensures |held| == cipher.size ==>
              OneShot(cipher, iv0, done + held) ==
              var block := Plain(cipher, iv, held);
              match Unpad(block) { case Err(e) => Err(e) case Ok(n) => Ok(given + block[..n]) }
  {
    hide Whole, Plain, Unpad, Decrypt;
    WholeAdd(|done|, |held|, cipher.size);
    if held == [] {
      assert done + held == [];
    } else if |held| == cipher.size {
      DecryptOne(cipher, iv, held);
      DecryptAppend(cipher, iv0, done, held);
      var pt, block := Decrypt(cipher, iv0, done + held), Plain(cipher, iv, held);
      assert pt == given + block && pt[|given|..] == block;
      if Unpad(block).Ok? {
        assert pt[..|given| + Unpad(block).value] == given + block[..Unpad(block).value];
      }
    } else {
      WholeShort(|held|, cipher.size);
    }
  }

  class CbcTransform {
    const cipher: Cipher
    ghost const iv0: bytes

    var iv: bytes
    var buf: bytes
    var out: bytes
    var finalized: bool

    /** The ciphertext decrypted and the plaintext given out so far. */
    ghost var done: bytes
    ghost var given: bytes

    ghost predicate Valid()
      reads this
    {
      |buf| < 2 * cipher.size && Streaming(cipher, iv0, done, iv, buf, given)
    }

    /** The ciphertext received so far. */
    ghost function Fed(): bytes
      reads this`done, this`buf
    {
      done + buf
    }

    constructor (cipher: Cipher, iv: bytes)
      requires cipher.Valid() && |iv| == cipher.size
      ensures Valid() && this.cipher == cipher && iv0 == iv && Fed() == [] && given == [] && !finalized
    {
      this.cipher, this.iv, buf, out, finalized := cipher, iv, [], [], false;
      iv0, done, given := iv, [], [];
    }

    method ProcessBlock(ct: bytes)
      requires cipher.Valid() && |ct| == cipher.size == |iv|
      modifies this`iv, this`out
      ensures iv == ct && out == old(out) + Plain(cipher, old(iv), ct)
    {
      var prev := iv;
      iv := ct;
      var pt := cipher.decrypt(ct);
      var plain := [];
      for i := 0 to |pt|
        invariant plain == Xor(pt, prev)[..i]
      {
        plain := plain + [XorByte(pt[i], prev[i])];
      }
      assert Xor(pt, prev)[..|pt|] == Xor(pt, prev);
      out := out + plain;
    }

    /** Everything but the last full block, which may hold the padding, is decrypted. */
    method Update(data: bytes) returns (r: Result<bytes, CryptoError>)
      requires Valid()
      modifies this
      ensures Valid() && finalized == old(finalized)
      ensures finalized ==> r == Err(AlreadyFinalized) && unchanged(this)
      ensures !finalized ==> r.Ok? && given == old(given) + r.value && Fed() == old(Fed()) + data
    {
      hide Streaming, Whole, OneShot, Unpad, Cipher.Valid, Plain;
      if finalized {
        return Err(AlreadyFinalized);
      }
      out := [];
      buf := buf + data;
      Assoc(old(done), old(buf), data);
      StreamingHolds(cipher, iv0, done, iv, old(buf), data, given);
      var consumed := 0;
      assert buf[0..] == buf;
      while |buf| - consumed >= cipher.size * 2
        invariant consumed <= |buf| && buf == old(buf) + data && finalized == old(finalized)
        invariant Streaming(cipher, iv0, done, iv, buf[consumed..], given)
        invariant given == old(given) + out && done + buf[consumed..] == old(Fed()) + data
        invariant cipher.size > 0 && (consumed == 0 ==> done == old(done))
        decreases |buf| - consumed
      {
        var ct := buf[consumed..consumed + cipher.size];
        StreamingSizes(cipher, iv0, done, iv, buf[consumed..], given);
        ghost var block := Plain(cipher, iv, ct);
        StreamingNext(cipher, iv0, done, iv, buf[consumed..], given);
        SliceOf(buf, consumed, cipher.size);
        Assoc(done, ct, buf[consumed + cipher.size..]);
        Assoc(old(given), out, block);
        ProcessBlock(ct);
        done := done + ct;
        given := given + block;
        consumed := consumed + cipher.size;
      }
      if consumed > 0 {
        buf := buf[consumed..];
      }
      return Ok(out);
    }

    /** Checks what is held back and gives the end of the plaintext, or the error of the whole ciphertext. */
    method Finalize() returns (r: Result<bytes, CryptoError>)
      requires Valid()
      modifies this
      ensures finalized
      ensures old(finalized) ==> r == Err(AlreadyFinalized) && unchanged(this)
      ensures !old(finalized) ==>
                OneShot(cipher, iv0, old(Fed())) ==
                match r { case Err(e) => Err(e) case Ok(last) => Ok(old(given) + last) }
      ensures Fed() == old(Fed())
    {
      hide Streaming, Whole, OneShot, Unpad;
      if finalized {
        return Err(AlreadyFinalized);
      }
      finalized := true;
      out := [];
      StreamingSizes(cipher, iv0, done, iv, buf, given);
      StreamingEnd(cipher, iv0, done, iv, buf, given);
      if buf == [] {
        assert given + out == given;
        return Ok(out);
      }
      if |buf| != cipher.size {
        return Err(InvalidInputLength);
      }
      ghost var was := iv;
      ProcessBlock(buf);
      var pt := out;
      out := [];
      assert pt == Plain(cipher, was, buf);
      match Unpad(pt) {
        case Err(e) => return Err(e);
        case Ok(n) =>
          out := pt[..n];
          return Ok(out);
      }
    }
  }

  method NewTransform(cipher: Cipher, iv: bytes) returns (r: Result<CbcTransform, CryptoError>)
    requires cipher.Valid()
    ensures |iv| != cipher.size ==> r == Err(InvalidIvLength(cipher.size, |iv|))
    ensures |iv| == cipher.size ==>
              && r.Ok? && fresh(r.value) && r.value.Valid() && r.value.cipher == cipher && r.value.iv0 == iv
              && r.value.Fed() == [] && r.value.given == [] && !r.value.finalized
  {
    if |iv| != cipher.size {
      return Err(InvalidIvLength(cipher.size, |iv|));
    }
    var cbc := new CbcTransform(cipher, iv);
    return Ok(cbc);
  }

  lemma StreamingHolds(cipher: Cipher, iv0: bytes, done: bytes, iv: bytes, held: bytes, data: bytes, given: bytes)
    requires Streaming(cipher, iv0, done, iv, held, given)
    ensures Streaming(cipher, iv0, done, iv, held + data, given) && cipher.size > 0
  {
  }

  lemma StreamingSizes(cipher: Cipher, iv0: bytes, done: bytes, iv: bytes, held: bytes, given: bytes)
    requires Streaming(cipher, iv0, done, iv, held, given)
    ensures cipher.Valid() && |iv| == cipher.size == |iv0|
  {
  }

  lemma SliceOf(s: bytes, i: nat, n: nat)
    requires i + n <= |s|
    ensures s[i..][..n] == s[i..i + n] && s[i..][n..] == s[i + n..] && s[i..] == s[i..i + n] + s[i + n..]
  {
  }

  /** Any chunking of a ciphertext decrypts as the whole does: the same plaintext, or the same error. */
  method DecryptChunks(cipher: Cipher, iv: bytes, chunks: seq<bytes>) returns (r: Result<bytes, CryptoError>)
    requires cipher.Valid()
    ensures r == if |iv| != cipher.size then Err(InvalidIvLength(cipher.size, |iv|))
            else OneShot(cipher, iv, Concat(chunks))
  {
    hide Streaming, OneShot, Cipher.Valid, Whole;
    var made := NewTransform(cipher, iv);
    if made.Err? {
      return Err(made.error);
    }
    var cbc := made.value;
    var plain := [];
    var i := 0;
    while i < |chunks|
      invariant i <= |chunks| && cbc.Valid() && !cbc.finalized && cbc.cipher == cipher && cbc.iv0 == iv
      invariant cbc.Fed() == Concat(chunks[..i]) && cbc.given == plain
    {
      var part := cbc.Update(chunks[i]);
      plain := plain + part.value;
      assert chunks[..i + 1] == chunks[..i] + [chunks[i]];
      ConcatSnoc(chunks[..i], chunks[i]);
      i := i + 1;
    }
    assert chunks[..|chunks|] == chunks;
    var last := cbc.Finalize();
    return match last { case Err(e) => Err(e) case Ok(end) => Ok(plain + end) };
  }
}

/** The bit cursor: big-endian bit reads and Exp-Golomb codes (H.264 sections 9.1 and 9.1.1). */
module BitCursor {
  import opened Bytes

  type bit = b: nat | b < 2

  datatype BitError = EndOfStream | InvalidBits | Overflow

  /** The number a bit string denotes, most significant bit first. */
  function Value(bits: seq<bit>): (v: nat)
    ensures v < Pow2(|bits|)
  {
    if bits == [] then 0 else 2 * Value(bits[..|bits| - 1]) + bits[|bits| - 1]
  }

  /** `v << n`, in unbounded arithmetic. */
  function Shl(v: nat, n: nat): nat
  {
    v * Pow2(n)
  }

  /** A right shift. */
  function Shr(n: nat, k: nat): nat
  {
    if k == 0 then n else Shr(n, k - 1) / 2
  }

  /** The low `k` bits. */
  function Low(n: nat, k: nat): (v: nat)
    ensures v < Pow2(k)
  {
    if k == 0 then 0 else 2 * Low(n / 2, k - 1) + n % 2
  }

  function ByteBits(b: byte): (bits: seq<bit>)
    ensures |bits| == 8
  {
    seq(8, i requires 0 <= i < 8 => Shr(b, 7 - i) % 2)
  }

  /** The bits of a buffer in reading order. */
  function Bits(buf: bytes): (bits: seq<bit>)
    ensures |bits| == 8 * |buf|
  {
    if buf == [] then [] else Bits(buf[..|buf| - 1]) + ByteBits(buf[|buf| - 1])
  }

  lemma {:induction false} BitsOfByte(buf: bytes, pos: nat)
    requires pos < |buf|
    ensures Bits(buf)[8 * pos..8 * pos + 8] == ByteBits(buf[pos])
    decreases |buf|
  {
    var n := |buf| - 1;
    if pos < n {
      BitsOfByte(buf[..n], pos);
      assert Bits(buf)[8 * pos..8 * pos + 8] == Bits(buf[..n])[8 * pos..8 * pos + 8];
    }
  }

  lemma {:induction false} ValueAppend(a: seq<bit>, b: seq<bit>)
    ensures Value(a + b) == Value(a) * Pow2(|b|) + Value(b)
    decreases |b|
  {
    if b == [] {
      assert a + b == a;
    } else {
      var n := |b| - 1;
      ValueStep(a, b);
      PowerStep(|b|);
      ValueAppend(a, b[..n]);
      hide Value, Pow2;
      Doubled(Value(a), Pow2(n), Value(b[..n]));
    }
  }

  lemma ValueStep(a: seq<bit>, b: seq<bit>)
    requires b != []
    ensures Value(a + b) == 2 * Value(a + b[..|b| - 1]) + b[|b| - 1] && Value(b) == 2 * Value(b[..|b| - 1]) + b[|b| - 1]
  {
    assert (a + b)[..|a + b| - 1] == a + b[..|b| - 1];
  }

  lemma PowerStep(n: nat)
    requires n > 0
    ensures Pow2(n) == 2 * Pow2(n - 1)
  {
  }

  lemma Doubled(a: nat, p: nat, c: nat)
    ensures 2 * (a * p + c) == a * (2 * p) + 2 * c
  {
  }

  /** Shifting and masking a byte reads the bits in between. */
  lemma {:induction false} ByteField(b: byte, i: nat, j: nat)
    requires i <= j <= 8
    ensures Low(Shr(b, 8 - j), j - i) == Value(ByteBits(b)[i..j])
    decreases j
  {
    if j == i {
      assert ByteBits(b)[i..j] == [];
    } else {
      var bits := ByteBits(b);
      ByteField(b, i, j - 1);
      assert bits[i..j][..j - 1 - i] == bits[i..j - 1];
    }
  }

  // ---- Exp-Golomb codes ----

  /** The bits of a number in a given width. */
  function Binary(n: nat, width: nat): (bits: seq<bit>)
    ensures |bits| == width
  {
    if width == 0 then [] else Binary(n / 2, width - 1) + [n % 2]
  }

  lemma {:induction false} BinaryValue(n: nat, width: nat)
    requires n < Pow2(width)
    ensures Value(Binary(n, width)) == n
    decreases width
  {
    if width > 0 {
      BinaryValue(n / 2, width - 1);
      assert Binary(n, width)[..width - 1] == Binary(n / 2, width - 1);
    }
  }

  lemma {:induction false} ValueBinary(bits: seq<bit>)
    ensures Binary(Value(bits), |bits|) == bits
    decreases |bits|
  {
    if bits != [] {
      var n := |bits| - 1;
      ValueBinary(bits[..n]);
      assert Value(bits) / 2 == Value(bits[..n]) && Value(bits) % 2 == bits[n];
    }
  }

  function Log2(n: nat): (z: nat)
    requires n > 0
    ensures Pow2(z) <= n < Pow2(z + 1)
  {
    if n == 1 then 0 else 1 + Log2(n / 2)
  }

  function ZeroBits(n: nat): (z: seq<bit>)
    ensures |z| == n && forall i | 0 <= i < n :: z[i] == 0
  {
    seq(n, _ => 0)
  }

  /** The code of section 9.1: as many zeros as the suffix has bits, a one, and the suffix. */
  function Ue(v: nat): seq<bit>
  {
    UeWith(Binary(v + 1 - Pow2(Log2(v + 1)), Log2(v + 1)))
  }

  function UeWith(suffix: seq<bit>): (bits: seq<bit>)
    ensures |bits| == 2 * |suffix| + 1
  {
    ZeroBits(|suffix|) + ([1] + suffix)
  }

  /** The mapping of section 9.1.1: positive values get the odd codes. */
  function SeCode(k: int): nat
  {
    if k > 0 then 2 * k - 1 else -2 * k
  }

  /** What reading a code at `at`, `zeros` zeros into it, gives, and where it ends. */
  function UeAt(bits: seq<bit>, at: nat, zeros: nat): (Result<u64, BitError>, nat)
    requires at <= |bits| && zeros <= 63
    decreases |bits| - at
  {
    if at == |bits| then (Err(EndOfStream), at)
    else if bits[at] == 1 then
      if |bits| - (at + 1) < zeros then (Err(EndOfStream), at + 1)
      else
        CodeBounded(bits[at + 1..at + 1 + zeros]);
        (Ok(Pow2(zeros) - 1 + Value(bits[at + 1..at + 1 + zeros])), at + 1 + zeros)
    else if zeros + 1 > 63 then (Err(InvalidBits), at + 1)
    else UeAt(bits, at + 1, zeros + 1)
  }

  lemma {:induction false} Pow2Grows(a: nat, b: nat)
    requires a <= b
    ensures Pow2(a) <= Pow2(b)
    decreases b
  {
    if a < b {
      Pow2Grows(a, b - 1);
    }
  }

  lemma Pow2At64()
    ensures Pow2(63) == 0x8000_0000_0000_0000 && Pow2(64) == U64_MAX + 1
  {
    assert Pow2(8) == 256;
    assert Pow2(16) == 65536;
    assert Pow2(24) == 0x100_0000;
    assert Pow2(32) == 0x1_0000_0000;
    assert Pow2(40) == 0x100_0000_0000;
    assert Pow2(48) == 0x1_0000_0000_0000;
    assert Pow2(56) == 0x100_0000_0000_0000;
    assert Pow2(62) == 0x4000_0000_0000_0000;
  }

  /** A code that is read fits 64 bits with one to spare. */
  lemma CodeBounded(suffix: seq<bit>)
    requires |suffix| <= 63
    ensures 0 <= Pow2(|suffix|) - 1 + Value(suffix) < U64_MAX
  {
    Pow2Grows(|suffix|, 63);
    Pow2At64();
  }

  lemma {:induction false} UeSkips(bits: seq<bit>, at: nat, zeros: nat, more: nat)
    requires at + more <= |bits| && zeros + more <= 63 && forall i | at <= i < at + more :: bits[i] == 0
    ensures UeAt(bits, at, zeros) == UeAt(bits, at + more, zeros + more)
    decreases more
  {
    if more > 0 {
      UeSkips(bits, at + 1, zeros + 1, more - 1);
    }
  }

  lemma LogBounded(v: nat)
    requires v < U64_MAX
    ensures Log2(v + 1) <= 63
  {
    Pow2At64();
    hide Pow2;
    if Log2(v + 1) > 63 {
      Pow2Grows(64, Log2(v + 1));
    }
  }

  lemma UeReads(bits: seq<bit>, at: nat, suffix: seq<bit>)
    requires |suffix| <= 63 && at + 1 + |suffix| <= |bits|
    requires bits[at] == 1 && bits[at + 1..at + 1 + |suffix|] == suffix
    ensures UeAt(bits, at, |suffix|).0 == Ok(Pow2(|suffix|) - 1 + Value(suffix))
            && UeAt(bits, at, |suffix|).1 == at + 1 + |suffix|
  {
    hide Pow2, Value;
  }

  lemma Layout(before: seq<bit>, zeros: seq<bit>, suffix: seq<bit>, after: seq<bit>)
    requires zeros == ZeroBits(|suffix|)
    ensures var bits, at := before + (UeWith(suffix) + after), |before| + |zeros|;
            && |bits| >= at + 1 + |suffix| && bits[|before|..at] == zeros
            && bits[at] == 1 && bits[at + 1..at + 1 + |suffix|] == suffix
  {
  }

  lemma UeReadsWith(before: seq<bit>, suffix: seq<bit>, after: seq<bit>)
    requires |suffix| <= 63
    ensures UeAt(before + (UeWith(suffix) + after), |before|, 0).0 == Ok(Pow2(|suffix|) - 1 + Value(suffix))
    ensures UeAt(before + (UeWith(suffix) + after), |before|, 0).1 == |before| + |UeWith(suffix)|
  {
    hide Pow2, Value, UeAt, UeWith;
    var z := |suffix|;
    var bits := before + (UeWith(suffix) + after);
    Layout(before, ZeroBits(z), suffix, after);
    assert forall i | |before| <= i < |before| + z :: bits[i] == bits[|before|..|before| + z][i - |before|];
    UeSkips(bits, |before|, 0, z);
    UeReads(bits, |before| + z, suffix);
  }

  /** Reading inverts the code of every value below 2^64 - 1, wherever it stands and whatever follows. */
  lemma UeInverts(before: seq<bit>, v: nat, after: seq<bit>)
    requires v < U64_MAX
    ensures UeAt(before + (Ue(v) + after), |before|, 0) == (Ok(v), |before| + |Ue(v)|)
  {
    hide Pow2, Value, UeAt, UeWith, Log2, Binary;
    var z := Log2(v + 1);
    SuffixFits(v);
    LogBounded(v);
    var suffix := Binary(v + 1 - Pow2(z), z);
    assert Ue(v) == UeWith(suffix);
    BinaryValue(v + 1 - Pow2(z), z);
    UeReadsWith(before, suffix, after);
  }

  lemma SuffixFits(v: nat)
    ensures 0 <= v + 1 - Pow2(Log2(v + 1)) < Pow2(Log2(v + 1))
  {
    PowerStep(Log2(v + 1) + 1);
  }

  /** Whatever is read is the code of what was read. */
  lemma {:induction false} UeOnly(bits: seq<bit>, at: nat, zeros: nat)
    requires at <= |bits| && zeros <= 63
    ensures var (r, next) := UeAt(bits, at, zeros);
            && at <= next <= |bits|
            && (r.Ok? ==> r.value < U64_MAX && ZeroBits(zeros) + bits[at..next] == Ue(r.value))
    decreases |bits| - at
  {
    hide Pow2, Log2, Binary, Value, Ue;
    if at < |bits| && bits[at] == 1 {
      if |bits| - (at + 1) >= zeros {
        UeOfSuffix(bits[at + 1..at + 1 + zeros]);
        assert bits[at..at + 1 + zeros] == [1] + bits[at + 1..at + 1 + zeros];
      }
    } else if at < |bits| && zeros + 1 <= 63 {
      UeOnly(bits, at + 1, zeros + 1);
      var next := UeAt(bits, at + 1, zeros + 1).1;
      assert bits[at..next] == [0] + bits[at + 1..next];
      assert ZeroBits(zeros) + ([0] + bits[at + 1..next]) == ZeroBits(zeros + 1) + bits[at + 1..next];
    }
  }

  lemma UeOfSuffix(suffix: seq<bit>)
    requires |suffix| <= 63
    ensures var v := Pow2(|suffix|) - 1 + Value(suffix);
            0 <= v < U64_MAX && Ue(v) == UeWith(suffix)
  {
    hide Pow2, Value, Log2, Binary, UeWith, Ue;
    var z, v := |suffix|, Pow2(|suffix|) - 1 + Value(suffix);
    CodeBounded(suffix);
    PowerStep(z + 1);
    ValueBinary(suffix);
    Log2Unique(v + 1, z);
    UeIs(v, z);
  }

  lemma UeIs(v: nat, z: nat)
    requires Log2(v + 1) == z && Pow2(z) <= v + 1
    ensures Ue(v) == UeWith(Binary(v + 1 - Pow2(z), z))
  {
    hide Pow2, Log2, Binary, UeWith;
  }

  lemma Log2Unique(n: nat, z: nat)
    requires n > 0 && Pow2(z) <= n < Pow2(z + 1)
    ensures Log2(n) == z
  {
    var l := Log2(n);
    if l < z {
      Pow2Grows(l + 1, z);
    } else if l > z {
      Pow2Grows(z + 1, l);
    }
  }

  /** The signed value of a code, and back. */
  function Signed(code: nat): int
  {
    var half := (code + 1) / 2;
    if code % 2 == 0 then -half else half
  }

  lemma SignedInverts(k: int)
    ensures Signed(SeCode(k)) == k
  {
  }

  lemma SignedOnly(code: nat)
    ensures SeCode(Signed(code)) == code
    ensures code < U64_MAX ==> -I64_MAX <= Signed(code) <= I64_MAX
  {
  }

  /** A signed code reads back as the value it was made from, within the 64-bit range. */
  lemma SeInverts(before: seq<bit>, k: int, after: seq<bit>)
    requires -I64_MAX <= k <= I64_MAX
    ensures var (code, next) := UeAt(before + (Ue(SeCode(k)) + after), |before|, 0);
            code.Ok? && Signed(code.value) == k && next == |before| + |Ue(SeCode(k))|
  {
    hide Ue, UeAt;
    UeInverts(before, SeCode(k), after);
    SignedInverts(k);
  }

  // ---- The cursor ----

  lemma ValueFits(bits: seq<bit>)
    requires |bits| <= 64
    ensures Value(bits) <= U64_MAX
  {
    Pow2Grows(|bits|, 64);
    Pow2At64();
  }

  /** Bits taken from one byte are the next bits of the buffer. */
  lemma TakeStep(buf: bytes, pos: nat, offset: nat, take: nat)
    requires pos < |buf| && offset + take <= 8
    ensures Low(Shr(buf[pos], 8 - offset - take), take) == Value(Bits(buf)[8 * pos + offset..8 * pos + offset + take])
  {
    hide Value, Low, Shr, ByteBits, Bits, Pow2;
    BitsOfByte(buf, pos);
    ByteField(buf[pos], offset, offset + take);
    SliceOfSlice(Bits(buf), 8 * pos, 8 * pos + 8, offset, offset + take);
  }

  /** Shifting in the bits just taken. */
  lemma ShiftIn(bits: seq<bit>, start: nat, mid: nat, end: nat)
    requires start <= mid <= end <= |bits|
    ensures Value(bits[start..end]) == Value(bits[start..mid]) * Pow2(end - mid) + Value(bits[mid..end])
  {
    ValueAppend(bits[start..mid], bits[mid..end]);
    assert bits[start..mid] + bits[mid..end] == bits[start..end];
  }

  /** The number read so far, with the next bits of one byte shifted in. */
  lemma TakeNext(buf: bytes, start: nat, pos: nat, offset: nat, take: nat)
    requires pos < |buf| && offset + take <= 8 && start <= 8 * pos + offset
    ensures var bits, at := Bits(buf), 8 * pos + offset;
            Value(bits[start..at + take]) ==
            Shl(Value(bits[start..at]), take) + Low(Shr(buf[pos], 8 - offset - take), take)
  {
    hide Value, Low, Shr, Bits, Pow2;
    TakeStep(buf, pos, offset, take);
    ShiftIn(Bits(buf), start, 8 * pos + offset, 8 * pos + offset + take);
  }

  class BitCursor {
    const buf: bytes
    var pos: nat
    var bitPos: nat

    ghost predicate Valid()
      reads this
    {
      pos <= |buf| && bitPos < 8 && (pos == |buf| ==> bitPos == 0)
    }

    /** The number of bits read. */
    ghost function At(): nat
      reads this
    {
      8 * pos + bitPos
    }

    constructor (buf: bytes)
      ensures Valid() && this.buf == buf && At() == 0
    {
      this.buf := buf;
      pos, bitPos := 0, 0;
    }

    function RemainingBits(): (n: nat)
      requires Valid()
      reads this
      ensures n == 8 * |buf| - At()
    {
      if pos >= |buf| then 0
      else
        var bitsInCurrent := 8 - bitPos;
        var remainingBytes := |buf| - pos - 1;
        bitsInCurrent + remainingBytes * 8
    }

    method SkipToByteAlignment() returns (skipped: nat)
      requires Valid()
      modifies this
      ensures Valid() && skipped < 8 && At() == old(At()) + skipped && At() % 8 == 0
    {
      skipped := if bitPos == 0 then 0 else 8 - bitPos;
      if bitPos != 0 {
        bitPos := 0;
        pos := pos + 1;
      }
    }

    /** Moves on inside the current byte, or to the next one. */
    method Advance(take: nat)
      requires Valid() && pos < |buf| && bitPos + take <= 8
      modifies this
      ensures Valid() && At() == old(At()) + take
    {
      bitPos := bitPos + take;
      if bitPos >= 8 {
        bitPos := 0;
        pos := pos + 1;
      }
    }

    /** The number the next `n` bits denote, across byte boundaries; nothing is read when it cannot be given. */
    method ReadBits(n: nat) returns (r: Result<u64, BitError>)
      requires Valid()
      modifies this
      ensures Valid()
      ensures n > 64 ==> r == Err(Overflow) && unchanged(this)
      ensures n <= 64 && old(At()) + n > 8 * |buf| ==> r == Err(EndOfStream) && unchanged(this)
      ensures n <= 64 && old(At()) + n <= 8 * |buf| ==>
                && At() == old(At()) + n && r == Ok(Value(Bits(buf)[old(At())..old(At()) + n]))
    {
      hide Value, Bits, Pow2, Low, Shl, Shr;
      ghost var bits, start := Bits(buf), At();
      if n == 0 {
        assert bits[start..start] == [];
        NoValue();
        return Ok(0);
      }
      if n > 64 {
        return Err(Overflow);
      }
      if RemainingBits() < n {
        return Err(EndOfStream);
      }
      var value := 0;
      var needed := n;
      assert bits[start..start] == [];
      NoValue();
      while needed > 0
        invariant Valid() && 0 <= needed <= n && At() + needed == start + n <= 8 * |buf|
        invariant value == Value(bits[start..At()])
      {
        var availableInByte := 8 - bitPos;
        var take := if needed < availableInByte then needed else availableInByte;
        var byte := buf[pos];
        var shift := availableInByte - take;
        var taken := Low(Shr(byte, shift), take);
        TakeNext(buf, start, pos, bitPos, take);
        value := Shl(value, take) + taken;
        Advance(take);
        needed := needed - take;
      }
      ValueFits(bits[start..start + n]);
      return Ok(value);
    }

    method ReadBool() returns (r: Result<bool, BitError>)
      requires Valid()
      modifies this
      ensures Valid()
      ensures old(At()) == 8 * |buf| ==> r == Err(EndOfStream) && unchanged(this)
      ensures old(At()) < 8 * |buf| ==> r == Ok(Bits(buf)[old(At())] == 1) && At() == old(At()) + 1
    {
      hide Bits;
      var v := ReadBits(1);
      if v.Err? {
        return Err(v.error);
      }
      OneBit(Bits(buf), old(At()));
      return Ok(v.value == 1);
    }

    /** An unsigned Exp-Golomb code; whatever happens, it is never reported as an overflow. */
    method ReadUe() returns (r: Result<u64, BitError>)
      requires Valid()
      modifies this
      ensures Valid() && r != Err(Overflow)
      ensures (r, At()) == UeAt(Bits(buf), old(At()), 0)
    {
      hide Bits, Value, Pow2;
      ghost var bits, start := Bits(buf), At();
      var leadingZeros := 0;
      var bit := ReadBool();
      while bit == Ok(false)
        invariant Valid() && leadingZeros <= 63 && start <= At() <= 8 * |buf|
        invariant bit.Err? ==>
                    bit == Err(EndOfStream) && At() == 8 * |buf|
                    && UeAt(bits, start, 0) == UeAt(bits, At(), leadingZeros)
        invariant bit.Ok? ==> 0 < At() && bits[At() - 1] == (if bit.value then 1 else 0)
                              && UeAt(bits, start, 0) == UeAt(bits, At() - 1, leadingZeros)
        decreases 8 * |buf| - At(), bit.Ok?
      {
        leadingZeros := leadingZeros + 1;
        if leadingZeros > 63 {
          return Err(InvalidBits);
        }
        bit := ReadBool();
      }
      if bit.Err? {
        return Err(bit.error);
      }
      var code := ReadBits(leadingZeros);
      if code.Err? {
        return Err(code.error);
      }
      return Ok(Pow2(leadingZeros) - 1 + code.value);
    }

    /** A signed Exp-Golomb code. */
    method ReadSe() returns (r: Result<int, BitError>)
      requires Valid()
      modifies this
      ensures Valid() && r != Err(Overflow)
      ensures var (code, next) := UeAt(Bits(buf), old(At()), 0);
              At() == next && r == match code { case Err(e) => Err(e) case Ok(v) => Ok(Signed(v)) }
    {
      hide Bits;
      UeOnly(Bits(buf), At(), 0);
      var code := ReadUe();
      if code.Err? {
        return Err(code.error);
      }
      var signed := (code.value + 1) / 2;
      SignedOnly(code.value);
      if signed > I64_MAX {
        return Err(Overflow);
      }
      return Ok(if code.value % 2 == 0 then -signed else signed);
    }
  }

  lemma NoValue()
    ensures Value([]) == 0
  {
  }

  lemma OneBit(bits: seq<bit>, at: nat)
    requires at < |bits|
    ensures Value(bits[at..at + 1]) == bits[at]
  {
    assert bits[at..at + 1][..0] == [];
  }

  /** Reading in two parts reads the whole. */
  lemma ReadsCompose(bits: seq<bit>, at: nat, m: nat, n: nat)
    requires at + m + n <= |bits|
    ensures Value(bits[at..at + m]) * Pow2(n) + Value(bits[at + m..at + m + n]) == Value(bits[at..at + m + n])
  {
    hide Value, Pow2;
    ShiftIn(bits, at, at + m, at + m + n);
  }
}

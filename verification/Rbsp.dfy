/** Emulation-prevention bytes: insertion (H.264 section 7.4.1) and the removal done by the bitstream crate. */
module Rbsp {
  import opened Bytes
  import StartCode

  predicate StartsWithProtector(data: bytes)
  {
    |data| > 2 && data[0] == 0 && data[1] == 0 && data[2] == 3
  }

  /** What removing emulation-prevention bytes yields; a 03 not followed by 00..03 is kept. */
  function Unescape(data: bytes): bytes
  {
    if data == [] then []
    else if StartsWithProtector(data) then
      (if |data| > 3 && data[3] <= 3 then [0, 0] else [0, 0, 3]) + Unescape(data[3..])
    else [data[0]] + Unescape(data[1..])
  }

  method UnescapeRbsp(data: bytes) returns (out: bytes)
    ensures out == Unescape(data)
  {
    out := [];
    var i := 0;
    assert data[0..] == data;
    while i < |data|
      invariant i <= |data|
      invariant out + Unescape(data[i..]) == Unescape(data)
      decreases |data| - i
    {
      ghost var rest, before := data[i..], out;
      if i + 2 < |data| && data[i] == 0 && data[i + 1] == 0 && data[i + 2] == 3 {
        assert rest[3..] == data[i + 3..];
        Assoc(before, if i + 3 < |data| && data[i + 3] <= 3 then [0, 0] else [0, 0, 3], Unescape(rest[3..]));
        if i + 3 < |data| && data[i + 3] <= 3 {
          out := out + [0, 0];
        } else {
          out := out + [0, 0, 3];
        }
        i := i + 3;
      } else {
        assert rest[1..] == data[i + 1..];
        Assoc(before, [data[i]], Unescape(rest[1..]));
        out := out + [data[i]];
        i := i + 1;
      }
    }
  }

  /** Emulation prevention when `zeros` zero bytes have just been written. */
  function Escape(data: bytes, zeros: nat): bytes
    requires zeros <= 2
  {
    if data == [] then []
    else if zeros == 2 && data[0] <= 3 then [3, data[0]] + Escape(data[1..], if data[0] == 0 then 1 else 0)
    else [data[0]] + Escape(data[1..], if data[0] == 0 then zeros + 1 else 0)
  }

  // The proofs below follow both directions byte by byte: zeros stay pending until the byte behind them is known.

  /** `zeros` pending zero bytes. */
  function Pending(zeros: nat): bytes
    requires zeros <= 2
  {
    if zeros == 0 then [] else if zeros == 1 then [0] else [0, 0]
  }

  /** How many zeros are pending once `b` is written. */
  function NextZeros(zeros: nat, b: byte): (n: nat)
    requires zeros <= 2
    ensures n <= 2
  {
    if b != 0 then 0 else if zeros == 2 then 1 else zeros + 1
  }

  /** The output settled when `b` follows the pending zeros. */
  function EscapeHead(zeros: nat, b: byte): bytes
    requires zeros <= 2
  {
    if b == 0 then (if zeros == 2 then [0, 0, 3] else [])
    else if zeros == 2 && b <= 3 then [0, 0, 3, b]
    else Pending(zeros) + [b]
  }

  /** The input that `EscapeHead` stands for. */
  function PlainHead(zeros: nat, b: byte): bytes
    requires zeros <= 2
  {
    if b == 0 then (if zeros == 2 then [0, 0] else []) else Pending(zeros) + [b]
  }

  lemma EscapeSplits(data: bytes, zeros: nat, end: bytes)
    requires zeros <= 2 && data != []
    ensures var next := NextZeros(zeros, data[0]);
            Pending(zeros) + (Escape(data, zeros) + end) ==
            EscapeHead(zeros, data[0]) + (Pending(next) + (Escape(data[1..], next) + end))
  {
    var escaped := Escape(data[1..], NextZeros(zeros, data[0]));
    EscapeFirst(data, zeros);
    hide *;
    Assoc(if zeros == 2 && data[0] <= 3 then [3, data[0]] else [data[0]], escaped, end);
    PendingSplits(zeros, data[0], escaped + end);
  }

  lemma EscapeFirst(data: bytes, zeros: nat)
    requires zeros <= 2 && data != []
    ensures Escape(data, zeros) ==
            (if zeros == 2 && data[0] <= 3 then [3, data[0]] else [data[0]])
            + Escape(data[1..], NextZeros(zeros, data[0]))
  {
  }

  lemma PendingSplits(zeros: nat, b: byte, rest: bytes)
    requires zeros <= 2
    ensures Pending(zeros) + ((if zeros == 2 && b <= 3 then [3, b] else [b]) + rest) ==
            EscapeHead(zeros, b) + (Pending(NextZeros(zeros, b)) + rest)
  {
    if b != 0 {
      assert Pending(0) + rest == rest;
    }
  }

  lemma PlainSplits(data: bytes, zeros: nat, end: bytes)
    requires zeros <= 2 && data != []
    ensures Pending(zeros) + (data + end) ==
            PlainHead(zeros, data[0]) + (Pending(NextZeros(zeros, data[0])) + (data[1..] + end))
  {
    assert data == [data[0]] + data[1..];
  }

  lemma UnescapeCons(b: byte, rest: bytes)
    requires !StartsWithProtector([b] + rest)
    ensures Unescape([b] + rest) == [b] + Unescape(rest)
  {
    assert ([b] + rest)[1..] == rest;
  }

  lemma UnescapePair(rest: bytes)
    requires !StartsWithProtector([0, 0] + rest) && !StartsWithProtector([0] + rest)
    ensures Unescape([0, 0] + rest) == [0, 0] + Unescape(rest)
  {
    assert [0, 0] + rest == [0] + ([0] + rest);
    UnescapeCons(0, [0] + rest);
    UnescapeCons(0, rest);
  }

  lemma UnescapeProtected(b: byte, y: bytes)
    requires b <= 3
    ensures Unescape([0, 0, 3, b] + y) == [0, 0] + Unescape([b] + y)
  {
    assert ([0, 0, 3, b] + y)[3..] == [b] + y;
  }

  /** Pending zeros ended by a byte that needs no protection. */
  lemma UnescapeUnprotected(zeros: nat, b: byte, y: bytes)
    requires zeros <= 2 && b != 0 && (zeros == 2 ==> b > 3)
    ensures Unescape(Pending(zeros) + [b] + y) == Pending(zeros) + [b] + Unescape(y)
  {
    UnescapeCons(b, y);
    assert Pending(zeros) + [b] + y == Pending(zeros) + ([b] + y);
    if zeros == 0 {
      assert Pending(0) + ([b] + y) == [b] + y;
    } else if zeros == 1 {
      UnescapeCons(0, [b] + y);
    } else {
      UnescapePair([b] + y);
    }
  }

  lemma UnescapeHead(zeros: nat, b: byte, y: bytes)
    requires zeros <= 2 && (b == 0 && zeros == 2 ==> y != [] && y[0] == 0)
    ensures Unescape(EscapeHead(zeros, b) + y) == PlainHead(zeros, b) + Unescape(y)
  {
    if b != 0 && zeros == 2 && b <= 3 {
      UnescapeCons(b, y);
      UnescapeProtected(b, y);
    } else if b != 0 {
      UnescapeUnprotected(zeros, b, y);
    } else if zeros == 2 {
      assert [0, 0, 3] + y == [0, 0, 3, 0] + y[1..] && [0] + y[1..] == y;
      UnescapeProtected(0, y[1..]);
    } else {
      assert [] + y == y && [] + Unescape(y) == Unescape(y);
    }
  }

  lemma UnescapeEnd(zeros: nat, end: bytes)
    requires zeros <= 2 && (end == [] || end == [3])
    ensures Unescape(Pending(zeros) + end) == Pending(zeros) + end
  {
    if zeros == 2 && end == [3] {
      var s := Pending(2) + end;
      assert s[3..] == [] && [0, 0, 3] + Unescape([]) == s;
    } else {
      assert end == [3] ==> Unescape(end) == end by { UnescapeCons(3, []); }
      if zeros == 1 {
        UnescapeCons(0, end);
      } else if zeros == 2 {
        UnescapePair(end);
      } else {
        assert Pending(0) + end == end;
      }
    }
  }

  /** What insertion wrote decodes to the original, also when the final 03 of section 7.4.1 follows. */
  lemma {:induction false} UnescapeInvertsEscape(data: bytes, zeros: nat, end: bytes)
    requires zeros <= 2 && (end == [] || end == [3])
    ensures Unescape(Pending(zeros) + (Escape(data, zeros) + end)) == Pending(zeros) + (data + end)
    decreases |data|
  {
    if data == [] {
      UnescapeEnd(zeros, end);
      assert Escape(data, zeros) + end == end && data + end == end;
    } else {
      var next := NextZeros(zeros, data[0]);
      EscapeSplits(data, zeros, end);
      PlainSplits(data, zeros, end);
      UnescapeHead(zeros, data[0], Pending(next) + (Escape(data[1..], next) + end));
      UnescapeInvertsEscape(data[1..], next, end);
    }
  }

  /** Removal inverts insertion on every byte string. */
  lemma RoundTrip(data: bytes)
    ensures Unescape(Escape(data, 0)) == data
  {
    UnescapeInvertsEscape(data, 0, []);
    assert Pending(0) + (Escape(data, 0) + []) == Escape(data, 0) && Pending(0) + (data + []) == data;
  }

  /** Section 7.4.1 appends a final 03 behind an RBSP that ends in 00; removal keeps that 03 as a data byte. */
  lemma FinalProtectorIsKept(data: bytes)
    ensures Unescape(Escape(data, 0) + [3]) == data + [3]
  {
    UnescapeInvertsEscape(data, 0, [3]);
    assert Pending(0) + (Escape(data, 0) + [3]) == Escape(data, 0) + [3] && Pending(0) + (data + [3]) == data + [3];
  }

  /** Escaped data that ends in a non-zero byte, with its zeros in front, is a clean NAL. */
  lemma {:induction false} EscapedIsClean(data: bytes, zeros: nat)
    requires zeros <= 2 && data != [] && data[|data| - 1] != 0
    ensures StartCode.CleanNal(Pending(zeros) + (Escape(data, zeros) + []))
    decreases |data|
  {
    var next := NextZeros(zeros, data[0]);
    var head := EscapeHead(zeros, data[0]);
    var t := Pending(next) + (Escape(data[1..], next) + []);
    EscapeSplits(data, zeros, []);
    if |data| == 1 {
      NothingEscaped(data[1..], next);
      assert head + [] == head;
      HeadIsClean(zeros, data[0]);
    } else {
      HeadIsClean(zeros, data[0]);
      hide Escape, Pending, EscapeHead, StartCode.CleanNal, StartCode.EmulationPrevented;
      EscapedIsClean(data[1..], next);
      if head == [] {
        assert head + t == t;
      } else {
        PrependClean(head, t);
      }
    }
  }

  lemma NothingEscaped(data: bytes, next: nat)
    requires data == [] && next == 0
    ensures Pending(next) + (Escape(data, next) + []) == []
  {
  }

  lemma HeadIsClean(zeros: nat, b: byte)
    requires zeros <= 2
    ensures var head := EscapeHead(zeros, b);
            && StartCode.EmulationPrevented(head) && (head != [] && b != 0 ==> head[|head| - 1] != 0)
            && (b != 0 ==> StartCode.CleanNal(head))
  {
  }

  lemma PrependClean(head: bytes, t: bytes)
    requires StartCode.CleanNal(t) && head != [] && head[|head| - 1] != 0
    requires StartCode.EmulationPrevented(head)
    ensures StartCode.CleanNal(head + t)
  {
    var s := head + t;
    forall k | 0 <= k && k + 2 < |s| && s[k] == 0 && s[k + 1] == 0
      ensures s[k + 2] >= 3
    {
      if k >= |head| {
        assert t[k - |head|] == 0;
      } else if k + 2 < |head| {
        assert head[k] == 0;
      }
    }
    if |t| < 3 && |s| >= 3 {
      assert s[|s| - |t| - 1] == head[|head| - 1];
    }
  }

  /**
   * A NAL made of a non-zero header byte and escaped data ending in a non-zero byte can be delimited by start codes.
   */
  lemma EscapedNalIsClean(header: byte, data: bytes)
    requires header != 0 && data != [] && data[|data| - 1] != 0
    ensures StartCode.CleanNal([header] + Escape(data, 0))
  {
    EscapedIsClean(data, 0);
    assert Pending(0) + (Escape(data, 0) + []) == Escape(data, 0);
    PrependClean([header], Escape(data, 0));
  }
}

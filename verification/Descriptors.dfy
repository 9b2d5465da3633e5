/** MPEG-4 descriptors with base-128 lengths, and the `esds` box body made of them. */
module Descriptors {
  import opened Bytes
  import opened Boxes

  datatype Descriptor = Descriptor(tag: byte, body: bytes, rest: bytes)

  // ---- Writing ----

  /** The last digit of a number in base 128, and the number without it. */
  function Low(n: nat): (d: byte)
    ensures d < 128
  {
    n % 128
  }

  function High(n: nat): (h: nat)
    ensures n > 0 ==> h < n
    ensures n < 128 <==> h == 0
    ensures h * 128 + Low(n) == n
  {
    n / 128
  }

  /** The leading digits of a length, each marked as followed by another. */
  function Leading(n: nat): bytes
  {
    if n == 0 then [] else Leading(High(n)) + [Low(n) + 128]
  }

  /** A length, most significant digit first; only the last digit has its top bit clear. */
  function Length(n: nat): (s: bytes)
    ensures |s| >= 1 && s[|s| - 1] < 128
  {
    Leading(High(n)) + [Low(n)]
  }

  function Written(tag: byte, body: bytes): bytes
  {
    [tag] + Length(|body|) + body
  }

  /** The digits as they come off the low end, and in reading order. */
  function LowFirst(n: nat): (s: bytes)
    ensures |s| >= 1 && Plain(s)
  {
    if n < 128 then [n] else [Low(n)] + LowFirst(High(n))
  }

  predicate Plain(s: bytes)
  {
    forall k | 0 <= k < |s| :: s[k] < 128
  }

  function Reversed(s: bytes): (r: bytes)
    ensures |r| == |s| && (Plain(s) ==> Plain(r))
  {
    if s == [] then [] else Reversed(s[1..]) + [s[0]]
  }

  /** The first `i` digits marked, but for the last of all. */
  function Marked(s: bytes, i: nat): (m: bytes)
    requires i <= |s| && Plain(s)
    ensures |m| == |s|
  {
    seq(|s|, k requires 0 <= k < |s| => if k < i && k != |s| - 1 then s[k] + 128 else s[k])
  }

  function AllMarked(s: bytes): (m: bytes)
    requires Plain(s)
    ensures |m| == |s|
  {
    seq(|s|, k requires 0 <= k < |s| => s[k] + 128)
  }

  lemma ReversedNext(n: nat)
    requires n >= 128
    ensures Reversed(LowFirst(n)) == Reversed(LowFirst(High(n))) + [Low(n)]
  {
    hide Low, High;
    assert LowFirst(n)[1..] == LowFirst(High(n));
  }

  lemma {:induction false} MarkedIsLeading(n: nat)
    requires n > 0
    ensures AllMarked(Reversed(LowFirst(n))) == Leading(n)
    decreases n
  {
    hide Low, High;
    if n < 128 {
      assert LowFirst(n)[1..] == [] && Leading(High(n)) == [];
    } else {
      hide LowFirst, Reversed;
      ReversedNext(n);
      MarkedIsLeading(High(n));
      AllMarkedSnoc(Reversed(LowFirst(High(n))), Low(n));
    }
  }

  lemma AllMarkedSnoc(s: bytes, d: byte)
    requires Plain(s) && d < 128
    ensures Plain(s + [d]) && AllMarked(s + [d]) == AllMarked(s) + [d + 128]
  {
  }

  lemma MarkedIsLength(n: nat)
    ensures var r := Reversed(LowFirst(n)); Marked(r, |r|) == Length(n)
  {
    hide Low, High;
    var r := Reversed(LowFirst(n));
    if n < 128 {
      assert LowFirst(n)[1..] == [] && Leading(High(n)) == [];
    } else {
      var front := Reversed(LowFirst(High(n)));
      hide LowFirst;
      ReversedNext(n);
      MarkedIsLeading(High(n));
      assert Marked(r, |r|) == AllMarked(front) + [Low(n)];
    }
  }

  /** The digits in reading order, each but the last marked. */
  method LengthDigits(length: nat) returns (digits: bytes)
    ensures digits == Length(length)
  {
    hide Low, High, Reversed, Length, Plain;
    var len: nat := length;
    digits := [];
    var more := true;
    assert [] + LowFirst(len) == LowFirst(len);
    while more
      invariant more ==> digits + LowFirst(len) == LowFirst(length)
      invariant !more ==> digits == LowFirst(length)
      decreases more, len
    {
      Assoc(digits, [Low(len)], LowFirst(High(len)));
      digits := digits + [Low(len)];
      more := len >= 128;
      len := High(len);
    }
    digits := Reversed(digits);
    MarkedIsLength(length);
    digits := MarkDigits(digits);
  }

  method MarkDigits(plain: bytes) returns (digits: bytes)
    requires Plain(plain)
    ensures digits == Marked(plain, |plain|)
  {
    digits := plain;
    var last := |digits| - 1;
    for i := 0 to |digits|
      invariant |digits| == |plain| && digits == Marked(plain, i)
    {
      if i != last {
        digits := digits[i := digits[i] + 128];
      }
    }
  }

  method WriteDescriptor(tag: byte, body: bytes) returns (out: bytes)
    ensures out == Written(tag, body)
  {
    hide Length;
    out := [tag];
    var digits := LengthDigits(|body|);
    out := out + digits;
    out := out + body;
  }

  // ---- Reading ----

  /** The length whose digits go on at `i`, and where it ends. */
  function LengthFrom(data: bytes, i: nat, len: nat): (r: Result<(nat, nat), Mp4Error>)
    ensures r.Ok? ==> i < r.value.1 <= |data|
    decreases |data| - i
  {
    if i >= |data| then Err(NeedMoreData)
    else
      var now := len * 128 + Low(data[i]);
      if now > U64_MAX then Err(LimitExceeded("descriptor length"))
      else if data[i] < 128 then Ok((now, i + 1))
      else LengthFrom(data, i + 1, now)
  }

  function Read(data: bytes): Result<Descriptor, Mp4Error>
  {
    if data == [] then Err(NeedMoreData)
    else
      match LengthFrom(data, 1, 0)
      case Err(e) => Err(e)
      case Ok((len, i)) =>
        if i + len > |data| then Err(NeedMoreData) else Ok(Descriptor(data[0], data[i..i + len], data[i + len..]))
  }

  method ReadDescriptor(data: bytes) returns (r: Result<Descriptor, Mp4Error>)
    ensures r == Read(data)
  {
    hide Low;
    if data == [] {
      return Err(NeedMoreData);
    }
    var len: nat, i: nat, more := 0, 1, true;
    while more && i < |data|
      invariant 1 <= i <= |data|
      invariant more ==> LengthFrom(data, i, len) == LengthFrom(data, 1, 0)
      invariant !more ==> LengthFrom(data, 1, 0) == Ok((len, i))
      decreases more, |data| - i
    {
      var b := data[i];
      i := i + 1;
      len := len * 128 + Low(b);
      if len > U64_MAX {
        return Err(LimitExceeded("descriptor length"));
      }
      more := b >= 128;
    }
    if more || i + len > |data| {
      return Err(NeedMoreData);
    }
    return Ok(Descriptor(data[0], data[i..i + len], data[i + len..]));
  }

  // ---- Round trip ----

  lemma LowOfDigit(d: byte)
    requires d < 128
    ensures Low(d) == d && Low(d + 128) == d
  {
  }

  /** The leading digits of a number are read as that number. */
  lemma {:induction false} LeadingReads(front: bytes, n: nat, rest: bytes)
    requires n <= U64_MAX
    ensures LengthFrom(front + (Leading(n) + rest), |front|, 0) ==
            LengthFrom(front + (Leading(n) + rest), |front| + |Leading(n)|, n)
    decreases n
  {
    hide Low, High;
    if n > 0 {
      var before, digit := Leading(High(n)), [Low(n) + 128];
      Assoc(before, digit, rest);
      LeadingReads(front, High(n), digit + rest);
      DigitPlace(front, before, digit[0], rest);
      LowOfDigit(Low(n));
    }
  }

  lemma DigitPlace(front: bytes, before: bytes, digit: byte, rest: bytes)
    ensures var data, at := front + (before + ([digit] + rest)), |front| + |before|; at < |data| && data[at] == digit
  {
  }

  lemma LengthReads(front: bytes, n: nat, rest: bytes)
    requires n <= U64_MAX
    ensures LengthFrom(front + (Length(n) + rest), |front|, 0) == Ok((n, |front| + |Length(n)|))
  {
    hide Low, High, Leading;
    var before, digit := Leading(High(n)), [Low(n)];
    Assoc(before, digit, rest);
    LeadingReads(front, High(n), digit + rest);
    DigitPlace(front, before, digit[0], rest);
    LowOfDigit(Low(n));
  }

  /** A written descriptor is read back whatever follows it. */
  lemma ReadInvertsWrite(tag: byte, body: bytes, rest: bytes)
    requires |body| <= U64_MAX
    ensures Read(Written(tag, body) + rest) == Ok(Descriptor(tag, body, rest))
  {
    hide LengthFrom, Length;
    var length := Length(|body|);
    assert Written(tag, body) + rest == [tag] + (length + (body + rest));
    LengthReads([tag], |body|, body + rest);
  }

  lemma {:induction false} LengthCut(a: bytes, b: bytes, i: nat, len: nat)
    requires i <= |a|
    ensures LengthFrom(a, i, len) == Err(NeedMoreData) || LengthFrom(a + b, i, len) == LengthFrom(a, i, len)
    decreases |a| - i
  {
    hide Low;
    if i < |a| {
      assert (a + b)[i] == a[i];
      LengthCut(a, b, i + 1, len * 128 + Low(a[i]));
    }
  }

  /** No proper prefix of a descriptor is taken for a descriptor. */
  lemma PrefixNeedsMore(tag: byte, body: bytes, k: nat)
    requires |body| <= U64_MAX && k < |Written(tag, body)|
    ensures Read(Written(tag, body)[..k]) == Err(NeedMoreData)
  {
    hide LengthFrom, Length;
    var all := Written(tag, body);
    var cut := all[..k];
    assert all == cut + all[k..];
    if k > 0 {
      assert all == [tag] + (Length(|body|) + body);
      LengthReads([tag], |body|, body);
      LengthCut(cut, all[k..], 1, 0);
    }
  }

  // ---- esds ----

  datatype AudioConfig = AudioConfig(objectType: nat, rateIndex: nat, channels: nat)

  /** The AudioSpecificConfig in front of any bytes. */
  function ParseConfig(d: bytes): Option<AudioConfig>
  {
    if |d| < 2 then None
    else
      var b0: int, b1: int := d[0], d[1];
      var rate, channels := b0 % 8 * 2 + b1 / 128, b1 / 8 % 16;
      if rate >= 13 || channels >= 8 then None else Some(AudioConfig(b0 / 8, rate, channels))
  }

  function BuildConfig(c: AudioConfig): (d: bytes)
    ensures |d| == 2
  {
    [c.objectType % 32 * 8 + c.rateIndex / 2 % 8, c.rateIndex % 2 * 128 + c.channels % 16 * 8]
  }

  lemma ConfigInverts(c: AudioConfig, more: bytes)
    requires c.objectType < 32 && c.rateIndex < 13 && c.channels < 8
    ensures ParseConfig(BuildConfig(c) + more) == Some(c)
  {
    FirstByte(c.objectType, c.rateIndex / 2);
    SecondByte(c.rateIndex % 2, c.channels);
    Unmasked(c.objectType, c.rateIndex, c.channels);
    var d := BuildConfig(c) + more;
    assert d[0] == BuildConfig(c)[0] && d[1] == BuildConfig(c)[1];
    var b0: int, b1: int := d[0], d[1];
    assert b0 / 8 == c.objectType && b0 % 8 * 2 + b1 / 128 == c.rateIndex && b1 / 8 % 16 == c.channels;
  }

  lemma FirstByte(objectType: nat, high: nat)
    requires objectType < 32 && high < 8
    ensures var b := objectType * 8 + high; b / 8 == objectType && b % 8 == high
  {
  }

  lemma SecondByte(low: nat, channels: nat)
    requires low < 2 && channels < 8
    ensures var b := low * 128 + channels * 8; b / 128 == low && b / 8 % 16 == channels
  {
  }

  lemma Unmasked(objectType: nat, rate: nat, channels: nat)
    requires objectType < 32 && rate < 16 && channels < 16
    ensures objectType % 32 == objectType && rate / 2 % 8 == rate / 2 && channels % 16 == channels
    ensures rate / 2 * 2 + rate % 2 == rate && rate / 2 < 8
  {
  }

  /** The box body: decoder configuration in an elementary stream descriptor. */
  function Esds(trackId: u32, asc: bytes): Result<bytes, Mp4Error>
  {
    if trackId > 0xFFFF then Err(LimitExceeded("track_id exceeds u16 for esds"))
    else Ok(FullBox(0, 0) + Written(0x03, StreamBody(trackId, asc)))
  }

  function StreamBody(trackId: u16, asc: bytes): bytes
  {
    BE16(trackId) + [0] + Written(0x04, DecoderConfig(asc)) + Written(0x06, [0x02])
  }

  function DecoderConfig(asc: bytes): bytes
  {
    [0x40, 0x15] + Zeros(11) + Written(0x05, asc)
  }

  method WriteEsds(trackId: u32, asc: bytes) returns (r: Result<bytes, Mp4Error>)
    ensures r == Esds(trackId, asc)
  {
    hide Written;
    var dsi := WriteDescriptor(0x05, asc);
    var dcd := WriteDescriptor(0x04, [0x40, 0x15] + Zeros(11) + dsi);
    var slc := WriteDescriptor(0x06, [0x02]);
    if trackId > 0xFFFF {
      return Err(LimitExceeded("track_id exceeds u16 for esds"));
    }
    var esd := WriteDescriptor(0x03, BE16(trackId) + [0] + dcd + slc);
    return Ok(FullBox(0, 0) + esd);
  }

  /** The configuration found by following the tags 3, 4 and 5; none when a tag or a length is another. */
  function ParseEsds(data: bytes): Result<Option<AudioConfig>, Mp4Error>
  {
    if |data| < 4 then Err(NeedMoreData)
    else
      match Read(data[4..])
      case Err(e) => Err(e)
      case Ok(es) =>
        if es.tag != 0x03 || |es.body| < 3 then Ok(None)
        else
          match Read(es.body[3..])
          case Err(e) => Err(e)
          case Ok(dcd) =>
            if dcd.tag != 0x04 || |dcd.body| < 13 then Ok(None)
            else
              match Read(dcd.body[13..])
              case Err(e) => Err(e)
              case Ok(dsi) => if dsi.tag != 0x05 || |dsi.body| < 2 then Ok(None) else Ok(ParseConfig(dsi.body))
  }

  lemma BodyOfEsds(trackId: u32, asc: bytes)
    requires trackId <= 0xFFFF && |StreamBody(trackId, asc)| <= U64_MAX
    ensures Read(Esds(trackId, asc).value[4..]) == Ok(Descriptor(0x03, StreamBody(trackId, asc), []))
    ensures |Esds(trackId, asc).value| >= 4
  {
    hide Written, Read, BE16;
    var es := StreamBody(trackId, asc);
    assert Esds(trackId, asc).value[4..] == Written(0x03, es) == Written(0x03, es) + [];
    ReadInvertsWrite(0x03, es, []);
  }

  lemma BodyOfStream(trackId: u32, asc: bytes)
    requires trackId <= 0xFFFF && |StreamBody(trackId, asc)| <= U64_MAX
    ensures |StreamBody(trackId, asc)| >= 3 && |DecoderConfig(asc)| <= U64_MAX
    ensures Read(StreamBody(trackId, asc)[3..]) == Ok(Descriptor(0x04, DecoderConfig(asc), Written(0x06, [0x02])))
  {
    WrittenSize(0x04, DecoderConfig(asc));
    hide Written, Read, BE16;
    var dcd, slc := DecoderConfig(asc), Written(0x06, [0x02]);
    assert StreamBody(trackId, asc)[3..] == Written(0x04, dcd) + slc;
    ReadInvertsWrite(0x04, dcd, slc);
  }

  lemma BodyOfDecoder(asc: bytes)
    requires |DecoderConfig(asc)| <= U64_MAX
    ensures |DecoderConfig(asc)| >= 13 && Read(DecoderConfig(asc)[13..]) == Ok(Descriptor(0x05, asc, []))
  {
    WrittenSize(0x05, asc);
    hide Written, Read;
    assert DecoderConfig(asc)[13..] == Written(0x05, asc) == Written(0x05, asc) + [];
    ReadInvertsWrite(0x05, asc, []);
  }

  /** An `esds` box gives back the configuration it was written with. */
  lemma EsdsReads(trackId: u32, c: AudioConfig, more: bytes)
    requires trackId <= 0xFFFF && c.objectType < 32 && c.rateIndex < 13 && c.channels < 8
    requires |StreamBody(trackId, BuildConfig(c) + more)| <= U64_MAX
    ensures var esds := Esds(trackId, BuildConfig(c) + more); esds.Ok? && ParseEsds(esds.value) == Ok(Some(c))
  {
    var asc := BuildConfig(c) + more;
    ConfigInverts(c, more);
    hide Read, ParseConfig, BuildConfig, StreamBody, DecoderConfig;
    BodyOfEsds(trackId, asc);
    BodyOfStream(trackId, asc);
    BodyOfDecoder(asc);
  }

  lemma WrittenSize(tag: byte, body: bytes)
    ensures |body| + 2 <= |Written(tag, body)|
  {
    hide Length;
  }
}

/** ADTS frame headers and the splitting of an ADTS stream into frames. */
module Adts {
  import opened Bytes

  datatype AacError = TooShort | InvalidSync | InvalidSampleRateIndex | InvalidFrameLength

  const SAMPLE_RATES: seq<nat> :=
    [96000, 88200, 64000, 48000, 44100, 32000, 24000, 22050, 16000, 12000, 11025, 8000, 7350]

  datatype AdtsHeader = AdtsHeader(id: nat, layer: nat, protectionAbsent: bool, profile: nat, rateIndex: nat,
                                   privateBit: nat, channelConfiguration: nat, frameLength: nat,
                                   bufferFullness: nat, rawDataBlocks: nat)
  {
    function HeaderSize(): nat { if protectionAbsent then 7 else 9 }

    function SamplesPerFrame(): nat { 1024 * (1 + rawDataBlocks) }

    /** Frame duration in ticks of the 90 kHz clock. */
    function DurationTicks(): nat
      requires rateIndex < |SAMPLE_RATES|
    {
      SamplesPerFrame() * 90_000 / SAMPLE_RATES[rateIndex]
    }
  }

  function Fields(d: bytes): AdtsHeader
    requires |d| >= 7
  {
    var b1: int, b2: int, b3: int, b4: int, b5: int, b6: int := d[1], d[2], d[3], d[4], d[5], d[6];
    AdtsHeader(
      b1 / 8 % 2, b1 / 2 % 4, b1 % 2 == 1,
      b2 / 64, b2 / 4 % 16, b2 / 2 % 2, b2 % 2 * 4 + b3 / 64,
      b3 % 4 * 2048 + b4 * 8 + b5 / 32, b5 % 32 * 64 + b6 / 4, b6 % 4)
  }

  function Parse(d: bytes): (r: Result<AdtsHeader, AacError>)
    ensures r.Ok? ==> 7 <= r.value.frameLength < 8192 && r.value.rateIndex < |SAMPLE_RATES|
  {
    if |d| < 7 then Err(TooShort)
    else if d[0] != 0xFF || d[1] / 16 != 15 then Err(InvalidSync)
    else
      var h := Fields(d);
      if h.rateIndex >= |SAMPLE_RATES| then Err(InvalidSampleRateIndex)
      else if h.frameLength < h.HeaderSize() then Err(InvalidFrameLength)
      else Ok(h)
  }

  /** Only the first seven bytes matter. */
  lemma ParsePrefix(d: bytes, more: bytes)
    requires |d| >= 7
    ensures Parse(d + more) == Parse(d)
  {
  }

  /** A frame: a well-formed header whose length field is the frame's length. */
  ghost predicate IsFrame(f: bytes)
  {
    Parse(f).Ok? && Parse(f).value.frameLength == |f|
  }

  ghost predicate AreFrames(frames: seq<bytes>)
  {
    forall k | 0 <= k < |frames| :: IsFrame(frames[k])
  }

  function SplitFrom(data: bytes, pos: nat): Result<seq<bytes>, AacError>
    requires pos <= |data|
    decreases |data| - pos
  {
    if pos + 7 > |data| then Ok([])
    else
      match Parse(data[pos..])
      case Err(e) => Err(e)
      case Ok(h) =>
        if pos + h.frameLength > |data| then Err(TooShort)
        else
          match SplitFrom(data, pos + h.frameLength)
          case Err(e) => Err(e)
          case Ok(rest) => Ok([data[pos..pos + h.frameLength]] + rest)
  }

  method SplitAdts(data: bytes) returns (r: Result<seq<bytes>, AacError>)
    ensures r == SplitFrom(data, 0)
  {
    var frames := [];
    var pos := 0;
    ghost var all := SplitFrom(data, 0);
    assert all.Ok? ==> [] + all.value == all.value;
    while pos + 7 <= |data|
      invariant pos <= |data|
      invariant SplitFrom(data, 0) ==
                match SplitFrom(data, pos) { case Err(e) => Err(e) case Ok(rest) => Ok(frames + rest) }
      decreases |data| - pos
    {
      var header := Parse(data[pos..]);
      if header.Err? {
        return Err(header.error);
      }
      var end := pos + header.value.frameLength;
      if end > |data| {
        return Err(TooShort);
      }
      ghost var tail := SplitFrom(data, end);
      if tail.Ok? {
        Assoc(frames, [data[pos..end]], tail.value);
      }
      frames := frames + [data[pos..end]];
      pos := end;
    }
    assert frames + [] == frames;
    return Ok(frames);
  }

  /** The frame at the front of a stream is recognised whatever follows it. */
  lemma FirstFrame(f: bytes, rest: bytes)
    requires IsFrame(f)
    ensures Parse(f + rest) == Parse(f) && (f + rest)[..|f|] == f && (f + rest)[|f|..] == rest
  {
    ParsePrefix(f, rest);
  }

  lemma {:induction false} SplitSuffix(data: bytes, at: nat, pos: nat)
    requires at <= |data| && pos <= |data| - at
    ensures SplitFrom(data, at + pos) == SplitFrom(data[at..], pos)
    decreases |data| - at - pos
  {
    hide Parse;
    assert data[at..][pos..] == data[at + pos..];
    if at + pos + 7 <= |data| && Parse(data[at + pos..]).Ok? {
      var len := Parse(data[at + pos..]).value.frameLength;
      if at + pos + len <= |data| {
        assert data[at..][pos..pos + len] == data[at + pos..at + pos + len];
        SplitSuffix(data, at, pos + len);
      }
    }
  }

  /** Splitting inverts concatenation of frames. */
  lemma {:induction false} SplitConcat(frames: seq<bytes>)
    requires AreFrames(frames)
    ensures SplitFrom(Concat(frames), 0) == Ok(frames)
    decreases |frames|
  {
    hide IsFrame, SplitFrom;
    if frames == [] {
      SplitNothing();
    } else {
      assert IsFrame(frames[0]);
      SplitFirst(frames[0], Concat(frames[1..]));
      SplitConcat(frames[1..]);
      assert [frames[0]] + frames[1..] == frames;
    }
  }

  lemma SplitNothing()
    ensures SplitFrom([], 0) == Ok([])
  {
  }

  /** The frame at the front is split off. */
  lemma SplitFirst(f: bytes, rest: bytes)
    requires IsFrame(f)
    ensures SplitFrom(f + rest, 0) == match SplitFrom(rest, 0) { case Err(e) => Err(e) case Ok(more) => Ok([f] + more) }
  {
    FirstFrame(f, rest);
    FrameLong(f);
    SplitSuffix(f + rest, |f|, 0);
    hide Parse;
    assert (f + rest)[0..] == f + rest && (f + rest)[0..|f|] == f;
  }

  lemma FrameLong(f: bytes)
    requires IsFrame(f)
    ensures |f| >= 7
  {
  }

  // ---- Building headers ----

  /** Every field fits its bits, and the header says something a parser accepts. */
  predicate Buildable(h: AdtsHeader)
  {
    && h.id < 2 && h.layer < 4 && h.profile < 4 && h.rateIndex < |SAMPLE_RATES| && h.privateBit < 2
    && h.channelConfiguration < 8
    && h.HeaderSize() <= h.frameLength < 0x2000 && h.bufferFullness < 0x800 && h.rawDataBlocks < 4
  }

  // The header bytes behind the sync byte; a field's excess bits are masked off.

  function Byte1(h: AdtsHeader): byte
  {
    0xF0 + h.id % 2 * 8 + h.layer % 4 * 2 + (if h.protectionAbsent then 1 else 0)
  }

  function Byte2(h: AdtsHeader): byte
  {
    h.profile % 4 * 64 + h.rateIndex % 16 * 4 + h.privateBit % 2 * 2 + h.channelConfiguration / 4 % 2
  }

  function Byte3(h: AdtsHeader): byte
  {
    h.channelConfiguration % 4 * 64 + h.frameLength / 2048 % 4
  }

  function Byte5(h: AdtsHeader): byte
  {
    h.frameLength % 8 * 32 + h.bufferFullness / 64 % 32
  }

  function Byte6(h: AdtsHeader): byte
  {
    h.bufferFullness % 64 * 4 + h.rawDataBlocks % 4
  }

  function Build(h: AdtsHeader): (d: bytes)
    ensures |d| == 7
  {
    [0xFF, Byte1(h), Byte2(h), Byte3(h), h.frameLength / 8 % 256, Byte5(h), Byte6(h)]
  }

  lemma Bits1(h: AdtsHeader)
    requires Buildable(h)
    ensures var b: int := Byte1(h);
            && b / 16 == 15 && b / 8 % 2 == h.id && b / 2 % 4 == h.layer && (b % 2 == 1) == h.protectionAbsent
  {
  }

  lemma Bits2(h: AdtsHeader)
    requires Buildable(h)
    ensures Byte2(h) == h.profile * 64 + h.rateIndex * 4 + h.privateBit * 2 + h.channelConfiguration / 4
    ensures var b: int := Byte2(h);
            b / 64 == h.profile && b / 4 % 16 == h.rateIndex && b / 2 % 2 == h.privateBit
            && b % 2 == h.channelConfiguration / 4
  {
    Unmasked(h.profile, h.rateIndex, h.privateBit, h.channelConfiguration / 4);
    RateBits(h.profile, h.rateIndex, h.privateBit, h.channelConfiguration / 4);
  }

  lemma Unmasked(profile: nat, rate: nat, privateBit: nat, high: nat)
    requires profile < 4 && rate < 16 && privateBit < 2 && high < 2
    ensures profile % 4 == profile && rate % 16 == rate && privateBit % 2 == privateBit && high % 2 == high
  {
  }

  lemma RateBits(profile: nat, rate: nat, privateBit: nat, high: nat)
    requires profile < 4 && rate < 16 && privateBit < 2 && high < 2
    ensures var b := profile * 64 + rate * 4 + privateBit * 2 + high;
            b / 64 == profile && b / 4 % 16 == rate && b / 2 % 2 == privateBit && b % 2 == high
  {
  }

  lemma Bits3(h: AdtsHeader)
    requires Buildable(h)
    ensures var b: int := Byte3(h); b / 64 == h.channelConfiguration % 4 && b % 4 == h.frameLength / 2048
  {
  }

  lemma Bits5(h: AdtsHeader)
    requires Buildable(h)
    ensures var b: int := Byte5(h); b / 32 == h.frameLength % 8 && b % 32 == h.bufferFullness / 64
  {
  }

  lemma Bits6(h: AdtsHeader)
    requires Buildable(h)
    ensures var b: int := Byte6(h); b / 4 == h.bufferFullness % 64 && b % 4 == h.rawDataBlocks
  {
  }

  lemma LengthBits(n: nat)
    requires n < 0x2000
    ensures n / 2048 * 2048 + n / 8 % 256 * 8 + n % 8 == n
  {
  }

  lemma Recombined(v: nat)
    ensures v / 4 * 4 + v % 4 == v && v / 64 * 64 + v % 64 == v
  {
  }

  /** A built header parses back, whatever follows it. */
  lemma BuildInverts(h: AdtsHeader, more: bytes)
    requires Buildable(h)
    ensures Parse(Build(h) + more) == Ok(h)
  {
    Bits1(h);
    Bits2(h);
    Bits3(h);
    Bits5(h);
    Bits6(h);
    LengthBits(h.frameLength);
    Recombined(h.channelConfiguration);
    Recombined(h.bufferFullness);
    hide Byte1, Byte2, Byte3, Byte5, Byte6, Parse;
    assert Fields(Build(h)) == h;
    ParsePrefix(Build(h), more);
    ParseFields(Build(h));
  }

  lemma ParseFields(d: bytes)
    requires |d| >= 7 && d[0] == 0xFF && d[1] / 16 == 15
    requires Fields(d).rateIndex < |SAMPLE_RATES| && Fields(d).frameLength >= Fields(d).HeaderSize()
    ensures Parse(d) == Ok(Fields(d))
  {
    hide Fields;
  }

  lemma Again1(b: byte)
    requires b / 16 == 15
    ensures b == 0xF0 + b / 8 % 2 % 2 * 8 + b / 2 % 4 % 4 * 2 + (if b % 2 == 1 then 1 else 0)
  {
  }

  lemma Again2(b: byte, next: nat)
    requires next < 4
    ensures b == b / 64 % 4 * 64 + b / 4 % 16 % 16 * 4 + b / 2 % 2 % 2 * 2 + (b % 2 * 4 + next) / 4 % 2
    ensures (b % 2 * 4 + next) % 4 == next && b % 2 * 4 + next < 8
  {
    RatesAgain(b);
    Small(b / 4 % 16, b / 2 % 2, b % 2, next);
  }

  lemma RatesAgain(b: byte)
    ensures b == b / 64 * 64 + b / 4 % 16 * 4 + b / 2 % 2 * 2 + b % 2 && b / 64 < 4
  {
    var half, quarter := b / 2, b / 4;
    assert b == half * 2 + b % 2;
    assert half == quarter * 2 + half % 2;
    assert quarter == b / 64 * 16 + quarter % 16;
  }

  lemma Small(rate: nat, privateBit: nat, high: nat, next: nat)
    requires rate < 16 && privateBit < 2 && high < 2 && next < 4
    ensures rate % 16 == rate && privateBit % 2 == privateBit && (high * 4 + next) / 4 % 2 == high
            && (high * 4 + next) % 4 == next
  {
  }

  lemma AgainLength(high: nat, mid: byte, low: nat)
    requires high < 4 && low < 8
    ensures var n := high * 2048 + mid * 8 + low;
            n / 2048 % 4 == high && n / 8 % 256 == mid && n % 8 == low && n < 0x2000
  {
    var n := high * 2048 + mid * 8 + low;
    assert n / 2048 == high;
    assert n / 8 == high * 256 + mid;
  }

  lemma AgainFullness(high: nat, low: nat)
    requires high < 32 && low < 64
    ensures var n := high * 64 + low; n / 64 % 32 == high && n % 64 == low && n < 0x800
  {
  }

  lemma AgainByte(b: byte)
    ensures b / 64 * 64 + b % 4 == b <==> b / 4 % 16 == 0
    ensures b / 32 * 32 + b % 32 == b && b / 4 * 4 + b % 4 % 4 == b
    ensures b / 64 < 4 && b / 32 < 8 && b / 4 < 64
  {
    assert b == b / 64 * 64 + b / 4 % 16 * 4 + b % 4;
  }

  lemma Again356(d: bytes)
    requires |d| >= 7
    ensures var h := Fields(d);
            && (Byte3(h) == d[3] <==> d[3] / 4 % 16 == 0)
            && h.frameLength / 8 % 256 == d[4] && Byte5(h) == d[5] && Byte6(h) == d[6]
            && h.frameLength < 0x2000 && h.bufferFullness < 0x800 && h.channelConfiguration < 8
  {
    var b3: int, b4: int, b5: int, b6: int := d[3], d[4], d[5], d[6];
    Again2(d[2], FromTop(d[3]));
    AgainByte(d[3]);
    AgainByte(d[5]);
    AgainByte(d[6]);
    AgainLength(b3 % 4, d[4], b5 / 32);
    AgainFullness(b5 % 32, b6 / 4);
  }

  /**
   * Building what has been parsed gives the header bytes back if and only if the original, home and copyright bits of
   * the fourth byte, which no field keeps, are 0.
   */
  lemma BuildRestoresExactly(d: bytes)
    requires Parse(d).Ok?
    ensures Buildable(Parse(d).value) && (Build(Parse(d).value) == d[..7] <==> d[3] / 4 % 16 == 0)
  {
    Again1(d[1]);
    Again2(d[2], FromTop(d[3]));
    Again356(d);
    hide Byte3, Byte5, Byte6;
    var built := Build(Fields(d));
    assert built[0] == d[0] && built[1] == d[1] && built[2] == d[2];
    assert d[..7][3] == d[3] && built[3] == Byte3(Fields(d));
    if d[3] / 4 % 16 == 0 {
      assert built == d[..7];
    }
  }

  function FromTop(b: byte): (n: nat)
    ensures n < 4
  {
    b / 64
  }
}

/** H.264 NAL units: Annex-B splitting, AVCC splitting and the two conversions. */
module H264 {
  import opened Bytes
  import opened StartCode

  datatype H264Error = EndOfStream | InvalidNalLength | InvalidStartCode

  datatype NalUnit = NalUnit(nalRefIdc: nat, nalType: nat, data: bytes, payload: bytes)

  function Unit(data: bytes): NalUnit
    requires data != []
  {
    NalUnit(data[0] / 32 % 4, data[0] % 32, data, data[1..])
  }

  predicate NonEmpty(nals: seq<bytes>)
  {
    forall k | 0 <= k < |nals| :: nals[k] != []
  }

  function Units(nals: seq<bytes>): (r: seq<NalUnit>)
    requires NonEmpty(nals)
    ensures |r| == |nals|
  {
    seq(|nals|, k requires 0 <= k < |nals| => Unit(nals[k]))
  }

  /** `r` with `nals` put in front of its list. */
  function Prepend(nals: seq<bytes>, r: Result<seq<bytes>, H264Error>): Result<seq<bytes>, H264Error>
  {
    if r.Err? then r else Ok(nals + r.value)
  }

  lemma PrependNone(r: Result<seq<bytes>, H264Error>)
    ensures Prepend([], r) == r
  {
    if r.Ok? {
      assert [] + r.value == r.value;
    }
  }

  lemma PrependToNone(nals: seq<bytes>)
    ensures Prepend(nals, Ok([])) == Ok(nals)
  {
    assert nals + [] == nals;
  }

  lemma PrependTwice(nals: seq<bytes>, n: bytes, r: Result<seq<bytes>, H264Error>)
    ensures Prepend(nals, Prepend([n], r)) == Prepend(nals + [n], r)
  {
    if r.Ok? {
      assert nals + ([n] + r.value) == (nals + [n]) + r.value;
    }
  }

  lemma UnitsSnoc(nals: seq<bytes>, n: bytes)
    requires NonEmpty(nals) && n != []
    ensures NonEmpty(nals + [n]) && Units(nals + [n]) == Units(nals) + [Unit(n)]
  {
  }

  /** One round of a splitter: the next unit is `data[from..to]`, there is none, or the data is malformed. */
  datatype Step = Done | Bad(error: H264Error) | Next(from: nat, to: nat)

  // ---- Annex-B ----

  /** The round at `pos`; the search for the unit's end skips its header byte. */
  function AnnexBStep(data: bytes, pos: nat): (s: Step)
    requires pos <= |data|
    ensures s.Next? ==> pos < s.from < s.to <= |data|
  {
    if pos == |data| then Done
    else
      match Find(data, pos)
      case None => Bad(InvalidStartCode)
      case Some(c) => if c.End() >= |data| then Done else Next(c.End(), NalEnd(data, c.End() + 1))
  }

  /** Where the NAL being scanned from `i` ends: at the next start code or at the end of the data. */
  function NalEnd(data: bytes, i: nat): (e: nat)
    requires i <= |data|
    ensures i <= e <= |data|
  {
    match Find(data, i)
    case None => |data|
    case Some(c) => c.pos
  }

  /** The NAL units of the Annex-B stream `data` from `pos` on. */
  function SplitFrom(data: bytes, pos: nat): (r: Result<seq<bytes>, H264Error>)
    requires pos <= |data|
    ensures r.Ok? ==> NonEmpty(r.value)
    decreases |data| - pos
  {
    match AnnexBStep(data, pos)
    case Done => Ok([])
    case Bad(e) => Err(e)
    case Next(from, to) => Prepend([data[from..to]], SplitFrom(data, to))
  }

  method FindNal(data: bytes, pos: nat) returns (s: Step)
    requires pos < |data|
    ensures s == AnnexBStep(data, pos)
  {
    var found := FindStartCode(data, pos);
    if found.None? {
      return Bad(InvalidStartCode);
    }
    var headerPos := found.value.End();
    if headerPos >= |data| {
      return Done;
    }
    var following := FindStartCode(data, headerPos + 1);
    return Next(headerPos, if following.Some? then following.value.pos else |data|);
  }

  method SplitAnnexB(data: bytes) returns (r: Result<seq<NalUnit>, H264Error>)
    ensures match SplitFrom(data, 0)
            case Ok(nals) => r == Ok(Units(nals))
            case Err(e) => r == Err(e)
  {
    var units := [];
    ghost var nals := [];
    var pos := 0;
    PrependNone(SplitFrom(data, 0));
    while pos < |data|
      invariant pos <= |data|
      invariant NonEmpty(nals) && units == Units(nals)
      invariant SplitFrom(data, 0) == Prepend(nals, SplitFrom(data, pos))
      decreases |data| - pos
    {
      var round := FindNal(data, pos);
      if round.Bad? {
        return Err(round.error);
      }
      if round.Done? {
        break;
      }
      var nal := data[round.from..round.to];
      UnitsSnoc(nals, nal);
      PrependTwice(nals, nal, SplitFrom(data, round.to));
      units := units + [Unit(nal)];
      nals := nals + [nal];
      pos := round.to;
    }
    PrependToNone(nals);
    return Ok(units);
  }

  /** The Annex-B byte stream of `nals`, each behind the start code of the same index. */
  function Join(nals: seq<bytes>, codes: seq<bytes>): bytes
    requires |nals| == |codes|
  {
    if nals == [] then [] else codes[0] + nals[0] + Join(nals[1..], codes[1..])
  }

  ghost predicate CleanList(nals: seq<bytes>)
  {
    forall n | n in nals :: CleanNal(n)
  }

  ghost predicate Codes(codes: seq<bytes>)
  {
    forall c | c in codes :: IsCode(c)
  }

  /** Lists a writer may produce: no NAL is empty and each is emulation-prevented. */
  ghost predicate Written(nals: seq<bytes>)
  {
    forall n | n in nals :: n != [] && EmulationPrevented(n)
  }

  /** Every NAL but the last is delimited by the code behind it when the search for its end begins at byte `i`. */
  predicate Delimited(nals: seq<bytes>, codes: seq<bytes>, i: nat)
    requires |nals| == |codes|
  {
    forall k | 0 <= k < |nals| - 1 :: Delimits(nals[k], i, codes[k + 1])
  }

  lemma DelimitedSplit(nals: seq<bytes>, codes: seq<bytes>, i: nat)
    requires |nals| == |codes| > 0
    ensures Delimited(nals, codes, i) <==>
            (|nals| == 1 || Delimits(nals[0], i, codes[1])) && Delimited(nals[1..], codes[1..], i)
  {
    hide Delimits;
    assert forall k | 0 <= k < |nals| - 1 :: nals[1..][k] == nals[k + 1] && codes[1..][k] == codes[k + 1];
    if (|nals| == 1 || Delimits(nals[0], i, codes[1])) && Delimited(nals[1..], codes[1..], i) {
      forall k | 0 <= k < |nals| - 1 ensures Delimits(nals[k], i, codes[k + 1]) {
        if k > 0 {
          assert Delimits(nals[1..][k - 1], i, codes[1..][k]);
        }
      }
    }
  }

  /** Searching for the end of the first NAL of a stream, from anywhere inside it. */
  lemma EndOfFirst(nals: seq<bytes>, codes: seq<bytes>, i: nat)
    requires |nals| == |codes| > 0 && Written(nals) && Codes(codes)
    requires i <= |nals[0]|
    ensures var n, rest := |nals[0]|, Join(nals[1..], codes[1..]);
            NalEnd(nals[0] + rest, i) == n <==> |nals| == 1 || Delimits(nals[0], i, codes[1])
  {
    hide Find, EmulationPrevented, EndsInZero, EndsInProtector, Visits;
    var rest := Join(nals[1..], codes[1..]);
    if |nals| == 1 {
      assert nals[0] + rest == nals[0];
      FindNoneInNal(nals[0], i);
    } else {
      var after := nals[1] + Join(nals[1..][1..], codes[1..][1..]);
      assert nals[0] + rest == nals[0] + codes[1] + after;
      FindBehind(nals[0], codes[1], after, i);
    }
  }

  lemma CodeFoundAtOnce(code: bytes, rest: bytes)
    requires IsCode(code)
    ensures Find(code + rest, 0) == Some(Code(0, |code|))
  {
    assert forall k | 0 <= k < |code| :: (code + rest)[k] == code[k];
  }

  lemma JoinParts(nals: seq<bytes>, codes: seq<bytes>)
    requires |nals| == |codes| > 0
    ensures var s, h := Join(nals, codes), |codes[0]|;
            && s == codes[0] + (nals[0] + Join(nals[1..], codes[1..])) && h + |nals[0]| <= |s|
            && s[h..h + |nals[0]|] == nals[0] && s[h + |nals[0]|..] == Join(nals[1..], codes[1..])
  {
    Assoc(codes[0], nals[0], Join(nals[1..], codes[1..]));
  }

  /** The same search inside the whole stream, where the first NAL sits behind its code. */
  lemma EndOfFirstInStream(nals: seq<bytes>, codes: seq<bytes>, i: nat)
    requires |nals| == |codes| > 0 && Written(nals) && Codes(codes)
    requires i <= |nals[0]|
    ensures var s, h := Join(nals, codes), |codes[0]|;
            && Find(s, 0) == Some(Code(0, h)) && h + |nals[0]| <= |s|
            && s[h..h + |nals[0]|] == nals[0] && s[h + |nals[0]|..] == Join(nals[1..], codes[1..])
            && (NalEnd(s, h + i) == h + |nals[0]| <==> |nals| == 1 || Delimits(nals[0], i, codes[1]))
  {
    hide Find, IsCode, Written, Join, Delimits;
    JoinParts(nals, codes);
    assert IsCode(codes[0]);
    var body := nals[0] + Join(nals[1..], codes[1..]);
    CodeFoundAtOnce(codes[0], body);
    FindShift(codes[0], body, i);
    EndOfFirst(nals, codes, i);
  }

  lemma AnnexBStepSuffix(data: bytes, at: nat, pos: nat)
    requires at <= |data| && pos <= |data| - at
    ensures AnnexBStep(data, at + pos) ==
            match AnnexBStep(data[at..], pos) { case Next(f, t) => Next(at + f, at + t) case other => other }
  {
    hide Find;
    FindSuffix(data, at, pos);
    var t := data[at..];
    if pos < |t| && Find(t, pos).Some? && Find(t, pos).value.End() < |t| {
      FindSuffix(data, at, Find(t, pos).value.End() + 1);
    }
  }

  /** Splitting a suffix of the data is splitting the data from the suffix's position. */
  lemma {:induction false} SplitSuffix(data: bytes, at: nat, pos: nat)
    requires at <= |data| && pos <= |data| - at
    ensures SplitFrom(data, at + pos) == SplitFrom(data[at..], pos)
    decreases |data| - at - pos
  {
    hide AnnexBStep, Prepend;
    AnnexBStepSuffix(data, at, pos);
    match AnnexBStep(data[at..], pos)
    case Next(from, to) =>
      assert data[at + from..at + to] == data[at..][from..to];
      SplitSuffix(data, at, to);
    case _ =>
  }

  lemma SplitOne(data: bytes, from: nat, to: nat)
    requires AnnexBStep(data, 0) == Next(from, to)
    ensures from < to <= |data|
    ensures SplitFrom(data, 0) == Prepend([data[from..to]], SplitFrom(data[to..], 0))
  {
    hide AnnexBStep, Prepend;
    SplitSuffix(data, to, 0);
  }

  lemma PrependOne(x: bytes, r: Result<seq<bytes>, H264Error>, nals: seq<bytes>)
    requires nals != []
    ensures Prepend([x], r) == Ok(nals) <==> x == nals[0] && r == Ok(nals[1..])
  {
    if r.Ok? {
      assert ([x] + r.value)[0] == x && ([x] + r.value)[1..] == r.value;
    }
    assert [nals[0]] + nals[1..] == nals;
  }

  lemma WrittenSplit(nals: seq<bytes>, codes: seq<bytes>)
    requires |nals| == |codes| > 0 && Written(nals) && Codes(codes)
    ensures nals[0] != [] && Written(nals[1..]) && Codes(codes[1..])
  {
    hide EmulationPrevented, IsCode;
    assert nals[0] in nals;
  }

  /** The round on a stream with a start code at its front. */
  lemma StepBehindCode(s: bytes, h: nat)
    requires Find(s, 0) == Some(Code(0, h)) && h < |s|
    ensures AnnexBStep(s, 0) == Next(h, NalEnd(s, h + 1))
  {
    hide Find;
  }

  /**
   * Splitting returns the NAL units that were joined exactly when the scan of each but the last, begun behind its
   * header byte, neither stands on a final 00 in front of a 3-byte code nor on a final 00 00 03.
   */
  lemma {:induction false} SplitJoinExactly(nals: seq<bytes>, codes: seq<bytes>)
    requires |nals| == |codes| && Written(nals) && Codes(codes)
    ensures SplitFrom(Join(nals, codes), 0) == Ok(nals) <==> Delimited(nals, codes, 1)
    decreases |nals|
  {
    if nals == [] {
      assert Join(nals, codes) == [];
    } else {
      hide *;
      var s, h := Join(nals, codes), |codes[0]|;
      WrittenSplit(nals, codes);
      EndOfFirstInStream(nals, codes, 1);
      var to := NalEnd(s, h + 1);
      StepBehindCode(s, h);
      SplitOne(s, h, to);
      PrependOne(s[h..to], SplitFrom(s[to..], 0), nals);
      DelimitedSplit(nals, codes, 1);
      if to == h + |nals[0]| {
        SplitJoinExactly(nals[1..], codes[1..]);
      }
    }
  }

  lemma CleanIsDelimited(nals: seq<bytes>, codes: seq<bytes>, i: nat)
    requires |nals| == |codes| && CleanList(nals)
    ensures Written(nals) && Delimited(nals, codes, i)
  {
    forall k | 0 <= k < |nals| - 1 ensures Delimits(nals[k], i, codes[k + 1]) {
      CleanDelimits(nals[k], i, codes[k + 1]);
    }
  }

  /** Clean NAL units come back whatever mix of start codes is used. */
  lemma SplitJoin(nals: seq<bytes>, codes: seq<bytes>)
    requires |nals| == |codes| && CleanList(nals) && Codes(codes)
    ensures SplitFrom(Join(nals, codes), 0) == Ok(nals)
  {
    CleanIsDelimited(nals, codes, 1);
    SplitJoinExactly(nals, codes);
  }

  /** A trailing zero byte in front of a 3-byte code is taken for the first byte of a 4-byte code. */
  lemma TrailingZeroIsLost()
    ensures SplitFrom(Join([[0x65, 0], [0x41]], [CODE3, CODE3]), 0) == Ok([[0x65], [0x41]])
  {
    var s: bytes := [0, 0, 1, 0x65, 0, 0, 0, 1, 0x41];
    assert Join([[0x41]], [CODE3]) == CODE3 + [0x41] + Join([], []);
    assert Join([[0x65, 0], [0x41]], [CODE3, CODE3]) == s;
    assert AnnexBStep(s, 0) == Next(3, 4) && AnnexBStep(s, 4) == Next(8, 9) by {
      assert Find(s, 0) == Some(Code(0, 3)) && Find(s, 4) == Some(Code(4, 4)) && Find(s, 9) == None;
    }
    hide Find, AnnexBStep;
    assert s[3..4] == [0x65] && s[8..9] == [0x41];
    PrependToNone([[0x41]]);
    assert SplitFrom(s, 4) == Prepend([[0x41]], SplitFrom(s, 9));
    assert SplitFrom(s, 0) == Prepend([[0x65]], SplitFrom(s, 4));
    assert [[0x65]] + [[0x41]] == [[0x65], [0x41]];
  }

  /** A trailing zero that a 00 00 03 protects does no harm: the scan jumps over it. */
  lemma ProtectedZeroSurvives()
    ensures SplitFrom(Join([[0x65, 0, 0, 3, 0], [0x41]], [CODE3, CODE3]), 0) == Ok([[0x65, 0, 0, 3, 0], [0x41]])
  {
    var nal: bytes := [0x65, 0, 0, 3, 0];
    assert IsProtected(nal, 1) && !Visits(nal, 5, 4) && !Visits(nal, 1, 4);
    SplitJoinExactly([nal, [0x41]], [CODE3, CODE3]);
  }

  /** A NAL ending in 00 00 03 swallows a 3-byte code behind it: both NALs come back as one. */
  lemma TrailingProtectorSwallowsCode()
    ensures SplitFrom(Join([[0x65, 0, 0, 3], [0x41]], [CODE3, CODE3]), 0) == Ok([[0x65, 0, 0, 3, 0, 0, 1, 0x41]])
  {
    var s: bytes := [0, 0, 1, 0x65, 0, 0, 3, 0, 0, 1, 0x41];
    assert Join([[0x41]], [CODE3]) == CODE3 + [0x41] + Join([], []);
    assert Join([[0x65, 0, 0, 3], [0x41]], [CODE3, CODE3]) == s;
    assert AnnexBStep(s, 0) == Next(3, 11) by {
      assert Find(s, 0) == Some(Code(0, 3));
      assert IsProtected(s, 4);
      assert Find(s, 9) == None && Find(s, 8) == None && Find(s, 4) == None;
    }
    hide Find, AnnexBStep, IsProtected;
    assert s[3..11] == [0x65, 0, 0, 3, 0, 0, 1, 0x41];
    PrependToNone([s[3..11]]);
    assert SplitFrom(s, 0) == Prepend([s[3..11]], SplitFrom(s, 11));
  }

  // ---- AVCC ----

  predicate LengthSize(n: int)
  {
    n == 1 || n == 2 || n == 4
  }

  /** One more than the largest length a prefix of `lengthSize` bytes can hold. */
  function LengthLimit(lengthSize: int): int
    requires LengthSize(lengthSize)
  {
    if lengthSize == 1 then 0x100 else if lengthSize == 2 then 0x1_0000 else 0x1_0000_0000
  }

  /** The length cast to the prefix's width and written most significant byte first. */
  function LengthPrefix(lengthSize: int, n: nat): (p: bytes)
    requires LengthSize(lengthSize)
    ensures |p| == lengthSize
  {
    if lengthSize == 1 then [n % 0x100]
    else if lengthSize == 2 then BE16(n % 0x1_0000)
    else BE32(n % 0x1_0000_0000)
  }

  function ReadLength(lengthSize: int, p: bytes): (n: nat)
    requires LengthSize(lengthSize) && |p| == lengthSize
  {
    if lengthSize == 1 then p[0] else if lengthSize == 2 then FromBE16(p) else FromBE32(p)
  }

  lemma ReadLengthInvertsPrefix(lengthSize: int, n: nat)
    requires LengthSize(lengthSize)
    ensures ReadLength(lengthSize, LengthPrefix(lengthSize, n)) == n % LengthLimit(lengthSize)
  {
    if lengthSize == 2 {
      BE16RoundTrip(n % 0x1_0000);
    } else if lengthSize == 4 {
      BE32RoundTrip(n % 0x1_0000_0000);
    }
  }

  function ToAnnexB(u: NalUnit): bytes
  {
    CODE4 + u.data
  }

  function ToAvcc(u: NalUnit, lengthSize: int): Result<bytes, H264Error>
  {
    if !LengthSize(lengthSize) then Err(InvalidNalLength)
    else if |u.data| >= LengthLimit(lengthSize) then Err(InvalidNalLength)
    else Ok(LengthPrefix(lengthSize, |u.data|) + u.data)
  }

  /** The round at `pos` of the length-prefixed splitter. */
  function AvccStep(data: bytes, pos: nat, lengthSize: int): (s: Step)
    requires pos <= |data| && LengthSize(lengthSize)
    ensures s.Next? ==> pos < s.from < s.to <= |data|
  {
    if pos == |data| then Done
    else if pos + lengthSize > |data| then Bad(EndOfStream)
    else
      var from := pos + lengthSize;
      var len := ReadLength(lengthSize, data[pos..from]);
      if len == 0 || len > |data| - from then Bad(InvalidNalLength) else Next(from, from + len)
  }

  /** The length-prefixed units of `data` from `pos` on. */
  function AvccFrom(data: bytes, pos: nat, lengthSize: int): (r: Result<seq<bytes>, H264Error>)
    requires pos <= |data| && LengthSize(lengthSize)
    ensures r.Ok? ==> NonEmpty(r.value)
    decreases |data| - pos
  {
    match AvccStep(data, pos, lengthSize)
    case Done => Ok([])
    case Bad(e) => Err(e)
    case Next(from, to) => Prepend([data[from..to]], AvccFrom(data, to, lengthSize))
  }

  method ReadUnit(data: bytes, pos: nat, lengthSize: int) returns (s: Step)
    requires pos < |data| && LengthSize(lengthSize)
    ensures s == AvccStep(data, pos, lengthSize)
  {
    if pos + lengthSize > |data| {
      return Bad(EndOfStream);
    }
    var from := pos + lengthSize;
    var len := ReadLength(lengthSize, data[pos..from]);
    if len == 0 || len > |data| - from {
      return Bad(InvalidNalLength);
    }
    return Next(from, from + len);
  }

  method SplitAvcc(data: bytes, lengthSize: int) returns (r: Result<seq<NalUnit>, H264Error>)
    ensures !LengthSize(lengthSize) ==> r == Err(InvalidNalLength)
    ensures LengthSize(lengthSize) ==>
              match AvccFrom(data, 0, lengthSize)
              case Ok(nals) => r == Ok(Units(nals))
              case Err(e) => r == Err(e)
  {
    if !LengthSize(lengthSize) {
      return Err(InvalidNalLength);
    }
    var units := [];
    ghost var nals := [];
    var pos := 0;
    PrependNone(AvccFrom(data, 0, lengthSize));
    while pos < |data|
      invariant pos <= |data|
      invariant NonEmpty(nals) && units == Units(nals)
      invariant AvccFrom(data, 0, lengthSize) == Prepend(nals, AvccFrom(data, pos, lengthSize))
      decreases |data| - pos
    {
      var round := ReadUnit(data, pos, lengthSize);
      if round.Bad? {
        return Err(round.error);
      }
      var nal := data[round.from..round.to];
      UnitsSnoc(nals, nal);
      PrependTwice(nals, nal, AvccFrom(data, round.to, lengthSize));
      units := units + [Unit(nal)];
      nals := nals + [nal];
      pos := round.to;
    }
    PrependToNone(nals);
    return Ok(units);
  }

  /** Every NAL unit is non-empty and its length fits the prefix. */
  ghost predicate Fits(nals: seq<bytes>, lengthSize: int)
    requires LengthSize(lengthSize)
  {
    forall n | n in nals :: 0 < |n| < LengthLimit(lengthSize)
  }

  /** The AVCC form of a list of NAL units. */
  function AvccJoin(nals: seq<bytes>, lengthSize: int): bytes
    requires LengthSize(lengthSize)
  {
    if nals == [] then []
    else LengthPrefix(lengthSize, |nals[0]|) + nals[0] + AvccJoin(nals[1..], lengthSize)
  }

  lemma AvccStepSuffix(data: bytes, at: nat, pos: nat, lengthSize: int)
    requires LengthSize(lengthSize) && at <= |data| && pos <= |data| - at
    ensures AvccStep(data, at + pos, lengthSize) ==
            match AvccStep(data[at..], pos, lengthSize) { case Next(f, t) => Next(at + f, at + t) case other => other }
  {
    if pos + lengthSize <= |data| - at {
      assert data[at + pos..at + pos + lengthSize] == data[at..][pos..pos + lengthSize];
    }
  }

  lemma {:induction false} AvccSuffix(data: bytes, at: nat, pos: nat, lengthSize: int)
    requires LengthSize(lengthSize) && at <= |data| && pos <= |data| - at
    ensures AvccFrom(data, at + pos, lengthSize) == AvccFrom(data[at..], pos, lengthSize)
    decreases |data| - at - pos
  {
    hide AvccStep, Prepend;
    AvccStepSuffix(data, at, pos, lengthSize);
    match AvccStep(data[at..], pos, lengthSize)
    case Next(from, to) =>
      assert data[at + from..at + to] == data[at..][from..to];
      AvccSuffix(data, at, to, lengthSize);
    case _ =>
  }

  /** The first round on a joined list finds its first unit. */
  lemma AvccFirst(n: bytes, rest: bytes, lengthSize: int)
    requires LengthSize(lengthSize) && 0 < |n| < LengthLimit(lengthSize)
    ensures var s := LengthPrefix(lengthSize, |n|) + n + rest;
            && AvccStep(s, 0, lengthSize) == Next(lengthSize, lengthSize + |n|)
            && s[lengthSize..lengthSize + |n|] == n && s[lengthSize + |n|..] == rest
  {
    hide ReadLength, LengthPrefix;
    var s := LengthPrefix(lengthSize, |n|) + n + rest;
    assert s[0..lengthSize] == LengthPrefix(lengthSize, |n|);
    ReadLengthInvertsPrefix(lengthSize, |n|);
    InLimit(lengthSize, |n|);
    assert s[lengthSize + |n|..] == rest;
  }

  lemma InLimit(lengthSize: int, n: nat)
    requires LengthSize(lengthSize) && n < LengthLimit(lengthSize)
    ensures n % LengthLimit(lengthSize) == n
  {
  }

  lemma AvccOne(data: bytes, from: nat, to: nat, lengthSize: int)
    requires LengthSize(lengthSize) && AvccStep(data, 0, lengthSize) == Next(from, to)
    ensures from < to <= |data|
    ensures AvccFrom(data, 0, lengthSize) == Prepend([data[from..to]], AvccFrom(data[to..], 0, lengthSize))
  {
    hide AvccStep, Prepend;
    AvccSuffix(data, to, 0, lengthSize);
  }

  /** AVCC splitting inverts AVCC joining. */
  lemma {:induction false} AvccSplitJoin(nals: seq<bytes>, lengthSize: int)
    requires LengthSize(lengthSize) && Fits(nals, lengthSize)
    ensures AvccFrom(AvccJoin(nals, lengthSize), 0, lengthSize) == Ok(nals)
    decreases |nals|
  {
    if nals == [] {
      assert AvccJoin(nals, lengthSize) == [];
    } else {
      AvccFirst(nals[0], AvccJoin(nals[1..], lengthSize), lengthSize);
      AvccOne(AvccJoin(nals, lengthSize), lengthSize, lengthSize + |nals[0]|, lengthSize);
      AvccSplitJoin(nals[1..], lengthSize);
      assert [nals[0]] + nals[1..] == nals;
    }
  }

  // ---- Conversions ----

  /** What converting Annex-B to AVCC yields. */
  ghost function AnnexBToAvccSpec(data: bytes, lengthSize: int): Result<bytes, H264Error>
  {
    match SplitFrom(data, 0)
    case Err(e) => Err(e)
    case Ok(nals) =>
      if nals == [] then Ok([])
      else if LengthSize(lengthSize) && Fits(nals, lengthSize) then Ok(AvccJoin(nals, lengthSize))
      else Err(InvalidNalLength)
  }

  lemma AvccJoinSnoc(nals: seq<bytes>, n: bytes, lengthSize: int)
    requires LengthSize(lengthSize)
    ensures AvccJoin(nals + [n], lengthSize) == AvccJoin(nals, lengthSize) + (LengthPrefix(lengthSize, |n|) + n)
  {
    if nals != [] {
      assert (nals + [n])[1..] == nals[1..] + [n];
      AvccJoinSnoc(nals[1..], n, lengthSize);
    }
  }

  /** The part of `AvccJoin` written after `k` units. */
  ghost function AvccPrefix(nals: seq<bytes>, k: nat, lengthSize: int): bytes
    requires k <= |nals|
  {
    if k == 0 || !LengthSize(lengthSize) then [] else AvccJoin(nals[..k], lengthSize)
  }

  lemma AvccPrefixStep(nals: seq<bytes>, k: nat, lengthSize: int)
    requires k < |nals| && LengthSize(lengthSize)
    ensures AvccPrefix(nals, k + 1, lengthSize) ==
            AvccPrefix(nals, k, lengthSize) + (LengthPrefix(lengthSize, |nals[k]|) + nals[k])
  {
    assert nals[..k + 1] == nals[..k] + [nals[k]];
    AvccJoinSnoc(nals[..k], nals[k], lengthSize);
  }

  lemma AvccPrefixWhole(nals: seq<bytes>, lengthSize: int)
    requires LengthSize(lengthSize)
    ensures AvccPrefix(nals, |nals|, lengthSize) == AvccJoin(nals, lengthSize)
  {
    assert nals[..|nals|] == nals;
  }

  /** The first `k` units fit their prefixes. */
  ghost predicate FitTo(nals: seq<bytes>, k: nat, lengthSize: int)
    requires k <= |nals|
  {
    k > 0 ==> LengthSize(lengthSize) && forall j | 0 <= j < k :: |nals[j]| < LengthLimit(lengthSize)
  }

  lemma ConvertStep(nals: seq<bytes>, k: nat, lengthSize: int)
    requires k < |nals| && NonEmpty(nals) && FitTo(nals, k, lengthSize)
    ensures var converted := ToAvcc(Unit(nals[k]), lengthSize);
            && (converted.Err? ==>
                  converted.error == InvalidNalLength && !(LengthSize(lengthSize) && Fits(nals, lengthSize)))
            && (converted.Ok? ==> FitTo(nals, k + 1, lengthSize)
                                  && AvccPrefix(nals, k + 1, lengthSize) ==
                                  AvccPrefix(nals, k, lengthSize) + converted.value)
  {
    hide AvccJoin, LengthPrefix, AvccPrefix;
    assert nals[k] in nals;
    if LengthSize(lengthSize) {
      AvccPrefixStep(nals, k, lengthSize);
    }
  }

  lemma ConvertEnd(nals: seq<bytes>, lengthSize: int)
    requires NonEmpty(nals) && FitTo(nals, |nals|, lengthSize)
    ensures nals == [] ==> AvccPrefix(nals, 0, lengthSize) == []
    ensures nals != [] ==> LengthSize(lengthSize) && Fits(nals, lengthSize)
                           && AvccPrefix(nals, |nals|, lengthSize) == AvccJoin(nals, lengthSize)
  {
    hide AvccJoin;
    if nals != [] {
      AvccPrefixWhole(nals, lengthSize);
    }
  }

  method AnnexBToAvcc(data: bytes, lengthSize: int) returns (r: Result<bytes, H264Error>)
    ensures r == AnnexBToAvccSpec(data, lengthSize)
  {
    hide SplitFrom, AvccJoin, AvccPrefix, FitTo, Fits, ToAvcc, Unit;
    var split := SplitAnnexB(data);
    if split.Err? {
      return Err(split.error);
    }
    ghost var nals := SplitFrom(data, 0).value;
    var out := [];
    NoneConverted(nals, lengthSize);
    for k := 0 to |split.value|
      invariant FitTo(nals, k, lengthSize) && out == AvccPrefix(nals, k, lengthSize)
    {
      ConvertStep(nals, k, lengthSize);
      var converted := ToAvcc(split.value[k], lengthSize);
      if converted.Err? {
        return Err(converted.error);
      }
      out := out + converted.value;
    }
    ConvertEnd(nals, lengthSize);
    return Ok(out);
  }

  lemma NoneConverted(nals: seq<bytes>, lengthSize: int)
    ensures FitTo(nals, 0, lengthSize) && AvccPrefix(nals, 0, lengthSize) == []
  {
  }

  function FourByteCodes(n: nat): (c: seq<bytes>)
    ensures |c| == n && Codes(c)
  {
    if n == 0 then [] else [CODE4] + FourByteCodes(n - 1)
  }

  /** What converting AVCC to Annex-B yields: the same units, each behind a 4-byte code. */
  function AvccToAnnexBSpec(data: bytes, lengthSize: int): Result<bytes, H264Error>
  {
    if !LengthSize(lengthSize) then Err(InvalidNalLength)
    else
      match AvccFrom(data, 0, lengthSize)
      case Err(e) => Err(e)
      case Ok(nals) => Ok(Join(nals, FourByteCodes(|nals|)))
  }

  lemma {:induction false} JoinSnoc(nals: seq<bytes>, n: bytes)
    ensures Join(nals + [n], FourByteCodes(|nals| + 1)) == Join(nals, FourByteCodes(|nals|)) + (CODE4 + n)
    decreases |nals|
  {
    if nals == [] {
      assert FourByteCodes(1) == [CODE4] + FourByteCodes(0);
      assert Join([n], FourByteCodes(1)) == CODE4 + n + Join([], []);
    } else {
      assert (nals + [n])[1..] == nals[1..] + [n];
      JoinSnoc(nals[1..], n);
    }
  }

  method AvccToAnnexB(data: bytes, lengthSize: int) returns (r: Result<bytes, H264Error>)
    ensures r == AvccToAnnexBSpec(data, lengthSize)
  {
    var split := SplitAvcc(data, lengthSize);
    if split.Err? {
      return Err(split.error);
    }
    ghost var nals := AvccFrom(data, 0, lengthSize).value;
    var out := [];
    for k := 0 to |split.value|
      invariant out == Join(nals[..k], FourByteCodes(k))
    {
      assert nals[..k + 1] == nals[..k] + [nals[k]];
      JoinSnoc(nals[..k], nals[k]);
      out := out + ToAnnexB(split.value[k]);
    }
    assert nals[..|nals|] == nals;
    return Ok(out);
  }

  /** What any codes delimit, 4-byte codes do too. */
  lemma FourByteCodesDelimit(nals: seq<bytes>, codes: seq<bytes>)
    requires |nals| == |codes| && Delimited(nals, codes, 1)
    ensures Delimited(nals, FourByteCodes(|nals|), 1)
  {
    forall k | 0 <= k < |nals| - 1 ensures Delimits(nals[k], 1, FourByteCodes(|nals|)[k + 1]) {
      assert Delimits(nals[k], 1, codes[k + 1]);
      FourByteCodeAt(|nals|, k + 1);
    }
  }

  lemma FourByteCodeAt(n: nat, k: nat)
    requires k < n
    ensures FourByteCodes(n)[k] == CODE4
  {
    if k > 0 {
      FourByteCodeAt(n - 1, k - 1);
    }
  }

  /**
   * Converting an Annex-B stream to AVCC and back keeps the list of NAL units and puts a 4-byte code before each;
   * the conversion succeeds exactly when every unit's length fits the prefix.
   */
  lemma ConversionRoundTrip(nals: seq<bytes>, codes: seq<bytes>, lengthSize: int)
    requires |nals| == |codes| && Written(nals) && Codes(codes) && Delimited(nals, codes, 1) && LengthSize(lengthSize)
    ensures AnnexBToAvccSpec(Join(nals, codes), lengthSize).Ok? <==> Fits(nals, lengthSize)
    ensures Fits(nals, lengthSize) ==>
              && AnnexBToAvccSpec(Join(nals, codes), lengthSize) == Ok(AvccJoin(nals, lengthSize))
              && AvccToAnnexBSpec(AvccJoin(nals, lengthSize), lengthSize) == Ok(Join(nals, FourByteCodes(|nals|)))
              && SplitFrom(Join(nals, FourByteCodes(|nals|)), 0) == Ok(nals)
  {
    SplitJoinExactly(nals, codes);
    if Fits(nals, lengthSize) {
      AvccSplitJoin(nals, lengthSize);
      FourByteCodesDelimit(nals, codes);
      SplitJoinExactly(nals, FourByteCodes(|nals|));
    }
  }
}

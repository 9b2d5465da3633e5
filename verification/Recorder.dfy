/** The progressive MP4 recorder: all samples in one chunk, `moov` in front of it, the chunk offset patched in. */
module Recorder {
  import opened Bytes
  import opened Boxes
  import opened NestedBoxes
  import opened RunLength
  import opened FragmentWriter

  const MVHD: fourcc := 0x6D766864
  const TRAK: fourcc := 0x7472616B
  const TKHD: fourcc := 0x746B6864
  const MDIA: fourcc := 0x6D646961
  const MDHD: fourcc := 0x6D646864
  const HDLR: fourcc := 0x68646C72
  const MINF: fourcc := 0x6D696E66
  const VMHD: fourcc := 0x766D6864
  const SMHD: fourcc := 0x736D6864
  const DINF: fourcc := 0x64696E66
  const STBL: fourcc := 0x7374626C
  const STSD: fourcc := 0x73747364
  const STTS: fourcc := 0x73747473
  const CTTS: fourcc := 0x63747473
  const STSC: fourcc := 0x73747363
  const STSZ: fourcc := 0x7374737A
  const STCO: fourcc := 0x7374636F
  const CO64: fourcc := 0x636F3634
  const STSS: fourcc := 0x73747373

  /** The bodies of the boxes that only depend on the track's configuration are opaque; two of them can fail. */
  datatype Config = Config(trackId: u32, video: bool, mvhd: Result<bytes, Mp4Error>, tkhd: bytes, mdhd: bytes,
                           hdlr: bytes, mediaHeader: bytes, dinf: bytes, stsd: Result<bytes, Mp4Error>)

  datatype Sample = Sample(dts: i64, pts: i64, duration: u64, payload: bytes, key: bool)

  /** A pushed packet: a missing decode time is 0, a missing presentation time the decode time, a bad duration 0. */
  function SampleOf(p: Packet): Sample
  {
    var dts := if p.dts.Some? then p.dts.value else 0;
    Sample(dts, if p.pts.Some? then p.pts.value else dts,
           if p.duration.Some? && p.duration.value >= 0 then p.duration.value else 0, p.payload, p.key)
  }

  // ---- Tables ----

  function Durations(samples: seq<Sample>): (d: seq<int>)
    ensures |d| == |samples|
  {
    seq(|samples|, k requires 0 <= k < |samples| => samples[k].duration)
  }

  function SaturatedI64(v: int): i64
  {
    if v > I64_MAX then I64_MAX else if v < -I64_MAX - 1 then -I64_MAX - 1 else v
  }

  function CompositionOffsets(samples: seq<Sample>): (o: seq<int>)
    ensures |o| == |samples|
  {
    seq(|samples|, k requires 0 <= k < |samples| => SaturatedI64(samples[k].pts - samples[k].dts))
  }

  predicate Reordered(samples: seq<Sample>)
  {
    exists k | 0 <= k < |samples| :: samples[k].pts != samples[k].dts
  }

  predicate AllKeys(samples: seq<Sample>)
  {
    forall k | 0 <= k < |samples| :: samples[k].key
  }

  function TimeTable(boxType: fourcc, version: byte, runs: Result<seq<TimeRun>, Mp4Error>,
                     field: string): Result<Child, Mp4Error>
  {
    match runs
    case Err(e) => Err(e)
    case Ok(rs) =>
      if |rs| > U32_MAX then Err(LimitExceeded(field))
      else Ok(Child(boxType, FullBox(version, 0) + (BE32(|rs|) + RunWords(rs))))
  }

  function Stts(samples: seq<Sample>): Result<Child, Mp4Error>
  {
    TimeTable(STTS, 0, Encode(Durations(samples), 0, U32_MAX, "stts duration"), "stts entry count")
  }

  function Ctts(samples: seq<Sample>): Result<Child, Mp4Error>
  {
    TimeTable(CTTS, 1, Encode(CompositionOffsets(samples), -I32_MAX - 1, I32_MAX, "ctts composition offset"),
              "ctts entry count")
  }

  /** One chunk with all the samples. */
  function Stsc(samples: seq<Sample>): Result<Child, Mp4Error>
  {
    if |samples| > U32_MAX then Err(LimitExceeded("stsc samples per chunk"))
    else Ok(Child(STSC, FullBox(0, 0) + BE32(1) + BE32(1) + BE32(|samples|) + BE32(1)))
  }

  /** The sizes of the first `n` samples. */
  function Sizes(samples: seq<Sample>, n: nat): (r: Result<seq<u32>, Mp4Error>)
    requires n <= |samples|
    ensures r.Ok? ==> |r.value| == n
  {
    if n == 0 then Ok([])
    else
      match Sizes(samples, n - 1)
      case Err(e) => Err(e)
      case Ok(s) =>
        if |samples[n - 1].payload| > U32_MAX then Err(LimitExceeded("sample size exceeds u32"))
        else Ok(s + [|samples[n - 1].payload|])
  }

  function WordTable(boxType: fourcc, front: bytes, words: Result<seq<u32>, Mp4Error>,
                     field: string): Result<Child, Mp4Error>
  {
    match words
    case Err(e) => Err(e)
    case Ok(ws) =>
      if |ws| > U32_MAX then Err(LimitExceeded(field)) else Ok(Child(boxType, front + (BE32(|ws|) + Words(ws))))
  }

  function Stsz(samples: seq<Sample>): Result<Child, Mp4Error>
  {
    WordTable(STSZ, FullBox(0, 0) + BE32(0), Sizes(samples, |samples|), "stsz entry count")
  }

  /** The numbers, from 1, of the keyframes among the first `n` samples. */
  function Syncs(samples: seq<Sample>, n: nat): (r: Result<seq<u32>, Mp4Error>)
    requires n <= |samples|
    ensures r.Ok? ==> |r.value| <= n
  {
    if n == 0 then Ok([])
    else
      match Syncs(samples, n - 1)
      case Err(e) => Err(e)
      case Ok(s) =>
        if !samples[n - 1].key then Ok(s)
        else if n > U32_MAX then Err(LimitExceeded("stss entry index"))
        else Ok(s + [n])
  }

  function Stss(samples: seq<Sample>): Result<Child, Mp4Error>
  {
    WordTable(STSS, FullBox(0, 0), Syncs(samples, |samples|), "stss entry count")
  }

  function ChunkType(co64: bool): fourcc { if co64 then CO64 else STCO }

  function OffsetWidth(co64: bool): nat { if co64 then 8 else 4 }

  /** The chunk offset box around an offset field. */
  function ChunkOffsets(co64: bool, field: bytes): Child
  {
    Child(ChunkType(co64), (FullBox(0, 0) + BE32(1)) + field)
  }

  /** One more box, or the first error. */
  function Then(before: Result<seq<Child>, Mp4Error>, next: Result<Child, Mp4Error>): Result<seq<Child>, Mp4Error>
  {
    match before
    case Err(e) => Err(e)
    case Ok(cs) => match next { case Err(e) => Err(e) case Ok(c) => Ok(cs + [c]) }
  }

  /** The sample tables in front of the chunk offset. */
  function TablesBefore(cfg: Config, samples: seq<Sample>): Result<seq<Child>, Mp4Error>
  {
    var stsd := match cfg.stsd { case Err(e) => Err(e) case Ok(b) => Ok(Child(STSD, b)) };
    var times := Then(Then(Ok([]), stsd), Stts(samples));
    var offsets := if Reordered(samples) then Then(times, Ctts(samples)) else times;
    Then(Then(offsets, Stsc(samples)), Stsz(samples))
  }

  /** The children of `stbl`, with an offset field. */
  function Tables(cfg: Config, samples: seq<Sample>, co64: bool, field: bytes): Result<seq<Child>, Mp4Error>
  {
    var before := Then(TablesBefore(cfg, samples), Ok(ChunkOffsets(co64, field)));
    if AllKeys(samples) then before else Then(before, Stss(samples))
  }

  // ---- The boxes around the tables ----

  function Minf(cfg: Config, stbl: bytes): seq<Child>
  {
    [Child(if cfg.video then VMHD else SMHD, cfg.mediaHeader), Child(DINF, cfg.dinf), Child(STBL, stbl)]
  }

  function Mdia(cfg: Config, minf: bytes): seq<Child>
  {
    [Child(MDHD, cfg.mdhd), Child(HDLR, cfg.hdlr), Child(MINF, minf)]
  }

  function Trak(cfg: Config, mdia: bytes): seq<Child>
  {
    [Child(TKHD, cfg.tkhd), Child(MDIA, mdia)]
  }

  function MoovChildren(cfg: Config, mvhd: bytes, trak: bytes): seq<Child>
  {
    [Child(MVHD, mvhd), Child(TRAK, trak)]
  }

  /** The body of `moov` around that of `stbl`. */
  function Around(cfg: Config, mvhd: bytes, stbl: bytes): bytes
  {
    BoxesOf(MoovChildren(cfg, mvhd, BoxesOf(Trak(cfg, BoxesOf(Mdia(cfg, BoxesOf(Minf(cfg, stbl))))))))
  }

  function MoovBody(cfg: Config, samples: seq<Sample>, co64: bool, field: bytes): Result<bytes, Mp4Error>
  {
    match cfg.mvhd
    case Err(e) => Err(e)
    case Ok(mvhd) =>
      match Tables(cfg, samples, co64, field)
      case Err(e) => Err(e)
      case Ok(tables) => Ok(Around(cfg, mvhd, BoxesOf(tables)))
  }

  // ---- The file ----

  function Brands(): (s: bytes)
    ensures |s| == 16
  {
    BE32(0x69736F6D) + [0, 0, 2, 0] + BE32(0x69736F6D) + BE32(0x6D703431)
  }

  function Ftyp(): (s: bytes)
    ensures |s| == 24
  {
    WriteBox(FTYP, Brands())
  }

  function Payload(samples: seq<Sample>): bytes
    decreases |samples|
  {
    if samples == [] then [] else Payload(samples[..|samples| - 1]) + samples[|samples| - 1].payload
  }

  function PathTo(boxType: fourcc): seq<fourcc>
  {
    [TRAK, MDIA, MINF, STBL, boxType]
  }

  /** `moov` with a placeholder, where the payload is thought to begin, and where the offset field is. */
  datatype Built = Built(moovBody: bytes, chunkOffset: u64, patch: nat)

  function Build(cfg: Config, samples: seq<Sample>, mdatHeader: nat, co64: bool): Result<Built, Mp4Error>
  {
    match MoovBody(cfg, samples, co64, Zeros(OffsetWidth(co64)))
    case Err(e) => Err(e)
    case Ok(body) =>
      match FindNested(body, PathTo(ChunkType(co64)))
      case None => Err(InvalidInput(3604))
      case Some(p) =>
        if p + 8 > |body| then Err(InvalidInput(3605))
        else if |body| + 8 > U64_MAX then Err(LimitExceeded("moov box size overflow"))
        else if 24 + (|body| + 8) + mdatHeader > U64_MAX then Err(LimitExceeded("chunk offset overflow"))
        else Ok(Built(body, 24 + (|body| + 8) + mdatHeader, p + 8))
  }

  function OffsetField(co64: bool, offset: u64): (f: bytes)
    requires !co64 ==> offset <= U32_MAX
    ensures |f| == OffsetWidth(co64)
  {
    if co64 then BE64(offset) else BE32(offset)
  }

  /** The `moov` body with its offset: with 32 bits when it fits, else laid out again with 64. */
  function MoovPatched(cfg: Config, samples: seq<Sample>, mdatHeader: nat): Result<bytes, Mp4Error>
  {
    match Build(cfg, samples, mdatHeader, false)
    case Err(e) => Err(e)
    case Ok(first) =>
      var co64 := first.chunkOffset > U32_MAX;
      match if co64 then Build(cfg, samples, mdatHeader, true) else Ok(first)
      case Err(e) => Err(e)
      case Ok(built) =>
        if built.patch + OffsetWidth(co64) > |built.moovBody| then Err(InvalidInput(3606))
        else Ok(Overwrite(built.moovBody, built.patch, OffsetField(co64, built.chunkOffset)))
  }

  function FileOf(config: Option<Config>, samples: seq<Sample>): Result<bytes, Mp4Error>
  {
    match config
    case None => Err(Unsupported(3602))
    case Some(cfg) =>
      var mdatHeader := HeaderLength(|Payload(samples)|);
      if samples == [] then Err(InvalidInput(3603))
      else if |Payload(samples)| + mdatHeader > U64_MAX then Err(LimitExceeded("mdat size overflow"))
      else
        match MoovPatched(cfg, samples, mdatHeader)
        case Err(e) => Err(e)
        case Ok(body) =>
          if |Payload(samples)| + mdatHeader > I64_MAX then
            Err(LimitExceeded("mdat total size exceeds addressable memory"))
          else Ok(Ftyp() + WriteBox(MOOV, body) + WriteBox(MDAT, Payload(samples)))
  }

  // ---- The writer ----

  method WriteTimeTable(boxType: fourcc, version: byte, runs: seq<TimeRun>, field: string)
    returns (r: Result<bytes, Mp4Error>)
    ensures r ==
            match TimeTable(boxType, version, Ok(runs), field) { case Err(e) => Err(e) case Ok(c) => Ok(Written(c)) }
  {
    hide BE32, WriteBox, FullBox;
    var body := FullBox(version, 0);
    if |runs| > U32_MAX {
      return Err(LimitExceeded(field));
    }
    body := body + BE32(|runs|);
    ghost var front := body;
    assert front + [] == front;
    for i := 0 to |runs|
      invariant body == front + RunWords(runs[..i])
    {
      assert runs[..i + 1][..i] == runs[..i];
      var entry := BE32(runs[i].count) + BE32(Low32(runs[i].value));
      Assoc(front, RunWords(runs[..i]), entry);
      body := body + entry;
    }
    assert runs[..|runs|] == runs;
    Assoc(FullBox(version, 0), BE32(|runs|), RunWords(runs));
    return Ok(WriteBox(boxType, body));
  }

  method WriteWordTable(boxType: fourcc, front: bytes, words: seq<u32>, field: string)
    returns (r: Result<bytes, Mp4Error>)
    ensures r ==
            match WordTable(boxType, front, Ok(words), field) { case Err(e) => Err(e) case Ok(c) => Ok(Written(c)) }
  {
    hide BE32, WriteBox;
    if |words| > U32_MAX {
      return Err(LimitExceeded(field));
    }
    var body := front + BE32(|words|);
    ghost var start := body;
    assert start + [] == start;
    for i := 0 to |words|
      invariant body == start + Words(words[..i])
    {
      assert words[..i + 1][..i] == words[..i];
      Assoc(start, Words(words[..i]), BE32(words[i]));
      body := body + BE32(words[i]);
    }
    assert words[..|words|] == words;
    Assoc(front, BE32(|words|), Words(words));
    return Ok(WriteBox(boxType, body));
  }

  lemma BoxesSnoc(done: seq<Child>, c: Child)
    ensures BoxesOf(done + [c]) == BoxesOf(done) + Written(c)
  {
    hide Written;
    assert (done + [c])[..|done|] == done;
  }

  /** A table of run-length encoded values. */
  method WriteRuns(boxType: fourcc, version: byte, values: seq<int>, low: int, high: int, what: string, count: string)
    returns (r: Result<bytes, Mp4Error>)
    ensures r == match TimeTable(boxType, version, Encode(values, low, high, what), count)
                 case Err(e) => Err(e)
                 case Ok(c) => Ok(Written(c))
  {
    hide Encode, Written, RunWords;
    var runs := RunLengthEncode(values, low, high, what);
    if runs.Err? {
      return Err(runs.error);
    }
    r := WriteTimeTable(boxType, version, runs.value, count);
  }

  class Mp4Muxer {
    var config: Option<Config>
    var samples: seq<Sample>

    constructor ()
      ensures config == None && samples == []
    {
      config, samples := None, [];
    }

    method Configure(cfg: Config)
      modifies this`config
      ensures config == Some(cfg)
    {
      config := Some(cfg);
    }

    method PushPacket(trackId: u32, p: Packet) returns (r: Result<(), Mp4Error>)
      modifies this`samples
      ensures config.None? ==> r == Err(Unsupported(3600)) && unchanged(this)
      ensures config.Some? && config.value.trackId != trackId ==> r == Err(InvalidInput(3601)) && unchanged(this)
      ensures config.Some? && config.value.trackId == trackId ==> r.Ok? && samples == old(samples) + [SampleOf(p)]
    {
      if config.None? {
        return Err(Unsupported(3600));
      }
      if trackId != config.value.trackId {
        return Err(InvalidInput(3601));
      }
      var dts := if p.dts.Some? then p.dts.value else 0;
      var pts := if p.pts.Some? then p.pts.value else dts;
      var duration := if p.duration.Some? && p.duration.value >= 0 then p.duration.value else 0;
      samples := samples + [Sample(dts, pts, duration, p.payload, p.key)];
      return Ok(());
    }

    /** The tables in front of the chunk offset. */
    method WriteTablesBefore(cfg: Config) returns (r: Result<bytes, Mp4Error>)
      ensures r == match TablesBefore(cfg, samples) { case Err(e) => Err(e) case Ok(cs) => Ok(BoxesOf(cs)) }
    {
      hide Encode, TimeTable, Durations, CompositionOffsets, Reordered, WordTable, Sizes, BoxesOf, WriteBox, BE32,
           FullBox;
      if cfg.stsd.Err? {
        return Err(cfg.stsd.error);
      }
      var body := WriteBox(STSD, cfg.stsd.value);
      ghost var done := [Child(STSD, cfg.stsd.value)];
      OneBox(done[0]);
      assert [] + done == done;
      var stts := WriteRuns(STTS, 0, Durations(samples), 0, U32_MAX, "stts duration", "stts entry count");
      if stts.Err? {
        return Err(stts.error);
      }
      BoxesSnoc(done, Stts(samples).value);
      body := body + stts.value;
      done := done + [Stts(samples).value];
      if Reordered(samples) {
        var ctts := WriteRuns(CTTS, 1, CompositionOffsets(samples), -I32_MAX - 1, I32_MAX, "ctts composition offset",
                              "ctts entry count");
        if ctts.Err? {
          return Err(ctts.error);
        }
        BoxesSnoc(done, Ctts(samples).value);
        body := body + ctts.value;
        done := done + [Ctts(samples).value];
      }
      if |samples| > U32_MAX {
        return Err(LimitExceeded("stsc samples per chunk"));
      }
      BoxesSnoc(done, Stsc(samples).value);
      body := body + WriteBox(STSC, FullBox(0, 0) + BE32(1) + BE32(1) + BE32(|samples|) + BE32(1));
      done := done + [Stsc(samples).value];
      var sizes := Sizes(samples, |samples|);
      if sizes.Err? {
        assert Stsz(samples) == Err(sizes.error) by { SizesFail(samples); }
        return Err(sizes.error);
      }
      var stsz := WriteWordTable(STSZ, FullBox(0, 0) + BE32(0), sizes.value, "stsz entry count");
      if stsz.Err? {
        return Err(stsz.error);
      }
      BoxesSnoc(done, Stsz(samples).value);
      body := body + stsz.value;
      return Ok(body);
    }

    method WriteStbl(cfg: Config, co64: bool) returns (r: Result<bytes, Mp4Error>)
      ensures r == match Tables(cfg, samples, co64, Zeros(OffsetWidth(co64)))
                   case Err(e) => Err(e)
                   case Ok(cs) => Ok(WriteBox(STBL, BoxesOf(cs)))
    {
      hide TablesBefore, WordTable, Syncs, AllKeys, BoxesOf, WriteBox, BE32, FullBox;
      var before := WriteTablesBefore(cfg);
      if before.Err? {
        return Err(before.error);
      }
      ghost var done := TablesBefore(cfg, samples).value;
      BoxesSnoc(done, ChunkOffsets(co64, Zeros(OffsetWidth(co64))));
      var body := before.value + WriteChunkOffsetPlaceholder(co64);
      done := done + [ChunkOffsets(co64, Zeros(OffsetWidth(co64)))];
      if !AllKeys(samples) {
        var syncs := Syncs(samples, |samples|);
        if syncs.Err? {
          assert Stss(samples) == Err(syncs.error) by { SyncsFail(samples); }
          return Err(syncs.error);
        }
        var stss := WriteWordTable(STSS, FullBox(0, 0), syncs.value, "stss entry count");
        if stss.Err? {
          return Err(stss.error);
        }
        BoxesSnoc(done, Stss(samples).value);
        body := body + stss.value;
      }
      return Ok(WriteBox(STBL, body));
    }

    /** The boxes from `stbl` out to the children of `moov`, and the offset's place in them. */
    method WriteMoovBody(cfg: Config, co64: bool) returns (r: Result<(bytes, nat), Mp4Error>)
      ensures r == match MoovBody(cfg, samples, co64, Zeros(OffsetWidth(co64)))
                   case Err(e) => Err(e)
                   case Ok(body) =>
                     match FindNested(body, PathTo(ChunkType(co64)))
                     case None => Err(InvalidInput(3604))
                     case Some(p) => if p + 8 > |body| then Err(InvalidInput(3605)) else Ok((body, p + 8))
    {
      hide Tables, BoxesOf, WriteBox, FindNested;
      if cfg.mvhd.Err? {
        return Err(cfg.mvhd.error);
      }
      var stbl := WriteStbl(cfg, co64);
      if stbl.Err? {
        return Err(stbl.error);
      }
      ghost var tables := BoxesOf(Tables(cfg, samples, co64, Zeros(OffsetWidth(co64))).value);
      var minf := WriteBox(if cfg.video then VMHD else SMHD, cfg.mediaHeader) + WriteBox(DINF, cfg.dinf) + stbl.value;
      ThreeBoxes(Minf(cfg, tables));
      var mdia := WriteBox(MDHD, cfg.mdhd) + WriteBox(HDLR, cfg.hdlr) + WriteBox(MINF, minf);
      ThreeBoxes(Mdia(cfg, minf));
      var trak := WriteBox(TKHD, cfg.tkhd) + WriteBox(MDIA, mdia);
      TwoBoxes(Trak(cfg, mdia));
      var moovBody := WriteBox(MVHD, cfg.mvhd.value) + WriteBox(TRAK, trak);
      TwoBoxes(MoovChildren(cfg, cfg.mvhd.value, trak));
      var found := FindNestedBoxOffset(moovBody, [TRAK, MDIA, MINF, STBL, if co64 then CO64 else STCO]);
      if found.None? {
        return Err(InvalidInput(3604));
      }
      var end := found.value + 8;
      if end > |moovBody| {
        return Err(InvalidInput(3605));
      }
      return Ok((moovBody, end));
    }

    method BuildMoovAndPatch(cfg: Config, mdatHeader: nat, co64: bool) returns (r: Result<Built, Mp4Error>)
      ensures r == Build(cfg, samples, mdatHeader, co64)
    {
      hide MoovBody, FindNested, PathTo, OffsetWidth;
      var body := WriteMoovBody(cfg, co64);
      if body.Err? {
        return Err(body.error);
      }
      var moovLength := |body.value.0| + 8;
      if moovLength > U64_MAX {
        return Err(LimitExceeded("moov box size overflow"));
      }
      var chunkOffset := 24 + moovLength + mdatHeader;
      if chunkOffset > U64_MAX {
        return Err(LimitExceeded("chunk offset overflow"));
      }
      return Ok(Built(body.value.0, chunkOffset, body.value.1));
    }

    method PatchedMoov(cfg: Config, mdatHeader: nat) returns (r: Result<bytes, Mp4Error>)
      ensures r == MoovPatched(cfg, samples, mdatHeader)
    {
      hide Build, BE32, BE64;
      var built := BuildMoovAndPatch(cfg, mdatHeader, false);
      if built.Err? {
        return Err(built.error);
      }
      var co64 := built.value.chunkOffset > U32_MAX;
      if co64 {
        built := BuildMoovAndPatch(cfg, mdatHeader, true);
        if built.Err? {
          return Err(built.error);
        }
      }
      var pos, patchLength := built.value.patch, if co64 then 8 else 4;
      var end, moovBody := pos + patchLength, built.value.moovBody;
      if end > |moovBody| {
        return Err(InvalidInput(3606));
      }
      var field := if co64 then BE64(built.value.chunkOffset) else BE32(built.value.chunkOffset);
      moovBody := moovBody[..pos] + field + moovBody[end..];
      return Ok(moovBody);
    }

    /** The whole file, or the first error; nothing is changed. */
    method Finish() returns (r: Result<bytes, Mp4Error>)
      ensures r == FileOf(config, samples)
    {
      hide MoovPatched, BE32, BE64;
      if config.None? {
        return Err(Unsupported(3602));
      }
      if samples == [] {
        return Err(InvalidInput(3603));
      }
      var ftyp := Ftyp();
      var totalPayload := 0;
      for i := 0 to |samples|
        invariant totalPayload == |Payload(samples[..i])|
      {
        assert samples[..i + 1][..i] == samples[..i];
        totalPayload := totalPayload + |samples[i].payload|;
      }
      assert samples[..|samples|] == samples;
      var needsExtended := totalPayload + 8 > U32_MAX;
      var mdatHeader := if needsExtended then 16 else 8;
      var mdatTotal := totalPayload + mdatHeader;
      if mdatTotal > U64_MAX {
        return Err(LimitExceeded("mdat size overflow"));
      }
      var moovBody := PatchedMoov(config.value, mdatHeader);
      if moovBody.Err? {
        return Err(moovBody.error);
      }
      var moov := WriteBox(MOOV, moovBody.value);
      if mdatTotal > I64_MAX {
        return Err(LimitExceeded("mdat total size exceeds addressable memory"));
      }
      var mdat := if needsExtended then BE32(1) + BE32(MDAT) + BE64(mdatTotal) else BE32(mdatTotal) + BE32(MDAT);
      var payload := AllPayloads(samples);
      mdat := mdat + payload;
      return Ok(ftyp + moov + mdat);
    }
  }

  method AllPayloads(samples: seq<Sample>) returns (s: bytes)
    ensures s == Payload(samples)
  {
    s := [];
    for i := 0 to |samples|
      invariant s == Payload(samples[..i])
    {
      assert samples[..i + 1][..i] == samples[..i];
      s := s + samples[i].payload;
    }
    assert samples[..|samples|] == samples;
  }

  lemma TwoBoxes(children: seq<Child>)
    requires |children| == 2
    ensures BoxesOf(children) == Written(children[0]) + Written(children[1])
  {
    hide Written;
    assert children == [children[0]] + [children[1]];
    OneBox(children[0]);
    BoxesSnoc([children[0]], children[1]);
  }

  lemma ThreeBoxes(children: seq<Child>)
    requires |children| == 3
    ensures BoxesOf(children) == Written(children[0]) + Written(children[1]) + Written(children[2])
  {
    hide Written;
    var two := [children[0], children[1]];
    assert children == two + [children[2]];
    TwoBoxes(two);
    BoxesSnoc(two, children[2]);
  }

  function WriteChunkOffsetPlaceholder(co64: bool): (s: bytes)
    ensures s == Written(ChunkOffsets(co64, Zeros(OffsetWidth(co64))))
  {
    if co64 then WriteBox(CO64, (FullBox(0, 0) + BE32(1)) + Zeros(8))
    else WriteBox(STCO, (FullBox(0, 0) + BE32(1)) + Zeros(4))
  }

  lemma SizesFail(samples: seq<Sample>)
    requires Sizes(samples, |samples|).Err?
    ensures Stsz(samples) == Err(Sizes(samples, |samples|).error)
  {
    hide Sizes;
  }

  lemma SyncsFail(samples: seq<Sample>)
    requires Syncs(samples, |samples|).Err?
    ensures Stss(samples) == Err(Syncs(samples, |samples|).error)
  {
    hide Syncs;
  }
}

/** A recorded file as a player reads it: tables found from the file's first byte, samples cut out at their offsets. */
module RecordedFile {
  import opened Bytes
  import opened Boxes
  import opened NestedBoxes
  import opened RunLength
  import opened Recorder
  import opened FragmentWriter

  // ---- The player ----

  /** Where a sample table's body is in the file. */
  function TableAt(file: bytes, boxType: fourcc): Option<nat>
  {
    FindNested(file, [MOOV] + PathTo(boxType))
  }

  function ChunkOffset(file: bytes): nat
  {
    match TableAt(file, STCO)
    case Some(p) => Word(file, p + 8)
    case None => match TableAt(file, CO64) { case Some(p) => DoubleWord(file, p + 8) case None => 0 }
  }

  /** How many chunks have an offset. */
  function ChunkCount(file: bytes): nat
  {
    match TableAt(file, STCO)
    case Some(p) => Word(file, p + 4)
    case None => match TableAt(file, CO64) { case Some(p) => Word(file, p + 4) case None => 0 }
  }

  /** From the chunk `first` on, each holds `samples` samples, of the given description. */
  datatype ChunkRun = ChunkRun(first: nat, samples: nat, description: nat)

  function ChunkRuns(file: bytes): seq<ChunkRun>
  {
    match TableAt(file, STSC)
    case Some(p) =>
      seq(Word(file, p + 4), k requires 0 <= k =>
        ChunkRun(Word(file, p + 8 + 12 * k), Word(file, p + 12 + 12 * k), Word(file, p + 16 + 12 * k)))
    case None => []
  }

  function SampleCount(file: bytes): nat
  {
    match TableAt(file, STSZ) { case Some(p) => Word(file, p + 8) case None => 0 }
  }

  function SampleSize(file: bytes, k: nat): nat
  {
    match TableAt(file, STSZ) { case Some(p) => Word(file, p + 12 + 4 * k) case None => 0 }
  }

  /** The chunk's samples stand one after another. */
  function SampleStart(file: bytes, k: nat): nat
  {
    if k == 0 then ChunkOffset(file) else SampleStart(file, k - 1) + SampleSize(file, k - 1)
  }

  function PlayedPayload(file: bytes, k: nat): bytes
  {
    var start, size := SampleStart(file, k), SampleSize(file, k);
    if start + size <= |file| then file[start..start + size] else []
  }

  function RunsAt(file: bytes, p: nat, signed: bool): seq<TimeRun>
  {
    seq(Word(file, p + 4), k requires 0 <= k =>
          TimeRun(Word(file, p + 8 + 8 * k),
                  if signed then Signed32(Word(file, p + 12 + 8 * k)) else Word(file, p + 12 + 8 * k)))
  }

  /** The durations, or the composition offsets, of the samples. */
  function PlayedTimes(file: bytes, boxType: fourcc, signed: bool): Option<seq<int>>
  {
    match TableAt(file, boxType) { case None => None case Some(p) => Some(Decode(RunsAt(file, p, signed))) }
  }

  function WordsFrom(file: bytes, p: nat): (w: seq<u32>)
    ensures |w| == Word(file, p + 4)
  {
    seq(Word(file, p + 4), k requires 0 <= k => Word(file, p + 8 + 4 * k))
  }

  /** The numbers of the samples to begin at; without a table all are. */
  function SyncSamples(file: bytes): Option<seq<u32>>
  {
    match TableAt(file, STSS) { case None => None case Some(p) => Some(WordsFrom(file, p)) }
  }

  // ---- Finding the tables ----

  /** The levels around the tables are no larger than the reader takes. */
  lemma Levels(cfg: Config, mvhd: bytes, stbl: bytes)
    requires |Around(cfg, mvhd, stbl)| <= MAX_BOX_SIZE
    ensures var minf := Minf(cfg, stbl);
            var mdia := Mdia(cfg, BoxesOf(minf));
            var trak := Trak(cfg, BoxesOf(mdia));
            Takeable(minf) && Takeable(mdia) && Takeable(trak) && Takeable(MoovChildren(cfg, mvhd, BoxesOf(trak)))
            && |stbl| <= MAX_BOX_SIZE
  {
    hide BoxesOf, Takeable;
    var minf := Minf(cfg, stbl);
    var mdia := Mdia(cfg, BoxesOf(minf));
    var trak := Trak(cfg, BoxesOf(mdia));
    var moov := MoovChildren(cfg, mvhd, BoxesOf(trak));
    TakeableInside(moov);
    TakeableChild(moov, 1);
    TakeableInside(trak);
    TakeableChild(trak, 1);
    TakeableInside(mdia);
    TakeableChild(mdia, 2);
    TakeableInside(minf);
    TakeableChild(minf, 2);
  }

  lemma Paths(boxType: fourcc)
    ensures PathTo(boxType) == [TRAK] + ([MDIA] + ([MINF] + ([STBL] + [boxType])))
  {
  }

  lemma HoldsAround(cfg: Config, mvhd: bytes, stbl: bytes, boxType: fourcc, body: bytes)
    requires |Around(cfg, mvhd, stbl)| <= MAX_BOX_SIZE && Holds(stbl, [boxType], body)
    ensures Holds(Around(cfg, mvhd, stbl), PathTo(boxType), body)
  {
    hide BoxesOf, Takeable, Holds, PathTo;
    Levels(cfg, mvhd, stbl);
    Paths(boxType);
    var minf := Minf(cfg, stbl);
    var mdia := Mdia(cfg, BoxesOf(minf));
    var trak := Trak(cfg, BoxesOf(mdia));
    var moov := MoovChildren(cfg, mvhd, BoxesOf(trak));
    Rests(BoxesOf(minf), BoxesOf(mdia), BoxesOf(trak), BoxesOf(moov));
    HoldsBelow(minf, 2, STBL, [boxType], body, []);
    HoldsBelow(mdia, 2, MINF, [STBL] + [boxType], body, []);
    HoldsBelow(trak, 1, MDIA, [MINF] + ([STBL] + [boxType]), body, []);
    HoldsBelow(moov, 1, TRAK, [MDIA] + ([MINF] + ([STBL] + [boxType])), body, []);
  }

  lemma Rests(a: bytes, b: bytes, c: bytes, d: bytes)
    ensures a + [] == a && b + [] == b && c + [] == c && d + [] == d
  {
  }

  lemma NoneAround(cfg: Config, mvhd: bytes, stbl: bytes, boxType: fourcc)
    requires |Around(cfg, mvhd, stbl)| <= MAX_BOX_SIZE && FindNested(stbl, [boxType]) == None
    ensures FindNested(Around(cfg, mvhd, stbl), PathTo(boxType)) == None
  {
    hide BoxesOf, Takeable, FindNested, PathTo;
    Levels(cfg, mvhd, stbl);
    Paths(boxType);
    var minf := Minf(cfg, stbl);
    var mdia := Mdia(cfg, BoxesOf(minf));
    var trak := Trak(cfg, BoxesOf(mdia));
    var moov := MoovChildren(cfg, mvhd, BoxesOf(trak));
    Rests(BoxesOf(minf), BoxesOf(mdia), BoxesOf(trak), BoxesOf(moov));
    NoneBelow(minf, 2, STBL, [boxType], []);
    NoneBelow(mdia, 2, MINF, [STBL] + [boxType], []);
    NoneBelow(trak, 1, MDIA, [MINF] + ([STBL] + [boxType]), []);
    NoneBelow(moov, 1, TRAK, [MDIA] + ([MINF] + ([STBL] + [boxType])), []);
  }

  lemma PatchesAround(cfg: Config, mvhd: bytes, stbl: bytes, boxType: fourcc, skip: nat, field: bytes, now: bytes)
    requires |Around(cfg, mvhd, stbl)| <= MAX_BOX_SIZE && Patches(stbl, [boxType], skip, field, now)
    ensures Patches(Around(cfg, mvhd, stbl), PathTo(boxType), skip, field, Around(cfg, mvhd, now))
  {
    hide BoxesOf, Takeable, Patches, PathTo;
    Levels(cfg, mvhd, stbl);
    Paths(boxType);
    var minf := Minf(cfg, stbl);
    var mdia := Mdia(cfg, BoxesOf(minf));
    var trak := Trak(cfg, BoxesOf(mdia));
    var moov := MoovChildren(cfg, mvhd, BoxesOf(trak));
    var minfNow := BoxesOf(Minf(cfg, now));
    var mdiaNow := BoxesOf(Mdia(cfg, minfNow));
    var trakNow := BoxesOf(Trak(cfg, mdiaNow));
    Replaced(cfg, mvhd, stbl, now);
    Replaced(cfg, mvhd, BoxesOf(minf), minfNow);
    Replaced(cfg, mvhd, BoxesOf(mdia), mdiaNow);
    Replaced(cfg, mvhd, BoxesOf(trak), trakNow);
    PatchesBelow(minf, 2, STBL, [boxType], skip, field, now);
    PatchesBelow(mdia, 2, MINF, [STBL] + [boxType], skip, field, minfNow);
    PatchesBelow(trak, 1, MDIA, [MINF] + ([STBL] + [boxType]), skip, field, mdiaNow);
    PatchesBelow(moov, 1, TRAK, [MDIA] + ([MINF] + ([STBL] + [boxType])), skip, field, trakNow);
  }

  lemma Replaced(cfg: Config, mvhd: bytes, a: bytes, b: bytes)
    ensures Minf(cfg, a)[2 := Child(STBL, b)] == Minf(cfg, b) && Mdia(cfg, a)[2 := Child(MINF, b)] == Mdia(cfg, b)
    ensures Trak(cfg, a)[1 := Child(MDIA, b)] == Trak(cfg, b)
    ensures MoovChildren(cfg, mvhd, a)[1 := Child(TRAK, b)] == MoovChildren(cfg, mvhd, b)
  {
  }

  // ---- The tables ----

  /** The tables in order; `None` where there is none. */
  function Listed(stsd: Child, stts: Child, ctts: Option<Child>, stsc: Child, stsz: Child, chunk: Child,
                  stss: Option<Child>): seq<Child>
  {
    match (ctts, stss)
    case (None, None) => [stsd, stts, stsc, stsz, chunk]
    case (None, Some(s)) => [stsd, stts, stsc, stsz, chunk, s]
    case (Some(c), None) => [stsd, stts, c, stsc, stsz, chunk]
    case (Some(c), Some(s)) => [stsd, stts, c, stsc, stsz, chunk, s]
  }

  function CttsOf(samples: seq<Sample>): Option<Child>
  {
    if Reordered(samples) && Ctts(samples).Ok? then Some(Ctts(samples).value) else None
  }

  function StssOf(samples: seq<Sample>): Option<Child>
  {
    if !AllKeys(samples) && Stss(samples).Ok? then Some(Stss(samples).value) else None
  }

  /** The tables, if none of them failed. */
  lemma TablesList(cfg: Config, samples: seq<Sample>, co64: bool, field: bytes)
    requires Tables(cfg, samples, co64, field).Ok?
    ensures cfg.stsd.Ok? && Stts(samples).Ok? && Stsc(samples).Ok? && Stsz(samples).Ok?
    ensures (Reordered(samples) ==> Ctts(samples).Ok?) && (!AllKeys(samples) ==> Stss(samples).Ok?)
    ensures Tables(cfg, samples, co64, field).value ==
            Listed(Child(STSD, cfg.stsd.value), Stts(samples).value, CttsOf(samples), Stsc(samples).value,
                   Stsz(samples).value, ChunkOffsets(co64, field), StssOf(samples))
  {
    hide Stts, Ctts, Stsc, Stsz, Stss, Reordered, AllKeys, ChunkOffsets;
  }

  lemma TableTypes(samples: seq<Sample>)
    ensures Stts(samples).Ok? ==> Stts(samples).value.boxType == STTS
    ensures Ctts(samples).Ok? ==> Ctts(samples).value.boxType == CTTS
    ensures Stsc(samples).Ok? ==> Stsc(samples).value.boxType == STSC
    ensures Stsz(samples).Ok? ==> Stsz(samples).value.boxType == STSZ
    ensures Stss(samples).Ok? ==> Stss(samples).value.boxType == STSS
  {
  }

  /** Where the chunk offset is among the tables. */
  function ChunkIndex(samples: seq<Sample>): nat
  {
    if Reordered(samples) then 5 else 4
  }

  lemma ListedPlaces(stsd: Child, stts: Child, ctts: Option<Child>, stsc: Child, stsz: Child, chunk: Child,
                     stss: Option<Child>, co64: bool)
    requires stsd.boxType == STSD && stts.boxType == STTS && stsc.boxType == STSC && stsz.boxType == STSZ
    requires chunk.boxType == ChunkType(co64)
    requires (ctts.Some? ==> ctts.value.boxType == CTTS) && (stss.Some? ==> stss.value.boxType == STSS)
    ensures var t, n := Listed(stsd, stts, ctts, stsc, stsz, chunk, stss), if ctts.Some? then 5 else 4;
            && FirstAt(t, 1, STTS) && t[1] == stts && FirstAt(t, n - 1, STSZ) && t[n - 1] == stsz
            && FirstAt(t, n - 2, STSC) && t[n - 2] == stsc
            && FirstAt(t, n, ChunkType(co64)) && t[n] == chunk
            && (ctts.Some? ==> FirstAt(t, 2, CTTS) && t[2] == ctts.value)
            && (stss.Some? ==> FirstAt(t, n + 1, STSS) && t[n + 1] == stss.value)
            && Without(t, ChunkType(!co64)) && (ctts.None? ==> Without(t, CTTS)) && (stss.None? ==> Without(t, STSS))
  {
  }

  predicate Without(children: seq<Child>, boxType: fourcc)
  {
    forall j | 0 <= j < |children| :: children[j].boxType != boxType
  }

  lemma TablePlaces(cfg: Config, samples: seq<Sample>, co64: bool, field: bytes)
    requires Tables(cfg, samples, co64, field).Ok?
    ensures var t, n := Tables(cfg, samples, co64, field).value, ChunkIndex(samples);
            && FirstAt(t, 1, STTS) && Stts(samples) == Ok(t[1])
            && FirstAt(t, n - 1, STSZ) && Stsz(samples) == Ok(t[n - 1])
            && FirstAt(t, n - 2, STSC) && Stsc(samples) == Ok(t[n - 2])
            && FirstAt(t, n, ChunkType(co64)) && t[n] == ChunkOffsets(co64, field)
            && (Reordered(samples) ==> FirstAt(t, 2, CTTS) && Ctts(samples) == Ok(t[2]))
            && (!AllKeys(samples) ==> FirstAt(t, n + 1, STSS) && Stss(samples) == Ok(t[n + 1]))
            && Without(t, ChunkType(!co64)) && (!Reordered(samples) ==> Without(t, CTTS))
            && (AllKeys(samples) ==> Without(t, STSS))
  {
    TablesList(cfg, samples, co64, field);
    TableTypes(samples);
    hide Tables, Stts, Ctts, Stsc, Stsz, Stss, Reordered, AllKeys, Listed, FirstAt, Without;
    ListedPlaces(Child(STSD, cfg.stsd.value), Stts(samples).value, CttsOf(samples), Stsc(samples).value,
                 Stsz(samples).value, ChunkOffsets(co64, field), StssOf(samples), co64);
  }

  /** The tables with another offset differ in that only. */
  lemma TablesSame(cfg: Config, samples: seq<Sample>, co64: bool, a: bytes, b: bytes)
    requires Tables(cfg, samples, co64, a).Ok?
    ensures Tables(cfg, samples, co64, b).Ok? && ChunkIndex(samples) < |Tables(cfg, samples, co64, a).value|
    ensures Tables(cfg, samples, co64, b).value ==
            Tables(cfg, samples, co64, a).value[ChunkIndex(samples) := ChunkOffsets(co64, b)]
  {
    hide Tables, Stts, Ctts, Stsc, Stsz, Stss, Reordered, AllKeys, ChunkOffsets;
    TablesList(cfg, samples, co64, a);
    TablesOk(cfg, samples, co64, a, b);
    TablesList(cfg, samples, co64, b);
  }

  lemma TablesOk(cfg: Config, samples: seq<Sample>, co64: bool, a: bytes, b: bytes)
    requires Tables(cfg, samples, co64, a).Ok?
    ensures Tables(cfg, samples, co64, b).Ok?
  {
    hide TablesBefore, Stss, AllKeys;
  }

  lemma FieldOver(co64: bool, a: bytes, b: bytes)
    requires |a| == |b|
    ensures |ChunkOffsets(co64, a).body| == 8 + |a|
    ensures Overwrite(ChunkOffsets(co64, a).body, 8, b) == ChunkOffsets(co64, b).body
  {
  }

  /** Patching the placeholder gives the tables written with the offset. */
  lemma OffsetPatched(cfg: Config, samples: seq<Sample>, co64: bool, field: bytes)
    requires Tables(cfg, samples, co64, Zeros(OffsetWidth(co64))).Ok? && |field| == OffsetWidth(co64)
    requires |BoxesOf(Tables(cfg, samples, co64, Zeros(OffsetWidth(co64))).value)| <= MAX_BOX_SIZE
    ensures Tables(cfg, samples, co64, field).Ok?
    ensures Patches(BoxesOf(Tables(cfg, samples, co64, Zeros(OffsetWidth(co64))).value), [ChunkType(co64)], 8, field,
                    BoxesOf(Tables(cfg, samples, co64, field).value))
  {
    hide Tables, ChunkOffsets, ChunkType, BoxesOf, Takeable, Patches, Overwrite, OffsetWidth, ChunkIndex;
    var empty := Zeros(OffsetWidth(co64));
    var t, n := Tables(cfg, samples, co64, empty).value, ChunkIndex(samples);
    TablePlaces(cfg, samples, co64, empty);
    TablesSame(cfg, samples, co64, empty, field);
    FieldOver(co64, empty, field);
    TakeableInside(t);
    PatchesHere(t, n, ChunkType(co64), 8, field);
    ChunkChild(co64, field);
  }

  lemma ChunkChild(co64: bool, field: bytes)
    ensures ChunkOffsets(co64, field) == Child(ChunkType(co64), ChunkOffsets(co64, field).body)
  {
  }

  // ---- The moov box ----

  lemma BuiltWritten(cfg: Config, samples: seq<Sample>, mdatHeader: nat, co64: bool, field: bytes)
    requires Build(cfg, samples, mdatHeader, co64).Ok? && |field| == OffsetWidth(co64)
    requires |Build(cfg, samples, mdatHeader, co64).value.moovBody| <= MAX_BOX_SIZE
    ensures cfg.mvhd.Ok? && Tables(cfg, samples, co64, field).Ok?
    ensures var b := Build(cfg, samples, mdatHeader, co64).value;
            && b.patch + |field| <= |b.moovBody| && b.chunkOffset == 24 + (|b.moovBody| + 8) + mdatHeader
            && Overwrite(b.moovBody, b.patch, field) ==
            Around(cfg, cfg.mvhd.value, BoxesOf(Tables(cfg, samples, co64, field).value))
  {
    hide Tables, BoxesOf, Around, Overwrite, FindNested, OffsetWidth, ChunkType, PathTo;
    var empty := Zeros(OffsetWidth(co64));
    var stbl := BoxesOf(Tables(cfg, samples, co64, empty).value);
    Levels(cfg, cfg.mvhd.value, stbl);
    OffsetPatched(cfg, samples, co64, field);
    PatchesAround(cfg, cfg.mvhd.value, stbl, ChunkType(co64), 8, field,
                  BoxesOf(Tables(cfg, samples, co64, field).value));
  }

  /** The patched `moov` is the one laid out with the offset, which counts 8 bytes for its header. */
  lemma MoovWritten(cfg: Config, samples: seq<Sample>, mdatHeader: nat) returns (co64: bool, offset: u64)
    requires MoovPatched(cfg, samples, mdatHeader).Ok? && |MoovPatched(cfg, samples, mdatHeader).value| <= MAX_BOX_SIZE
    ensures !co64 ==> offset <= U32_MAX
    ensures cfg.mvhd.Ok? && Tables(cfg, samples, co64, OffsetField(co64, offset)).Ok?
    ensures var body := MoovPatched(cfg, samples, mdatHeader).value;
            && body == Around(cfg, cfg.mvhd.value, BoxesOf(Tables(cfg, samples, co64, OffsetField(co64, offset)).value))
            && offset == 24 + (|body| + 8) + mdatHeader
  {
    hide Tables, BoxesOf, Around, Overwrite, Build, OffsetWidth;
    var first := Build(cfg, samples, mdatHeader, false).value;
    co64 := first.chunkOffset > U32_MAX;
    var built := if co64 then Build(cfg, samples, mdatHeader, true).value else first;
    offset := built.chunkOffset;
    FieldWidth(co64, offset);
    BuiltWritten(cfg, samples, mdatHeader, co64, OffsetField(co64, offset));
  }

  lemma FieldWidth(co64: bool, offset: u64)
    requires !co64 ==> offset <= U32_MAX
    ensures |OffsetField(co64, offset)| == OffsetWidth(co64)
  {
  }

  // ---- The file ----

  /** The boxes in front of the payload's. */
  function Front(body: bytes): seq<Child>
  {
    [Child(FTYP, Brands()), Child(MOOV, body)]
  }

  lemma FrontBoxes(body: bytes)
    requires |body| + 16 <= MAX_BOX_SIZE
    ensures BoxesOf(Front(body)) == Ftyp() + WriteBox(MOOV, body)
    ensures Takeable(Front(body)) && FirstAt(Front(body), 1, MOOV)
            && |BoxesOf(Front(body))| == 24 + HeaderLength(|body|) + |body|
  {
    hide BoxesOf, WriteBox, Brands;
    TwoBoxes(Front(body));
  }

  lemma InFile(body: bytes, mdat: bytes, boxType: fourcc, table: bytes)
    requires |body| + 16 <= MAX_BOX_SIZE && Holds(body, PathTo(boxType), table)
    ensures Holds(Ftyp() + WriteBox(MOOV, body) + mdat, [MOOV] + PathTo(boxType), table)
  {
    hide BoxesOf, Takeable, Holds;
    FrontBoxes(body);
    HoldsBelow(Front(body), 1, MOOV, PathTo(boxType), table, mdat);
  }

  lemma NotInFile(body: bytes, mdat: bytes, boxType: fourcc)
    requires |body| + 16 <= MAX_BOX_SIZE && FindNested(body, PathTo(boxType)) == None
    ensures TableAt(Ftyp() + WriteBox(MOOV, body) + mdat, boxType) == None
  {
    hide BoxesOf, Takeable, FindNested;
    FrontBoxes(body);
    NoneBelow(Front(body), 1, MOOV, PathTo(boxType), mdat);
  }

  /** A table of the file. */
  lemma TableInFile(cfg: Config, mvhd: bytes, tables: seq<Child>, i: nat, boxType: fourcc, mdat: bytes)
    requires |Around(cfg, mvhd, BoxesOf(tables))| + 16 <= MAX_BOX_SIZE && FirstAt(tables, i, boxType)
    ensures Holds(Ftyp() + WriteBox(MOOV, Around(cfg, mvhd, BoxesOf(tables))) + mdat, [MOOV] + PathTo(boxType),
                  tables[i].body)
  {
    hide BoxesOf, Takeable, Holds, Around, WriteBox;
    Levels(cfg, mvhd, BoxesOf(tables));
    TakeableInside(tables);
    HoldsHere(tables, i, boxType);
    HoldsAround(cfg, mvhd, BoxesOf(tables), boxType, tables[i].body);
    InFile(Around(cfg, mvhd, BoxesOf(tables)), mdat, boxType, tables[i].body);
  }

  lemma TableNotInFile(cfg: Config, mvhd: bytes, tables: seq<Child>, boxType: fourcc, mdat: bytes)
    requires |Around(cfg, mvhd, BoxesOf(tables))| + 16 <= MAX_BOX_SIZE && Without(tables, boxType)
    ensures TableAt(Ftyp() + WriteBox(MOOV, Around(cfg, mvhd, BoxesOf(tables))) + mdat, boxType) == None
  {
    hide BoxesOf, Takeable, FindChild, Around, WriteBox, TableAt;
    Levels(cfg, mvhd, BoxesOf(tables));
    TakeableInside(tables);
    NotFoundFrom(tables, 0, boxType);
    NoBoxes();
    assert tables[..0] == [];
    NoneAround(cfg, mvhd, BoxesOf(tables), boxType);
    NotInFile(Around(cfg, mvhd, BoxesOf(tables)), mdat, boxType);
  }

  // ---- Reading the tables ----

  lemma {:induction false} SizesAre(samples: seq<Sample>, n: nat, k: nat)
    requires k < n <= |samples| && Sizes(samples, n).Ok?
    ensures Sizes(samples, n).value[k] == |samples[k].payload|
    decreases n
  {
    if k < n - 1 {
      SizesAre(samples, n - 1, k);
    }
  }

  lemma StszReads(file: bytes, samples: seq<Sample>, k: nat)
    requires Stsz(samples).Ok? && Holds(file, [MOOV] + PathTo(STSZ), Stsz(samples).value.body)
    ensures SampleCount(file) == |samples| && (k < |samples| ==> SampleSize(file, k) == |samples[k].payload|)
  {
    hide FindNested, PathTo, Word, Sizes, BE32, FullBox, Words;
    var p, body, sizes := TableAt(file, STSZ).value, Stsz(samples).value.body, Sizes(samples, |samples|).value;
    var front := FullBox(0, 0) + BE32(0);
    assert body == front + (BE32(|sizes|) + Words(sizes));
    assert body[8..12] == BE32(|sizes|);
    WordInside(file, p, body, 8, |sizes|);
    if k < |samples| {
      WordsAt(sizes, k);
      assert body[12..] == Words(sizes);
      SliceOfSlice(body, 12, |body|, 4 * k, 4 * k + 4);
      WordInside(file, p, body, 12 + 4 * k, sizes[k]);
      SizesAre(samples, |samples|, k);
    }
  }

  lemma ChunkReads(file: bytes, co64: bool, offset: u64)
    requires !co64 ==> offset <= U32_MAX
    requires Holds(file, [MOOV] + PathTo(ChunkType(co64)), ChunkOffsets(co64, OffsetField(co64, offset)).body)
    requires co64 ==> TableAt(file, STCO) == None
    ensures ChunkOffset(file) == offset && ChunkCount(file) == 1
  {
    hide FindNested, PathTo, Word, DoubleWord, BE32, BE64, FullBox;
    var p, body := TableAt(file, ChunkType(co64)).value, ChunkOffsets(co64, OffsetField(co64, offset)).body;
    assert body[4..8] == BE32(1);
    WordInside(file, p, body, 4, 1);
    if co64 {
      assert body[8..16] == BE64(offset);
      DoubleWordInside(file, p, body, 8, offset);
    } else {
      assert body[8..12] == BE32(offset);
      WordInside(file, p, body, 8, offset);
    }
  }

  lemma StscReads(file: bytes, samples: seq<Sample>)
    requires Stsc(samples).Ok? && Holds(file, [MOOV] + PathTo(STSC), Stsc(samples).value.body)
    ensures ChunkRuns(file) == [ChunkRun(1, |samples|, 1)]
  {
    hide FindNested, PathTo, Word, BE32, FullBox;
    var p, body := TableAt(file, STSC).value, Stsc(samples).value.body;
    assert body[4..8] == BE32(1) && body[8..12] == BE32(1) && body[12..16] == BE32(|samples|)
           && body[16..20] == BE32(1);
    WordInside(file, p, body, 4, 1);
    WordInside(file, p, body, 8, 1);
    WordInside(file, p, body, 12, |samples|);
    WordInside(file, p, body, 16, 1);
  }

  predicate FitsField(v: int, signed: bool)
  {
    if signed then -I32_MAX - 1 <= v <= I32_MAX else 0 <= v <= U32_MAX
  }

  function TimeBody(version: byte, runs: seq<TimeRun>): bytes
    requires |runs| <= U32_MAX
  {
    FullBox(version, 0) + (BE32(|runs|) + RunWords(runs))
  }

  lemma OneRunRead(file: bytes, p: nat, version: byte, runs: seq<TimeRun>, k: nat)
    requires |runs| <= U32_MAX && k < |runs|
    requires var body := TimeBody(version, runs); p + |body| <= |file| && file[p..p + |body|] == body
    ensures Word(file, p + 8 + 8 * k) == runs[k].count && Word(file, p + 12 + 8 * k) == Low32(runs[k].value)
  {
    hide Word, BE32, FullBox, RunWords, Low32;
    var body := TimeBody(version, runs);
    assert body[8..] == RunWords(runs);
    RunWordsAt(runs, k);
    SliceOfSlice(body, 8, |body|, 8 * k, 8 * k + 4);
    SliceOfSlice(body, 8, |body|, 8 * k + 4, 8 * k + 8);
    WordInside(file, p, body, 8 + 8 * k, runs[k].count);
    WordInside(file, p, body, 12 + 8 * k, Low32(runs[k].value));
  }

  lemma FieldSigned(v: int, signed: bool)
    requires FitsField(v, signed)
    ensures (if signed then Signed32(Low32(v)) else Low32(v)) == v
  {
  }

  /** A time table reads back as its runs, whose values fit 32 bits, signed or not. */
  lemma RunsRead(file: bytes, p: nat, version: byte, runs: seq<TimeRun>, signed: bool)
    requires |runs| <= U32_MAX && forall k | 0 <= k < |runs| :: FitsField(runs[k].value, signed)
    requires var body := TimeBody(version, runs); p + |body| <= |file| && file[p..p + |body|] == body
    ensures RunsAt(file, p, signed) == runs
  {
    hide Word, BE32, FullBox, RunWords, Signed32, Low32, FitsField;
    var body := TimeBody(version, runs);
    assert body[4..8] == BE32(|runs|);
    WordInside(file, p, body, 4, |runs|);
    forall k | 0 <= k < |runs| ensures RunsAt(file, p, signed)[k] == runs[k] {
      OneRunRead(file, p, version, runs, k);
      FieldSigned(runs[k].value, signed);
    }
  }

  lemma TimesRead(file: bytes, boxType: fourcc, version: byte, values: seq<int>, low: int, high: int, what: string,
                  count: string)
    requires |values| <= U32_MAX && TimeTable(boxType, version, Encode(values, low, high, what), count).Ok?
    requires Holds(file, [MOOV] + PathTo(boxType),
                   TimeTable(boxType, version, Encode(values, low, high, what), count).value.body)
    requires (low, high) == (0, U32_MAX) || (low, high) == (-I32_MAX - 1, I32_MAX)
    ensures PlayedTimes(file, boxType, low < 0) == Some(values)
    ensures forall k | 0 <= k < |values| :: low <= values[k] <= high
  {
    hide FindNested, PathTo, Encode, Decode, RunsAt, Maximal, BE32, FullBox, RunWords;
    var runs := Encode(values, low, high, what).value;
    EncodeDecodes(values, low, high, what);
    RunsRead(file, TableAt(file, boxType).value, version, runs, low < 0);
    ValuesFit(values, low, high, what);
  }

  lemma {:induction false} ValuesFit(values: seq<int>, low: int, high: int, what: string)
    requires Encode(values, low, high, what).Ok?
    ensures forall k | 0 <= k < |values| :: low <= values[k] <= high
    decreases |values|
  {
    hide Extend;
    if values != [] {
      ValuesFit(values[..|values| - 1], low, high, what);
    }
  }

  /** The sync samples are the numbers of the keyframes, in ascending order. */
  lemma {:induction false} SyncsAre(samples: seq<Sample>, n: nat)
    requires n <= |samples| && Syncs(samples, n).Ok?
    ensures var s := Syncs(samples, n).value;
            && (forall i, j | 0 <= i < j < |s| :: s[i] < s[j]) && (forall i | 0 <= i < |s| :: 1 <= s[i] <= n)
            && (forall k | 0 <= k < n :: k + 1 in s <==> samples[k].key)
    decreases n
  {
    if n > 0 {
      SyncsAre(samples, n - 1);
      var before, s := Syncs(samples, n - 1).value, Syncs(samples, n).value;
      forall k | 0 <= k < n ensures k + 1 in s <==> samples[k].key {
        if k < n - 1 {
          assert k + 1 in s <==> k + 1 in before;
        } else if samples[k].key {
          assert s[|s| - 1] == n;
        }
      }
    }
  }

  lemma WordsRead(file: bytes, p: nat, words: seq<u32>)
    requires |words| <= U32_MAX
    requires var body := FullBox(0, 0) + (BE32(|words|) + Words(words));
             p + |body| <= |file| && file[p..p + |body|] == body
    ensures WordsFrom(file, p) == words
  {
    hide Word, BE32, FullBox, Words;
    var body := FullBox(0, 0) + (BE32(|words|) + Words(words));
    assert body[4..8] == BE32(|words|);
    WordInside(file, p, body, 4, |words|);
    var read := WordsFrom(file, p);
    forall k | 0 <= k < |words| ensures read[k] == words[k] {
      OneWordRead(file, p, words, k);
    }
  }

  lemma OneWordRead(file: bytes, p: nat, words: seq<u32>, k: nat)
    requires |words| <= U32_MAX && k < |words|
    requires var body := FullBox(0, 0) + (BE32(|words|) + Words(words));
             p + |body| <= |file| && file[p..p + |body|] == body
    ensures Word(file, p + 8 + 4 * k) == words[k]
  {
    hide Word, BE32, FullBox, Words;
    var body := FullBox(0, 0) + (BE32(|words|) + Words(words));
    assert body[8..] == Words(words);
    WordsAt(words, k);
    SliceOfSlice(body, 8, |body|, 4 * k, 4 * k + 4);
    WordInside(file, p, body, 8 + 4 * k, words[k]);
  }

  lemma StssReads(file: bytes, samples: seq<Sample>)
    requires Stss(samples).Ok? && Holds(file, [MOOV] + PathTo(STSS), Stss(samples).value.body)
    ensures Syncs(samples, |samples|).Ok? && SyncSamples(file) == Some(Syncs(samples, |samples|).value)
  {
    hide FindNested, PathTo, Word, Syncs, BE32, FullBox, Words, WordsFrom;
    WordsRead(file, TableAt(file, STSS).value, Syncs(samples, |samples|).value);
  }

  // ---- The whole file ----

  /** What a player adds to decode times, when none of it was saturated. */
  function Leads(samples: seq<Sample>): seq<int>
  {
    seq(|samples|, k requires 0 <= k < |samples| => samples[k].pts - samples[k].dts)
  }

  lemma LeadsFit(samples: seq<Sample>)
    requires forall k | 0 <= k < |samples| :: -I32_MAX - 1 <= CompositionOffsets(samples)[k] <= I32_MAX
    ensures CompositionOffsets(samples) == Leads(samples)
  {
    forall k | 0 <= k < |samples| ensures CompositionOffsets(samples)[k] == Leads(samples)[k] {
      assert -I32_MAX - 1 <= CompositionOffsets(samples)[k] <= I32_MAX;
    }
  }

  /** The tables of a file say what the samples are. */
  ghost predicate Described(file: bytes, samples: seq<Sample>)
  {
    && SampleCount(file) == |samples| && ChunkCount(file) == 1 && ChunkRuns(file) == [ChunkRun(1, |samples|, 1)]
    && (forall k | 0 <= k < |samples| :: SampleSize(file, k) == |samples[k].payload|)
    && PlayedTimes(file, STTS, false) == Some(Durations(samples))
    && PlayedTimes(file, CTTS, true) == (if Reordered(samples) then Some(Leads(samples)) else None)
    && SyncsRight(samples, SyncSamples(file))
  }

  /** No table when all samples are keyframes; else their numbers, from 1, in ascending order. */
  ghost predicate SyncsRight(samples: seq<Sample>, syncs: Option<seq<u32>>)
  {
    match syncs
    case None => AllKeys(samples)
    case Some(s) =>
      && !AllKeys(samples) && (forall i, j | 0 <= i < j < |s| :: s[i] < s[j])
      && (forall i | 0 <= i < |s| :: 1 <= s[i] <= |samples|)
      && (forall k | 0 <= k < |samples| :: k + 1 in s <==> samples[k].key)
  }

  lemma TimesDescribed(cfg: Config, mvhd: bytes, samples: seq<Sample>, co64: bool, field: bytes, mdat: bytes)
    requires Tables(cfg, samples, co64, field).Ok?
    requires |Around(cfg, mvhd, BoxesOf(Tables(cfg, samples, co64, field).value))| + 16 <= MAX_BOX_SIZE
    ensures var file := Ftyp() + WriteBox(MOOV, Around(cfg, mvhd, BoxesOf(Tables(cfg, samples, co64, field).value)))
            + mdat;
            && PlayedTimes(file, STTS, false) == Some(Durations(samples))
            && PlayedTimes(file, CTTS, true) == (if Reordered(samples) then Some(Leads(samples)) else None)
  {
    TablePlaces(cfg, samples, co64, field);
    TablesList(cfg, samples, co64, field);
    FewSamples(samples);
    hide BoxesOf, Around, WriteBox, Tables, Holds, FirstAt, Without, PlayedTimes, Encode, TimeTable, Reordered, Leads,
         Stsc, Stsz, Stss, CompositionOffsets, Durations, AllKeys, ChunkOffsets, Ftyp;
    var tables := Tables(cfg, samples, co64, field).value;
    var file := Ftyp() + WriteBox(MOOV, Around(cfg, mvhd, BoxesOf(tables))) + mdat;
    TableInFile(cfg, mvhd, tables, 1, STTS, mdat);
    TimesRead(file, STTS, 0, Durations(samples), 0, U32_MAX, "stts duration", "stts entry count");
    if Reordered(samples) {
      TableInFile(cfg, mvhd, tables, 2, CTTS, mdat);
      TimesRead(file, CTTS, 1, CompositionOffsets(samples), -I32_MAX - 1, I32_MAX, "ctts composition offset",
                "ctts entry count");
      LeadsFit(samples);
    } else {
      TableNotInFile(cfg, mvhd, tables, CTTS, mdat);
      NoTimes(file, CTTS, true);
    }
  }

  lemma NoTimes(file: bytes, boxType: fourcc, signed: bool)
    requires TableAt(file, boxType) == None
    ensures PlayedTimes(file, boxType, signed) == None
  {
  }

  lemma FewSamples(samples: seq<Sample>)
    requires Stsc(samples).Ok?
    ensures |samples| <= U32_MAX
  {
  }

  lemma SizesDescribed(cfg: Config, mvhd: bytes, samples: seq<Sample>, co64: bool, field: bytes, mdat: bytes)
    requires Tables(cfg, samples, co64, field).Ok?
    requires |Around(cfg, mvhd, BoxesOf(Tables(cfg, samples, co64, field).value))| + 16 <= MAX_BOX_SIZE
    ensures var file := Ftyp() + WriteBox(MOOV, Around(cfg, mvhd, BoxesOf(Tables(cfg, samples, co64, field).value)))
            + mdat;
            && SampleCount(file) == |samples| && ChunkRuns(file) == [ChunkRun(1, |samples|, 1)]
            && forall k | 0 <= k < |samples| :: SampleSize(file, k) == |samples[k].payload|
  {
    TablePlaces(cfg, samples, co64, field);
    hide BoxesOf, Around, WriteBox, Tables, Holds, FirstAt, Without, SampleCount, SampleSize, Stss, Stsc, Stsz, Stts,
         Ctts, Reordered, AllKeys, ChunkOffsets, ChunkRuns, Ftyp;
    var tables := Tables(cfg, samples, co64, field).value;
    var file := Ftyp() + WriteBox(MOOV, Around(cfg, mvhd, BoxesOf(tables))) + mdat;
    TableInFile(cfg, mvhd, tables, ChunkIndex(samples) - 2, STSC, mdat);
    StscReads(file, samples);
    TableInFile(cfg, mvhd, tables, ChunkIndex(samples) - 1, STSZ, mdat);
    StszReads(file, samples, |samples|);
    forall k | 0 <= k < |samples| ensures SampleSize(file, k) == |samples[k].payload| {
      StszReads(file, samples, k);
    }
  }

  lemma SyncsHold(samples: seq<Sample>)
    requires Syncs(samples, |samples|).Ok? && !AllKeys(samples)
    ensures SyncsRight(samples, Some(Syncs(samples, |samples|).value))
  {
    hide Syncs, AllKeys;
    SyncsAre(samples, |samples|);
  }

  lemma NoSyncs(file: bytes, samples: seq<Sample>)
    requires AllKeys(samples) && TableAt(file, STSS) == None
    ensures SyncsRight(samples, SyncSamples(file))
  {
    hide AllKeys;
  }

  lemma SyncsDescribed(cfg: Config, mvhd: bytes, samples: seq<Sample>, co64: bool, field: bytes, mdat: bytes)
    requires Tables(cfg, samples, co64, field).Ok?
    requires |Around(cfg, mvhd, BoxesOf(Tables(cfg, samples, co64, field).value))| + 16 <= MAX_BOX_SIZE
    ensures var file := Ftyp() + WriteBox(MOOV, Around(cfg, mvhd, BoxesOf(Tables(cfg, samples, co64, field).value)))
            + mdat;
            SyncsRight(samples, SyncSamples(file))
  {
    TablePlaces(cfg, samples, co64, field);
    hide BoxesOf, Around, WriteBox, Tables, Holds, FirstAt, Without, Syncs, Stss, Stsz, Stts, Ctts, Reordered,
         AllKeys, ChunkOffsets, Ftyp, SyncsRight, SyncSamples;
    var tables := Tables(cfg, samples, co64, field).value;
    var file := Ftyp() + WriteBox(MOOV, Around(cfg, mvhd, BoxesOf(tables))) + mdat;
    if AllKeys(samples) {
      TableNotInFile(cfg, mvhd, tables, STSS, mdat);
      NoSyncs(file, samples);
    } else {
      TableInFile(cfg, mvhd, tables, ChunkIndex(samples) + 1, STSS, mdat);
      StssReads(file, samples);
      SyncsHold(samples);
    }
  }

  lemma OffsetDescribed(cfg: Config, mvhd: bytes, samples: seq<Sample>, co64: bool, offset: u64, mdat: bytes)
    requires (!co64 ==> offset <= U32_MAX) && Tables(cfg, samples, co64, OffsetField(co64, offset)).Ok?
    requires |Around(cfg, mvhd, BoxesOf(Tables(cfg, samples, co64, OffsetField(co64, offset)).value))|
             + 16 <= MAX_BOX_SIZE
    ensures var stbl := BoxesOf(Tables(cfg, samples, co64, OffsetField(co64, offset)).value);
            var file := Ftyp() + WriteBox(MOOV, Around(cfg, mvhd, stbl)) + mdat;
            ChunkOffset(file) == offset && ChunkCount(file) == 1
  {
    TablePlaces(cfg, samples, co64, OffsetField(co64, offset));
    hide BoxesOf, Around, WriteBox, Tables, Holds, FirstAt, Without, ChunkOffset, ChunkCount, Stss, Stsz, Stts, Ctts,
         Reordered, AllKeys, ChunkOffsets, Ftyp, OffsetField;
    var tables := Tables(cfg, samples, co64, OffsetField(co64, offset)).value;
    var file := Ftyp() + WriteBox(MOOV, Around(cfg, mvhd, BoxesOf(tables))) + mdat;
    TableInFile(cfg, mvhd, tables, ChunkIndex(samples), ChunkType(co64), mdat);
    if co64 {
      TableNotInFile(cfg, mvhd, tables, STCO, mdat);
    }
    ChunkReads(file, co64, offset);
  }

  lemma {:induction false} PayloadPlace(samples: seq<Sample>, k: nat)
    requires k < |samples|
    ensures var at := |Payload(samples[..k])|;
            && at + |samples[k].payload| == |Payload(samples[..k + 1])| <= |Payload(samples)|
            && Payload(samples)[at..at + |samples[k].payload|] == samples[k].payload
    decreases |samples|
  {
    var n := |samples| - 1;
    assert samples[..k + 1][..k] == samples[..k];
    if k < n {
      PayloadPlace(samples[..n], k);
      assert samples[..n][..k] == samples[..k] && samples[..n][..k + 1] == samples[..k + 1];
      var at := |Payload(samples[..k])|;
      assert Payload(samples)[at..at + |samples[k].payload|] == Payload(samples[..n])[at..at + |samples[k].payload|];
    } else {
      assert samples[..k + 1] == samples;
    }
  }

  lemma {:induction false} StartsAdd(file: bytes, samples: seq<Sample>, k: nat)
    requires k <= |samples| && forall j | 0 <= j < |samples| :: SampleSize(file, j) == |samples[j].payload|
    ensures SampleStart(file, k) == ChunkOffset(file) + |Payload(samples[..k])|
    decreases k
  {
    hide SampleSize, ChunkOffset, Payload;
    if k > 0 {
      StartsAdd(file, samples, k - 1);
      PayloadPlace(samples, k - 1);
    } else {
      NoPayload();
      assert samples[..0] == [];
    }
  }

  lemma NoPayload()
    ensures Payload([]) == []
  {
  }

  /** Sizes that add up from the payload's first byte cut out every sample. */
  lemma SamplesCut(file: bytes, samples: seq<Sample>, k: nat)
    requires k < |samples| && forall j | 0 <= j < |samples| :: SampleSize(file, j) == |samples[j].payload|
    requires |Payload(samples)| <= |file| && file[|file| - |Payload(samples)|..] == Payload(samples)
    requires ChunkOffset(file) == |file| - |Payload(samples)|
    ensures PlayedPayload(file, k) == samples[k].payload
  {
    hide SampleSize, ChunkOffset, SampleStart, Payload;
    StartsAdd(file, samples, k);
    PayloadPlace(samples, k);
    var start, at, n := |file| - |Payload(samples)|, |Payload(samples[..k])|, |samples[k].payload|;
    SliceOfSlice(file, start, |file|, at, at + n);
    assert file[start..|file|] == file[start..];
  }

  lemma FileEnds(samples: seq<Sample>, body: bytes)
    ensures var file, header := Ftyp() + WriteBox(MOOV, body) + WriteBox(MDAT, Payload(samples)),
            HeaderLength(|Payload(samples)|);
            && |file| == 24 + HeaderLength(|body|) + |body| + header + |Payload(samples)|
            && file[|file| - |Payload(samples)|..] == Payload(samples)
  {
    hide WriteBox, Payload, Ftyp;
    var front, mdat := Ftyp() + WriteBox(MOOV, body), WriteBox(MDAT, Payload(samples));
    var header := HeaderLength(|Payload(samples)|);
    assert (front + mdat)[|front| + header..] == mdat[header..];
  }

  /** The size of the `moov` body. */
  function MoovSize(cfg: Config, samples: seq<Sample>): nat
  {
    var moov := MoovPatched(cfg, samples, HeaderLength(|Payload(samples)|));
    if moov.Ok? then |moov.value| else 0
  }

  /**
   * A finished file's tables give the number, sizes, durations, composition offsets and keyframes of the samples
   * pushed, all in one chunk, and the bytes at their offsets are the samples' payloads, if and only if the `moov`
   * header has 8 bytes: with 16, the chunk offset is 8 bytes too low.
   */
  lemma FileDescribes(cfg: Config, samples: seq<Sample>, file: bytes)
    requires FileOf(Some(cfg), samples) == Ok(file)
    requires MoovSize(cfg, samples) + 16 <= MAX_BOX_SIZE
    ensures Described(file, samples) && |file| >= |Payload(samples)|
    ensures ChunkOffset(file) == |file| - |Payload(samples)| <==> MoovSize(cfg, samples) + 8 <= U32_MAX
    ensures MoovSize(cfg, samples) + 8 > U32_MAX ==> ChunkOffset(file) + 8 == |file| - |Payload(samples)|
    ensures MoovSize(cfg, samples) + 8 <= U32_MAX ==>
              forall k | 0 <= k < |samples| :: PlayedPayload(file, k) == samples[k].payload
  {
    hide MoovPatched, BoxesOf, Around, WriteBox, Tables, Payload, OffsetField, Ftyp, SampleCount, SampleSize,
         PlayedTimes, SyncsRight, ChunkOffset, ChunkCount, ChunkRuns, PlayedPayload, Reordered, AllKeys, Leads,
         Durations, SyncSamples;
    var header := HeaderLength(|Payload(samples)|);
    var body := MoovPatched(cfg, samples, header).value;
    var co64, offset := MoovWritten(cfg, samples, header);
    var mdat := WriteBox(MDAT, Payload(samples));
    TimesDescribed(cfg, cfg.mvhd.value, samples, co64, OffsetField(co64, offset), mdat);
    SizesDescribed(cfg, cfg.mvhd.value, samples, co64, OffsetField(co64, offset), mdat);
    SyncsDescribed(cfg, cfg.mvhd.value, samples, co64, OffsetField(co64, offset), mdat);
    OffsetDescribed(cfg, cfg.mvhd.value, samples, co64, offset, mdat);
    FileEnds(samples, body);
    if |body| + 8 <= U32_MAX {
      forall k | 0 <= k < |samples| ensures PlayedPayload(file, k) == samples[k].payload {
        SamplesCut(file, samples, k);
      }
    }
  }

  function SamplesOf(packets: seq<Packet>): (s: seq<Sample>)
    ensures |s| == |packets|
  {
    seq(|packets|, k requires 0 <= k < |packets| => SampleOf(packets[k]))
  }

  /** A recording of packets of the configured track, as a player finds it. */
  method Record(cfg: Config, packets: seq<Packet>) returns (r: Result<bytes, Mp4Error>)
    ensures r == FileOf(Some(cfg), SamplesOf(packets)) && (packets == [] ==> r == Err(InvalidInput(3603)))
    ensures r.Ok? && MoovSize(cfg, SamplesOf(packets)) + 8 <= U32_MAX ==>
              && Described(r.value, SamplesOf(packets))
              && forall k | 0 <= k < |packets| :: PlayedPayload(r.value, k) == packets[k].payload
  {
    hide MoovPatched, Payload, Described, PlayedPayload, SampleOf;
    var muxer := new Mp4Muxer();
    muxer.Configure(cfg);
    for i := 0 to |packets|
      invariant muxer.config == Some(cfg) && muxer.samples == SamplesOf(packets[..i])
    {
      assert SamplesOf(packets[..i + 1]) == SamplesOf(packets[..i]) + [SampleOf(packets[i])];
      var pushed := muxer.PushPacket(cfg.trackId, packets[i]);
    }
    assert packets[..|packets|] == packets;
    r := muxer.Finish();
    if r.Ok? && MoovSize(cfg, SamplesOf(packets)) + 8 <= U32_MAX {
      FileDescribes(cfg, SamplesOf(packets), r.value);
      forall k | 0 <= k < |packets| ensures PlayedPayload(r.value, k) == packets[k].payload {
        SamplePayload(packets[k]);
      }
    }
  }

  lemma SamplePayload(p: Packet)
    ensures SampleOf(p).payload == p.payload
  {
  }
}

/**
 * Writing a media segment (ISO/IEC 14496-12 sections 8.8.4 to 8.8.12): `moof` with patched data offsets, and `mdat`.
 */
module FragmentWriter {
  import opened Bytes
  import opened Boxes

  /** A packet with its times in ticks of the track's timescale. */
  datatype Packet = Packet(payload: bytes, dts: Option<i64>, pts: Option<i64>, duration: Option<i64>, key: bool)

  /** The packets of one track. */
  datatype Run = Run(trackId: u32, packets: seq<Packet>)

  const TFHD_FLAGS: u24 := 0x02_0000
  const TRUN_FLAGS: u24 := 0x00_0F01
  const KEY_FLAGS: u32 := 0x0200_0000
  const NON_KEY_FLAGS: u32 := 0x0101_0000

  // ---- Samples ----

  datatype Fields = Fields(duration: u32, size: u32, flags: u32, offset: i32)

  function CompositionOffset(p: Packet): int
  {
    if p.pts.Some? && p.dts.Some? then p.pts.value - p.dts.value else 0
  }

  function SampleFields(p: Packet): Result<Fields, Mp4Error>
  {
    var duration: int := if p.duration.Some? then p.duration.value else 0;
    if !(0 <= duration <= U32_MAX) then Err(LimitExceeded("trun sample duration > u32"))
    else if |p.payload| > U32_MAX then Err(LimitExceeded("trun sample size > u32"))
    else if !(-I32_MAX - 1 <= CompositionOffset(p) <= I32_MAX) then Err(LimitExceeded("trun composition offset > i32"))
    else Ok(Fields(duration, |p.payload|, if p.key then KEY_FLAGS else NON_KEY_FLAGS, CompositionOffset(p)))
  }

  /** A signed field in two's complement. */
  function AsU32(v: i32): u32
  {
    if v < 0 then v + 0x1_0000_0000 else v
  }

  function Entry(f: Fields): (s: bytes)
    ensures |s| == 16
  {
    BE32(f.duration) + BE32(f.size) + (BE32(f.flags) + BE32(AsU32(f.offset)))
  }

  /** The sample table, or the error of the first sample that does not fit it. */
  function Entries(packets: seq<Packet>): (r: Result<bytes, Mp4Error>)
    ensures r.Ok? ==> |r.value| == 16 * |packets|
    decreases |packets|
  {
    if packets == [] then Ok([])
    else
      var n := |packets| - 1;
      match Entries(packets[..n])
      case Err(e) => Err(e)
      case Ok(s) =>
        match SampleFields(packets[n])
        case Err(e) => Err(e)
        case Ok(f) => Ok(s + Entry(f))
  }

  function Payloads(packets: seq<Packet>): bytes
    decreases |packets|
  {
    if packets == [] then [] else Payloads(packets[..|packets| - 1]) + packets[|packets| - 1].payload
  }

  // ---- One track ----

  /** A track's boxes but for the data offset. */
  datatype Ready = Ready(trackId: u32, base: u64, count: u32, entries: bytes, size: nat)

  function BaseTime(packets: seq<Packet>): Result<u64, Mp4Error>
  {
    if packets == [] || packets[0].dts.None? then Ok(0)
    else if packets[0].dts.value < 0 then Err(InvalidInput(3508))
    else Ok(packets[0].dts.value)
  }

  function Prepare(run: Run): Result<Ready, Mp4Error>
  {
    match BaseTime(run.packets)
    case Err(e) => Err(e)
    case Ok(base) =>
      if |run.packets| > U32_MAX then Err(LimitExceeded("trun sample count"))
      else
        match Entries(run.packets)
        case Err(e) => Err(e)
        case Ok(entries) => Ok(Ready(run.trackId, base, |run.packets|, entries, |Payloads(run.packets)|))
  }

  function PrepareAll(runs: seq<Run>): (r: Result<seq<Ready>, Mp4Error>)
    ensures r.Ok? ==> |r.value| == |runs|
    decreases |runs|
  {
    if runs == [] then Ok([])
    else
      var n := |runs| - 1;
      match PrepareAll(runs[..n])
      case Err(e) => Err(e)
      case Ok(rs) =>
        match Prepare(runs[n])
        case Err(e) => Err(e)
        case Ok(r) => Ok(rs + [r])
  }

  function Tfhd(trackId: u32): (s: bytes)
    ensures |s| == 16
  {
    WriteBox(TFHD, FullBox(0, TFHD_FLAGS) + BE32(trackId))
  }

  function Tfdt(base: u64): (s: bytes)
    ensures |s| == 20
  {
    WriteBox(TFDT, FullBox(1, 0) + BE64(base))
  }

  function TrunBody(r: Ready, offset: u32): (s: bytes)
    ensures |s| == 12 + |r.entries|
  {
    (FullBox(1, TRUN_FLAGS) + BE32(r.count)) + (BE32(offset) + r.entries)
  }

  function Trun(r: Ready, offset: u32): bytes
  {
    WriteBox(TRUN, TrunBody(r, offset))
  }

  function TrafBody(r: Ready, offset: u32): bytes
  {
    (Tfhd(r.trackId) + Tfdt(r.base)) + Trun(r, offset)
  }

  function Traf(r: Ready, offset: u32): bytes
  {
    WriteBox(TRAF, TrafBody(r, offset))
  }

  /** Where the data offset is in a track's box. */
  const OFFSET_POSITION: nat := 8 + 16 + 20 + 16

  // ---- The fragment ----

  function Mfhd(sequence: u32): (s: bytes)
    ensures |s| == 16
  {
    WriteBox(MFHD, FullBox(0, 0) + BE32(sequence))
  }

  /** The track boxes, each with its own offset. */
  function Trafs(rs: seq<Ready>, offsets: seq<u32>): bytes
    requires |offsets| == |rs|
    decreases |rs|
  {
    if rs == [] then []
    else
      var n := |rs| - 1;
      Trafs(rs[..n], offsets[..n]) + Traf(rs[n], offsets[n])
  }

  function MoofBody(sequence: u32, rs: seq<Ready>, offsets: seq<u32>): bytes
    requires |offsets| == |rs|
  {
    Mfhd(sequence) + Trafs(rs, offsets)
  }

  /** The payload bytes of the tracks before `k`. */
  function SizeTo(rs: seq<Ready>, k: nat): (n: nat)
    requires k <= |rs|
  {
    if k == 0 then 0 else SizeTo(rs, k - 1) + rs[k - 1].size
  }

  function NoOffsets(n: nat): (z: seq<u32>)
    ensures |z| == n
  {
    seq(n, _ => 0)
  }

  /** Where the payload begins, counted from the beginning of the `moof` box. */
  function PayloadOffset(sequence: u32, rs: seq<Ready>): nat
  {
    8 + |MoofBody(sequence, rs, NoOffsets(|rs|))| + HeaderLength(SizeTo(rs, |rs|))
  }

  /** Every data offset fits its signed field. */
  predicate OffsetsFit(sequence: u32, rs: seq<Ready>)
  {
    forall k | 0 <= k < |rs| :: PayloadOffset(sequence, rs) + SizeTo(rs, k) <= I32_MAX
  }

  function Offsets(sequence: u32, rs: seq<Ready>): (o: seq<u32>)
    requires OffsetsFit(sequence, rs)
    ensures |o| == |rs|
  {
    seq(|rs|, k requires 0 <= k < |rs| => PayloadOffset(sequence, rs) + SizeTo(rs, k))
  }

  function Moof(runs: seq<Run>, sequence: u32): Result<bytes, Mp4Error>
  {
    match PrepareAll(runs)
    case Err(e) => Err(e)
    case Ok(rs) =>
      if !OffsetsFit(sequence, rs) then Err(LimitExceeded("trun data offset exceeds i32"))
      else Ok(WriteBox(MOOF, MoofBody(sequence, rs, Offsets(sequence, rs))))
  }

  function MdatBody(runs: seq<Run>): bytes
    decreases |runs|
  {
    if runs == [] then [] else MdatBody(runs[..|runs| - 1]) + Payloads(runs[|runs| - 1].packets)
  }

  // ---- Patching ----

  /** Four bytes written over others. */
  function Patched(s: bytes, pos: nat, field: bytes): (r: bytes)
    requires pos + 4 <= |s| && |field| == 4
    ensures |r| == |s|
  {
    s[..pos] + field + s[pos + 4..]
  }

  lemma PatchInside(a: bytes, s: bytes, b: bytes, pos: nat, field: bytes)
    requires pos + 4 <= |s| && |field| == 4
    ensures Patched(a + s + b, |a| + pos, field) == a + Patched(s, pos, field) + b
  {
  }

  /** The size of a track's box does not depend on its offset. */
  lemma TrafSize(r: Ready, a: u32, b: u32)
    ensures |Traf(r, a)| == |Traf(r, b)| > |r.entries|
  {
  }

  lemma PatchBox(boxType: fourcc, body: bytes, pos: nat, field: bytes)
    requires |body| + 8 <= U32_MAX && pos + 4 <= |body| && |field| == 4
    ensures Patched(WriteBox(boxType, body), 8 + pos, field) == WriteBox(boxType, Patched(body, pos, field))
  {
    hide BE32;
    var h := BE32(|body| + 8) + BE32(boxType);
    assert WriteBox(boxType, body) == h + body;
    assert Patched(h + body, 8 + pos, field) == h + Patched(body, pos, field);
  }

  /** Patching a track's box in place gives the box written with the offset. */
  lemma PatchTraf(r: Ready, offset: u32)
    requires |Traf(r, 0)| <= U32_MAX
    ensures OFFSET_POSITION + 4 <= |Traf(r, 0)|
    ensures Patched(Traf(r, 0), OFFSET_POSITION, BE32(offset)) == Traf(r, offset)
  {
    hide BE32, WriteBox, FullBox;
    var field := BE32(offset);
    var body := TrunBody(r, 0);
    TrunSmall(r);
    PatchBody(FullBox(1, TRUN_FLAGS) + BE32(r.count), BE32(0), r.entries, field);
    PatchBox(TRUN, body, 8, field);
    var front := Tfhd(r.trackId) + Tfdt(r.base);
    assert Patched(front + Trun(r, 0), 36 + 16, field) == front + Patched(Trun(r, 0), 16, field);
    PatchBox(TRAF, TrafBody(r, 0), 52, field);
  }

  lemma PatchBody(front: bytes, field: bytes, rest: bytes, now: bytes)
    requires |front| == 8 && |field| == 4 && |now| == 4
    ensures Patched(front + (field + rest), 8, now) == front + (now + rest)
  {
  }

  lemma TrunSmall(r: Ready)
    requires |Traf(r, 0)| <= U32_MAX
    ensures |TrunBody(r, 0)| + 8 <= U32_MAX && |TrafBody(r, 0)| + 8 <= U32_MAX
    ensures |Trun(r, 0)| == 8 + |TrunBody(r, 0)| && |TrafBody(r, 0)| >= 56 && |Traf(r, 0)| == 8 + |TrafBody(r, 0)|
  {
  }

  // ---- Lists of boxes ----

  lemma {:induction false} TrafsAppend(a: seq<Ready>, oa: seq<u32>, b: seq<Ready>, ob: seq<u32>)
    requires |a| == |oa| && |b| == |ob|
    ensures Trafs(a + b, oa + ob) == Trafs(a, oa) + Trafs(b, ob)
    decreases |b|
  {
    hide Traf;
    if b == [] {
      assert a + b == a && oa + ob == oa;
    } else {
      var n := |b| - 1;
      assert (a + b)[..|a| + n] == a + b[..n] && (oa + ob)[..|a| + n] == oa + ob[..n];
      TrafsAppend(a, oa, b[..n], ob[..n]);
      Assoc(Trafs(a, oa), Trafs(b[..n], ob[..n]), Traf(b[n], ob[n]));
    }
  }

  lemma TrafsOne(r: Ready, offset: u32)
    ensures Trafs([r], [offset]) == Traf(r, offset)
  {
    assert [r][..0] == [] && [offset][..0] == [];
  }

  lemma {:induction false} TrafsLength(rs: seq<Ready>, oa: seq<u32>, ob: seq<u32>)
    requires |oa| == |rs| == |ob|
    ensures |Trafs(rs, oa)| == |Trafs(rs, ob)|
    decreases |rs|
  {
    hide Traf;
    if rs != [] {
      var n := |rs| - 1;
      TrafsLength(rs[..n], oa[..n], ob[..n]);
      TrafSize(rs[n], oa[n], ob[n]);
    }
  }

  /** The boxes before, at and after the one numbered `k`. */
  lemma TrafsAround(rs: seq<Ready>, offsets: seq<u32>, k: nat)
    requires |offsets| == |rs| && k < |rs|
    ensures Trafs(rs, offsets) ==
            Trafs(rs[..k], offsets[..k]) + (Traf(rs[k], offsets[k]) + Trafs(rs[k + 1..], offsets[k + 1..]))
  {
    hide Trafs, Traf;
    var a, oa, b, ob := rs[..k], offsets[..k], rs[k + 1..], offsets[k + 1..];
    assert rs == a + ([rs[k]] + b) && offsets == oa + ([offsets[k]] + ob);
    TrafsAppend(a, oa, [rs[k]] + b, [offsets[k]] + ob);
    TrafsAppend([rs[k]], [offsets[k]], b, ob);
    TrafsOne(rs[k], offsets[k]);
  }

  lemma NoOffsetsSlices(n: nat, k: nat)
    requires k < n
    ensures NoOffsets(n)[..k] == NoOffsets(k) && NoOffsets(n)[k] == 0 && NoOffsets(n)[k + 1..] == NoOffsets(n - k - 1)
    ensures NoOffsets(n - k)[0] == 0 && NoOffsets(n - k)[1..] == NoOffsets(n - k - 1)
  {
  }

  /** Patching box `k` when those before it have been patched. */
  lemma PatchNext(front: bytes, rs: seq<Ready>, done: seq<u32>, offset: u32, k: nat)
    requires k < |rs| && |done| == k && |Traf(rs[k], 0)| <= U32_MAX
    ensures var pos := |front| + |Trafs(rs[..k], NoOffsets(k))| + OFFSET_POSITION;
            var body := front + (Trafs(rs[..k], done) + Trafs(rs[k..], NoOffsets(|rs| - k)));
            && pos + 4 <= |body|
            && Patched(body, pos, BE32(offset)) ==
               front + (Trafs(rs[..k + 1], done + [offset]) + Trafs(rs[k + 1..], NoOffsets(|rs| - k - 1)))
  {
    hide Trafs, Traf, Patched, BE32, NoOffsets;
    var r, n, field := rs[k], |rs|, BE32(offset);
    var before, after := Trafs(rs[..k], done), Trafs(rs[k + 1..], NoOffsets(n - k - 1));
    TrafsLength(rs[..k], done, NoOffsets(k));
    NoOffsetsSlices(n, k);
    assert rs[k..][0] == r && rs[k..][1..] == rs[k + 1..] && rs[k..][..0] == [] && NoOffsets(n - k)[..0] == [];
    TrafsAround(rs[k..], NoOffsets(n - k), 0);
    NoTrafs();
    assert Trafs(rs[k..], NoOffsets(n - k)) == Traf(r, 0) + after;
    PatchTraf(r, offset);
    var body := front + (before + (Traf(r, 0) + after));
    assert body == (front + before) + Traf(r, 0) + after;
    PatchInside(front + before, Traf(r, 0), after, OFFSET_POSITION, field);
    assert rs[..k + 1] == rs[..k] + [r];
    TrafsAppend(rs[..k], done, [r], [offset]);
    TrafsOne(r, offset);
    assert (front + before) + Traf(r, offset) + after == front + ((before + Traf(r, offset)) + after);
  }

  lemma NoTrafs()
    ensures Trafs([], []) == []
  {
  }

  lemma {:induction false} PrepareFails(runs: seq<Run>, i: nat, n: nat)
    requires i < n <= |runs| && PrepareAll(runs[..i]).Ok? && Prepare(runs[i]).Err?
    ensures PrepareAll(runs[..n]) == Err(Prepare(runs[i]).error)
    decreases n
  {
    hide Prepare;
    assert runs[..n][..n - 1] == runs[..n - 1];
    if i < n - 1 {
      PrepareFails(runs, i, n - 1);
    }
  }

  lemma {:induction false} EntriesFail(packets: seq<Packet>, i: nat, n: nat)
    requires i < n <= |packets| && Entries(packets[..i]).Ok? && SampleFields(packets[i]).Err?
    ensures Entries(packets[..n]) == Err(SampleFields(packets[i]).error)
    decreases n
  {
    hide SampleFields;
    assert packets[..n][..n - 1] == packets[..n - 1];
    if i < n - 1 {
      EntriesFail(packets, i, n - 1);
    }
  }

  // ---- The writer ----

  method WriteTfdt(packets: seq<Packet>) returns (r: Result<bytes, Mp4Error>)
    ensures r == match BaseTime(packets) { case Err(e) => Err(e) case Ok(base) => Ok(Tfdt(base)) }
  {
    var base := 0;
    if packets != [] && packets[0].dts.Some? {
      if packets[0].dts.value < 0 {
        return Err(InvalidInput(3508));
      }
      base := packets[0].dts.value;
    }
    var body := FullBox(1, 0);
    body := body + BE64(base);
    return Ok(WriteBox(TFDT, body));
  }

  /** The sample table with a placeholder for the data offset, and where in the box that is. */
  method WriteTrun(packets: seq<Packet>, ghost ready: Ready) returns (r: Result<(bytes, nat), Mp4Error>)
    requires |packets| <= U32_MAX && Entries(packets).Ok? ==>
               ready.count == |packets| && ready.entries == Entries(packets).value
    ensures |packets| > U32_MAX ==> r == Err(LimitExceeded("trun sample count"))
    ensures |packets| <= U32_MAX && Entries(packets).Err? ==> r == Err(Entries(packets).error)
    ensures |packets| <= U32_MAX && Entries(packets).Ok? ==> r == Ok((Trun(ready, 0), 16))
  {
    hide BE32, WriteBox;
    var body := FullBox(1, TRUN_FLAGS);
    if |packets| > U32_MAX {
      return Err(LimitExceeded("trun sample count"));
    }
    body := body + BE32(|packets|);
    var dataOffsetPos := |body|;
    body := body + BE32(0);
    ghost var front := body;
    for i := 0 to |packets|
      invariant Entries(packets[..i]).Ok? && body == front + Entries(packets[..i]).value
    {
      var p := packets[i];
      assert packets[..i + 1][..i] == packets[..i];
      if SampleFields(p).Err? {
        EntriesFail(packets, i, |packets|);
        assert packets[..|packets|] == packets;
      }
      var duration: int := if p.duration.Some? then p.duration.value else 0;
      var size := |p.payload|;
      var compositionOffset := CompositionOffset(p);
      var flags := if p.key then KEY_FLAGS else NON_KEY_FLAGS;
      if !(0 <= duration <= U32_MAX) {
        return Err(LimitExceeded("trun sample duration > u32"));
      }
      if size > U32_MAX {
        return Err(LimitExceeded("trun sample size > u32"));
      }
      if !(-I32_MAX - 1 <= compositionOffset <= I32_MAX) {
        return Err(LimitExceeded("trun composition offset > i32"));
      }
      var entry := BE32(duration) + BE32(size) + (BE32(flags) + BE32(AsU32(compositionOffset)));
      Assoc(front, Entries(packets[..i]).value, entry);
      body := body + entry;
    }
    assert packets[..|packets|] == packets;
    assert body == TrunBody(ready, 0);
    return Ok((WriteBox(TRUN, body), dataOffsetPos + 8));
  }

  /** A track's box and where its data offset is. */
  method WriteTraf(trackId: u32, packets: seq<Packet>) returns (r: Result<(bytes, nat), Mp4Error>)
    ensures r == match Prepare(Run(trackId, packets))
                 case Err(e) => Err(e)
                 case Ok(ready) => Ok((Traf(ready, 0), OFFSET_POSITION))
  {
    hide WriteBox, Entries, BE32, FullBox;
    var tfhd := Tfhd(trackId);
    var inner := tfhd;
    var tfdt := WriteTfdt(packets);
    if tfdt.Err? {
      return Err(tfdt.error);
    }
    inner := inner + tfdt.value;
    ghost var ready := Ready(trackId, BaseTime(packets).value, if |packets| <= U32_MAX then |packets| else 0,
                             if Entries(packets).Ok? then Entries(packets).value else [], |Payloads(packets)|);
    var trun := WriteTrun(packets, ready);
    if trun.Err? {
      return Err(trun.error);
    }
    inner := inner + trun.value.0;
    var patchPos := 8 + |tfhd| + |tfdt.value| + trun.value.1;
    return Ok((WriteBox(TRAF, inner), patchPos));
  }

  /** The track boxes laid out without offsets, where their offsets are, and the tracks' payload sizes. */
  ghost predicate Laid(sequence: u32, rs: seq<Ready>, body: bytes, patches: seq<nat>, sizes: seq<nat>)
  {
    && body == MoofBody(sequence, rs, NoOffsets(|rs|)) && |patches| == |rs| && |sizes| == |rs|
    && (forall k | 0 <= k < |rs| :: sizes[k] == rs[k].size)
    && (forall k | 0 <= k < |rs| :: patches[k] == |Mfhd(sequence)| + |Trafs(rs[..k], NoOffsets(k))| + OFFSET_POSITION)
  }

  lemma LaidNone(sequence: u32)
    ensures Laid(sequence, [], Mfhd(sequence), [], [])
  {
    hide Mfhd;
    NoTrafs();
    assert NoOffsets(0) == [] && Mfhd(sequence) + [] == Mfhd(sequence);
  }

  lemma LaidNext(sequence: u32, rs: seq<Ready>, body: bytes, patches: seq<nat>, sizes: seq<nat>, ready: Ready)
    requires Laid(sequence, rs, body, patches, sizes)
    ensures Laid(sequence, rs + [ready], body + Traf(ready, 0), patches + [|body| + OFFSET_POSITION],
                 sizes + [ready.size])
  {
    hide Traf, Mfhd, Trafs;
    var n, now := |rs|, rs + [ready];
    assert NoOffsets(n + 1) == NoOffsets(n) + [0];
    TrafsAppend(rs, NoOffsets(n), [ready], [0]);
    TrafsOne(ready, 0);
    Assoc(Mfhd(sequence), Trafs(rs, NoOffsets(n)), Traf(ready, 0));
    forall k | 0 <= k <= n
      ensures (patches + [|body| + OFFSET_POSITION])[k] ==
              |Mfhd(sequence)| + |Trafs(now[..k], NoOffsets(k))| + OFFSET_POSITION
    {
      assert now[..k] == rs[..k];
      if k == n {
        assert rs[..n] == rs;
      }
    }
  }

  method WriteTrafs(runs: seq<Run>, sequence: u32)
    returns (r: Result<(bytes, seq<nat>, seq<nat>), Mp4Error>, ghost rs: seq<Ready>)
    ensures PrepareAll(runs).Err? ==> r == Err(PrepareAll(runs).error)
    ensures PrepareAll(runs).Ok? ==>
              rs == PrepareAll(runs).value && r.Ok? && Laid(sequence, rs, r.value.0, r.value.1, r.value.2)
  {
    hide Prepare, Traf, Mfhd, Laid;
    var body := Mfhd(sequence);
    var patches: seq<nat>, sizes: seq<nat> := [], [];
    rs := [];
    LaidNone(sequence);
    for i := 0 to |runs|
      invariant PrepareAll(runs[..i]) == Ok(rs) && Laid(sequence, rs, body, patches, sizes)
    {
      assert runs[..i + 1][..i] == runs[..i] && Run(runs[i].trackId, runs[i].packets) == runs[i];
      var traf := WriteTraf(runs[i].trackId, runs[i].packets);
      if traf.Err? {
        PrepareFails(runs, i, |runs|);
        assert runs[..|runs|] == runs;
        return Err(traf.error), rs;
      }
      var size := PayloadSize(runs[i].packets);
      PreparedSize(runs[i]);
      LaidNext(sequence, rs, body, patches, sizes, Prepare(runs[i]).value);
      patches := patches + [|body| + traf.value.1];
      sizes := sizes + [size];
      rs := rs + [Prepare(runs[i]).value];
      body := body + traf.value.0;
    }
    assert runs[..|runs|] == runs;
    return Ok((body, patches, sizes)), rs;
  }

  lemma PreparedSize(run: Run)
    requires Prepare(run).Ok?
    ensures Prepare(run).value.size == |Payloads(run.packets)|
  {
  }

  method PayloadSize(packets: seq<Packet>) returns (size: nat)
    ensures size == |Payloads(packets)|
  {
    size := 0;
    for i := 0 to |packets|
      invariant size == |Payloads(packets[..i])|
    {
      assert packets[..i + 1][..i] == packets[..i];
      size := size + |packets[i].payload|;
    }
    assert packets[..|packets|] == packets;
  }

  method Sum(sizes: seq<nat>, ghost rs: seq<Ready>) returns (total: nat)
    requires |sizes| == |rs| && forall k | 0 <= k < |rs| :: sizes[k] == rs[k].size
    ensures total == SizeTo(rs, |rs|)
  {
    total := 0;
    for i := 0 to |sizes|
      invariant total == SizeTo(rs, i)
    {
      total := total + sizes[i];
    }
  }

  lemma TrafFits(sequence: u32, rs: seq<Ready>, k: nat)
    requires k < |rs|
    ensures |Traf(rs[k], 0)| <= PayloadOffset(sequence, rs)
  {
    hide Traf, Mfhd;
    NoOffsetsSlices(|rs|, k);
    TrafsAround(rs, NoOffsets(|rs|), k);
  }

  /**
   * The `moof` box. The data offsets count from the beginning of the box to where the track's payload begins in the
   * `mdat` that follows; they are written into the boxes when these have been laid out.
   */
  method WriteMoof(runs: seq<Run>, sequence: u32) returns (r: Result<bytes, Mp4Error>)
    ensures r == Moof(runs, sequence)
  {
    hide PrepareAll, MoofBody, Trafs, Traf, Mfhd, WriteBox, SizeTo, NoOffsets, Patched, BE32;
    var laid, rs := WriteTrafs(runs, sequence);
    if laid.Err? {
      return Err(laid.error);
    }
    var (body, patches, sizes) := laid.value;
    var moofSize := 8 + |body|;
    var totalPayload := Sum(sizes, rs);
    var mdatHeaderSize := if totalPayload + 8 > U32_MAX then 16 else 8;
    var payloadOffset := moofSize + mdatHeaderSize;
    var cumulative := 0;
    ghost var done: seq<u32> := [];
    Unpatched(sequence, rs);
    for k := 0 to |patches|
      invariant |done| == k && cumulative == SizeTo(rs, k)
      invariant forall j | 0 <= j < k :: done[j] == PayloadOffset(sequence, rs) + SizeTo(rs, j) <= I32_MAX
      invariant body == Mfhd(sequence) + (Trafs(rs[..k], done) + Trafs(rs[k..], NoOffsets(|rs| - k)))
    {
      var offset := payloadOffset + cumulative;
      if offset > I32_MAX {
        return Err(LimitExceeded("trun data offset exceeds i32"));
      }
      var pos := patches[k];
      TrafFits(sequence, rs, k);
      PatchNext(Mfhd(sequence), rs, done, offset, k);
      body := Patched(body, pos, BE32(offset));
      done := done + [offset];
      SizeStep(rs, k);
      cumulative := cumulative + sizes[k];
    }
    assert done == Offsets(sequence, rs);
    AllPatched(sequence, rs, done);
    return Ok(WriteBox(MOOF, body));
  }

  lemma SizeStep(rs: seq<Ready>, k: nat)
    requires k < |rs|
    ensures SizeTo(rs, k + 1) == SizeTo(rs, k) + rs[k].size && SizeTo(rs, 0) == 0
  {
  }

  lemma Unpatched(sequence: u32, rs: seq<Ready>)
    ensures MoofBody(sequence, rs, NoOffsets(|rs|)) ==
            Mfhd(sequence) + (Trafs(rs[..0], []) + Trafs(rs[0..], NoOffsets(|rs| - 0)))
    ensures SizeTo(rs, 0) == 0
  {
    hide Mfhd;
    assert rs[..0] == [] && rs[0..] == rs && |rs| - 0 == |rs|;
    assert [] + Trafs(rs, NoOffsets(|rs|)) == Trafs(rs, NoOffsets(|rs|));
  }

  lemma AllPatched(sequence: u32, rs: seq<Ready>, offsets: seq<u32>)
    requires |offsets| == |rs|
    ensures Mfhd(sequence) + (Trafs(rs[..|rs|], offsets) + Trafs(rs[|rs|..], NoOffsets(|rs| - |rs|))) ==
            MoofBody(sequence, rs, offsets)
  {
    hide Mfhd;
    assert rs[..|rs|] == rs && rs[|rs|..] == [] && NoOffsets(|rs| - |rs|) == [];
    assert Trafs(rs, offsets) + [] == Trafs(rs, offsets);
  }

  method WriteMdat(runs: seq<Run>) returns (s: bytes)
    ensures s == WriteBox(MDAT, MdatBody(runs))
  {
    hide WriteBox;
    var body := [];
    for i := 0 to |runs|
      invariant body == MdatBody(runs[..i])
    {
      assert runs[..i + 1][..i] == runs[..i];
      ghost var before := body;
      var packets := runs[i].packets;
      assert packets[..0] == [] && before + [] == before;
      for j := 0 to |packets|
        invariant body == before + Payloads(packets[..j])
      {
        assert packets[..j + 1][..j] == packets[..j];
        Assoc(before, Payloads(packets[..j]), packets[j].payload);
        body := body + packets[j].payload;
      }
      assert packets[..|packets|] == packets;
    }
    assert runs[..|runs|] == runs;
    return WriteBox(MDAT, body);
  }

  method WriteMediaSegment(runs: seq<Run>, sequence: u32) returns (r: Result<bytes, Mp4Error>)
    ensures r == match Moof(runs, sequence)
                 case Err(e) => Err(e)
                 case Ok(moof) => Ok(moof + WriteBox(MDAT, MdatBody(runs)))
  {
    hide WriteBox, Moof;
    var moof := WriteMoof(runs, sequence);
    if moof.Err? {
      return Err(moof.error);
    }
    var mdat := WriteMdat(runs);
    return Ok(moof.value + mdat);
  }
}

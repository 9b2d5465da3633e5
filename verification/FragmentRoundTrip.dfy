/** A media segment reads back as it was written, wherever it stands in the stream. */
module FragmentRoundTrip {
  import opened Bytes
  import opened Boxes
  import opened FragmentWriter
  import R = FragmentReader

  // ---- Sample tables ----

  function EntryOf(f: Fields): R.TrunEntry
  {
    R.TrunEntry(Some(f.duration), Some(f.size), Some(f.flags), Some(f.offset))
  }

  lemma SignedField(v: i32)
    ensures R.AsI32(AsU32(v)) == v
  {
  }

  lemma FieldReads(d: bytes, pos: nat, v: u32)
    requires pos + 4 <= |d| && d[pos..pos + 4] == BE32(v)
    ensures R.ReadU32(d, pos) == Ok(v) && R.Field(d, pos, true) == Ok((Some(v), pos + 4))
  {
    hide BE32, FromBE32;
    BE32RoundTrip(v);
  }

  lemma TrunBits()
    ensures R.Bit(TRUN_FLAGS, 0x100) && R.Bit(TRUN_FLAGS, 0x200) && R.Bit(TRUN_FLAGS, 0x400) && R.Bit(TRUN_FLAGS, 0x800)
    ensures R.Bit(TRUN_FLAGS, 0x01) && !R.Bit(TRUN_FLAGS, 0x04)
  {
  }

  lemma Quarter(d: bytes, pos: nat, a: bytes, b: bytes, c: bytes, e: bytes)
    requires |a| == 4 && |b| == 4 && |c| == 4 && |e| == 4
    requires pos + 16 <= |d| && d[pos..pos + 16] == a + b + (c + e)
    ensures d[pos..pos + 4] == a && d[pos + 4..pos + 8] == b && d[pos + 8..pos + 12] == c && d[pos + 12..pos + 16] == e
  {
    var s := d[pos..pos + 16];
    assert s[..4] == a && s[4..8] == b && s[8..12] == c && s[12..] == e;
    SliceOfSlice(d, pos, pos + 16, 0, 4);
    SliceOfSlice(d, pos, pos + 16, 4, 8);
    SliceOfSlice(d, pos, pos + 16, 8, 12);
    SliceOfSlice(d, pos, pos + 16, 12, 16);
  }

  lemma EntryReads(d: bytes, pos: nat, f: Fields)
    requires pos + 16 <= |d| && d[pos..pos + 16] == Entry(f)
    ensures R.ParseEntry(d, pos, 1, TRUN_FLAGS) == Ok((EntryOf(f), pos + 16))
  {
    hide BE32, FromBE32, R.Field, R.Bit, R.AsI32, AsU32;
    Quarter(d, pos, BE32(f.duration), BE32(f.size), BE32(f.flags), BE32(AsU32(f.offset)));
    TrunBits();
    FieldReads(d, pos, f.duration);
    FieldReads(d, pos + 4, f.size);
    FieldReads(d, pos + 8, f.flags);
    FieldReads(d, pos + 12, AsU32(f.offset));
    SignedField(f.offset);
  }

  function EntriesOf(packets: seq<Packet>): (e: seq<R.TrunEntry>)
    requires Entries(packets).Ok?
    ensures |e| == |packets|
    decreases |packets|
  {
    if packets == [] then []
    else
      var n := |packets| - 1;
      EntriesOf(packets[..n]) + [EntryOf(SampleFields(packets[n]).value)]
  }

  lemma {:induction false} EntriesRead(front: bytes, packets: seq<Packet>, rest: bytes)
    requires Entries(packets).Ok?
    ensures var d := front + (Entries(packets).value + rest);
            R.ParseEntries(d, |front|, 1, TRUN_FLAGS, |packets|) == Ok((EntriesOf(packets), |front| + 16 * |packets|))
    decreases |packets|
  {
    hide R.ParseEntry, Entry, SampleFields, EntryOf;
    if packets != [] {
      var n := |packets| - 1;
      var before, entry := Entries(packets[..n]).value, Entry(SampleFields(packets[n]).value);
      var d := front + (Entries(packets).value + rest);
      Assoc(before, entry, rest);
      EntriesRead(front, packets[..n], entry + rest);
      EntryPlace(front, before, entry, rest);
      EntryReads(d, |front| + 16 * n, SampleFields(packets[n]).value);
    }
  }

  lemma EntryPlace(front: bytes, before: bytes, entry: bytes, rest: bytes)
    requires |entry| == 16
    ensures var d, at := front + (before + (entry + rest)), |front| + |before|;
            |d| >= at + 16 && d[at..at + 16] == entry
  {
  }

  // ---- Boxes of a track ----

  lemma FullReads(version: byte, flags: u24, body: bytes)
    ensures R.FullHeader(FullBox(version, flags) + body) == Ok((version, flags, body))
  {
    hide FromBE24, BE24;
    var d := FullBox(version, flags) + body;
    assert d[1..4] == BE24(flags) && d[4..] == body;
    BE24RoundTrip(flags);
  }

  lemma TfhdReads(trackId: u32)
    ensures R.ParseTfhd(FullBox(0, TFHD_FLAGS) + BE32(trackId)) == Ok(R.Tfhd(TFHD_FLAGS, trackId, 0, 0, 0, 0))
  {
    hide FullBox, BE32, FromBE32;
    FullReads(0, TFHD_FLAGS, BE32(trackId));
    assert BE32(trackId)[0..4] == BE32(trackId);
    FieldReads(BE32(trackId), 0, trackId);
    assert !R.Bit(TFHD_FLAGS, 0x01) && !R.Bit(TFHD_FLAGS, 0x02) && !R.Bit(TFHD_FLAGS, 0x08);
    assert !R.Bit(TFHD_FLAGS, 0x10) && !R.Bit(TFHD_FLAGS, 0x20);
  }

  lemma TfdtReads(base: u64)
    ensures R.ParseTfdt(FullBox(1, 0) + BE64(base)) == Ok(base)
  {
    hide FullBox, BE64, FromBE64;
    FullReads(1, 0, BE64(base));
    assert BE64(base)[0..8] == BE64(base);
    BE64RoundTrip(base);
  }

  lemma TrunReads(packets: seq<Packet>, ready: Ready, offset: u32)
    requires Entries(packets).Ok? && |packets| <= MAX_TABLE_ENTRIES && offset <= I32_MAX
    requires ready.count == |packets| && ready.entries == Entries(packets).value
    ensures R.ParseTrun(TrunBody(ready, offset)) == Ok(R.Trun(Some(offset), None, EntriesOf(packets)))
  {
    hide FullBox, BE32, FromBE32, R.ParseEntries, R.Field, R.ReadU32, R.Bit, EntriesOf, Entries;
    var count, rest := BE32(ready.count), BE32(offset) + ready.entries;
    Assoc(FullBox(1, TRUN_FLAGS), count, rest);
    FullReads(1, TRUN_FLAGS, count + rest);
    var body := count + rest;
    assert body[0..4] == count && body[4..8] == BE32(offset);
    FieldReads(body, 0, ready.count);
    FieldReads(body, 4, offset);
    TrunBits();
    NoField(body, 8);
    assert body == (count + BE32(offset)) + (ready.entries + []);
    EntriesRead(count + BE32(offset), packets, []);
  }

  lemma NoField(d: bytes, pos: nat)
    ensures R.Field(d, pos, false) == Ok((None, pos))
  {
  }

  // ---- traf ----

  lemma ReadOne(d: bytes, before: bytes, boxType: fourcc, body: bytes, rest: bytes, found: R.TrafBoxes,
                now: R.TrafBoxes)
    requires |body| + 8 <= U32_MAX && d == before + (WriteBox(boxType, body) + rest)
    requires R.AddChild(found, boxType, body) == Ok(now)
    ensures R.ReadChildren(d, |before|, found) == R.ReadChildren(d, |before| + |WriteBox(boxType, body)|, now)
  {
    hide R.AddChild, NextBox, WriteBox;
    NextReads(before, boxType, body, rest);
    assert |WriteBox(boxType, body)| > 0 by { BoxLong(boxType, body); }
  }

  lemma BoxLong(boxType: fourcc, body: bytes)
    ensures |WriteBox(boxType, body)| >= 8
  {
  }

  lemma ThreeChildren(t1: fourcc, b1: bytes, t2: fourcc, b2: bytes, t3: fourcc, b3: bytes,
                      f0: R.TrafBoxes, f1: R.TrafBoxes, f2: R.TrafBoxes, f3: R.TrafBoxes)
    requires |b1| + 8 <= U32_MAX && |b2| + 8 <= U32_MAX && |b3| + 8 <= U32_MAX
    requires R.AddChild(f0, t1, b1) == Ok(f1) && R.AddChild(f1, t2, b2) == Ok(f2) && R.AddChild(f2, t3, b3) == Ok(f3)
    ensures R.ReadChildren((WriteBox(t1, b1) + WriteBox(t2, b2)) + WriteBox(t3, b3), 0, f0) == Ok(f3)
  {
    hide WriteBox, R.AddChild, R.ReadChildren, NextBox;
    var x1, x2, x3 := WriteBox(t1, b1), WriteBox(t2, b2), WriteBox(t3, b3);
    var d := (x1 + x2) + x3;
    assert d == [] + (x1 + (x2 + x3));
    ReadOne(d, [], t1, b1, x2 + x3, f0, f1);
    assert d == x1 + (x2 + x3);
    ReadOne(d, x1, t2, b2, x3, f1, f2);
    assert d == (x1 + x2) + (x3 + []);
    ReadOne(d, x1 + x2, t3, b3, [], f2, f3);
    ReadEnd(d, f3);
  }

  lemma ReadEnd(d: bytes, found: R.TrafBoxes)
    ensures R.ReadChildren(d, |d|, found) == Ok(found)
  {
  }

  lemma Children(ready: Ready, offset: u32, trun: R.Trun)
    requires |TrafBody(ready, offset)| <= U32_MAX && R.ParseTrun(TrunBody(ready, offset)) == Ok(trun)
    ensures R.ReadChildren(TrafBody(ready, offset), 0, R.TrafBoxes(None, None, None)) ==
            Ok(R.TrafBoxes(Some(R.Tfhd(TFHD_FLAGS, ready.trackId, 0, 0, 0, 0)), Some(ready.base), Some(trun)))
  {
    TrunShort(ready, offset);
    TfhdReads(ready.trackId);
    TfdtReads(ready.base);
    hide WriteBox, TrunBody, R.ParseTfhd, R.ParseTfdt, R.ParseTrun, FullBox, BE32, BE64, R.ReadChildren;
    var f0 := R.TrafBoxes(None, None, None);
    var f1 := f0.(tfhd := Some(R.Tfhd(TFHD_FLAGS, ready.trackId, 0, 0, 0, 0)));
    var f2 := f1.(tfdt := Some(ready.base));
    ThreeChildren(TFHD, FullBox(0, TFHD_FLAGS) + BE32(ready.trackId), TFDT, FullBox(1, 0) + BE64(ready.base),
                  TRUN, TrunBody(ready, offset), f0, f1, f2, f2.(trun := Some(trun)));
  }

  lemma TrunShort(ready: Ready, offset: u32)
    requires |TrafBody(ready, offset)| <= U32_MAX
    ensures |TrunBody(ready, offset)| + 8 <= U32_MAX && Trun(ready, offset) == WriteBox(TRUN, TrunBody(ready, offset))
    ensures Tfhd(ready.trackId) == WriteBox(TFHD, FullBox(0, TFHD_FLAGS) + BE32(ready.trackId))
    ensures Tfdt(ready.base) == WriteBox(TFDT, FullBox(1, 0) + BE64(ready.base))
  {
  }

  lemma {:induction false} EntriesPrefix(packets: seq<Packet>, k: nat)
    requires Entries(packets).Ok? && k <= |packets|
    ensures Entries(packets[..k]).Ok? && (k < |packets| ==> SampleFields(packets[k]).Ok?)
    ensures k < |packets| ==> EntriesOf(packets)[k] == EntryOf(SampleFields(packets[k]).value)
    decreases |packets|
  {
    hide SampleFields, Entry;
    var n := |packets| - 1;
    if k == |packets| {
      assert packets[..k] == packets;
    } else if k < n {
      EntriesPrefix(packets[..n], k);
      assert packets[..n][..k] == packets[..k];
    }
  }

  /** The fields of a sample that has been written. */
  function FieldsOf(p: Packet): Fields
  {
    if SampleFields(p).Ok? then SampleFields(p).value else Fields(0, 0, 0, 0)
  }

  /** The samples of packets whose payloads stand one after another from `first` on. */
  function SamplesOf(packets: seq<Packet>, first: nat): (s: seq<R.FragmentSample>)
    ensures |s| == |packets|
    decreases |packets|
  {
    if packets == [] then []
    else
      var n := |packets| - 1;
      var f := FieldsOf(packets[n]);
      SamplesOf(packets[..n], first)
      + [R.FragmentSample(f.duration, f.size, f.flags, f.offset, first + |Payloads(packets[..n])|)]
  }

  lemma FieldsSize(p: Packet)
    requires SampleFields(p).Ok?
    ensures SampleFields(p).value.size == |p.payload|
  {
  }

  lemma {:induction false} PayloadsGrow(packets: seq<Packet>, k: nat)
    requires k <= |packets|
    ensures |Payloads(packets[..k])| <= |Payloads(packets)|
    ensures k < |packets| ==>
              |Payloads(packets[..k + 1])| == |Payloads(packets[..k])| + |packets[k].payload| <= |Payloads(packets)|
    decreases |packets|
  {
    var n := |packets| - 1;
    if k == |packets| {
      assert packets[..k] == packets;
    } else if k == n {
      assert packets[..k + 1] == packets;
    } else {
      PayloadsGrow(packets[..n], k);
      assert packets[..n][..k] == packets[..k] && packets[..n][..k + 1] == packets[..k + 1];
    }
  }

  lemma {:induction false} SamplesRead(packets: seq<Packet>, offset: i32, defaults: R.Trex, base: nat, n: nat)
    requires Entries(packets).Ok? && n <= |packets| && offset >= 0
    requires base + offset + |Payloads(packets)| <= U64_MAX
    ensures Entries(packets[..n]).Ok?
    ensures R.SamplesTo(R.Trun(Some(offset), None, EntriesOf(packets)), defaults, base, n) ==
            Ok((SamplesOf(packets[..n], base + offset), |Payloads(packets[..n])|))
    decreases n
  {
    hide SampleFields, Payloads, Entries, EntriesOf;
    EntriesPrefix(packets, n);
    if n == 0 {
      NoPackets();
      assert packets[..0] == [];
    } else {
      EntriesPrefix(packets, n - 1);
      SamplesRead(packets, offset, defaults, base, n - 1);
      PayloadsGrow(packets, n - 1);
      FieldsSize(packets[n - 1]);
      assert packets[..n][..n - 1] == packets[..n - 1] && packets[..n][n - 1] == packets[n - 1];
    }
  }

  lemma NoPackets()
    ensures Payloads([]) == [] && Entries([]) == Ok([])
  {
  }

  /** What a run's box reads back as, its first payload being at `first`. */
  function FragmentOf(run: Run, first: nat): R.TrackFragment
  {
    R.TrackFragment(run.trackId, BaseOf(run.packets), SamplesOf(run.packets, first))
  }

  function BaseOf(packets: seq<Packet>): u64
  {
    if BaseTime(packets).Ok? then BaseTime(packets).value else 0
  }

  lemma TfhdBits()
    ensures !R.Bit(TFHD_FLAGS, 0x01)
  {
  }

  lemma PreparedFields(run: Run)
    requires Prepare(run).Ok?
    ensures var r := Prepare(run).value;
            && Entries(run.packets).Ok? && r.base == BaseOf(run.packets) && r.trackId == run.trackId
            && r.count == |run.packets|
            && r.entries == Entries(run.packets).value && r.size == |Payloads(run.packets)|
  {
  }

  lemma TrafReads(run: Run, offset: u32, moofOffset: nat, tracks: map<u32, R.Trex>)
    requires Prepare(run).Ok? && |run.packets| <= MAX_TABLE_ENTRIES && offset <= I32_MAX
    requires |TrafBody(Prepare(run).value, offset)| <= U32_MAX
    requires moofOffset + offset + |Payloads(run.packets)| <= U64_MAX
    ensures R.ParseTraf(TrafBody(Prepare(run).value, offset), moofOffset, tracks) ==
            Ok(Some(FragmentOf(run, moofOffset + offset)))
  {
    PreparedFields(run);
    hide Prepare, TrafBody, R.ReadChildren, R.SamplesTo, R.Bit, R.Defaults, Payloads, SamplesOf, EntriesOf, Entries,
         R.ParseTrun, TrunBody, R.TrexOf;
    var ready := Prepare(run).value;
    var trun := R.Trun(Some(offset), None, EntriesOf(run.packets));
    TrunReads(run.packets, ready, offset);
    Children(ready, offset, trun);
    TfhdBits();
    var tfhd := R.Tfhd(TFHD_FLAGS, ready.trackId, 0, 0, 0, 0);
    SamplesRead(run.packets, offset, R.Defaults(tfhd, R.TrexOf(tracks, ready.trackId)), moofOffset, |run.packets|);
    assert run.packets[..|run.packets|] == run.packets;
  }

  // ---- moof ----

  ghost predicate Laid(runs: seq<Run>, rs: seq<Ready>, offsets: seq<u32>, moofOffset: nat)
  {
    && |runs| == |rs| == |offsets|
    && (forall k | 0 <= k < |runs| :: LaidAt(runs[k], rs[k], offsets[k], moofOffset))
  }

  ghost predicate LaidAt(run: Run, r: Ready, offset: u32, moofOffset: nat)
  {
    && Prepare(run) == Ok(r) && |run.packets| <= MAX_TABLE_ENTRIES && offset <= I32_MAX
    && |TrafBody(r, offset)| + 8 <= U32_MAX && moofOffset + offset + |Payloads(run.packets)| <= U64_MAX
  }

  function FragmentsOf(runs: seq<Run>, offsets: seq<u32>, moofOffset: nat): (f: seq<R.TrackFragment>)
    requires |offsets| == |runs|
    ensures |f| == |runs|
  {
    seq(|runs|, k requires 0 <= k < |runs| => FragmentOf(runs[k], moofOffset + offsets[k]))
  }

  lemma LaidFirst(runs: seq<Run>, rs: seq<Ready>, offsets: seq<u32>, moofOffset: nat)
    requires Laid(runs, rs, offsets, moofOffset)
    ensures |offsets| == |runs| == |rs|
    ensures runs != [] ==>
              LaidAt(runs[0], rs[0], offsets[0], moofOffset) && Laid(runs[1..], rs[1..], offsets[1..], moofOffset)
  {
    hide LaidAt;
  }

  /** One track box at the front of what is left. */
  lemma TrafStep(before: bytes, run: Run, r: Ready, offset: u32, rest: bytes, moofOffset: nat, tracks: map<u32, R.Trex>)
    requires LaidAt(run, r, offset, moofOffset)
    ensures var d, next := before + (Traf(r, offset) + rest), |before + Traf(r, offset)|;
            && R.ParseMoof(d, |before|, moofOffset, tracks) ==
               match R.ParseMoof(d, next, moofOffset, tracks)
               case Err(e) => Err(e)
               case Ok(fs) => Ok([FragmentOf(run, moofOffset + offset)] + fs)
  {
    hide Prepare, TrafBody, WriteBox, R.ParseTraf, NextBox, Payloads, FragmentOf;
    NextReads(before, TRAF, TrafBody(r, offset), rest);
    TrafReads(run, offset, moofOffset, tracks);
    BoxLong(TRAF, TrafBody(r, offset));
  }

  lemma {:induction false} TrafsRead(before: bytes, runs: seq<Run>, rs: seq<Ready>, offsets: seq<u32>, moofOffset: nat,
                                     tracks: map<u32, R.Trex>)
    requires Laid(runs, rs, offsets, moofOffset)
    ensures |offsets| == |runs| == |rs|
    ensures R.ParseMoof(before + Trafs(rs, offsets), |before|, moofOffset, tracks) ==
            Ok(FragmentsOf(runs, offsets, moofOffset))
    decreases |runs|
  {
    LaidFirst(runs, rs, offsets, moofOffset);
    hide Laid, LaidAt, Traf, FragmentOf, Trafs, R.ParseMoof, FragmentsOf;
    if runs == [] {
      NoTrafs();
      MoofEnds(before, moofOffset, tracks);
      assert before + [] == before;
      assert rs == [] && offsets == [];
      NoFragments(moofOffset);
    } else {
      TrafsRead(before + Traf(rs[0], offsets[0]), runs[1..], rs[1..], offsets[1..], moofOffset, tracks);
      TrafsReadNext(before, runs, rs, offsets, moofOffset, tracks);
    }
  }

  lemma TrafsReadNext(before: bytes, runs: seq<Run>, rs: seq<Ready>, offsets: seq<u32>, moofOffset: nat,
                      tracks: map<u32, R.Trex>)
    requires runs != [] && |runs| == |rs| == |offsets| && LaidAt(runs[0], rs[0], offsets[0], moofOffset)
    requires var now := before + Traf(rs[0], offsets[0]);
             R.ParseMoof(now + Trafs(rs[1..], offsets[1..]), |now|, moofOffset, tracks) ==
             Ok(FragmentsOf(runs[1..], offsets[1..], moofOffset))
    ensures R.ParseMoof(before + Trafs(rs, offsets), |before|, moofOffset, tracks) ==
            Ok(FragmentsOf(runs, offsets, moofOffset))
  {
    hide LaidAt, Traf, FragmentOf, Trafs, R.ParseMoof, FragmentsOf;
    var rest := Trafs(rs[1..], offsets[1..]);
    TrafsFirst(rs, offsets);
    TrafStep(before, runs[0], rs[0], offsets[0], rest, moofOffset, tracks);
    Assoc(before, Traf(rs[0], offsets[0]), rest);
    FragmentsFirst(runs, offsets, moofOffset);
  }

  lemma NoFragments(moofOffset: nat)
    ensures FragmentsOf([], [], moofOffset) == []
  {
  }

  lemma FragmentsFirst(runs: seq<Run>, offsets: seq<u32>, moofOffset: nat)
    requires |offsets| == |runs| && runs != []
    ensures FragmentsOf(runs, offsets, moofOffset) ==
            [FragmentOf(runs[0], moofOffset + offsets[0])] + FragmentsOf(runs[1..], offsets[1..], moofOffset)
  {
    hide FragmentOf;
  }

  lemma TrafsFirst(rs: seq<Ready>, offsets: seq<u32>)
    requires |offsets| == |rs| && rs != []
    ensures Trafs(rs, offsets) == Traf(rs[0], offsets[0]) + Trafs(rs[1..], offsets[1..])
  {
    hide Traf, Trafs;
    TrafsAround(rs, offsets, 0);
    NoTrafs();
    assert rs[..0] == [] && offsets[..0] == [];
  }

  lemma MoofEnds(d: bytes, moofOffset: nat, tracks: map<u32, R.Trex>)
    ensures R.ParseMoof(d, |d|, moofOffset, tracks) == Ok([])
  {
  }

  lemma {:induction false} PreparedAll(runs: seq<Run>, k: nat)
    requires PrepareAll(runs).Ok? && k < |runs|
    ensures Prepare(runs[k]) == Ok(PrepareAll(runs).value[k])
    decreases |runs|
  {
    hide Prepare;
    var n := |runs| - 1;
    if k < n {
      PreparedAll(runs[..n], k);
    }
  }

  lemma {:induction false} SizeGrows(rs: seq<Ready>, k: nat, n: nat)
    requires k < n <= |rs|
    ensures SizeTo(rs, k) + rs[k].size <= SizeTo(rs, n)
    decreases n
  {
    if k < n - 1 {
      SizeGrows(rs, k, n - 1);
    }
  }

  lemma TrafBodySize(r: Ready, offset: u32)
    ensures |TrafBody(r, offset)| + 8 <= |Traf(r, offset)|
  {
  }

  /** The patched offsets lay out every track. */
  lemma MoofLaid(runs: seq<Run>, sequence: u32, moofOffset: nat)
    requires PrepareAll(runs).Ok? && var rs := PrepareAll(runs).value;
             OffsetsFit(sequence, rs) && moofOffset + PayloadOffset(sequence, rs) + SizeTo(rs, |rs|) <= U64_MAX
    requires forall k | 0 <= k < |runs| :: |runs[k].packets| <= MAX_TABLE_ENTRIES
    ensures var rs := PrepareAll(runs).value; Laid(runs, rs, Offsets(sequence, rs), moofOffset)
  {
    hide Prepare, PayloadOffset, SizeTo, Traf, TrafBody;
    var rs := PrepareAll(runs).value;
    forall k | 0 <= k < |runs| ensures LaidAt(runs[k], rs[k], Offsets(sequence, rs)[k], moofOffset) {
      PreparedAll(runs, k);
      PreparedFields(runs[k]);
      TrafFits(sequence, rs, k);
      TrafSize(rs[k], 0, Offsets(sequence, rs)[k]);
      TrafBodySize(rs[k], Offsets(sequence, rs)[k]);
      SizeGrows(rs, k, |rs|);
      assert PayloadOffset(sequence, rs) + SizeTo(rs, k) <= I32_MAX;
    }
  }

  lemma MfhdSkipped(sequence: u32, rest: bytes, moofOffset: nat, tracks: map<u32, R.Trex>)
    ensures R.ParseMoof(Mfhd(sequence) + rest, 0, moofOffset, tracks) ==
            R.ParseMoof(Mfhd(sequence) + rest, |Mfhd(sequence)|, moofOffset, tracks)
  {
    var d, body := Mfhd(sequence) + rest, FullBox(0, 0) + BE32(sequence);
    hide WriteBox, NextBox, BE32, FullBox;
    assert d == [] + (WriteBox(MFHD, body) + rest);
    NextReads([], MFHD, body, rest);
    R.NothingBefore(d, |Mfhd(sequence)|, moofOffset, tracks);
  }

  /**
   * A written `moof` reads back as its runs, wherever it stands: track `k`'s samples begin where its payload begins in
   * the `mdat` behind it, whose header has 8 or 16 bytes.
   */
  lemma MoofReads(runs: seq<Run>, sequence: u32, moofOffset: nat, tracks: map<u32, R.Trex>)
    requires PrepareAll(runs).Ok? && var rs := PrepareAll(runs).value;
             OffsetsFit(sequence, rs) && moofOffset + PayloadOffset(sequence, rs) + SizeTo(rs, |rs|) <= U64_MAX
    requires forall k | 0 <= k < |runs| :: |runs[k].packets| <= MAX_TABLE_ENTRIES
    ensures var rs := PrepareAll(runs).value;
            var offsets := Offsets(sequence, rs);
            && R.ParseMoof(MoofBody(sequence, rs, offsets), 0, moofOffset, tracks) ==
            Ok(FragmentsOf(runs, offsets, moofOffset))
            && (runs != [] ==> PayloadOffset(sequence, rs) ==
                               |WriteBox(MOOF, MoofBody(sequence, rs, offsets))| + HeaderLength(SizeTo(rs, |rs|)))
  {
    hide PrepareAll, SizeTo, Mfhd, Trafs, Laid, R.ParseMoof, FragmentsOf;
    var rs := PrepareAll(runs).value;
    var offsets := Offsets(sequence, rs);
    MoofLaid(runs, sequence, moofOffset);
    MfhdSkipped(sequence, Trafs(rs, offsets), moofOffset, tracks);
    TrafsRead(Mfhd(sequence), runs, rs, offsets, moofOffset, tracks);
    TrafsLength(rs, offsets, NoOffsets(|rs|));
    if runs != [] {
      assert PayloadOffset(sequence, rs) + SizeTo(rs, 0) <= I32_MAX;
    }
  }

  // ---- Packets ----

  /** Decode times begin at the fragment's base and add up the durations. */
  function DecodeTime(packets: seq<Packet>, k: nat): u64
    requires k <= |packets|
  {
    if k == 0 then BaseOf(packets) else R.Saturated(DecodeTime(packets, k - 1) + FieldsOf(packets[k - 1]).duration)
  }

  function PresentationTime(packets: seq<Packet>, k: nat): u64
    requires k < |packets|
  {
    R.Saturated(DecodeTime(packets, k) + FieldsOf(packets[k]).offset)
  }

  ghost predicate TimesFit(packets: seq<Packet>)
  {
    forall k | 0 <= k < |packets| :: DecodeTime(packets, k) <= I64_MAX && PresentationTime(packets, k) <= I64_MAX
  }

  /** What packet `k` of a run reads back as. */
  function ReadBack(run: Run, k: nat, sequence: u64, epoch: nat): R.MediaPacket
    requires k < |run.packets| && TimesFit(run.packets)
  {
    var p := run.packets[k];
    R.MediaPacket(run.trackId, epoch, Wrap64(sequence + k), p.payload, PresentationTime(run.packets, k),
                  DecodeTime(run.packets, k), FieldsOf(p).duration, p.key, false)
  }

  function AllReadBack(run: Run, sequence: u64, epoch: nat): (ps: seq<R.MediaPacket>)
    requires TimesFit(run.packets)
    ensures |ps| == |run.packets|
  {
    seq(|run.packets|, k requires 0 <= k < |run.packets| => ReadBack(run, k, sequence, epoch))
  }

  lemma {:induction false} SampleAt(packets: seq<Packet>, first: nat, k: nat)
    requires k < |packets|
    ensures var f := FieldsOf(packets[k]);
            SamplesOf(packets, first)[k] ==
            R.FragmentSample(f.duration, f.size, f.flags, f.offset, first + |Payloads(packets[..k])|)
    decreases |packets|
  {
    hide FieldsOf, Payloads;
    var n := |packets| - 1;
    if k < n {
      SampleAt(packets[..n], first, k);
      assert packets[..n][..k] == packets[..k];
    }
  }

  lemma {:induction false} PayloadAt(packets: seq<Packet>, k: nat)
    requires k < |packets|
    ensures var at := |Payloads(packets[..k])|;
            && at + |packets[k].payload| <= |Payloads(packets)|
            && Payloads(packets)[at..at + |packets[k].payload|] == packets[k].payload
    decreases |packets|
  {
    var n := |packets| - 1;
    if k < n {
      PayloadAt(packets[..n], k);
      assert packets[..n][..k] == packets[..k];
      var at := |Payloads(packets[..k])|;
      assert Payloads(packets)[at..at + |packets[k].payload|] == Payloads(packets[..n])[at..at + |packets[k].payload|];
    }
  }

  lemma FieldsFacts(p: Packet)
    requires SampleFields(p).Ok?
    ensures FieldsOf(p).size == |p.payload| && !R.IsNonSync(FieldsOf(p).flags) == p.key
    ensures FieldsOf(p).offset == CompositionOffset(p)
    ensures FieldsOf(p).duration == if p.duration.Some? then p.duration.value else 0
  {
  }

  /** A sample cut out of the `mdat`. */
  lemma EmitOneReads(run: Run, first: nat, mdat: bytes, mdatOffset: nat, sequence: u64, epoch: nat, k: nat)
    requires k < |run.packets| && SampleFields(run.packets[k]).Ok? && TimesFit(run.packets) && |mdat| <= U64_MAX
    requires mdatOffset <= first && first - mdatOffset + |Payloads(run.packets)| <= |mdat|
    requires mdat[first - mdatOffset..first - mdatOffset + |Payloads(run.packets)|] == Payloads(run.packets)
    ensures R.EmitOne(SamplesOf(run.packets, first)[k], run.trackId, mdat, mdatOffset, DecodeTime(run.packets, k),
                      Wrap64(sequence + k), epoch) == Ok(ReadBack(run, k, sequence, epoch))
  {
    hide Payloads, DecodeTime, Wrap64, FieldsOf, SamplesOf, R.IsNonSync;
    var packets, p := run.packets, run.packets[k];
    SampleAt(packets, first, k);
    FieldsFacts(p);
    PayloadAt(packets, k);
    var at := |Payloads(packets[..k])|;
    SliceOfSlice(mdat, first - mdatOffset, first - mdatOffset + |Payloads(packets)|, at, at + |p.payload|);
    assert DecodeTime(packets, k) <= I64_MAX && PresentationTime(packets, k) <= I64_MAX;
  }

  lemma {:induction false} EmitReads(run: Run, first: nat, mdat: bytes, mdatOffset: nat, sequence: u64, epoch: nat,
                                     n: nat)
    requires Entries(run.packets).Ok? && TimesFit(run.packets) && n <= |run.packets| && |mdat| <= U64_MAX
    requires mdatOffset <= first && first - mdatOffset + |Payloads(run.packets)| <= |mdat|
    requires mdat[first - mdatOffset..first - mdatOffset + |Payloads(run.packets)|] == Payloads(run.packets)
    ensures R.EmitTo(FragmentOf(run, first), mdat, mdatOffset, sequence, epoch, n) ==
            Ok((AllReadBack(run, sequence, epoch)[..n], DecodeTime(run.packets, n)))
    decreases n
  {
    hide Payloads, Entries, SamplesOf, ReadBack, FieldsOf, R.EmitOne, Wrap64, TimesFit;
    if n > 0 {
      EntriesPrefix(run.packets, n - 1);
      EmitReads(run, first, mdat, mdatOffset, sequence, epoch, n - 1);
      EmitOneReads(run, first, mdat, mdatOffset, sequence, epoch, n - 1);
      SampleAt(run.packets, first, n - 1);
      assert AllReadBack(run, sequence, epoch)[..n] ==
             AllReadBack(run, sequence, epoch)[..n - 1] + [ReadBack(run, n - 1, sequence, epoch)];
    }
  }

  /** Track `k`'s payloads are in the `mdat` behind those of the tracks before. */
  lemma {:induction false} MdatPlace(runs: seq<Run>, rs: seq<Ready>, k: nat)
    requires |runs| == |rs| && k < |runs| && forall j | 0 <= j < |runs| :: rs[j].size == |Payloads(runs[j].packets)|
    ensures |MdatBody(runs)| == SizeTo(rs, |rs|)
    ensures var at, size := SizeTo(rs, k), |Payloads(runs[k].packets)|;
            && at + size <= |MdatBody(runs)| && MdatBody(runs)[at..at + size] == Payloads(runs[k].packets)
    decreases |runs|
  {
    hide Payloads;
    var n := |runs| - 1;
    MdatSize(runs[..n], rs[..n]);
    SizePrefix(rs, n, n);
    SizePrefix(rs, n, k);
    if k < n {
      MdatPlace(runs[..n], rs[..n], k);
      var at, size := SizeTo(rs, k), |Payloads(runs[k].packets)|;
      assert MdatBody(runs)[at..at + size] == MdatBody(runs[..n])[at..at + size];
    }
  }

  lemma {:induction false} MdatSize(runs: seq<Run>, rs: seq<Ready>)
    requires |runs| == |rs| && forall j | 0 <= j < |runs| :: rs[j].size == |Payloads(runs[j].packets)|
    ensures |MdatBody(runs)| == SizeTo(rs, |rs|)
    decreases |runs|
  {
    hide Payloads;
    if runs != [] {
      var n := |runs| - 1;
      MdatSize(runs[..n], rs[..n]);
      SizePrefix(rs, n, n);
    }
  }

  lemma {:induction false} SizePrefix(rs: seq<Ready>, n: nat, k: nat)
    requires k <= n <= |rs|
    ensures SizeTo(rs[..n], k) == SizeTo(rs, k)
    decreases k
  {
    if k > 0 {
      SizePrefix(rs, n, k - 1);
    }
  }

  // ---- The whole segment ----

  lemma MoofParts(runs: seq<Run>, sequence: u32)
    requires Moof(runs, sequence).Ok? && runs != []
    ensures PrepareAll(runs).Ok? && var rs := PrepareAll(runs).value;
            && |rs| == |runs| && OffsetsFit(sequence, rs)
            && var body := MoofBody(sequence, rs, Offsets(sequence, rs));
               && Moof(runs, sequence).value == WriteBox(MOOF, body) && |body| + 8 <= U32_MAX
  {
    hide PrepareAll, SizeTo, Mfhd, Trafs, WriteBox;
    var rs := PrepareAll(runs).value;
    assert PayloadOffset(sequence, rs) + SizeTo(rs, 0) <= I32_MAX;
    TrafsLength(rs, Offsets(sequence, rs), NoOffsets(|rs|));
  }

  lemma SizesPrepared(runs: seq<Run>)
    requires PrepareAll(runs).Ok?
    ensures forall j | 0 <= j < |runs| :: PrepareAll(runs).value[j].size == |Payloads(runs[j].packets)|
  {
    hide PrepareAll, Payloads, Prepare;
    forall j | 0 <= j < |runs| ensures PrepareAll(runs).value[j].size == |Payloads(runs[j].packets)| {
      PreparedAll(runs, j);
      PreparedFields(runs[j]);
    }
  }

  /** Where a segment's payload begins in the stream. */
  function MdatStart(moofOffset: nat, moof: bytes, runs: seq<Run>): nat
  {
    moofOffset + |moof| + HeaderLength(|MdatBody(runs)|)
  }

  /** The limits of the reader: table sizes, stream offsets and signed times. */
  ghost predicate Readable(runs: seq<Run>, moof: bytes, moofOffset: nat)
  {
    && MdatStart(moofOffset, moof, runs) + |MdatBody(runs)| <= U64_MAX
    && forall k | 0 <= k < |runs| :: |runs[k].packets| <= MAX_TABLE_ENTRIES && TimesFit(runs[k].packets)
  }

  /**
   * A written segment reads back at any place in a stream, with 8- and 16-byte `mdat` headers alike: one fragment for
   * each run, whose samples are cut out of the `mdat` as the run's packets, in order.
   */
  lemma SegmentReads(runs: seq<Run>, sequence: u32, moofOffset: nat, tracks: map<u32, R.Trex>)
    requires runs != [] && Moof(runs, sequence).Ok? && Readable(runs, Moof(runs, sequence).value, moofOffset)
    ensures var moof := Moof(runs, sequence).value;
            && |moof| >= 8 && ParseHeader(moof) == Ok(BoxHeader(|moof|, MOOF, 8))
            && var r := R.ParseMoof(moof[8..], 0, moofOffset, tracks);
               && r.Ok? && |r.value| == |runs|
               && forall k | 0 <= k < |runs| ::
                 CutsOut(r.value[k], runs[k], MdatBody(runs), MdatStart(moofOffset, moof, runs))
  {
    MoofParts(runs, sequence);
    SizesPrepared(runs);
    hide PrepareAll, Moof, Mfhd, Trafs, R.ParseMoof, MdatBody, WriteBox, MoofBody, SizeTo, PayloadOffset, OffsetsFit,
         Offsets, FragmentsOf, CutsOut, TimesFit, ParseHeader, MdatStart, Prepare, Payloads;
    var moof, rs := Moof(runs, sequence).value, PrepareAll(runs).value;
    var offsets := Offsets(sequence, rs);
    var body := MoofBody(sequence, rs, offsets);
    MdatSize(runs, rs);
    MoofSize(runs, sequence, moofOffset, rs);
    MoofReads(runs, sequence, moofOffset, tracks);
    assert WriteBox(MOOF, body) + [] == WriteBox(MOOF, body);
    HeaderReads(MOOF, body, []);
    forall k | 0 <= k < |runs|
      ensures CutsOut(FragmentsOf(runs, offsets, moofOffset)[k], runs[k], MdatBody(runs),
                      MdatStart(moofOffset, moof, runs))
    {
      PreparedAll(runs, k);
      OffsetAt(sequence, rs, k);
      FragmentCutsOut(runs, rs, offsets, PayloadOffset(sequence, rs), moofOffset, k, MdatStart(moofOffset, moof, runs));
    }
  }

  lemma MoofSize(runs: seq<Run>, sequence: u32, moofOffset: nat, rs: seq<Ready>)
    requires runs != [] && Moof(runs, sequence).Ok? && PrepareAll(runs) == Ok(rs) && OffsetsFit(sequence, rs)
    requires |MdatBody(runs)| == SizeTo(rs, |rs|)
    ensures moofOffset + PayloadOffset(sequence, rs) == MdatStart(moofOffset, Moof(runs, sequence).value, runs)
  {
    MoofParts(runs, sequence);
    hide PrepareAll, SizeTo, Mfhd, Trafs, MdatBody;
    TrafsLength(rs, Offsets(sequence, rs), NoOffsets(|rs|));
  }

  /** The fragment's samples are the run's packets, with times added up from the base. */
  ghost predicate CutsOut(tf: R.TrackFragment, run: Run, mdat: bytes, mdatOffset: nat)
  {
    && tf.trackId == run.trackId && |tf.samples| == |run.packets| && TimesFit(run.packets)
    && tf.baseDecodeTime == BaseOf(run.packets)
    && (forall k | 0 <= k < |run.packets| :: tf.samples[k].duration == FieldsOf(run.packets[k]).duration)
    && forall sequence: u64, epoch: nat ::
         var r := R.EmitTo(tf, mdat, mdatOffset, sequence, epoch, |tf.samples|);
         r.Ok? && r.value.0 == AllReadBack(run, sequence, epoch)
  }

  lemma RunCutsOut(run: Run, first: nat, mdat: bytes, mdatOffset: nat)
    requires Entries(run.packets).Ok? && TimesFit(run.packets) && |mdat| <= U64_MAX
    requires mdatOffset <= first && first - mdatOffset + |Payloads(run.packets)| <= |mdat|
    requires mdat[first - mdatOffset..first - mdatOffset + |Payloads(run.packets)|] == Payloads(run.packets)
    ensures CutsOut(FragmentOf(run, first), run, mdat, mdatOffset)
  {
    hide TimesFit, Payloads, Entries, R.EmitTo, AllReadBack, SamplesOf, FieldsOf, BaseTime;
    var tf := FragmentOf(run, first);
    forall k | 0 <= k < |run.packets| ensures tf.samples[k].duration == FieldsOf(run.packets[k]).duration {
      SampleAt(run.packets, first, k);
    }
    forall sequence: u64, epoch: nat
      ensures var r := R.EmitTo(tf, mdat, mdatOffset, sequence, epoch, |tf.samples|);
              r.Ok? && r.value.0 == AllReadBack(run, sequence, epoch)
    {
      EmitReads(run, first, mdat, mdatOffset, sequence, epoch, |run.packets|);
      assert AllReadBack(run, sequence, epoch)[..|run.packets|] == AllReadBack(run, sequence, epoch);
    }
  }

  lemma OffsetAt(sequence: u32, rs: seq<Ready>, k: nat)
    requires OffsetsFit(sequence, rs) && k < |rs|
    ensures Offsets(sequence, rs)[k] == PayloadOffset(sequence, rs) + SizeTo(rs, k)
  {
  }

  lemma FragmentAt(runs: seq<Run>, offsets: seq<u32>, moofOffset: nat, k: nat, first: nat)
    requires |offsets| == |runs| && k < |runs| && moofOffset + offsets[k] == first
    ensures FragmentsOf(runs, offsets, moofOffset)[k] == FragmentOf(runs[k], first)
  {
    hide FragmentOf;
  }

  lemma FragmentCutsOut(runs: seq<Run>, rs: seq<Ready>, offsets: seq<u32>, first: nat, moofOffset: nat, k: nat,
                        start: nat)
    requires k < |runs| && |rs| == |runs| == |offsets| && Prepare(runs[k]) == Ok(rs[k]) && TimesFit(runs[k].packets)
    requires forall j | 0 <= j < |runs| :: rs[j].size == |Payloads(runs[j].packets)|
    requires offsets[k] == first + SizeTo(rs, k) && moofOffset + first == start && |MdatBody(runs)| <= U64_MAX
    ensures CutsOut(FragmentsOf(runs, offsets, moofOffset)[k], runs[k], MdatBody(runs), start)
  {
    hide *;
    PreparedFields(runs[k]);
    MdatPlace(runs, rs, k);
    RunCutsOut(runs[k], start + SizeTo(rs, k), MdatBody(runs), start);
    FragmentAt(runs, offsets, moofOffset, k, start + SizeTo(rs, k));
  }

  // ---- When the times are those written ----

  /** Every packet has all its times. */
  predicate Timed(packets: seq<Packet>)
  {
    forall k | 0 <= k < |packets| :: packets[k].dts.Some? && packets[k].pts.Some? && packets[k].duration.Some?
  }

  /** Packet `k`'s times are not negative, and its decode time is that of the one before plus its duration. */
  predicate AdvancesAt(packets: seq<Packet>, k: nat)
    requires Timed(packets) && k < |packets|
  {
    && packets[k].dts.value >= 0 && packets[k].pts.value >= 0
    && (k > 0 ==> packets[k].dts.value == packets[k - 1].dts.value + packets[k - 1].duration.value)
  }

  ghost predicate Advancing(packets: seq<Packet>)
    requires Timed(packets)
  {
    forall k | 0 <= k < |packets| :: AdvancesAt(packets, k)
  }

  predicate SameTimes(packets: seq<Packet>, k: nat)
    requires Timed(packets) && k < |packets|
  {
    DecodeTime(packets, k) == packets[k].dts.value && PresentationTime(packets, k) == packets[k].pts.value
  }

  lemma {:induction false} AdvancingTimes(packets: seq<Packet>, k: nat)
    requires Entries(packets).Ok? && BaseTime(packets).Ok? && Timed(packets) && Advancing(packets) && k < |packets|
    ensures SameTimes(packets, k)
    decreases k
  {
    hide SampleFields, Entries, FieldsOf;
    assert AdvancesAt(packets, k);
    EntriesPrefix(packets, k);
    FieldsFacts(packets[k]);
    if k > 0 {
      EntriesPrefix(packets, k - 1);
      FieldsFacts(packets[k - 1]);
      AdvancingTimes(packets, k - 1);
    }
  }

  lemma SameTimesAdvance(packets: seq<Packet>, k: nat)
    requires Entries(packets).Ok? && Timed(packets) && k < |packets|
    requires SameTimes(packets, k) && (k > 0 ==> SameTimes(packets, k - 1))
    ensures AdvancesAt(packets, k)
  {
    hide SampleFields, Entries, FieldsOf, BaseOf;
    if k > 0 {
      EntriesPrefix(packets, k - 1);
      FieldsFacts(packets[k - 1]);
    }
  }

  lemma SameTimesFit(packets: seq<Packet>)
    requires Timed(packets) && forall k | 0 <= k < |packets| :: SameTimes(packets, k)
    ensures TimesFit(packets)
  {
    hide DecodeTime, PresentationTime;
    forall k | 0 <= k < |packets| ensures DecodeTime(packets, k) <= I64_MAX && PresentationTime(packets, k) <= I64_MAX {
      assert SameTimes(packets, k);
    }
  }

  /** The times read back are those written if and only if they advance by the durations and are not negative. */
  lemma TimesExactly(packets: seq<Packet>)
    requires Entries(packets).Ok? && BaseTime(packets).Ok? && Timed(packets)
    ensures Advancing(packets) <==> forall k | 0 <= k < |packets| :: SameTimes(packets, k)
    ensures Advancing(packets) ==> TimesFit(packets)
  {
    hide SampleFields, Entries, BaseTime, AdvancesAt;
    if Advancing(packets) {
      forall k | 0 <= k < |packets| ensures SameTimes(packets, k) {
        AdvancingTimes(packets, k);
      }
      SameTimesFit(packets);
    }
    if forall k | 0 <= k < |packets| :: SameTimes(packets, k) {
      forall k | 0 <= k < |packets| ensures AdvancesAt(packets, k) {
        assert k > 0 ==> SameTimes(packets, k - 1);
        SameTimesAdvance(packets, k);
      }
    }
  }
}

/** What the fMP4 muxer writes, the demuxer gives back from any chunks. */
module SegmentStream {
  import opened Bytes
  import opened Boxes
  import opened FragmentWriter
  import opened FragmentRoundTrip
  import opened StreamSteps
  import D = IsobmffDemuxer
  import M = FragmentMuxer
  import R = FragmentReader

  /** A sample as a player sees it. */
  datatype Sample = Sample(trackId: u32, payload: bytes, dts: int, pts: int, duration: int, key: bool)

  function SampleOf(p: R.MediaPacket): Sample
  {
    Sample(p.trackId, p.payload, p.dts, p.pts, p.duration, p.key)
  }

  /** The samples among events. */
  function SamplesIn<I>(events: seq<D.Event<I>>): seq<Sample>
    decreases |events|
  {
    if events == [] then []
    else
      var last := events[|events| - 1];
      SamplesIn(events[..|events| - 1]) + if last.Packet? then [SampleOf(last.packet)] else []
  }

  /** The samples of a run: its packets, with times added up from the first. */
  function RunSamples(run: Run): (s: seq<Sample>)
    ensures |s| == |run.packets|
  {
    seq(|run.packets|, k requires 0 <= k < |run.packets| =>
          Sample(run.trackId, run.packets[k].payload, DecodeTime(run.packets, k), PresentationTime(run.packets, k),
                 FieldsOf(run.packets[k]).duration, run.packets[k].key))
  }

  function AllSamples(runs: seq<Run>): seq<Sample>
    decreases |runs|
  {
    if runs == [] then [] else RunSamples(runs[0]) + AllSamples(runs[1..])
  }

  lemma {:induction false} SamplesAppend<I>(a: seq<D.Event<I>>, b: seq<D.Event<I>>)
    ensures SamplesIn(a + b) == SamplesIn(a) + SamplesIn(b)
    decreases |b|
  {
    if b == [] {
      assert a + b == a;
    } else {
      var n := |b| - 1;
      assert (a + b)[..|a| + n] == a + b[..n];
      SamplesAppend(a, b[..n]);
      var last := if b[n].Packet? then [SampleOf(b[n].packet)] else [];
      Assoc(SamplesIn(a), SamplesIn(b[..n]), last);
    }
  }

  lemma {:induction false} SamplesAsEvents<I>(packets: seq<R.MediaPacket>, back: bool, n: nat)
    requires n <= |packets|
    ensures SamplesIn(D.AsEvents<I>(packets, back)[..n]) == seq(n, k requires 0 <= k < n => SampleOf(packets[k]))
    decreases n
  {
    var events := D.AsEvents<I>(packets, back);
    if n > 0 {
      SamplesAsEvents<I>(packets, back, n - 1);
      assert events[..n][..n - 1] == events[..n - 1];
      assert seq(n, k requires 0 <= k < n => SampleOf(packets[k])) ==
             seq(n - 1, k requires 0 <= k < n - 1 => SampleOf(packets[k])) + [SampleOf(packets[n - 1])];
    }
  }

  lemma ReadBackSamples<I>(run: Run, sequence: u64, epoch: nat, back: bool)
    requires TimesFit(run.packets)
    ensures SamplesIn(D.AsEvents<I>(AllReadBack(run, sequence, epoch), back)) == RunSamples(run)
  {
    hide DecodeTime, PresentationTime, FieldsOf, Wrap64;
    var packets := AllReadBack(run, sequence, epoch);
    var events := D.AsEvents<I>(packets, back);
    SamplesAsEvents<I>(packets, back, |packets|);
    assert events[..|packets|] == events;
    assert seq(|packets|, k requires 0 <= k < |packets| => SampleOf(packets[k])) == RunSamples(run);
  }

  /** A run's fragment gives the run's samples and leaves tracks and pending fragments alone. */
  lemma FragmentSamples<I>(state: D.State<I>, tf: R.TrackFragment, run: Run, mdat: bytes, mdatOffset: nat)
    requires CutsOut(tf, run, mdat, mdatOffset) && run.trackId in state.tracks
    ensures var done := D.EmitFragment(state, tf, mdat, mdatOffset);
            && done.error == None && done.state.tracks == state.tracks && done.state.fragments == state.fragments
            && SamplesIn(done.events) == RunSamples(run)
  {
    hide R.EmitTo, R.Emitted, D.Backwards, D.AsEvents, TimesFit, AllReadBack, Wrap64, RunSamples, SamplesIn;
    var back := D.Backwards(tf, state.lastDts);
    var epoch := if back then state.epoch + 1 else state.epoch;
    var r := R.EmitTo(tf, mdat, mdatOffset, state.sequence, epoch, |tf.samples|);
    assert r.Ok? && r.value.0 == AllReadBack(run, state.sequence, epoch);
    ReadBackSamples<I>(run, state.sequence, epoch, back);
    WarningHasNone<I>(tf.trackId, D.AsEvents<I>(AllReadBack(run, state.sequence, epoch), back));
  }

  lemma WarningHasNone<I>(id: u32, events: seq<D.Event<I>>)
    ensures SamplesIn([D.Discontinuity(id)] + events) == SamplesIn(events)
            && SamplesIn([] + events) == SamplesIn(events)
  {
    SamplesAppend([D.Discontinuity(id)], events);
    assert [D.Event<I>.Discontinuity(id)][..0] == [];
    assert [] + events == events && [] + SamplesIn(events) == SamplesIn(events);
  }

  lemma {:induction false} RunsSamples<I>(state: D.State<I>, tfs: seq<R.TrackFragment>, runs: seq<Run>, mdat: bytes,
                                          mdatOffset: nat)
    requires |tfs| == |runs|
    requires forall k | 0 <= k < |runs| ::
               CutsOut(tfs[k], runs[k], mdat, mdatOffset) && runs[k].trackId in state.tracks
    ensures var done := D.EmitFragments(state, tfs, mdat, mdatOffset);
            && done.error == None && done.state.tracks == state.tracks && done.state.fragments == state.fragments
            && SamplesIn(done.events) == AllSamples(runs)
            && (InStep(state.lastDts, runs) ==> Silent(state, runs, done.state, done.events))
    decreases |runs|
  {
    hide CutsOut, D.EmitFragment, RunSamples, Silent, Continues, LastAfter;
    if runs == [] {
      SilentNothing(state);
    } else {
      FragmentSamples(state, tfs[0], runs[0], mdat, mdatOffset);
      var first := D.EmitFragment(state, tfs[0], mdat, mdatOffset);
      RunsSamples(first.state, tfs[1..], runs[1..], mdat, mdatOffset);
      SamplesAppend(first.events, D.EmitFragments(first.state, tfs[1..], mdat, mdatOffset).events);
      if InStep(state.lastDts, runs) {
        FragmentSilent(state, tfs[0], runs[0], mdat, mdatOffset);
        SilentLast(state, runs[0], first.state, first.events);
        SilentAppend(state, [runs[0]], first.state, first.events, runs[1..],
                     D.EmitFragments(first.state, tfs[1..], mdat, mdatOffset).state,
                     D.EmitFragments(first.state, tfs[1..], mdat, mdatOffset).events);
        assert [runs[0]] + runs[1..] == runs;
      }
    }
  }

  lemma SilentLast<I>(state: D.State<I>, run: Run, next: D.State<I>, events: seq<D.Event<I>>)
    requires Silent(state, [run], next, events)
    ensures next.lastDts == LastAfter(state.lastDts, run)
  {
    assert [run][1..] == [];
    assert LastAfterAll(LastAfter(state.lastDts, run), []) == LastAfter(state.lastDts, run);
  }

  function Segment(runs: seq<Run>, sequence: u32): bytes
    requires Moof(runs, sequence).Ok?
  {
    Moof(runs, sequence).value + WriteBox(MDAT, MdatBody(runs))
  }

  /** A segment the muxer writes and the demuxer can take at `at`. */
  ghost predicate SegmentOk<I>(runs: seq<Run>, sequence: u32, at: nat, tracks: map<u32, D.TrackData<I>>)
  {
    && runs != [] && Moof(runs, sequence).Ok? && Readable(runs, Moof(runs, sequence).value, at)
    && HeaderLength(|MdatBody(runs)|) + |MdatBody(runs)| <= MAX_BOX_SIZE
    && forall k | 0 <= k < |runs| :: runs[k].trackId in tracks
  }

  lemma MoofHeader(runs: seq<Run>, sequence: u32, more: bytes, at: nat)
    requires runs != [] && Moof(runs, sequence).Ok? && Readable(runs, Moof(runs, sequence).value, at)
    ensures var moof := Moof(runs, sequence).value;
            && ParseHeader(moof + more) == Ok(BoxHeader(|moof|, MOOF, 8)) && |moof| >= 8
            && (moof + more)[8..|moof|] == moof[8..] && (moof + more)[|moof|..] == more
  {
    hide Moof, ParseHeader;
    SegmentReads(runs, sequence, at, map[]);
    HeaderStable(Moof(runs, sequence).value, more);
  }

  lemma MdatHeader(runs: seq<Run>, more: bytes)
    requires HeaderLength(|MdatBody(runs)|) + |MdatBody(runs)| <= MAX_BOX_SIZE
    ensures var mdat, h := WriteBox(MDAT, MdatBody(runs)), HeaderLength(|MdatBody(runs)|);
            && ParseHeader(mdat + more) == Ok(BoxHeader(|mdat|, MDAT, h)) && h <= |mdat|
            && (mdat + more)[h..|mdat|] == MdatBody(runs) && (mdat + more)[|mdat|..] == more
  {
    HeaderReads(MDAT, MdatBody(runs), more);
    hide ParseHeader, MdatBody, WriteBox;
    var mdat := WriteBox(MDAT, MdatBody(runs));
    assert (mdat + more)[HeaderLength(|MdatBody(runs)|)..|mdat|] == mdat[HeaderLength(|MdatBody(runs)|)..];
  }

  /** The demuxer at a segment: the run's samples, and then what follows the segment. */
  lemma SegmentRuns<I>(parse: D.MoovParser<I>, state: D.State<I>, runs: seq<Run>, sequence: u32, more: bytes, at: nat)
    returns (next: D.State<I>, events: seq<D.Event<I>>)
    requires SegmentOk(runs, sequence, at, state.tracks)
    ensures next.tracks == state.tracks && SamplesIn(events) == AllSamples(runs)
    ensures InStep(state.lastDts, runs) ==> Silent(state, runs, next, events)
    ensures D.RunBoxes(parse, state, Segment(runs, sequence) + more, at) ==
            D.Prepend(events, D.RunBoxes(parse, next, more, at + |Segment(runs, sequence)|))
  {
    hide Moof, MdatBody, WriteBox, ParseHeader, R.ParseMoof, D.RunBoxes, D.EmitFragments, CutsOut, Readable, D.Trexes,
         AllSamples, HeaderLength, D.Prepend, InStep, LastAfterAll, Marked;
    var moof, mdat := Moof(runs, sequence).value, WriteBox(MDAT, MdatBody(runs));
    var rest := mdat + more;
    Assoc(moof, mdat, more);
    MoofHeader(runs, sequence, rest, at);
    SegmentReads(runs, sequence, at, D.Trexes(state.tracks));
    var fs := R.ParseMoof(moof[8..], 0, at, D.Trexes(state.tracks)).value;
    var mid := state.(fragments := fs);
    D.RunOne(parse, state, moof + rest, at, BoxHeader(|moof|, MOOF, 8));
    D.PrependNone(D.RunBoxes(parse, mid, rest, at + |moof|));
    MdatHeader(runs, more);
    var start := at + |moof| + HeaderLength(|MdatBody(runs)|);
    D.RunOne(parse, mid, rest, at + |moof|, BoxHeader(|mdat|, MDAT, HeaderLength(|MdatBody(runs)|)));
    RunsSamples(mid.(fragments := []), fs, runs, MdatBody(runs), start);
    var done := D.EmitFragments(mid.(fragments := []), fs, MdatBody(runs), start);
    next, events := done.state, done.events;
  }

  // ---- Whole streams ----

  /** The media segments one after another. */
  function MediaOf(outputs: seq<M.SegmentOutput>): bytes
    decreases |outputs|
  {
    if outputs == [] then [] else outputs[0].mediaSegment + MediaOf(outputs[1..])
  }

  function SamplesOfAll(segments: seq<seq<Run>>): seq<Sample>
    decreases |segments|
  {
    if segments == [] then [] else AllSamples(segments[0]) + SamplesOfAll(segments[1..])
  }

  /** Segments the demuxer can take from `at` on. */
  ghost predicate StreamOk<I>(outputs: seq<M.SegmentOutput>, segments: seq<seq<Run>>, at: nat, tracks: map<u32,
                              D.TrackData<I>>)
    decreases |outputs|
  {
    && |outputs| == |segments|
    && (outputs != [] ==>
          && SegmentOk(segments[0], outputs[0].sequence, at, tracks)
          && outputs[0].mediaSegment == Segment(segments[0], outputs[0].sequence)
          && StreamOk(outputs[1..], segments[1..], at + |outputs[0].mediaSegment|, tracks))
  }

  /** The demuxer at a list of segments. */
  lemma {:induction false} StreamRuns<I>(parse: D.MoovParser<I>, state: D.State<I>, outputs: seq<M.SegmentOutput>,
                                         segments: seq<seq<Run>>, at: nat)
    returns (next: D.State<I>, events: seq<D.Event<I>>)
    requires StreamOk(outputs, segments, at, state.tracks)
    ensures SamplesIn(events) == SamplesOfAll(segments)
    ensures InStep(state.lastDts, Concat(segments)) ==> Silent(state, Concat(segments), next, events)
    ensures D.RunBoxes(parse, state, MediaOf(outputs), at) == D.Ran(next, events, [], None)
    decreases |outputs|
  {
    hide SegmentOk, Segment, D.RunBoxes, AllSamples, InStep, Silent;
    if outputs == [] {
      NothingRuns(parse, state, at);
      SilentNothing(state);
      next, events := state, [];
    } else {
      var mid, first := SegmentRuns(parse, state, segments[0], outputs[0].sequence, MediaOf(outputs[1..]), at);
      var more;
      next, more := StreamRuns(parse, mid, outputs[1..], segments[1..], at + |outputs[0].mediaSegment|);
      SamplesAppend(first, more);
      events := first + more;
      InStepAppend(state.lastDts, segments[0], Concat(segments[1..]));
      if InStep(state.lastDts, Concat(segments)) {
        SilentLastAll(state, segments[0], mid, first);
        SilentAppend(state, segments[0], mid, first, Concat(segments[1..]), next, more);
      }
    }
  }

  lemma SilentLastAll<I>(state: D.State<I>, runs: seq<Run>, next: D.State<I>, events: seq<D.Event<I>>)
    requires Silent(state, runs, next, events)
    ensures next.lastDts == LastAfterAll(state.lastDts, runs)
  {
  }

  lemma NothingRuns<I>(parse: D.MoovParser<I>, state: D.State<I>, at: nat)
    ensures D.RunBoxes(parse, state, [], at) == D.Ran(state, [], [], None)
  {
  }

  // ---- Track by track ----

  function OfTrack(samples: seq<Sample>, id: u32): seq<Sample>
    decreases |samples|
  {
    if samples == [] then []
    else
      var last := samples[|samples| - 1];
      OfTrack(samples[..|samples| - 1], id) + if last.trackId == id then [last] else []
  }

  lemma {:induction false} OfTrackAppend(a: seq<Sample>, b: seq<Sample>, id: u32)
    ensures OfTrack(a + b, id) == OfTrack(a, id) + OfTrack(b, id)
    decreases |b|
  {
    if b == [] {
      assert a + b == a;
    } else {
      var n := |b| - 1;
      assert (a + b)[..|a| + n] == a + b[..n];
      OfTrackAppend(a, b[..n], id);
      Assoc(OfTrack(a, id), OfTrack(b[..n], id), if b[n].trackId == id then [b[n]] else []);
    }
  }

  lemma {:induction false} OfOneTrack(samples: seq<Sample>, id: u32, other: u32)
    requires forall k | 0 <= k < |samples| :: samples[k].trackId == id
    ensures OfTrack(samples, other) == if id == other then samples else []
    decreases |samples|
  {
    if samples != [] {
      var n := |samples| - 1;
      OfOneTrack(samples[..n], id, other);
      assert samples == samples[..n] + [samples[n]];
    }
  }

  /** A pushed packet as a sample, with its own times. */
  function AsSample(id: u32, p: Packet): Sample
  {
    Sample(id, p.payload, Ticks(p.dts), Ticks(p.pts), Ticks(p.duration), p.key)
  }

  function Ticks(t: Option<i64>): int
  {
    if t.Some? then t.value else 0
  }

  function AsSamples(id: u32, packets: seq<Packet>): (s: seq<Sample>)
    ensures |s| == |packets|
  {
    seq(|packets|, k requires 0 <= k < |packets| => AsSample(id, packets[k]))
  }

  lemma AsSamplesAppend(id: u32, a: seq<Packet>, b: seq<Packet>)
    ensures AsSamples(id, a + b) == AsSamples(id, a) + AsSamples(id, b) && AsSamples(id, []) == []
  {
    hide AsSample;
  }

  /** Times are there, not negative, and every decode time is that before it plus its duration. */
  ghost predicate Steady(packets: seq<Packet>)
  {
    Timed(packets) && Advancing(packets)
  }

  lemma SteadyPart(a: seq<Packet>, b: seq<Packet>)
    requires Steady(a + b)
    ensures Steady(a) && Steady(b)
  {
    hide AdvancesAt;
    var all := a + b;
    assert forall k | 0 <= k < |a| :: all[k] == a[k];
    assert forall k | 0 <= k < |b| :: all[|a| + k] == b[k];
    forall k | 0 <= k < |a| ensures AdvancesAt(a, k) {
      assert AdvancesAt(all, k);
      SteadyAt(all, k, a, k);
    }
    forall k | 0 <= k < |b| ensures AdvancesAt(b, k) {
      assert AdvancesAt(all, |a| + k);
      SteadyAt(all, |a| + k, b, k);
    }
  }

  lemma SteadyAt(all: seq<Packet>, i: nat, part: seq<Packet>, k: nat)
    requires Timed(all) && Timed(part) && k <= i < |all| && k < |part|
    requires part[k] == all[i] && (k > 0 ==> part[k - 1] == all[i - 1])
    requires AdvancesAt(all, i)
    ensures AdvancesAt(part, k)
  {
  }

  /** A run's samples are its packets, with the times they were pushed with. */
  lemma RunExact(run: Run)
    requires Prepare(run).Ok? && Steady(run.packets)
    ensures TimesFit(run.packets) && RunSamples(run) == AsSamples(run.trackId, run.packets)
  {
    PreparedFields(run);
    RunTimed(run);
    hide Entries, DecodeTime, PresentationTime, SampleFields, Prepare, Advancing;
    TimesExactly(run.packets);
    forall k | 0 <= k < |run.packets| ensures RunSamples(run)[k] == AsSamples(run.trackId, run.packets)[k] {
      assert SameTimes(run.packets, k);
      EntriesPrefix(run.packets, k);
      FieldsFacts(run.packets[k]);
    }
  }

  lemma RunTimed(run: Run)
    requires Prepare(run).Ok?
    ensures BaseTime(run.packets).Ok?
  {
  }

  ghost predicate RunsSteady(runs: seq<Run>)
  {
    forall k | 0 <= k < |runs| :: Prepare(runs[k]).Ok? && Steady(runs[k].packets)
  }

  lemma {:induction false} TakenFirst(runs: seq<Run>, id: u32)
    requires runs != []
    ensures M.Taken(runs, id) == (if runs[0].trackId == id then runs[0].packets else []) + M.Taken(runs[1..], id)
    decreases |runs|
  {
    var n := |runs| - 1;
    var first := if runs[0].trackId == id then runs[0].packets else [];
    var last := if runs[n].trackId == id then runs[n].packets else [];
    if n == 0 {
      assert runs[..0] == [] && runs[1..] == [];
      assert [] + last == last && first + [] == first;
    } else {
      TakenFirst(runs[..n], id);
      assert runs[..n][1..] == runs[1..][..n - 1];
      Assoc(first, M.Taken(runs[1..][..n - 1], id), last);
    }
  }

  /** A track's samples in a segment are the packets taken from it. */
  lemma {:induction false} SegmentExact(runs: seq<Run>, id: u32)
    requires RunsSteady(runs)
    ensures OfTrack(AllSamples(runs), id) == AsSamples(id, M.Taken(runs, id))
    decreases |runs|
  {
    hide Prepare, Steady, RunSamples, AsSamples, OfTrack, M.Taken;
    AsSamplesAppend(id, [], []);
    if runs == [] {
      NothingTaken(id);
    } else {
      var r := runs[0];
      SegmentExact(runs[1..], id);
      RunExact(r);
      TakenFirst(runs, id);
      OfTrackAppend(RunSamples(r), AllSamples(runs[1..]), id);
      RunOfTrack(r, id);
      AsSamplesAppend(id, if r.trackId == id then r.packets else [], M.Taken(runs[1..], id));
    }
  }

  lemma NothingTaken(id: u32)
    ensures M.Taken([], id) == [] && OfTrack([], id) == []
  {
  }

  lemma RunOfTrack(run: Run, id: u32)
    ensures OfTrack(RunSamples(run), id) == if run.trackId == id then RunSamples(run) else []
  {
    hide DecodeTime, PresentationTime, FieldsOf;
    OfOneTrack(RunSamples(run), run.trackId, id);
  }

  lemma {:induction false} EmittedFirst(segments: seq<seq<Run>>, id: u32)
    requires segments != []
    ensures M.EmittedTo(segments, id) == M.Taken(segments[0], id) + M.EmittedTo(segments[1..], id)
    decreases |segments|
  {
    hide M.Taken;
    var n := |segments| - 1;
    if n == 0 {
      assert segments[..0] == [] && segments[1..] == [];
      assert [] + M.Taken(segments[0], id) == M.Taken(segments[0], id) + [];
    } else {
      EmittedFirst(segments[..n], id);
      assert segments[..n][1..] == segments[1..][..n - 1];
      Assoc(M.Taken(segments[0], id), M.EmittedTo(segments[1..][..n - 1], id), M.Taken(segments[n], id));
    }
  }

  lemma {:induction false} StreamExact(segments: seq<seq<Run>>, id: u32)
    requires forall k | 0 <= k < |segments| :: RunsSteady(segments[k])
    ensures OfTrack(SamplesOfAll(segments), id) == AsSamples(id, M.EmittedTo(segments, id))
    decreases |segments|
  {
    hide RunsSteady, AllSamples, AsSamples, OfTrack, M.EmittedTo;
    AsSamplesAppend(id, [], []);
    if segments == [] {
      NothingTaken(id);
      NothingEmitted(id);
    } else {
      SegmentExact(segments[0], id);
      StreamExact(segments[1..], id);
      EmittedFirst(segments, id);
      OfTrackAppend(AllSamples(segments[0]), SamplesOfAll(segments[1..]), id);
      AsSamplesAppend(id, M.Taken(segments[0], id), M.EmittedTo(segments[1..], id));
    }
  }

  lemma NothingEmitted(id: u32)
    ensures M.EmittedTo([], id) == []
  {
  }

  // ---- Steady tracks give steady runs ----

  lemma {:induction false} TakenSteady(runs: seq<Run>, j: nat)
    requires j < |runs| && Steady(M.Taken(runs, runs[j].trackId))
    ensures Steady(runs[j].packets)
    decreases |runs|
  {
    hide Steady, M.Taken;
    var id := runs[j].trackId;
    TakenFirst(runs, id);
    SteadyPart(if runs[0].trackId == id then runs[0].packets else [], M.Taken(runs[1..], id));
    if j > 0 {
      TakenSteady(runs[1..], j - 1);
    }
  }

  lemma {:induction false} EmittedSteady(segments: seq<seq<Run>>, i: nat, id: u32)
    requires i < |segments| && Steady(M.EmittedTo(segments, id))
    ensures Steady(M.Taken(segments[i], id))
    decreases |segments|
  {
    hide Steady, M.EmittedTo, M.Taken;
    EmittedFirst(segments, id);
    SteadyPart(M.Taken(segments[0], id), M.EmittedTo(segments[1..], id));
    if i > 0 {
      EmittedSteady(segments[1..], i - 1, id);
    }
  }

  /** Every track's pushed packets are steady. */
  ghost predicate AllSteady<C>(ops: seq<M.Op<C>>)
  {
    forall id: u32 :: Steady(M.PushedTo(ops, id))
  }

  lemma SegmentSteady<C>(ops: seq<M.Op<C>>, outputs: seq<M.SegmentOutput>, segments: seq<seq<Run>>, retained: M.Buffers,
                         i: nat)
    requires AllSteady(ops) && M.Accounted(ops, segments, retained) && M.SegmentsOf(outputs, segments) && i < |segments|
    ensures RunsSteady(segments[i])
  {
    hide Steady, Moof, Prepare;
    var runs := segments[i];
    assert M.SegmentOf(outputs[i], i, runs);
    assert Moof(runs, outputs[i].sequence).Ok?;
    MoofParts(runs, outputs[i].sequence);
    forall k | 0 <= k < |runs| ensures Prepare(runs[k]).Ok? && Steady(runs[k].packets) {
      PreparedAll(runs, k);
      var id := runs[k].trackId;
      assert Steady(M.PushedTo(ops, id));
      assert M.PushedTo(ops, id) == M.EmittedTo(segments, id) + M.At(retained, id);
      SteadyPart(M.EmittedTo(segments, id), M.At(retained, id));
      EmittedSteady(segments, i, id);
      TakenSteady(runs, k);
    }
  }

  // ---- What the reader takes ----

  /** The reader's limits on table sizes and box sizes, and its knowledge of the tracks. */
  ghost predicate Fits<I>(outputs: seq<M.SegmentOutput>, segments: seq<seq<Run>>, tracks: map<u32, D.TrackData<I>>)
  {
    && (forall k | 0 <= k < |outputs| :: |outputs[k].mediaSegment| <= MAX_BOX_SIZE)
    && (forall k | 0 <= k < |segments| :: RunsFit(segments[k], tracks))
  }

  ghost predicate RunsFit<I>(runs: seq<Run>, tracks: map<u32, D.TrackData<I>>)
  {
    forall j | 0 <= j < |runs| :: |runs[j].packets| <= MAX_TABLE_ENTRIES && runs[j].trackId in tracks
  }

  ghost predicate WrittenAs(output: M.SegmentOutput, runs: seq<Run>)
  {
    runs != [] && Moof(runs, output.sequence).Ok? && output.mediaSegment == Segment(runs, output.sequence)
  }

  ghost predicate AllWritten(outputs: seq<M.SegmentOutput>, segments: seq<seq<Run>>)
  {
    && |outputs| == |segments|
    && forall k | 0 <= k < |outputs| ::
         WrittenAs(outputs[k], segments[k]) && RunsSteady(segments[k])
  }

  lemma OneOk<I>(output: M.SegmentOutput, runs: seq<Run>, at: nat, tracks: map<u32, D.TrackData<I>>)
    requires WrittenAs(output, runs) && RunsSteady(runs) && RunsFit(runs, tracks)
    requires |output.mediaSegment| <= MAX_BOX_SIZE && at + |output.mediaSegment| <= U64_MAX
    ensures SegmentOk(runs, output.sequence, at, tracks)
  {
    hide Moof, MdatBody, Prepare, Steady, TimesFit;
    forall k | 0 <= k < |runs| ensures TimesFit(runs[k].packets) {
      RunExact(runs[k]);
    }
  }

  lemma {:induction false} AllOk<I>(outputs: seq<M.SegmentOutput>, segments: seq<seq<Run>>, at: nat, tracks: map<u32,
                                    D.TrackData<I>>)
    requires AllWritten(outputs, segments) && Fits(outputs, segments, tracks) && at + |MediaOf(outputs)| <= U64_MAX
    ensures StreamOk(outputs, segments, at, tracks)
    decreases |outputs|
  {
    hide *;
    WrittenSplit(outputs, segments, tracks);
    if outputs == [] {
      NothingOk(at, tracks);
    } else {
      MediaFirst(outputs);
      OneOk(outputs[0], segments[0], at, tracks);
      WrittenSegment(outputs[0], segments[0]);
      AllOk(outputs[1..], segments[1..], at + |outputs[0].mediaSegment|, tracks);
      StreamOkNext(outputs, segments, at, tracks);
    }
  }

  lemma MediaFirst(outputs: seq<M.SegmentOutput>)
    requires outputs != []
    ensures MediaOf(outputs) == outputs[0].mediaSegment + MediaOf(outputs[1..])
  {
  }

  lemma NothingOk<I>(at: nat, tracks: map<u32, D.TrackData<I>>)
    ensures StreamOk([], [], at, tracks)
  {
  }

  lemma StreamOkNext<I>(outputs: seq<M.SegmentOutput>, segments: seq<seq<Run>>, at: nat, tracks: map<u32,
                        D.TrackData<I>>)
    requires |outputs| == |segments| > 0 && SegmentOk(segments[0], outputs[0].sequence, at, tracks)
    requires Moof(segments[0], outputs[0].sequence).Ok?
             && outputs[0].mediaSegment == Segment(segments[0], outputs[0].sequence)
    requires StreamOk(outputs[1..], segments[1..], at + |outputs[0].mediaSegment|, tracks)
    ensures StreamOk(outputs, segments, at, tracks)
  {
    hide SegmentOk, Moof, Segment;
  }

  lemma WrittenSplit<I>(outputs: seq<M.SegmentOutput>, segments: seq<seq<Run>>, tracks: map<u32, D.TrackData<I>>)
    requires AllWritten(outputs, segments) && Fits(outputs, segments, tracks)
    ensures |outputs| == |segments|
    ensures outputs != [] ==>
              && WrittenAs(outputs[0], segments[0]) && RunsSteady(segments[0]) && RunsFit(segments[0], tracks)
              && |outputs[0].mediaSegment| <= MAX_BOX_SIZE
              && AllWritten(outputs[1..], segments[1..]) && Fits(outputs[1..], segments[1..], tracks)
  {
    hide WrittenAs, RunsSteady, RunsFit;
  }

  lemma WrittenSegment(output: M.SegmentOutput, runs: seq<Run>)
    requires WrittenAs(output, runs)
    ensures Moof(runs, output.sequence).Ok? && output.mediaSegment == Segment(runs, output.sequence)
  {
    hide Moof;
  }

  lemma AllAreWritten<C>(ops: seq<M.Op<C>>, outputs: seq<M.SegmentOutput>, segments: seq<seq<Run>>, retained: M.Buffers)
    requires AllSteady(ops) && M.Accounted(ops, segments, retained) && M.SegmentsOf(outputs, segments)
    ensures AllWritten(outputs, segments)
  {
    hide RunsSteady, Moof, MdatBody, AllSteady, M.Accounted;
    forall k | 0 <= k < |outputs| ensures WrittenAs(outputs[k], segments[k]) && RunsSteady(segments[k]) {
      SegmentSteady(ops, outputs, segments, retained, k);
    }
  }

  /** The samples a player gets of a track, followed by the packets not yet flushed, are the packets pushed for it. */
  ghost predicate Played<C>(ops: seq<M.Op<C>>, samples: seq<Sample>, retained: M.Buffers)
  {
    forall id: u32 :: AsSamples(id, M.PushedTo(ops, id)) == OfTrack(samples, id) + AsSamples(id, M.At(retained, id))
  }

  lemma PlayedFrom<C>(ops: seq<M.Op<C>>, segments: seq<seq<Run>>, retained: M.Buffers)
    requires M.Accounted(ops, segments, retained) && forall k | 0 <= k < |segments| :: RunsSteady(segments[k])
    ensures Played(ops, SamplesOfAll(segments), retained)
  {
    hide RunsSteady, AsSamples, OfTrack, SamplesOfAll, M.PushedTo, M.EmittedTo, M.At;
    forall id: u32
      ensures AsSamples(id, M.PushedTo(ops, id)) ==
              OfTrack(SamplesOfAll(segments), id) + AsSamples(id, M.At(retained, id))
    {
      StreamExact(segments, id);
      assert M.PushedTo(ops, id) == M.EmittedTo(segments, id) + M.At(retained, id);
      AsSamplesAppend(id, M.EmittedTo(segments, id), M.At(retained, id));
    }
  }

  // ---- Steady tracks are in step ----

  /** The last packet of a track, at its decode time. */
  ghost predicate LastAt(dts: u64, packets: seq<Packet>)
  {
    packets != [] &&
    var p := packets[|packets| - 1];
    p.dts.Some? && p.dts.value == dts && p.duration.Some? && p.duration.value >= 0
  }

  /** The last decode times are those of the runs done. */
  ghost predicate LastIs(lastDts: map<u32, u64>, done: seq<Run>)
  {
    forall id: u32 | id in lastDts :: LastAt(lastDts[id], M.Taken(done, id))
  }

  lemma RunEnds(run: Run)
    requires Prepare(run).Ok? && Steady(run.packets) && run.packets != []
    ensures BaseOf(run.packets) == run.packets[0].dts.value
    ensures LastAt(DecodeTime(run.packets, |run.packets| - 1), run.packets)
  {
    var n := |run.packets| - 1;
    PreparedFields(run);
    RunTimed(run);
    assert AdvancesAt(run.packets, 0);
    hide Prepare, DecodeTime, PresentationTime, SampleFields;
    AdvancingTimes(run.packets, n);
    assert SameTimes(run.packets, n);
    LastDuration(run.packets, n);
  }

  lemma LastDuration(packets: seq<Packet>, k: nat)
    requires Entries(packets).Ok? && Timed(packets) && k < |packets|
    ensures packets[k].duration.value >= 0
  {
    EntriesPrefix(packets, k);
  }

  /** The next run of a steady track goes on where the runs before ended. */
  lemma StepSteady(lastDts: map<u32, u64>, done: seq<Run>, run: Run)
    requires LastIs(lastDts, done) && Prepare(run).Ok? && run.packets != []
    requires Steady(M.Taken(done, run.trackId) + run.packets)
    ensures Continues(lastDts, run) && LastIs(LastAfter(lastDts, run), done + [run])
  {
    hide Prepare, DecodeTime, M.Taken, BaseOf;
    var id := run.trackId;
    var before := M.Taken(done, id);
    var all := before + run.packets;
    SteadyPart(before, run.packets);
    RunEnds(run);
    if id in lastDts {
      assert LastAt(lastDts[id], before);
      assert AdvancesAt(all, |before|);
      assert all[|before|] == run.packets[0] && all[|before| - 1] == before[|before| - 1];
    }
    var now := LastAfter(lastDts, run);
    forall other: u32 | other in now ensures LastAt(now[other], M.Taken(done + [run], other)) {
      M.TakenSnoc(done, run, other);
      if other == id {
        LastOfBoth(now[other], before, run.packets);
      } else {
        assert LastAt(lastDts[other], M.Taken(done, other));
        assert M.Taken(done, other) + [] == M.Taken(done, other);
      }
    }
  }

  lemma LastOfBoth(dts: u64, a: seq<Packet>, b: seq<Packet>)
    requires LastAt(dts, b)
    ensures LastAt(dts, a + b)
  {
    assert (a + b)[|a + b| - 1] == b[|b| - 1];
  }

  lemma {:induction false} TakenAppend(a: seq<Run>, b: seq<Run>, id: u32)
    ensures M.Taken(a + b, id) == M.Taken(a, id) + M.Taken(b, id)
    decreases |b|
  {
    if b == [] {
      assert a + b == a && M.Taken(a, id) + [] == M.Taken(a, id);
    } else {
      var n := |b| - 1;
      var last := if b[n].trackId == id then b[n].packets else [];
      assert (a + b)[..|a| + n] == a + b[..n];
      TakenAppend(a, b[..n], id);
      Assoc(M.Taken(a, id), M.Taken(b[..n], id), last);
    }
  }

  /** Runs that can be written and have packets. */
  ghost predicate Prepared(runs: seq<Run>)
  {
    forall k | 0 <= k < |runs| :: Prepare(runs[k]).Ok? && runs[k].packets != []
  }

  lemma {:induction false} SteadyInStep(lastDts: map<u32, u64>, done: seq<Run>, runs: seq<Run>)
    requires LastIs(lastDts, done) && Prepared(runs)
    requires forall id: u32 :: Steady(M.Taken(done, id) + M.Taken(runs, id))
    ensures InStep(lastDts, runs)
    decreases |runs|
  {
    hide Prepare, Steady, Continues, LastIs, LastAfter, M.Taken;
    if runs != [] {
      var r := runs[0];
      TakenFirst(runs, r.trackId);
      Assoc(M.Taken(done, r.trackId), r.packets, M.Taken(runs[1..], r.trackId));
      assert Steady(M.Taken(done, r.trackId) + M.Taken(runs, r.trackId));
      SteadyPart(M.Taken(done, r.trackId) + r.packets, M.Taken(runs[1..], r.trackId));
      StepSteady(lastDts, done, r);
      forall id: u32 ensures Steady(M.Taken(done + [r], id) + M.Taken(runs[1..], id)) {
        assert Steady(M.Taken(done, id) + M.Taken(runs, id));
        TakenFirst(runs, id);
        M.TakenSnoc(done, r, id);
        Assoc(M.Taken(done, id), if r.trackId == id then r.packets else [], M.Taken(runs[1..], id));
      }
      SteadyInStep(LastAfter(lastDts, r), done + [r], runs[1..]);
    }
  }

  lemma {:induction false} TakenOfAll(segments: seq<seq<Run>>, id: u32)
    ensures M.EmittedTo(segments, id) == M.Taken(Concat(segments), id)
    decreases |segments|
  {
    hide M.EmittedTo, M.Taken;
    if segments == [] {
      NothingTaken(id);
      NothingEmitted(id);
    } else {
      EmittedFirst(segments, id);
      TakenOfAll(segments[1..], id);
      TakenAppend(segments[0], Concat(segments[1..]), id);
    }
  }

  lemma {:induction false} AllPrepared(segments: seq<seq<Run>>)
    requires forall k | 0 <= k < |segments| :: RunsSteady(segments[k]) && M.RunsOk(segments[k])
    ensures Prepared(Concat(segments))
    decreases |segments|
  {
    hide Prepare, Steady;
    if segments != [] {
      AllPrepared(segments[1..]);
      assert RunsSteady(segments[0]) && M.RunsOk(segments[0]);
    }
  }

  /** The runs of all segments are in step when every track is steady. */
  lemma SegmentsInStep<C>(ops: seq<M.Op<C>>, outputs: seq<M.SegmentOutput>, segments: seq<seq<Run>>,
                          retained: M.Buffers)
    requires AllSteady(ops) && M.Accounted(ops, segments, retained) && M.SegmentsOf(outputs, segments)
    ensures InStep(map[], Concat(segments))
  {
    hide Steady, Moof, RunsSteady, InStep, M.Taken, M.EmittedTo, M.PushedTo, M.RunsOk;
    forall k | 0 <= k < |segments| ensures RunsSteady(segments[k]) && M.RunsOk(segments[k]) {
      SegmentSteady(ops, outputs, segments, retained, k);
    }
    AllPrepared(segments);
    forall id: u32 ensures Steady(M.Taken([], id) + M.Taken(Concat(segments), id)) {
      assert Steady(M.PushedTo(ops, id));
      assert M.PushedTo(ops, id) == M.EmittedTo(segments, id) + M.At(retained, id);
      SteadyPart(M.EmittedTo(segments, id), M.At(retained, id));
      TakenOfAll(segments, id);
      NothingTaken(id);
      assert [] + M.Taken(Concat(segments), id) == M.Taken(Concat(segments), id);
    }
    SteadyInStep(map[], [], Concat(segments));
  }

  // ---- The head of a stream ----

  /** The head reads to its end and announces tracks; no packet has been numbered yet. */
  ghost predicate Introduces<I>(parse: D.MoovParser<I>, head: bytes)
  {
    var ran := D.RunBoxes(parse, D.Start(), head, 0);
    && ran.error.None? && ran.rest == [] && ran.state.sequence == 0 && ran.state.lastDts == map[]
    && forall k | 0 <= k < |ran.events| :: ran.events[k].Track?
  }

  function HeadOf<I>(parse: D.MoovParser<I>, head: bytes): D.Ran<I>
  {
    D.RunBoxes(parse, D.Start(), head, 0)
  }

  lemma TracksOnly<I>(found: seq<D.TrackData<I>>)
    ensures forall k | 0 <= k < |D.TrackEvents(found)| :: D.TrackEvents(found)[k].Track?
    decreases |found|
  {
    if found != [] {
      TracksOnly(found[..|found| - 1]);
    }
  }

  /** An initialisation segment introduces a stream: its tracks are announced, in the first epoch. */
  lemma InitIntroduces<I>(parse: D.MoovParser<I>, brands: bytes, moov: bytes, found: seq<D.TrackData<I>>)
    requires HeaderLength(|brands|) + |brands| <= MAX_BOX_SIZE && HeaderLength(|moov|) + |moov| <= MAX_BOX_SIZE
    requires parse(moov, |WriteBox(FTYP, brands)| + HeaderLength(|moov|)) == Ok(found)
    requires forall k | 0 <= k < |found| :: found[k].id != 0
    ensures var head := WriteBox(FTYP, brands) + WriteBox(MOOV, moov);
            && Introduces(parse, head) && HeadOf(parse, head).events == D.TrackEvents(found)
            && HeadOf(parse, head).state.tracks == D.AddTracks(map[], found) && HeadOf(parse, head).state.epoch == 0
  {
    hide WriteBox, D.RunBoxes, D.AddTracks, D.TrackEvents, HeaderLength;
    TracksOnly(found);
    InitRuns(parse, brands, moov, found);
  }

  lemma InitRuns<I>(parse: D.MoovParser<I>, brands: bytes, moov: bytes, found: seq<D.TrackData<I>>)
    requires HeaderLength(|brands|) + |brands| <= MAX_BOX_SIZE && HeaderLength(|moov|) + |moov| <= MAX_BOX_SIZE
    requires parse(moov, |WriteBox(FTYP, brands)| + HeaderLength(|moov|)) == Ok(found)
    requires forall k | 0 <= k < |found| :: found[k].id != 0
    ensures var start: D.State<I> := D.Start();
            D.RunBoxes(parse, start, WriteBox(FTYP, brands) + WriteBox(MOOV, moov), 0) ==
            D.Ran(start.(moovSeen := true, tracks := D.AddTracks(map[], found)), D.TrackEvents(found), [], None)
  {
    hide ParseHeader, WriteBox, D.RunBoxes, D.Process, HeaderLength, D.TrackEvents, D.AddTracks, D.Prepend;
    var ftyp, box := WriteBox(FTYP, brands), WriteBox(MOOV, moov);
    var start: D.State<I> := D.Start();
    HeaderReads(FTYP, brands, box);
    BoxBody(FTYP, brands, box);
    D.RunOne(parse, start, ftyp + box, 0, BoxHeader(|ftyp|, FTYP, HeaderLength(|brands|)));
    FtypIgnored(parse, start, brands, 0, HeaderLength(|brands|));
    D.PrependNone(D.RunBoxes(parse, start, box, |ftyp|));
    HeaderReads(MOOV, moov, []);
    BoxBody(MOOV, moov, []);
    assert box + [] == box;
    D.RunOne(parse, start, box, |ftyp|, BoxHeader(|box|, MOOV, HeaderLength(|moov|)));
    MoovApplied(parse, start, moov, |ftyp|, |ftyp| + HeaderLength(|moov|), found);
    var next := start.(moovSeen := true, tracks := D.AddTracks(map[], found));
    NothingRuns(parse, next, |ftyp| + |box|);
    PrependLast(D.TrackEvents(found), next);
  }

  lemma FtypIgnored<I>(parse: D.MoovParser<I>, state: D.State<I>, brands: bytes, start: nat, bodyStart: nat)
    ensures D.Process(parse, state, FTYP, brands, start, bodyStart) == D.Outcome(state, [], None)
  {
  }

  lemma MoovApplied<I>(parse: D.MoovParser<I>, state: D.State<I>, moov: bytes, start: nat, bodyStart: nat,
                       found: seq<D.TrackData<I>>)
    requires parse(moov, bodyStart) == Ok(found) && !state.moovSeen && forall k | 0 <= k < |found| :: found[k].id != 0
    ensures D.Process(parse, state, MOOV, moov, start, bodyStart) ==
            D.Outcome(state.(moovSeen := true, tracks := D.AddTracks(state.tracks, found)), D.TrackEvents(found), None)
  {
  }

  lemma PrependLast<I>(events: seq<D.Event<I>>, state: D.State<I>)
    ensures D.Prepend(events, D.Ran(state, [], [], None)) == D.Ran(state, events, [], None)
  {
    assert events + [] == events;
  }

  lemma BoxBody(boxType: fourcc, body: bytes, more: bytes)
    ensures var box, h := WriteBox(boxType, body), HeaderLength(|body|);
            && |box| == h + |body| && (box + more)[h..|box|] == body && (box + more)[|box|..] == more
  {
    hide BE32, BE64;
  }

  // ---- Box sizes ----

  lemma WithinOne(data: bytes, h: BoxHeader, limit: nat)
    requires ParseHeader(data) == Ok(h) && h.size <= limit && h.size <= |data| && D.BoxesWithin(data[h.size..], limit)
    ensures D.BoxesWithin(data, limit)
  {
    hide ParseHeader;
  }

  lemma WithinNothing(limit: nat)
    ensures D.BoxesWithin([], limit)
  {
  }

  /** A head that reads to its end, in front of anything else. */
  lemma {:induction false} HeadWithin<I>(parse: D.MoovParser<I>, state: D.State<I>, head: bytes, more: bytes, at: nat,
                                         limit: nat)
    requires D.BoxesWithin(head, limit) && D.BoxesWithin(more, limit)
    requires D.RunBoxes(parse, state, head, at).error.None? && D.RunBoxes(parse, state, head, at).rest == []
    ensures D.BoxesWithin(head + more, limit)
    decreases |head|
  {
    hide D.Process, ParseHeader, D.RunBoxes, D.BoxesWithin;
    var h := ParseHeader(head);
    if h.Ok? && |head| >= h.value.size {
      var size := h.value.size;
      D.BoxInBoth(head, more, h.value);
      D.RunOne(parse, state, head, at, h.value);
      D.WithinNext(head, h.value, limit);
      WithinSize(head, h.value, limit);
      var done := D.Process(parse, state, h.value.boxType, head[h.value.headerSize..size], at, at + h.value.headerSize);
      HeadWithin(parse, done.state, head[size..], more, at + size, limit);
      WithinOne(head + more, h.value, limit);
    } else {
      D.RunStops(parse, state, head, at);
      assert head + more == more;
    }
  }

  lemma WithinSize(data: bytes, h: BoxHeader, limit: nat)
    requires D.BoxesWithin(data, limit) && ParseHeader(data) == Ok(h)
    ensures h.size <= limit
  {
    hide ParseHeader;
  }

  lemma SegmentWithin<I>(runs: seq<Run>, sequence: u32, more: bytes, tracks: map<u32, D.TrackData<I>>, limit: nat)
    requires SegmentOk(runs, sequence, 0, tracks) && |Segment(runs, sequence)| <= limit && D.BoxesWithin(more, limit)
    ensures D.BoxesWithin(Segment(runs, sequence) + more, limit)
  {
    hide Moof, MdatBody, WriteBox, ParseHeader, D.BoxesWithin, Readable, HeaderLength;
    var moof, mdat := Moof(runs, sequence).value, WriteBox(MDAT, MdatBody(runs));
    Assoc(moof, mdat, more);
    MoofHeader(runs, sequence, mdat + more, 0);
    MdatHeader(runs, more);
    WithinOne(mdat + more, BoxHeader(|mdat|, MDAT, HeaderLength(|MdatBody(runs)|)), limit);
    WithinOne(moof + (mdat + more), BoxHeader(|moof|, MOOF, 8), limit);
  }

  lemma {:induction false} MediaWithin<I>(outputs: seq<M.SegmentOutput>, segments: seq<seq<Run>>, tracks: map<u32,
                                          D.TrackData<I>>, limit: nat)
    requires AllWritten(outputs, segments) && Fits(outputs, segments, tracks)
    requires forall k | 0 <= k < |outputs| :: |outputs[k].mediaSegment| <= limit
    ensures D.BoxesWithin(MediaOf(outputs), limit)
    decreases |outputs|
  {
    hide AllWritten, Fits, WrittenAs, RunsSteady, RunsFit, SegmentOk, Segment, D.BoxesWithin, Moof;
    WrittenSplit(outputs, segments, tracks);
    if outputs == [] {
      WithinNothing(limit);
    } else {
      MediaWithin(outputs[1..], segments[1..], tracks, limit);
      OneOk(outputs[0], segments[0], 0, tracks);
      WrittenSegment(outputs[0], segments[0]);
      SegmentWithin(segments[0], outputs[0].sequence, MediaOf(outputs[1..]), tracks, limit);
    }
  }

  // ---- From the packets pushed to the samples played ----

  lemma WholeStream<C, I>(ops: seq<M.Op<C>>, parse: D.MoovParser<I>, head: bytes, outputs: seq<M.SegmentOutput>,
                          segments: seq<seq<Run>>, retained: M.Buffers)
    requires AllSteady(ops) && M.Accounted(ops, segments, retained) && M.SegmentsOf(outputs, segments)
    requires Introduces(parse, head) && Fits(outputs, segments, HeadOf(parse, head).state.tracks)
    requires |head| + |MediaOf(outputs)| <= U64_MAX
    ensures var whole := D.RunBoxes(parse, D.Start(), head + MediaOf(outputs), 0);
            && whole.error.None? && whole.rest == [] && SamplesIn(whole.events) == SamplesOfAll(segments)
            && Unbroken(whole.events, HeadOf(parse, head))
  {
    hide *;
    var first := HeadOf(parse, head);
    AllAreWritten(ops, outputs, segments, retained);
    AllOk(outputs, segments, |head|, first.state.tracks);
    SegmentsInStep(ops, outputs, segments, retained);
    IntroducesMeans(parse, head, MediaOf(outputs));
    var next, more := StreamRuns(parse, first.state, outputs, segments, |head|);
    SilentMarked(first.state, Concat(segments), next, more);
    HeadAndMedia(first, next, more);
  }

  lemma IntroducesMeans<I>(parse: D.MoovParser<I>, head: bytes, media: bytes)
    requires Introduces(parse, head)
    ensures var first := HeadOf(parse, head);
            && first.state.sequence == 0 && first.state.lastDts == map[]
            && (forall k | 0 <= k < |first.events| :: first.events[k].Track?)
            && D.RunBoxes(parse, D.Start(), head + media, 0) ==
            D.Prepend(first.events, D.RunBoxes(parse, first.state, media, |head|))
  {
    hide D.RunBoxes, D.Prepend;
    D.RunTwice(parse, D.Start(), head, media, 0);
    assert [] + media == media;
  }

  lemma SilentMarked<I>(state: D.State<I>, runs: seq<Run>, next: D.State<I>, events: seq<D.Event<I>>)
    requires Silent(state, runs, next, events) && state.sequence == 0
    ensures Marked(events, 0, state.epoch)
  {
    hide Marked, Wrap64, LastAfterAll;
  }

  lemma HeadAndMedia<I>(head: D.Ran<I>, next: D.State<I>, more: seq<D.Event<I>>)
    requires (forall k | 0 <= k < |head.events| :: head.events[k].Track?) && Marked(more, 0, head.state.epoch)
    ensures var whole := D.Prepend(head.events, D.Ran(next, more, [], None));
            && whole.error.None? && whole.rest == [] && SamplesIn(whole.events) == SamplesIn(more)
            && Unbroken(whole.events, head)
  {
    hide Marked, SamplesIn;
    SamplesAppend(head.events, more);
    TracksHaveNone(head.events);
    assert [] + SamplesIn(more) == SamplesIn(more);
    assert (head.events + more)[|head.events|..] == more;
  }

  lemma {:induction false} TracksHaveNone<I>(events: seq<D.Event<I>>)
    requires forall k | 0 <= k < |events| :: events[k].Track?
    ensures SamplesIn(events) == []
    decreases |events|
  {
    if events != [] {
      TracksHaveNone(events[..|events| - 1]);
    }
  }

  /** Behind the events of the head come packets only, numbered 0, 1, 2, ... in one epoch, without a discontinuity. */
  ghost predicate Unbroken<I>(events: seq<D.Event<I>>, head: D.Ran<I>)
  {
    head.events <= events && Marked(events[|head.events|..], 0, head.state.epoch)
  }

  /** The reader's limits: on its buffer, on table and box sizes, on stream offsets, and the tracks it knows. */
  ghost predicate InLimits<I>(parse: D.MoovParser<I>, head: bytes, outputs: seq<M.SegmentOutput>,
                              segments: seq<seq<Run>>, limit: nat)
  {
    && Fits(outputs, segments, HeadOf(parse, head).state.tracks) && |head| + |MediaOf(outputs)| <= U64_MAX
    && limit >= 16 && D.BoxesWithin(head, limit)
    && forall k | 0 <= k < |outputs| :: |outputs[k].mediaSegment| <= limit
  }

  /**
   * The events a player gets: the samples of the segments cut out, in order, which are on every track the packets
   * pushed up to what is still buffered, and all of them numbered from 0 on behind the events of the head.
   */
  ghost predicate PlayedBack<C, I>(ops: seq<M.Op<C>>, parse: D.MoovParser<I>, head: bytes, events: seq<D.Event<I>>)
  {
    && SamplesIn(events) == SamplesOfAll(M.SegmentsAfter(ops))
    && Played(ops, SamplesIn(events), M.BuffersAfter(ops))
    && Unbroken(events, HeadOf(parse, head))
  }

  lemma StreamWithin<C, I>(ops: seq<M.Op<C>>, parse: D.MoovParser<I>, head: bytes, outputs: seq<M.SegmentOutput>,
                           segments: seq<seq<Run>>, retained: M.Buffers, chunks: seq<bytes>, limit: nat)
    requires AllSteady(ops) && M.Accounted(ops, segments, retained) && M.SegmentsOf(outputs, segments)
    requires Introduces(parse, head) && InLimits(parse, head, outputs, segments, limit)
    requires Concat(chunks) == head + MediaOf(outputs)
    requires forall k | 0 <= k < |chunks| ::
               |chunks[k]| + limit <= D.MAX_BUFFER
    ensures D.Chunked(chunks, limit)
  {
    hide D.RunBoxes, D.BoxesWithin, AllSteady, M.Accounted, M.SegmentsOf, AllWritten, Fits, MediaOf;
    AllAreWritten(ops, outputs, segments, retained);
    MediaWithin(outputs, segments, HeadOf(parse, head).state.tracks, limit);
    HeadWithin(parse, D.Start(), head, MediaOf(outputs), 0, limit);
  }

  lemma PlaysBack<C, I>(ops: seq<M.Op<C>>, parse: D.MoovParser<I>, head: bytes, outputs: seq<M.SegmentOutput>,
                        chunks: seq<bytes>, limit: nat)
    requires AllSteady(ops) && Introduces(parse, head) && M.SegmentsOf(outputs, M.SegmentsAfter(ops))
    requires Concat(chunks) == head + MediaOf(outputs)
    requires forall k | 0 <= k < |chunks| ::
               |chunks[k]| + limit <= D.MAX_BUFFER
    requires InLimits(parse, head, outputs, M.SegmentsAfter(ops), limit)
    ensures D.Chunked(chunks, limit)
    ensures var whole := D.RunBoxes(parse, D.Start(), Concat(chunks), 0);
            whole.error.None? && whole.rest == [] && PlayedBack(ops, parse, head, whole.events)
  {
    hide *;
    var segments, retained := M.SegmentsAfter(ops), M.BuffersAfter(ops);
    M.RunConserves(ops);
    StreamWithin(ops, parse, head, outputs, segments, retained, chunks, limit);
    LimitsMean(parse, head, outputs, segments, limit);
    WholeStream(ops, parse, head, outputs, segments, retained);
    AllAreWritten(ops, outputs, segments, retained);
    WrittenSteady(outputs, segments);
    PlayedFrom(ops, segments, retained);
    PlayedWhole(ops, parse, head, D.RunBoxes(parse, D.Start(), head + MediaOf(outputs), 0).events);
  }

  lemma PlayedWhole<C, I>(ops: seq<M.Op<C>>, parse: D.MoovParser<I>, head: bytes, events: seq<D.Event<I>>)
    requires SamplesIn(events) == SamplesOfAll(M.SegmentsAfter(ops)) && Unbroken(events, HeadOf(parse, head))
    requires Played(ops, SamplesOfAll(M.SegmentsAfter(ops)), M.BuffersAfter(ops))
    ensures PlayedBack(ops, parse, head, events)
  {
  }

  lemma LimitsMean<I>(parse: D.MoovParser<I>, head: bytes, outputs: seq<M.SegmentOutput>, segments: seq<seq<Run>>,
                      limit: nat)
    requires InLimits(parse, head, outputs, segments, limit)
    ensures Fits(outputs, segments, HeadOf(parse, head).state.tracks) && |head| + |MediaOf(outputs)| <= U64_MAX
  {
    hide Fits, HeadOf, MediaOf, D.BoxesWithin;
  }

  lemma WrittenSteady(outputs: seq<M.SegmentOutput>, segments: seq<seq<Run>>)
    requires AllWritten(outputs, segments)
    ensures forall k | 0 <= k < |segments| :: RunsSteady(segments[k])
  {
    hide RunsSteady, WrittenAs;
  }

  method MediaBytes(outputs: seq<M.SegmentOutput>) returns (media: bytes)
    ensures media == MediaOf(outputs)
  {
    media := [];
    assert outputs[0..] == outputs && [] + MediaOf(outputs) == MediaOf(outputs);
    for i := 0 to |outputs|
      invariant media + MediaOf(outputs[i..]) == MediaOf(outputs)
    {
      assert outputs[i..][0] == outputs[i] && outputs[i..][1..] == outputs[i + 1..];
      Assoc(media, outputs[i].mediaSegment, MediaOf(outputs[i + 1..]));
      media := media + outputs[i].mediaSegment;
    }
    assert outputs[|outputs|..] == [] && media + [] == media;
  }

  ghost predicate FlushFails<C>(init: M.Init<C>, ops: seq<M.Op<C>>, k: nat)
    requires k < |ops|
  {
    ops[k].Flush? && M.AnswerAt(init, ops, k).Err?
  }

  /**
   * Packets through the muxer, the bytes of the segments it writes behind any head in any chunks, and the demuxer: on
   * every track the samples come out with the payload, times, duration and keyframe flag they were pushed with, in
   * order, up to what the last flush left and what was pushed since; all of them numbered from 0 on, in one epoch and
   * without a discontinuity.
   */
  method PlayChunks<C, I>(init: M.Init<C>, ops: seq<M.Op<C>>, parse: D.MoovParser<I>, head: bytes, sizes: seq<nat>,
                          limit: nat)
    returns (r: Result<seq<D.Event<I>>, Mp4Error>, outputs: seq<M.SegmentOutput>, retained: M.Buffers, rest: bytes,
             failed: Option<Mp4Error>)
    requires AllSteady(ops) && Introduces(parse, head) && limit < D.MAX_BUFFER
    ensures retained == M.BuffersAfter(ops) && outputs == M.OutputsIn(M.AnswersOf(init, ops))
    ensures r.Ok? ==> forall k | 0 <= k < |ops| :: !FlushFails(init, ops, k)
    ensures r.Err? ==>
              exists k | 0 <= k < |ops| :: && FlushFails(init, ops, k) && M.AnswerAt(init, ops, k).error == r.error
                                                    && forall j | 0 <= j < k :: !FlushFails(init, ops, j)
    ensures r.Ok? ==> M.SegmentsOf(outputs, M.SegmentsAfter(ops))
    ensures r.Ok? && InLimits(parse, head, outputs, M.SegmentsAfter(ops), limit) ==>
              failed == None && rest == [] && PlayedBack(ops, parse, head, r.value)
  {
    hide AllSteady, Introduces, InLimits, D.RunBoxes, D.Chunked, PlayedBack, MediaOf, M.AnswerAt, M.OutputsIn,
         M.SegmentsOf, M.SegmentsAfter, M.BuffersAfter;
    var answers;
    answers, retained := M.MuxRun(init, ops);
    M.AnswersAre(init, ops, answers);
    outputs := M.OutputsIn(answers);
    rest, failed := [], None;
    var k := 0;
    while k < |ops| && !(ops[k].Flush? && answers[k].Err?)
      invariant k <= |ops| && forall j | 0 <= j < k :: !FlushFails(init, ops, j)
    {
      k := k + 1;
    }
    if k < |ops| {
      assert FlushFails(init, ops, k);
      return Err(answers[k].error), outputs, retained, rest, failed;
    }
    forall j | 0 <= j < |ops| && ops[j].Flush? ensures answers[j].Ok? {
      assert !FlushFails(init, ops, j);
    }
    M.OutputsAre(init, ops);
    var media := MediaBytes(outputs);
    var chunks := Cut(head + media, sizes, D.MAX_BUFFER - limit);
    var events, left, error, _ := D.DemuxChunks(parse, chunks, limit);
    if InLimits(parse, head, outputs, M.SegmentsAfter(ops), limit) {
      PlaysBack(ops, parse, head, outputs, chunks, limit);
    }
    return Ok(events), outputs, retained, left, error;
  }
}

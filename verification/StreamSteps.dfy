/** Runs that continue their tracks: the demuxer numbers their packets on and marks no discontinuity. */
module StreamSteps {
  import opened Bytes
  import opened FragmentRoundTrip
  import opened FragmentWriter
  import D = IsobmffDemuxer
  import R = FragmentReader

  /** The run begins no earlier than the last decode time of its track. */
  ghost predicate Continues(lastDts: map<u32, u64>, run: Run)
  {
    run.packets != [] && (run.trackId in lastDts ==> lastDts[run.trackId] <= BaseOf(run.packets))
  }

  function LastAfter(lastDts: map<u32, u64>, run: Run): map<u32, u64>
  {
    if run.packets == [] then lastDts else lastDts[run.trackId := DecodeTime(run.packets, |run.packets| - 1)]
  }

  function LastAfterAll(lastDts: map<u32, u64>, runs: seq<Run>): map<u32, u64>
    decreases |runs|
  {
    if runs == [] then lastDts else LastAfterAll(LastAfter(lastDts, runs[0]), runs[1..])
  }

  /** Each run continues its track when it comes. */
  ghost predicate InStep(lastDts: map<u32, u64>, runs: seq<Run>)
    decreases |runs|
  {
    runs != [] ==> Continues(lastDts, runs[0]) && InStep(LastAfter(lastDts, runs[0]), runs[1..])
  }

  lemma {:induction false} InStepAppend(lastDts: map<u32, u64>, a: seq<Run>, b: seq<Run>)
    ensures InStep(lastDts, a + b) <==> InStep(lastDts, a) && InStep(LastAfterAll(lastDts, a), b)
    ensures LastAfterAll(lastDts, a + b) == LastAfterAll(LastAfterAll(lastDts, a), b)
    decreases |a|
  {
    hide Continues, LastAfter;
    if a == [] {
      assert a + b == b;
    } else {
      assert (a + b)[0] == a[0] && (a + b)[1..] == a[1..] + b;
      InStepAppend(LastAfter(lastDts, a[0]), a[1..], b);
    }
  }

  /** Packets only, numbered from `from` on, of the one epoch, and none marked as a discontinuity. */
  ghost predicate Marked<I>(events: seq<D.Event<I>>, from: nat, epoch: nat)
  {
    forall k | 0 <= k < |events| ::
      && events[k].Packet? && events[k].packet.sequence == Wrap64(from + k) && events[k].packet.epoch == epoch
      && !events[k].packet.discontinuity
  }

  /** The runs' packets go on where the state has got to, without a break. */
  ghost predicate Silent<I>(state: D.State<I>, runs: seq<Run>, next: D.State<I>, events: seq<D.Event<I>>)
  {
    && next.epoch == state.epoch && next.lastDts == LastAfterAll(state.lastDts, runs)
    && next.sequence == Wrap64(state.sequence + |events|) && Marked(events, state.sequence, state.epoch)
  }

  lemma WrapAgain(a: nat, b: nat)
    ensures Wrap64(Wrap64(a) + b) == Wrap64(a + b)
  {
  }

  lemma SilentAppend<I>(state: D.State<I>, a: seq<Run>, mid: D.State<I>, first: seq<D.Event<I>>, b: seq<Run>,
                        next: D.State<I>, more: seq<D.Event<I>>)
    requires Silent(state, a, mid, first) && Silent(mid, b, next, more)
    ensures Silent(state, a + b, next, first + more)
  {
    hide InStep, Wrap64, LastAfterAll;
    InStepAppend(state.lastDts, a, b);
    var from := state.sequence + |first|;
    WrapAgain(from, |more|);
    var all := first + more;
    forall k | 0 <= k < |all|
      ensures all[k].Packet? && all[k].packet.sequence == Wrap64(state.sequence + k)
              && all[k].packet.epoch == state.epoch
              && !all[k].packet.discontinuity
    {
      if k >= |first| {
        assert all[k] == more[k - |first|];
        WrapAgain(from, k - |first|);
      }
    }
  }

  lemma SilentNothing<I>(state: D.State<I>)
    ensures Silent(state, [], state, [])
  {
    WrapNone(state.sequence);
  }

  /** The durations of a run's fragment add up to its decode times. */
  lemma {:induction false} DurationsAdd(tf: R.TrackFragment, run: Run, n: nat)
    requires n <= |tf.samples| == |run.packets| && TimesFit(run.packets) && run.packets != []
    requires forall k | 0 <= k < |run.packets| :: tf.samples[k].duration == FieldsOf(run.packets[k]).duration
    ensures var total := D.TotalDuration(tf.samples, n);
            && total.Some? && BaseOf(run.packets) + total.value <= I64_MAX + U32_MAX
            && (n < |run.packets| ==> BaseOf(run.packets) + total.value == DecodeTime(run.packets, n))
    decreases n
  {
    hide FieldsOf, BaseOf;
    if n == 0 {
      assert DecodeTime(run.packets, 0) <= I64_MAX;
    } else {
      DurationsAdd(tf, run, n - 1);
      assert DecodeTime(run.packets, n - 1) <= I64_MAX;
    }
  }

  lemma NotBackwards(tf: R.TrackFragment, run: Run, lastDts: map<u32, u64>)
    requires tf.trackId == run.trackId && tf.baseDecodeTime == BaseOf(run.packets) && |tf.samples| == |run.packets|
    requires forall k | 0 <= k < |run.packets| :: tf.samples[k].duration == FieldsOf(run.packets[k]).duration
    requires Continues(lastDts, run) && TimesFit(run.packets)
    ensures !D.Backwards(tf, lastDts)
  {
    hide D.TotalDuration, TimesFit, FieldsOf, BaseOf;
    DurationsAdd(tf, run, |run.packets|);
  }

  /** A run that continues its track gives its packets and nothing else. */
  lemma FragmentSilent<I>(state: D.State<I>, tf: R.TrackFragment, run: Run, mdat: bytes, mdatOffset: nat)
    requires CutsOut(tf, run, mdat, mdatOffset) && run.trackId in state.tracks && Continues(state.lastDts, run)
    ensures var done := D.EmitFragment(state, tf, mdat, mdatOffset); Silent(state, [run], done.state, done.events)
  {
    hide *;
    CutsOutGives(tf, run, mdat, mdatOffset, state.sequence, state.epoch);
    NotBackwards(tf, run, state.lastDts);
    ReadBackMarked<I>(run, state.sequence, state.epoch);
    ContinuesHasPackets(state.lastDts, run);
    ReadBackLast(run, state.sequence, state.epoch);
    EmittedForward(state, tf, mdat, mdatOffset, AllReadBack(run, state.sequence, state.epoch));
    var done := D.EmitFragment(state, tf, mdat, mdatOffset);
    SilentOne(state, run, done.state, done.events);
  }

  lemma SilentOne<I>(state: D.State<I>, run: Run, next: D.State<I>, events: seq<D.Event<I>>)
    requires run.packets != [] && next.epoch == state.epoch
    requires next.lastDts == state.lastDts[run.trackId := DecodeTime(run.packets, |run.packets| - 1)]
    requires next.sequence == Wrap64(state.sequence + |events|) && Marked(events, state.sequence, state.epoch)
    ensures Silent(state, [run], next, events)
  {
    hide Marked, Wrap64, DecodeTime;
    assert [run][1..] == [];
    assert LastAfterAll(LastAfter(state.lastDts, run), []) == LastAfter(state.lastDts, run);
  }

  lemma ReadBackLast(run: Run, sequence: u64, epoch: nat)
    requires TimesFit(run.packets) && run.packets != []
    ensures var n := |run.packets| - 1;
            |AllReadBack(run, sequence, epoch)| == n + 1
            && D.Unsigned(AllReadBack(run, sequence, epoch)[n].dts) == DecodeTime(run.packets, n)
  {
    hide DecodeTime, PresentationTime, FieldsOf, Wrap64;
    assert DecodeTime(run.packets, |run.packets| - 1) <= I64_MAX;
  }

  lemma CutsOutGives(tf: R.TrackFragment, run: Run, mdat: bytes, mdatOffset: nat, sequence: u64, epoch: nat)
    requires CutsOut(tf, run, mdat, mdatOffset)
    ensures tf.trackId == run.trackId && |tf.samples| == |run.packets| && TimesFit(run.packets)
    ensures tf.baseDecodeTime == BaseOf(run.packets)
    ensures forall k | 0 <= k < |run.packets| :: tf.samples[k].duration == FieldsOf(run.packets[k]).duration
    ensures var r := R.EmitTo(tf, mdat, mdatOffset, sequence, epoch, |tf.samples|);
            r.Ok? && r.value.0 == AllReadBack(run, sequence, epoch)
  {
    hide TimesFit, R.EmitTo, AllReadBack, FieldsOf, BaseOf;
  }

  /** What a fragment that does not go backwards does to the state. */
  lemma EmittedForward<I>(state: D.State<I>, tf: R.TrackFragment, mdat: bytes, mdatOffset: nat,
                          packets: seq<R.MediaPacket>)
    requires tf.trackId in state.tracks && !D.Backwards(tf, state.lastDts) && packets != []
    requires var r := R.EmitTo(tf, mdat, mdatOffset, state.sequence, state.epoch, |tf.samples|);
             r.Ok? && r.value.0 == packets
    ensures var done := D.EmitFragment(state, tf, mdat, mdatOffset);
            && done.events == D.AsEvents<I>(packets, false) && done.state.epoch == state.epoch
            && done.state.sequence == Wrap64(state.sequence + |packets|)
            && done.state.lastDts == state.lastDts[tf.trackId := D.Unsigned(packets[|packets| - 1].dts)]
  {
    hide R.EmitTo, R.Emitted, D.Backwards, Wrap64, D.AsEvents;
    assert [] + D.AsEvents<I>(packets, false) == D.AsEvents<I>(packets, false);
  }

  lemma ReadBackMarked<I>(run: Run, sequence: u64, epoch: nat)
    requires TimesFit(run.packets)
    ensures Marked(D.AsEvents<I>(AllReadBack(run, sequence, epoch), false), sequence, epoch)
  {
    hide TimesFit, FieldsOf, DecodeTime, PresentationTime, Wrap64;
  }

  lemma ContinuesHasPackets(lastDts: map<u32, u64>, run: Run)
    requires Continues(lastDts, run)
    ensures run.packets != []
  {
  }
}

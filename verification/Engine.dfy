/** The engine's lifecycle: commands and callbacks in, state changes and recovery out. */
module Engine {
  import opened Bytes
  import opened Recovery

  datatype PlayerState = Idle | Loading | Preroll | Playing | Paused | Rebuffering | Stopping | Failed | Destroyed

  datatype EngineError = InvalidState(state: PlayerState, command: string) | Backend(stage: string, code: nat)
    | EngineDestroyed

  /** What is known about a track is opaque. */
  datatype Event<T> =
    | StateChanged(from: PlayerState, to: PlayerState)
    | TrackAdded(info: T)
    | TrackConfigChanged(trackId: nat, generation: nat)
    | Eof
    | Error(error: EngineError)
    | RecoveryScheduled(key: Key, delayMs: nat, attemptsLeft: nat)
    | ResourceWarning(kinds: seq<nat>, total: nat)
    | Stopped
    | DestroyedEvent
    | Metrics

  datatype NetworkEvent = Connected | NetworkEof | Retryable | NetworkFatal(code: nat)

  datatype BackendEvent<T> =
    | Track(epoch: nat, info: T)
    | ConfigChanged(epoch: nat, trackId: nat, generation: nat)
    | DecoderReady(epoch: nat, trackId: nat)
    | DecoderError(epoch: nat, trackId: nat, code: nat)
    | Rendered(epoch: nat, trackId: nat)
    | BackendStopped

  datatype Command<T> =
    | Load(isLive: bool)
    | Play
    | Pause
    | Stop
    | Destroy
    | Network(network: NetworkEvent)
    | FromBackend(backend: BackendEvent<T>)
    | GetMetrics

  const KIND_COUNT: nat := 10

  // ---- The lifecycle graph ----

  /** The state changes there are. */
  predicate Edge(from: PlayerState, to: PlayerState)
  {
    match from
    case Idle => to.Loading? || to.Rebuffering? || to.Failed? || to.Destroyed?
    case Loading => to.Preroll? || to.Stopping? || to.Failed? || to.Destroyed?
    case Preroll => to.Playing? || to.Rebuffering? || to.Stopping? || to.Failed? || to.Destroyed?
    case Playing => to.Paused? || to.Rebuffering? || to.Stopping? || to.Failed? || to.Destroyed?
    case Paused => to.Playing? || to.Rebuffering? || to.Stopping? || to.Failed? || to.Destroyed?
    case Rebuffering =>
      to.Idle? || to.Preroll? || to.Playing? || to.Paused? || to.Stopping? || to.Failed? || to.Destroyed?
    case Stopping => to.Idle? || to.Rebuffering? || to.Failed? || to.Destroyed?
    case Failed => to.Loading? || to.Stopping? || to.Destroyed?
    case Destroyed => false
  }

  /** The state changes among the events lead from one state to the other along the graph. */
  ghost predicate Path<T>(from: PlayerState, events: seq<Event<T>>, to: PlayerState)
    decreases |events|
  {
    if events == [] then from == to
    else if events[0].StateChanged? then
      events[0].from == from && Edge(from, events[0].to) && Path(events[0].to, events[1..], to)
    else Path(from, events[1..], to)
  }

  /** The state the changes among the events lead to. */
  function StateAfter<T>(from: PlayerState, events: seq<Event<T>>): PlayerState
    decreases |events|
  {
    if events == [] then from else StateAfter(if events[0].StateChanged? then events[0].to else from, events[1..])
  }

  lemma {:induction false} PathEnds<T>(from: PlayerState, events: seq<Event<T>>, to: PlayerState)
    requires Path(from, events, to)
    ensures StateAfter(from, events) == to
    decreases |events|
  {
    if events != [] {
      PathEnds(if events[0].StateChanged? then events[0].to else from, events[1..], to);
    }
  }

  lemma {:induction false} PathAppend<T>(from: PlayerState, a: seq<Event<T>>, mid: PlayerState, b: seq<Event<T>>,
                                         to: PlayerState)
    requires Path(from, a, mid) && Path(mid, b, to)
    ensures Path(from, a + b, to)
    decreases |a|
  {
    if a == [] {
      assert a + b == b;
    } else {
      assert (a + b)[1..] == a[1..] + b;
      PathAppend(if a[0].StateChanged? then a[0].to else from, a[1..], mid, b, to);
    }
  }

  /** Once destroyed, no event changes the state any more. */
  lemma {:induction false} DestroyedIsFinal<T>(events: seq<Event<T>>, to: PlayerState)
    requires Path(Destroyed, events, to)
    ensures to == Destroyed && forall i | 0 <= i < |events| :: !events[i].StateChanged?
    decreases |events|
  {
    if events != [] {
      DestroyedIsFinal(events[1..], to);
      assert forall i | 1 <= i < |events| :: events[i] == events[1..][i - 1];
    }
  }

  /** The states a rebuffering may return to. */
  predicate CanResume(state: PlayerState)
  {
    state.Idle? || state.Preroll? || state.Playing? || state.Paused? || state.Stopping?
  }

  // ---- The ledger ----

  predicate IsZero(ledger: seq<nat>)
  {
    forall k | 0 <= k < |ledger| :: ledger[k] == 0
  }

  function ZeroLedger(): (z: seq<nat>)
    ensures |z| == KIND_COUNT && IsZero(z)
  {
    seq(KIND_COUNT, _ => 0)
  }

  function OpenKinds(ledger: seq<nat>, k: nat): seq<nat>
    requires k <= |ledger|
  {
    if k == 0 then [] else OpenKinds(ledger, k - 1) + if ledger[k - 1] > 0 then [k - 1] else []
  }

  function Total(ledger: seq<nat>, k: nat): nat
    requires k <= |ledger|
  {
    if k == 0 then 0
    else
      var sum := Total(ledger, k - 1) + ledger[k - 1];
      if sum > U64_MAX then U64_MAX else sum
  }

  // ---- The session's attempts ----

  /**
   * The tracker has, of the session's attempts, those that some window can still reach; and there has been no storm.
   */
  ghost predicate SessionOk(policy: Policy, history: seq<Attempt>, log: seq<Attempt>, cutoff: nat, now: nat)
  {
    && policy.Ok() && NoStorm(policy, log) && AllBy(log, now)
    && history == Kept(log, cutoff) && cutoff <= Sub(now, policy.MaxWindow())
  }

  lemma SessionBegins(policy: Policy, now: nat)
    requires policy.Ok()
    ensures SessionOk(policy, [], [], 0, now)
  {
    assert forall key: Key, lo: nat :: WithinBudget(policy, [], key, lo);
  }

  lemma SessionTicks(policy: Policy, history: seq<Attempt>, log: seq<Attempt>, cutoff: nat, now: nat, later: nat)
    requires SessionOk(policy, history, log, cutoff, now) && now <= later
    ensures SessionOk(policy, Kept(history, Sub(later, policy.MaxWindow())), log, Sub(later, policy.MaxWindow()), later)
  {
    KeptKept(log, cutoff, Sub(later, policy.MaxWindow()));
  }

  /** A retry the policy decides on may be recorded; it is the retry the whole session's log would give. */
  lemma SessionRecords(policy: Policy, history: seq<Attempt>, log: seq<Attempt>, cutoff: nat, now: nat, code: nat,
                       stage: string)
    requires SessionOk(policy, history, log, cutoff, now)
    ensures var d := Decide(policy, code, stage, now, AttemptsFor(history, code, stage));
            && !d.Escalate?
            && (d.Retry? ==>
                  && d.delayMs <= policy.Budget(d.action).capMs && d.action != Fatal
                  && var a := Attempt(Key(code, stage, d.action), now);
                     SessionOk(policy, history + [a], log + [a], cutoff, now))
  {
    hide NoStorm, Classify, InWindow, DelayFor, Policy.Budget, Kept;
    var attemptsFor := AttemptsFor(history, code, stage);
    var action := Classify(policy, code, stage);
    DecideFromExact(policy, action, now, attemptsFor, 5);
    var d := Decide(policy, code, stage, now, attemptsFor);
    if d.Retry? {
      var key := Key(code, stage, d.action);
      var w := policy.Budget(d.action).windowMs;
      policy.WindowBounded(d.action);
      KeptCounts(log, cutoff, key, Sub(now, w), now);
      RecordKeepsNoStorm(policy, log, Attempt(key, now));
      KeptSnoc(log, Attempt(key, now), cutoff);
    }
  }

  lemma PathOne<T>(from: PlayerState, to: PlayerState, e: Event<T>)
    requires e.StateChanged? ==> e == StateChanged(from, to) && Edge(from, to)
    requires !e.StateChanged? ==> from == to
    ensures Path(from, [e], to)
  {
    assert [e][1..] == [];
  }

  /** No recovery has been scheduled. */
  ghost predicate Quiet<T>(events: seq<Event<T>>)
  {
    forall i | 0 <= i < |events| :: !events[i].RecoveryScheduled?
  }

  /** The attempts scheduled by the events, at the time. */
  function AttemptsOf<T>(events: seq<Event<T>>, now: nat): seq<Attempt>
  {
    if events == [] then []
    else (if events[0].RecoveryScheduled? then [Attempt(events[0].key, now)] else []) + AttemptsOf(events[1..], now)
  }

  lemma QuietAppend<T>(a: seq<Event<T>>, b: seq<Event<T>>)
    requires Quiet(a) && Quiet(b)
    ensures Quiet(a + b)
  {
  }

  lemma {:induction false} QuietAttempts<T>(events: seq<Event<T>>, more: seq<Event<T>>, now: nat)
    requires Quiet(events)
    ensures AttemptsOf(events + more, now) == AttemptsOf(more, now)
    decreases |events|
  {
    if events == [] {
      assert events + more == more;
    } else {
      assert (events + more)[1..] == events[1..] + more;
      assert Quiet(events[1..]) by { assert forall i | 1 <= i < |events| :: events[1..][i - 1] == events[i]; }
      QuietAttempts(events[1..], more, now);
    }
  }

  lemma QuietNone<T>(events: seq<Event<T>>, now: nat)
    requires Quiet(events)
    ensures AttemptsOf(events, now) == []
  {
    assert events + [] == events;
    QuietAttempts(events, [], now);
  }

  // ---- What the handlers report ----

  /** The warning about resources still owned. */
  function Leak<T>(ledger: seq<nat>): seq<Event<T>>
  {
    if IsZero(ledger) then [] else [ResourceWarning(OpenKinds(ledger, |ledger|), Total(ledger, |ledger|))]
  }

  function Change<T>(from: PlayerState, to: PlayerState): seq<Event<T>>
  {
    if from == to then [] else [StateChanged(from, to)]
  }

  /** A stop says what it leaves, warns of what is still owned, and ends idle. */
  function StopEvents<T>(state: PlayerState, ledger: seq<nat>): seq<Event<T>>
  {
    if state == Idle then []
    else
      (if state == Stopping then [] else [StateChanged(state, Stopping)]) + Leak(ledger)
      + [StateChanged(Stopping, Idle), Stopped]
  }

  function AfterPlay(state: PlayerState): PlayerState
  {
    if state.Preroll? || state.Paused? || state.Rebuffering? then Playing else state
  }

  /** An error is answered as decided: a retry, with a reconnect outside of loading, or failure. */
  ghost predicate Answers<T>(d: Decision, code: nat, stage: string, was: PlayerState, out: seq<Event<T>>,
                             now: PlayerState)
  {
    if was.Destroyed? || was.Failed? then out == [] && now == was
    else if d.Retry? then
      && now == (if d.action.ReconnectSource? && !was.Loading? then Rebuffering else was)
      && out == Change(was, now) + [RecoveryScheduled(Key(code, stage, d.action), d.delayMs, d.attemptsLeft)]
    else now == Failed && out == [Error(Backend(stage, code)), StateChanged(was, Failed)]
  }

  /**
   * An error is reported as a failure or as a retry for its code and stage, unless the engine has failed already. A
   * retry leads into rebuffering if it reconnects the source, but not out of loading.
   */
  ghost predicate Handled<T>(was: PlayerState, code: nat, stage: string, out: seq<Event<T>>, now: PlayerState)
  {
    if was.Failed? then out == [] && now == was
    else if now.Failed? then out == [Error(Backend(stage, code)), StateChanged(was, Failed)]
    else
      && out != [] && out[|out| - 1].RecoveryScheduled? && out[|out| - 1].key.code == code
      && out[|out| - 1].key.stage == stage
      && out == Change(was, now) + [out[|out| - 1]]
      && now == if out[|out| - 1].key.action.ReconnectSource? && !was.Loading? then Rebuffering else was
  }

  predicate Streaming(state: PlayerState)
  {
    state.Loading? || state.Preroll? || state.Playing? || state.Paused? || state.Rebuffering?
  }

  /**
   * What a session remembers: whether it has had a track and a configuration, and the state last left for
   * rebuffering.
   */
  datatype Memory = Memory(hasTrack: bool, hasConfig: bool, resume: PlayerState)

  const NOTHING := Memory(false, false, Idle)

  ghost predicate ReactsToNetwork<T>(was: PlayerState, resume: PlayerState, ev: NetworkEvent, out: seq<Event<T>>,
                                     now: PlayerState)
  {
    match ev
    case Connected => out == Change(was, now) && now == if was.Rebuffering? then resume else was
    case NetworkEof =>
      if Streaming(was) then now == Stopping && out == [Eof, StateChanged(was, Stopping)] else now == was && out == []
    case Retryable => now == (if was.Playing? || was.Paused? then Rebuffering else was) && out == Change(was, now)
    case NetworkFatal(code) => Handled(was, code, "network", out, now)
  }

  ghost predicate ReactsToBackend<T>(was: PlayerState, epoch: nat, m: Memory, ev: BackendEvent<T>, out: seq<Event<T>>,
                                     now: PlayerState)
  {
    if !ev.BackendStopped? && ev.epoch != epoch then out == [] && now == was
    else
      match ev
      case Track(_, info) =>
        out == [TrackAdded(info)] + Change(was, now) && now == if was.Loading? && m.hasConfig then Preroll else was
      case ConfigChanged(_, trackId, generation) =>
        && out == [TrackConfigChanged(trackId, generation)] + Change(was, now)
        && now == if was.Loading? && m.hasTrack then Preroll else was
      case DecoderReady(_, _) => out == [] && now == was
      case DecoderError(_, _, code) => Handled(was, code, "decoder", out, now)
      case Rendered(_, _) => out == [] && now == was
      case BackendStopped =>
        if was.Stopping? then now == Idle && out == [StateChanged(Stopping, Idle)] + [Stopped]
        else now == was && out == []
  }

  /** What a command must report and lead to. */
  ghost predicate Reacts<T>(was: PlayerState, epoch: nat, ledger: seq<nat>, m: Memory, command: Command<T>,
                            out: seq<Event<T>>, now: PlayerState)
  {
    match command
    case Load(_) =>
      now == Loading &&
      out == if was.Idle? || was.Failed? then Leak(ledger) + [StateChanged(was, Loading)]
             else StopEvents(was, ledger) + [StateChanged(Idle, Loading)]
    case Play =>
      now == AfterPlay(was) &&
      out == if now != was || was.Playing? then Change(was, now) else [Error(InvalidState(was, "play"))]
    case Pause =>
      now == (if was.Playing? then Paused else was) &&
      out == if now != was || was.Paused? then Change(was, now) else [Error(InvalidState(was, "pause"))]
    case Stop => now == Idle && out == StopEvents(was, ledger)
    case Destroy => now == Destroyed && out == Leak(ledger) + [StateChanged(was, Destroyed)] + [DestroyedEvent]
    case Network(ev) => ReactsToNetwork(was, m.resume, ev, out, now)
    case FromBackend(ev) => ReactsToBackend(was, epoch, m, ev, out, now)
    case GetMetrics => out == [Metrics] && now == was
  }

  /** What a session remembers after a command that led from one state to another; a load begins a new session. */
  function MemoryAfter<T>(m: Memory, epoch: nat, was: PlayerState, command: Command<T>, now: PlayerState): Memory
  {
    if command.Load? then NOTHING
    else
      var own := command.FromBackend? && !command.backend.BackendStopped? && command.backend.epoch == epoch;
      Memory(m.hasTrack || (own && command.backend.Track?), m.hasConfig || (own && command.backend.ConfigChanged?),
             Left(m.resume, was, now))
  }

  /** The state last left for rebuffering. */
  function Left(resume: PlayerState, was: PlayerState, now: PlayerState): PlayerState
  {
    if now.Rebuffering? && !was.Rebuffering? then was else resume
  }

  /** The error a command reports, if any: its code and stage. */
  function ErrorOf<T>(epoch: nat, command: Command<T>): Option<(nat, string)>
  {
    match command
    case Network(ev) => if ev.NetworkFatal? then Some((ev.code, "network")) else None
    case FromBackend(ev) => if ev.DecoderError? && ev.epoch == epoch then Some((ev.code, "decoder")) else None
    case _ => None
  }

  /**
   * An error is answered as the policy decides on the whole session's log, whatever has been pruned of it: the same
   * retry with a delay that is within its cap and no longer than the log would give, or none.
   */
  ghost predicate DecidedOn<T>(policy: Policy, log: seq<Attempt>, now: nat, code: nat, stage: string, was: PlayerState,
                               out: seq<Event<T>>)
    requires policy.Ok()
  {
    was.Failed? || was.Destroyed? ||
    var d := Decide(policy, code, stage, now, AttemptsFor(log, code, stage));
    if d.Retry? then
      && out != [] && var e := out[|out| - 1];
      && e.RecoveryScheduled? && e.key == Key(code, stage, d.action) && e.attemptsLeft == d.attemptsLeft
      && e.delayMs <= d.delayMs <= policy.Budget(d.action).capMs
    else d.GiveUp? && Quiet(out)
  }

  ghost predicate Decides<T>(policy: Policy, log: seq<Attempt>, now: nat, epoch: nat, command: Command<T>,
                             was: PlayerState, out: seq<Event<T>>)
    requires policy.Ok()
  {
    var error := ErrorOf(epoch, command);
    error.Some? ==> DecidedOn(policy, log, now, error.value.0, error.value.1, was, out)
  }

  lemma AnswersDecide<T>(policy: Policy, history: seq<Attempt>, log: seq<Attempt>, cutoff: nat, now: nat, code: nat,
                         stage: string, was: PlayerState, out: seq<Event<T>>, state: PlayerState)
    requires SessionOk(policy, history, log, cutoff, now)
    requires Answers(Decide(policy, code, stage, now, AttemptsFor(history, code, stage)), code, stage, was, out, state)
    ensures DecidedOn(policy, log, now, code, stage, was, out)
  {
    hide Decide, NoStorm, Policy.Budget, Kept, AllBy;
    PruningKeepsDelay(policy, log, cutoff, code, stage, now);
    DecisionCapped(policy, code, stage, now, AttemptsFor(log, code, stage));
  }

  lemma DecisionCapped(policy: Policy, code: nat, stage: string, now: nat, attemptsFor: RecoveryAction -> seq<nat>)
    requires policy.Ok()
    ensures var d := Decide(policy, code, stage, now, attemptsFor);
            !d.Escalate? && (d.Retry? ==> d.delayMs <= policy.Budget(d.action).capMs)
  {
    hide DecideFrom, Classify, Policy.Budget;
    DecideFromExact(policy, Classify(policy, code, stage), now, attemptsFor, 5);
  }

  /** The ledger after a command: a load, a stop of a session and a destruction clear it. */
  function LedgerAfter<T>(was: PlayerState, ledger: seq<nat>, command: Command<T>): seq<nat>
  {
    if command.Load? || command.Destroy? || (command.Stop? && was != Idle) then ZeroLedger() else ledger
  }

  lemma ZeroIs(ledger: seq<nat>)
    requires |ledger| == KIND_COUNT
    ensures IsZero(ledger) <==> ledger == ZeroLedger()
  {
  }

  lemma AnswersHandle<T>(d: Decision, code: nat, stage: string, was: PlayerState, out: seq<Event<T>>, now: PlayerState)
    requires !was.Destroyed? && Answers(d, code, stage, was, out, now)
    ensures Handled(was, code, stage, out, now)
  {
  }

  class Engine<T> {
    const policy: Policy

    var state: PlayerState
    var epoch: nat
    var sequence: u64
    var hasTrack: bool
    var hasConfig: bool
    var preRebufferState: PlayerState
    var trackCount: u32
    var tracker: RecoveryTracker
    var ledger: seq<nat>
    var nowMs: nat
    var isLive: bool

    /** All attempts of the session; those before `cutoff` have been pruned; the clock has not gone back. */
    ghost var log: seq<Attempt>
    ghost var cutoff: nat
    ghost var clockOk: bool

    ghost predicate Valid()
      reads this, tracker
    {
      && policy.Ok() && |ledger| == KIND_COUNT && (state.Rebuffering? ==> CanResume(preRebufferState))
      && (clockOk ==> SessionOk(policy, tracker.history, log, cutoff, nowMs))
    }

    function Recall(): Memory
      reads this`hasTrack, this`hasConfig, this`preRebufferState
    {
      Memory(hasTrack, hasConfig, preRebufferState)
    }

    constructor (policy: Policy)
      requires policy.Ok()
      ensures Recall() == NOTHING
      ensures Valid() && fresh(tracker) && clockOk && this.policy == policy
      ensures state == Idle && epoch == 0 && ledger == ZeroLedger() && nowMs == 0 && log == []
    {
      this.policy := policy;
      state, epoch, sequence, hasTrack, hasConfig, preRebufferState := Idle, 0, 0, false, false, Idle;
      trackCount, ledger, nowMs, isLive := 0, ZeroLedger(), 0, false;
      log, cutoff, clockOk := [], 0, true;
      tracker := new RecoveryTracker();
      new;
      SessionBegins(policy, 0);
    }

    /** Attempts no window reaches any more are forgotten. */
    method Tick(now: nat)
      requires Valid()
      modifies this`nowMs, this`cutoff, this`clockOk, tracker
      ensures Valid() && nowMs == now && tracker.history == Kept(old(tracker.history), Sub(now, policy.MaxWindow()))
      ensures clockOk == (old(clockOk) && old(nowMs) <= now)
    {
      hide SessionOk, Kept;
      if clockOk && nowMs <= now {
        SessionTicks(policy, tracker.history, log, cutoff, nowMs, now);
      }
      clockOk := clockOk && nowMs <= now;
      nowMs := now;
      var before := Sub(now, policy.MaxWindow());
      cutoff := before;
      tracker.Prune(before);
    }

    /** Stages acquire and release resources through the ledger. */
    method Acquire(kind: nat)
      requires Valid() && kind < KIND_COUNT
      modifies this`ledger
      ensures Valid()
              && ledger == old(ledger)[kind := if old(ledger)[kind] == U64_MAX then U64_MAX else old(ledger)[kind] + 1]
    {
      ledger := ledger[kind := if ledger[kind] == U64_MAX then U64_MAX else ledger[kind] + 1];
    }

    method Release(kind: nat) returns (balanced: bool)
      requires Valid() && kind < KIND_COUNT
      modifies this`ledger
      ensures Valid() && balanced == (old(ledger)[kind] > 0)
      ensures ledger == if balanced then old(ledger)[kind := old(ledger)[kind] - 1] else old(ledger)
    {
      if ledger[kind] == 0 {
        return false;
      }
      ledger := ledger[kind := ledger[kind] - 1];
      return true;
    }

    method Transition(to: PlayerState) returns (out: seq<Event<T>>)
      requires state == to || Edge(state, to)
      modifies this`state
      ensures state == to && Path(old(state), out, to) && Quiet(out)
      ensures out == if old(state) == to then [] else [StateChanged(old(state), to)]
    {
      var from := state;
      if from == to {
        return [];
      }
      state := to;
      PathOne<T>(from, to, StateChanged(from, to));
      return [StateChanged(from, to)];
    }

    /** Whatever is still owned is a leak, which is reported before the ledger is cleared. */
    method ResetLedger() returns (out: seq<Event<T>>)
      requires |ledger| == KIND_COUNT
      modifies this`ledger
      ensures |ledger| == KIND_COUNT && IsZero(ledger) && (forall st :: Path(st, out, st)) && Quiet(out)
      ensures out == Leak(old(ledger))
    {
      out := [];
      if !IsZero(ledger) {
        out := [ResourceWarning(OpenKinds(ledger, |ledger|), Total(ledger, |ledger|))];
        assert out[1..] == [];
      }
      ledger := ZeroLedger();
    }

    method ForgetAttempts()
      requires policy.Ok()
      modifies this`tracker, this`log, this`cutoff, this`clockOk
      ensures fresh(tracker) && log == [] && clockOk && SessionOk(policy, tracker.history, log, cutoff, nowMs)
    {
      hide SessionOk;
      tracker := new RecoveryTracker();
      log, cutoff, clockOk := [], 0, true;
      SessionBegins(policy, nowMs);
    }

    method StartNewSession() returns (out: seq<Event<T>>)
      requires Valid() && !state.Rebuffering?
      modifies this`epoch, this`hasTrack, this`hasConfig, this`trackCount, this`preRebufferState, this`isLive,
               this`ledger, this`tracker, this`log, this`cutoff, this`clockOk
      ensures Valid() && fresh(tracker) && log == [] && clockOk
      ensures epoch == old(epoch) + 1 && IsZero(ledger) && (forall st :: Path(st, out, st)) && out == Leak(old(ledger))
              && Quiet(out)
      ensures !hasTrack && !hasConfig && trackCount == 0 && preRebufferState == Idle && !isLive
    {
      hide SessionOk, Path, IsZero;
      epoch := epoch + 1;
      hasTrack, hasConfig, trackCount, preRebufferState, isLive := false, false, 0, Idle, false;
      ForgetAttempts();
      out := ResetLedger();
    }

    /** A stop, or the second of two, releases what is owned and ends idle. */
    method OnStop() returns (out: seq<Event<T>>)
      requires Valid() && !state.Destroyed?
      modifies this`state, this`ledger
      ensures Valid() && state == Idle && Path(old(state), out, Idle) && Quiet(out)
      ensures old(state) == Idle ==> ledger == old(ledger)
      ensures old(state) != Idle ==> IsZero(ledger)
      ensures out == StopEvents(old(state), old(ledger))
      ensures Reacts(old(state), epoch, old(ledger), Recall(), Stop, out, state)
      ensures Recall() == MemoryAfter<T>(old(Recall()), epoch, old(state), Stop, state)
    {
      hide SessionOk, IsZero, Path, Quiet;
      PathNone<T>(state);
      QuietEmpty<T>();
      if state == Idle {
        return [];
      }
      out := [];
      ghost var start := state;
      if state == Stopping {
        if IsZero(ledger) {
          var change := Transition(Idle);
          PathOne<T>(Idle, Idle, Stopped);
          PathAppend(start, change, Idle, [Stopped], Idle);
          QuietAppend(change, [Stopped]);
          assert [] + [] + [StateChanged(Stopping, Idle), Stopped] == change + [Stopped];
          return change + [Stopped];
        }
      } else {
        out := Transition(Stopping);
      }
      if !IsZero(ledger) {
        var warning := ResetLedger();
        PathAppend(start, out, Stopping, warning, Stopping);
        QuietAppend(out, warning);
        out := out + warning;
      }
      assert out == (if start == Stopping then [] else [StateChanged(start, Stopping)]) + Leak(old(ledger));
      var change := Transition(Idle);
      PathAppend(start, out, Stopping, change, Idle);
      QuietAppend(out, change);
      PathOne<T>(Idle, Idle, Stopped);
      PathAppend(start, out + change, Idle, [Stopped], Idle);
      QuietAppend(out + change, [Stopped]);
      Assoc(out, change, [Stopped]);
      out := out + change + [Stopped];
    }

    /** A load in a running session stops it first. */
    method OnLoad(live: bool) returns (out: seq<Event<T>>)
      requires Valid() && !state.Destroyed?
      modifies this
      ensures Valid() && fresh(tracker) && log == [] && clockOk && nowMs == old(nowMs) && sequence == old(sequence)
      ensures state == Loading && Path(old(state), out, Loading) && Quiet(out) && out != []
      ensures epoch == old(epoch) + 1 && IsZero(ledger) && isLive == live
      ensures Recall() == NOTHING && trackCount == 0
      ensures out == if old(state) == Idle || old(state) == Failed then
                Leak(old(ledger)) + [StateChanged(old(state), Loading)]
                     else StopEvents(old(state), old(ledger)) + [StateChanged(Idle, Loading)]
      ensures Reacts(old(state), old(epoch), old(ledger), old(Recall()), Load(live), out, state)
      ensures Recall() == MemoryAfter<T>(old(Recall()), old(epoch), old(state), Load(live), state)
    {
      hide SessionOk, Path, IsZero, Quiet, StopEvents;
      ghost var start := state;
      out := [];
      QuietEmpty<T>();
      PathNone<T>(start);
      if state != Idle && state != Failed {
        out := OnStop();
      }
      ghost var mid := state;
      var session := StartNewSession();
      PathAppend(start, out, mid, session, mid);
      QuietAppend(out, session);
      assert out + [] == out && [] + session == session;
      isLive := live;
      var change := Transition(Loading);
      PathAppend(start, out + session, mid, change, Loading);
      QuietAppend(out + session, change);
      out := out + session + change;
    }

    /** A command that does not fit the state is reported and changes nothing. */
    method Refuse(command: string) returns (out: seq<Event<T>>)
      ensures out == [Error(InvalidState(state, command))] && Path(state, out, state)
    {
      out := [Error(InvalidState(state, command))];
      PathOne(state, state, out[0]);
    }

    method OnPlay() returns (out: seq<Event<T>>)
      requires Valid()
      modifies this`state
      ensures Valid() && Path(old(state), out, state) && Quiet(out)
      ensures state == AfterPlay(old(state))
      ensures out == if state != old(state) then [StateChanged(old(state), Playing)]
                     else if state == Playing then [] else [Error(InvalidState(state, "play"))]
      ensures Reacts(old(state), epoch, ledger, Recall(), Play, out, state)
      ensures Recall() == MemoryAfter<T>(old(Recall()), epoch, old(state), Play, state)
    {
      hide SessionOk;
      match state {
        case Preroll => out := Transition(Playing);
        case Paused => out := Transition(Playing);
        case Rebuffering => out := Transition(Playing);
        case Playing => out := [];
        case _ => out := Refuse("play");
      }
    }

    method OnPause() returns (out: seq<Event<T>>)
      requires Valid()
      modifies this`state
      ensures Valid() && Path(old(state), out, state) && Quiet(out)
      ensures state == if old(state).Playing? then Paused else old(state)
      ensures out == if old(state).Playing? then [StateChanged(Playing, Paused)]
                     else if state == Paused then [] else [Error(InvalidState(state, "pause"))]
      ensures Reacts(old(state), epoch, ledger, Recall(), Pause, out, state)
      ensures Recall() == MemoryAfter<T>(old(Recall()), epoch, old(state), Pause, state)
    {
      hide SessionOk;
      match state {
        case Playing => out := Transition(Paused);
        case Paused => out := [];
        case _ => out := Refuse("pause");
      }
    }

    method OnDestroy() returns (out: seq<Event<T>>)
      requires Valid() && !state.Destroyed?
      modifies this`state, this`ledger
      ensures Valid() && state == Destroyed && IsZero(ledger) && Path(old(state), out, Destroyed) && Quiet(out)
      ensures out == Leak(old(ledger)) + [StateChanged(old(state), Destroyed)] + [DestroyedEvent]
      ensures Reacts(old(state), epoch, old(ledger), Recall(), Destroy, out, state)
      ensures Recall() == MemoryAfter<T>(old(Recall()), epoch, old(state), Destroy, state)
    {
      hide SessionOk, IsZero;
      ghost var start := state;
      var warning := ResetLedger();
      var change := Transition(Destroyed);
      PathAppend(start, warning, start, change, Destroyed);
      PathOne<T>(Destroyed, Destroyed, DestroyedEvent);
      PathAppend(start, warning + change, Destroyed, [DestroyedEvent], Destroyed);
      out := warning + change + [DestroyedEvent];
    }

    method Fail(code: nat, stage: string) returns (out: seq<Event<T>>)
      requires Valid()
      modifies this`state
      ensures Valid() && Path(old(state), out, state) && Quiet(out)
      ensures state == if old(state).Destroyed? then Destroyed else Failed
      ensures out == if old(state).Destroyed? || old(state).Failed? then []
                     else [Error(Backend(stage, code)), StateChanged(old(state), Failed)]
    {
      hide SessionOk;
      if state == Destroyed || state == Failed {
        return [];
      }
      ghost var start := state;
      PathOne<T>(start, start, Error(Backend(stage, code)));
      var change := Transition(Failed);
      PathAppend(start, [Error(Backend(stage, code))], start, change, Failed);
      return [Error(Backend(stage, code))] + change;
    }

    /**
     * An error is retried as the policy decides on the session's attempts, and otherwise fails the engine. Every retry
     * scheduled is in the session's log, with its action and the clock.
     */
    method RecoverOrFail(code: nat, stage: string) returns (out: seq<Event<T>>)
      requires Valid()
      modifies this`state, this`preRebufferState, this`log, tracker
      ensures Valid() && Path(old(state), out, state) && log == old(log) + AttemptsOf(out, nowMs)
      ensures preRebufferState == Left(old(preRebufferState), old(state), state)
      ensures old(state).Destroyed? || old(state).Failed? ==> out == [] && state == old(state) && log == old(log)
      ensures Answers(old(Decide(policy, code, stage, nowMs, AttemptsFor(tracker.history, code, stage))), code, stage,
                      old(state), out, state)
    {
      hide SessionOk, Decide, Path, Edge, AttemptsFor, AttemptsOf, Quiet, DecidedOn;
      QuietEmpty<T>();
      QuietNone<T>([], nowMs);
      if state == Destroyed || state == Failed {
        PathNone<T>(state);
        assert log + [] == log;
        return [];
      }
      ghost var start, attempts := state, AttemptsFor(tracker.history, code, stage);
      var decision := DecideError(policy, code, stage, nowMs, AttemptsFor(tracker.history, code, stage));
      if clockOk {
        SessionRecords(policy, tracker.history, log, cutoff, nowMs, code, stage);
      }
      NeverEscalates(policy, code, stage, nowMs, attempts);
      match decision {
        case Retry(action, delay, left) =>
          tracker.Record(code, stage, action, nowMs);
          log := log + [Attempt(Key(code, stage, action), nowMs)];
          out := [];
          PathNone<T>(start);
          if action == ReconnectSource && state != Loading {
            Reconnects(state);
            preRebufferState := if state == Rebuffering then preRebufferState else state;
            out := Transition(Rebuffering);
          }
          var scheduled := RecoveryScheduled(Key(code, stage, action), delay, left);
          PathOne<T>(state, state, scheduled);
          PathAppend(start, out, state, [scheduled], state);
          ScheduledAttempts(out, scheduled, nowMs);
          out := out + [scheduled];
        case GiveUp =>
          out := Fail(code, stage);
          QuietNone(out, nowMs);
          assert log + [] == log;
      }
    }

    method OnError(code: nat, stage: string) returns (out: seq<Event<T>>)
      requires Valid()
      modifies this`state, this`preRebufferState, this`log, tracker
      ensures Valid() && Path(old(state), out, state) && log == old(log) + AttemptsOf(out, nowMs)
      ensures Answers(old(Decide(policy, code, stage, nowMs, AttemptsFor(tracker.history, code, stage))), code, stage,
                      old(state), out, state)
      ensures preRebufferState == Left(old(preRebufferState), old(state), state)
      ensures !old(state).Destroyed? ==> Handled(old(state), code, stage, out, state)
      ensures clockOk ==> DecidedOn(policy, old(log), nowMs, code, stage, old(state), out)
    {
      hide SessionOk, Decide, Path, AttemptsFor, AttemptsOf, DecidedOn, Answers, Handled;
      ghost var start, before, attempts := state, log, tracker.history;
      out := RecoverOrFail(code, stage);
      if start != Destroyed {
        AnswersHandle(Decide(policy, code, stage, nowMs, AttemptsFor(attempts, code, stage)), code, stage, start, out,
                      state);
      }
      if clockOk {
        AnswersDecide(policy, attempts, before, cutoff, nowMs, code, stage, start, out, state);
      }
    }

    method OnNetwork(ev: NetworkEvent) returns (out: seq<Event<T>>)
      requires Valid()
      modifies this`state, this`preRebufferState, this`log, tracker
      ensures Valid() && Path(old(state), out, state) && log == old(log) + AttemptsOf(out, nowMs)
      ensures ev.Connected? ==> state == if old(state).Rebuffering? then old(preRebufferState) else old(state)
      ensures ev.NetworkEof? ==>
                if old(state).Loading? || old(state).Preroll? || old(state).Playing? || old(state).Paused?
                || old(state).Rebuffering? then
                  state == Stopping && out == [Eof, StateChanged(old(state), Stopping)]
                else state == old(state) && out == []
      ensures ev.Retryable? ==>
                if old(state).Playing? || old(state).Paused? then state == Rebuffering && preRebufferState == old(state)
                else state == old(state) && out == []
      ensures ev.NetworkFatal? ==>
                Answers(old(Decide(policy, ev.code, "network", nowMs,
                                   AttemptsFor(tracker.history, ev.code, "network"))), ev.code,
                        "network", old(state), out, state)
      ensures !old(state).Destroyed? ==> Reacts(old(state), epoch, ledger, old(Recall()), Network(ev), out, state)
      ensures Recall() == MemoryAfter<T>(old(Recall()), epoch, old(state), Network(ev), state)
      ensures clockOk ==> Decides(policy, old(log), nowMs, epoch, Network(ev), old(state), out)
    {
      hide SessionOk, Path, Quiet, DecidedOn, Answers, Decide, Handled, AttemptsFor, AttemptsOf;
      ghost var start := state;
      out := [];
      PathNone<T>(start);
      QuietEmpty<T>();
      match ev {
        case Connected =>
          if state == Rebuffering {
            out := Transition(preRebufferState);
          }
          QuietNone(out, nowMs);
        case NetworkEof =>
          match state {
            case Loading => out := EndOfStream();
            case Preroll => out := EndOfStream();
            case Playing => out := EndOfStream();
            case Paused => out := EndOfStream();
            case Rebuffering => out := EndOfStream();
            case _ =>
          }
          QuietNone(out, nowMs);
        case Retryable =>
          if state == Playing || state == Paused {
            preRebufferState := state;
            out := Transition(Rebuffering);
          }
          QuietNone(out, nowMs);
        case NetworkFatal(code) =>
          out := OnError(code, "network");
      }
      assert log + [] == log;
    }

    method EndOfStream() returns (out: seq<Event<T>>)
      requires Valid() && Edge(state, Stopping)
      modifies this`state
      ensures Valid() && state == Stopping && Path(old(state), out, Stopping) && Quiet(out)
      ensures out == [Eof, StateChanged(old(state), Stopping)]
    {
      hide SessionOk;
      ghost var start := state;
      PathOne<T>(start, start, Eof);
      var change := Transition(Stopping);
      PathAppend(start, [Eof], start, change, Stopping);
      return [Eof] + change;
    }

    method MaybeEnterPreroll() returns (out: seq<Event<T>>)
      requires Valid()
      modifies this`state
      ensures Valid() && Path(old(state), out, state) && Quiet(out)
      ensures state == if old(state).Loading? && hasTrack && hasConfig then Preroll else old(state)
      ensures out == Change(old(state), state)
    {
      hide SessionOk;
      if state == Loading && hasTrack && hasConfig {
        out := Transition(Preroll);
      } else {
        out := [];
      }
    }

    /** Callbacks of another session are ignored. */
    method OnBackend(ev: BackendEvent<T>) returns (out: seq<Event<T>>)
      requires Valid()
      modifies this`state, this`preRebufferState, this`log, this`hasTrack, this`hasConfig, this`trackCount, tracker
      ensures Valid() && Path(old(state), out, state) && log == old(log) + AttemptsOf(out, nowMs)
      ensures !ev.BackendStopped? && ev.epoch != epoch ==> out == [] && unchanged(this) && unchanged(tracker)
      ensures ev.Track? && ev.epoch == epoch ==>
                hasTrack && state == if old(state).Loading? && hasConfig then Preroll else old(state)
      ensures ev.ConfigChanged? && ev.epoch == epoch ==>
                hasConfig && state == if old(state).Loading? && hasTrack then Preroll else old(state)
      ensures ev.BackendStopped? ==> state == if old(state).Stopping? then Idle else old(state)
      ensures ev.BackendStopped? ==>
                out == if old(state).Stopping? then [StateChanged(Stopping, Idle)] + [Stopped] else []
      ensures ev.Track? && ev.epoch == epoch ==> out == [TrackAdded(ev.info)] + Change(old(state), state)
      ensures ev.ConfigChanged? && ev.epoch == epoch ==>
                out == [TrackConfigChanged(ev.trackId, ev.generation)] + Change(old(state), state)
      ensures ev.DecoderReady? || ev.Rendered? ==> out == [] && unchanged(this) && unchanged(tracker)
      ensures ev.DecoderError? && ev.epoch == epoch ==>
                Answers(old(Decide(policy, ev.code, "decoder", nowMs,
                                   AttemptsFor(tracker.history, ev.code, "decoder"))), ev.code,
                        "decoder", old(state), out, state)
      ensures !old(state).Destroyed? ==> Reacts(old(state), epoch, ledger, old(Recall()), FromBackend(ev), out, state)
      ensures Recall() == MemoryAfter<T>(old(Recall()), epoch, old(state), FromBackend(ev), state)
      ensures clockOk ==> Decides(policy, old(log), nowMs, epoch, FromBackend(ev), old(state), out)
    {
      hide SessionOk, Path, Quiet, Answers, Decide, DecidedOn;
      ghost var start := state;
      PathNone<T>(start);
      QuietEmpty<T>();
      assert log + [] == log;
      if !ev.BackendStopped? && ev.epoch != epoch {
        return [];
      }
      match ev {
        case Track(_, info) =>
          hasTrack := true;
          trackCount := if trackCount == U32_MAX then U32_MAX else trackCount + 1;
          out := Announce(TrackAdded(info));
          QuietNone(out, nowMs);
        case ConfigChanged(_, trackId, generation) =>
          hasConfig := true;
          out := Announce(TrackConfigChanged(trackId, generation));
          QuietNone(out, nowMs);
        case DecoderReady(_, _) => return [];
        case DecoderError(_, _, code) =>
          out := OnError(code, "decoder");
        case Rendered(_, _) => return [];
        case BackendStopped =>
          out := [];
          if state == Stopping {
            out := EndStop();
          }
          QuietNone(out, nowMs);
      }
    }

    method Announce(e: Event<T>) returns (out: seq<Event<T>>)
      requires Valid() && !e.StateChanged? && !e.RecoveryScheduled?
      modifies this`state
      ensures Valid() && Path(old(state), out, state) && Quiet(out)
      ensures state == if old(state).Loading? && hasTrack && hasConfig then Preroll else old(state)
      ensures out == [e] + Change(old(state), state)
    {
      hide SessionOk, Path;
      ghost var start := state;
      PathOne(start, start, e);
      var change := MaybeEnterPreroll();
      PathAppend(start, [e], start, change, state);
      return [e] + change;
    }

    method EndStop() returns (out: seq<Event<T>>)
      requires Valid() && state == Stopping
      modifies this`state
      ensures Valid() && state == Idle && Path(Stopping, out, Idle) && Quiet(out)
      ensures out == [StateChanged(Stopping, Idle)] + [Stopped]
    {
      hide SessionOk, Path;
      var change := Transition(Idle);
      PathOne<T>(Idle, Idle, Stopped);
      PathAppend(Stopping, change, Idle, [Stopped], Idle);
      return change + [Stopped];
    }

    /**
     * Any command. The state changes reported lead from the old state to the new one along the lifecycle graph; the
     * epoch counts the loads; the log has the retries scheduled in the session.
     */
    method Apply(command: Command<T>) returns (r: Result<seq<Event<T>>, EngineError>)
      requires Valid()
      modifies this, tracker
      ensures Valid() && (tracker == old(tracker) || fresh(tracker)) && nowMs == old(nowMs)
      ensures old(state).Destroyed? ==> r == Err(EngineDestroyed) && unchanged(this) && unchanged(tracker)
      ensures !old(state).Destroyed? ==>
                && r.Ok? && Path(old(state), r.value, state)
                && sequence == (if old(sequence) == U64_MAX then 0 else old(sequence) + 1)
                && epoch == (if command.Load? then old(epoch) + 1 else old(epoch))
                && log == (if command.Load? then [] else old(log)) + AttemptsOf(r.value, nowMs)
                && (command.Load? ==>
                      state == Loading && IsZero(ledger) && isLive == command.isLive && r.value != [] && clockOk)
                && (!command.Load? ==> clockOk == old(clockOk))
                && (command.Stop? ==> state == Idle && (IsZero(ledger) <==> old(state) != Idle || IsZero(old(ledger))))
                && (command.Destroy? ==> state == Destroyed && IsZero(ledger))
                && Reacts(old(state), old(epoch), old(ledger), old(Recall()), command, r.value, state)
                && Recall() == MemoryAfter<T>(old(Recall()), old(epoch), old(state), command, state)
                && (command.FromBackend? && !command.backend.BackendStopped? && command.backend.epoch != epoch ==>
                      r.value == [] && state == old(state) && log == old(log))
                && ledger == LedgerAfter(old(state), old(ledger), command)
                && (old(clockOk) ==> Decides(policy, old(log), nowMs, old(epoch), command, old(state), r.value))
    {
      hide SessionOk, Path, Quiet, IsZero, Edge, Answers, Decide, Leak, StopEvents, Change, AfterPlay, AttemptsOf,
           Reacts, DecidedOn, Decides, ZeroLedger, MemoryAfter;
      if state == Destroyed {
        return Err(EngineDestroyed);
      }
      sequence := if sequence == U64_MAX then 0 else sequence + 1;
      var out: seq<Event<T>>;
      PathNone<T>(state);
      QuietEmpty<T>();
      assert log + [] == log;
      match command {
        case Load(live) =>
          out := OnLoad(live);
          QuietNone(out, nowMs);
        case Play =>
          out := OnPlay();
          QuietNone(out, nowMs);
        case Pause =>
          out := OnPause();
          QuietNone(out, nowMs);
        case Stop =>
          out := OnStop();
          QuietNone(out, nowMs);
        case Destroy =>
          out := OnDestroy();
          QuietNone(out, nowMs);
        case Network(ev) => out := OnNetwork(ev);
        case FromBackend(ev) => out := OnBackend(ev);
        case GetMetrics =>
          out := [Metrics];
          PathOne<T>(state, state, Metrics);
          MetricsQuiet<T>(nowMs);
          MetricsReact<T>(state, epoch, ledger, Recall());
      }
      ZeroIs(ledger);
      if !command.Network? && !command.FromBackend? {
        NothingToDecide(policy, old(log), nowMs, old(epoch), command, old(state), out);
      }
      return Ok(out);
    }
  }

  // ---- Whole runs ----

  type ResourceKind = k: nat | k < KIND_COUNT

  /** The clock, a command, or a stage that acquires or releases a resource. */
  datatype Input<T> = At(now: nat) | Do(command: Command<T>) | Acquired(kind: ResourceKind)
    | Released(kind: ResourceKind)

  /** The clock after `k` inputs. */
  function Clock<T>(inputs: seq<Input<T>>, k: nat): nat
    requires k <= |inputs|
  {
    if k == 0 then 0 else if inputs[k - 1].At? then inputs[k - 1].now else Clock(inputs, k - 1)
  }

  ghost predicate ClockRises<T>(inputs: seq<Input<T>>)
  {
    forall k | 0 <= k < |inputs| && inputs[k].At? :: Clock(inputs, k) <= inputs[k].now
  }

  /** The loads that began a session: those that were answered. */
  predicate Begins<T>(input: Input<T>, out: seq<Event<T>>)
  {
    input.Do? && input.command.Load? && out != []
  }

  /** The retries reported since the last session began, with the clock at the time. */
  function SessionLog<T>(inputs: seq<Input<T>>, trace: seq<seq<Event<T>>>): seq<Attempt>
    requires |trace| <= |inputs|
    decreases |trace|
  {
    if trace == [] then []
    else
      var k := |trace| - 1;
      (if Begins(inputs[k], trace[k]) then [] else SessionLog(inputs, trace[..k]))
      + AttemptsOf(trace[k], Clock(inputs, k))
  }

  function Sessions<T>(inputs: seq<Input<T>>, trace: seq<seq<Event<T>>>): nat
    requires |trace| <= |inputs|
    decreases |trace|
  {
    if trace == [] then 0
    else
      var k := |trace| - 1;
      Sessions(inputs, trace[..k]) + if Begins(inputs[k], trace[k]) then 1 else 0
  }

  /** The ledger after an input, with counters that saturate at both ends. */
  function LedgerStep<T>(was: PlayerState, ledger: seq<nat>, input: Input<T>): (l: seq<nat>)
    requires |ledger| == KIND_COUNT
    ensures |l| == KIND_COUNT
  {
    match input
    case At(_) => ledger
    case Do(command) => if was.Destroyed? then ledger else LedgerAfter(was, ledger, command)
    case Acquired(kind) => ledger[kind := if ledger[kind] == U64_MAX then U64_MAX else ledger[kind] + 1]
    case Released(kind) => ledger[kind := if ledger[kind] == 0 then 0 else ledger[kind] - 1]
  }

  /** What the stages own after a run. */
  function Owned<T>(inputs: seq<Input<T>>, trace: seq<seq<Event<T>>>): (l: seq<nat>)
    requires |trace| <= |inputs|
    ensures |l| == KIND_COUNT
    decreases |trace|
  {
    if trace == [] then ZeroLedger()
    else
      var k := |trace| - 1;
      LedgerStep(StateAfter(Idle, Concat(trace[..k])), Owned(inputs, trace[..k]), inputs[k])
  }

  /** What a session remembers after an input. */
  function MemoryStep<T>(m: Memory, epoch: nat, was: PlayerState, input: Input<T>, now: PlayerState): Memory
  {
    if input.Do? && !was.Destroyed? then MemoryAfter(m, epoch, was, input.command, now) else m
  }

  /** What the session remembers after a run: its tracks and configurations, and what its state changes say. */
  function Remembered<T>(inputs: seq<Input<T>>, trace: seq<seq<Event<T>>>): Memory
    requires |trace| <= |inputs|
    decreases |trace|
  {
    if trace == [] then NOTHING
    else
      var k := |trace| - 1;
      MemoryStep(Remembered(inputs, trace[..k]), Sessions(inputs, trace[..k]), StateAfter(Idle, Concat(trace[..k])),
                 inputs[k], StateAfter(Idle, Concat(trace)))
  }

  /** Everything that decides how an input is answered. */
  datatype Context = Context(state: PlayerState, epoch: nat, ledger: seq<nat>, log: seq<Attempt>, now: nat,
                             memory: Memory)

  /** What an input must report and lead to; only commands report anything, and none once the engine is destroyed. */
  ghost predicate Follows<T>(policy: Policy, c: Context, input: Input<T>, out: seq<Event<T>>, now: PlayerState)
    requires policy.Ok()
  {
    match input
    case Do(command) =>
      if c.state.Destroyed? then out == [] && now == c.state
      else
        && Reacts(c.state, c.epoch, c.ledger, c.memory, command, out, now)
        && Decides(policy, c.log, c.now, c.epoch, command, c.state, out)
    case _ => out == [] && now == c.state
  }

  /** What input `k` of a run finds. */
  function Found<T>(inputs: seq<Input<T>>, trace: seq<seq<Event<T>>>, k: nat): Context
    requires k <= |trace| <= |inputs|
  {
    Context(StateAfter(Idle, Concat(trace[..k])), Sessions(inputs, trace[..k]), Owned(inputs, trace[..k]),
            SessionLog(inputs, trace[..k]), Clock(inputs, k), Remembered(inputs, trace[..k]))
  }

  /** Input `k` of a run is answered as its state and session demand. */
  ghost predicate StepOk<T>(policy: Policy, inputs: seq<Input<T>>, trace: seq<seq<Event<T>>>, k: nat)
    requires policy.Ok() && k < |trace| <= |inputs|
  {
    Follows(policy, Found(inputs, trace, k), inputs[k], trace[k], StateAfter(Idle, Concat(trace[..k + 1])))
  }

  lemma StepStays<T>(policy: Policy, inputs: seq<Input<T>>, trace: seq<seq<Event<T>>>, out: seq<Event<T>>, k: nat)
    requires policy.Ok() && k < |trace| < |inputs| && StepOk(policy, inputs, trace, k)
    ensures StepOk(policy, inputs, trace + [out], k)
  {
    hide Follows, StateAfter, Concat, Sessions, Owned, SessionLog, Clock, Remembered;
    assert (trace + [out])[..k] == trace[..k] && (trace + [out])[..k + 1] == trace[..k + 1];
  }

  lemma StepMade<T>(policy: Policy, inputs: seq<Input<T>>, trace: seq<seq<Event<T>>>, out: seq<Event<T>>, c: Context,
                    now: PlayerState)
    requires policy.Ok() && |trace| < |inputs| && Path(Idle, Concat(trace), c.state)
             && Path(Idle, Concat(trace + [out]), now)
    requires c.epoch == Sessions(inputs, trace) && c.ledger == Owned(inputs, trace)
    requires c.log == SessionLog(inputs, trace) && c.now == Clock(inputs, |trace|)
             && c.memory == Remembered(inputs, trace)
    requires Follows(policy, c, inputs[|trace|], out, now)
    ensures StepOk(policy, inputs, trace + [out], |trace|)
    ensures Owned(inputs, trace + [out]) == LedgerStep(c.state, c.ledger, inputs[|trace|])
    ensures Remembered(inputs, trace + [out]) == MemoryStep(c.memory, c.epoch, c.state, inputs[|trace|], now)
  {
    hide Follows, StateAfter, Concat, Sessions, Path, SessionLog, Clock, LedgerStep, MemoryStep;
    var was := c.state;
    PathEnds(Idle, Concat(trace), was);
    PathEnds(Idle, Concat(trace + [out]), now);
    assert (trace + [out])[..|trace|] == trace && (trace + [out])[..|trace| + 1] == trace + [out];
  }

  ghost function ContextOf<T>(engine: Engine<T>): Context
    reads engine
  {
    Context(engine.state, engine.epoch, engine.ledger, engine.log, engine.nowMs, engine.Recall())
  }

  /** One input, with a clock that does not go back. */
  method Feed<T>(engine: Engine<T>, input: Input<T>) returns (out: seq<Event<T>>)
    requires engine.Valid() && engine.clockOk && (input.At? ==> engine.nowMs <= input.now)
    modifies engine, engine.tracker
    ensures engine.Valid() && engine.clockOk && (engine.tracker == old(engine.tracker) || fresh(engine.tracker))
    ensures Path(old(engine.state), out, engine.state)
    ensures engine.nowMs == if input.At? then input.now else old(engine.nowMs)
    ensures engine.epoch == old(engine.epoch) + if Begins(input, out) then 1 else 0
    ensures engine.log == (if Begins(input, out) then [] else old(engine.log)) + AttemptsOf(out, old(engine.nowMs))
    ensures Follows(engine.policy, old(ContextOf(engine)), input, out, engine.state)
    ensures engine.Recall() ==
            MemoryStep(old(engine.Recall()), old(engine.epoch), old(engine.state), input, engine.state)
    ensures engine.ledger == LedgerStep(old(engine.state), old(engine.ledger), input)
  {
    hide Path, AttemptsOf, SessionOk, Quiet, IsZero, Reacts, Decides;
    out := [];
    PathNone<T>(engine.state);
    NoAttempts<T>(engine.nowMs, engine.log);
    match input {
      case At(now) =>
        engine.Tick(now);
      case Do(command) =>
        var r := engine.Apply(command);
        if r.Ok? {
          out := r.value;
        }
      case Acquired(kind) =>
        engine.Acquire(kind);
      case Released(kind) =>
        var balanced := engine.Release(kind);
        assert !balanced ==> engine.ledger[kind := 0] == engine.ledger;
    }
  }

  /**
   * A whole run with a clock that does not go back: the state changes reported are a path through the lifecycle graph,
   * every input is answered as the state, the resources owned and the session it finds demand, an error as the policy
   * decides on the whole session's log, the epoch is the number of sessions begun, and no session has a retry storm at
   * any time of the run.
   */
  method RunEngine<T>(policy: Policy, inputs: seq<Input<T>>)
    returns (trace: seq<seq<Event<T>>>, state: PlayerState, epoch: nat)
    requires policy.Ok() && ClockRises(inputs)
    ensures |trace| == |inputs| && Path(Idle, Concat(trace), state) && epoch == Sessions(inputs, trace)
    ensures forall k | 0 <= k < |trace| :: StepOk(policy, inputs, trace, k)
    ensures forall k | 0 <= k <= |trace| :: NoStorm(policy, SessionLog(inputs, trace[..k]))
  {
    hide Path, NoStorm, AttemptsOf, SessionOk, Concat, Edge, SessionLog, Sessions, Begins, Clock, StepOk, Follows,
         Owned, LedgerStep, Remembered, MemoryStep;
    RunBegins(inputs);
    var engine := new Engine<T>(policy);
    trace := [];
    PathNone<T>(Idle);
    NothingYet<T>();
    SessionSafe(policy, engine.tracker.history, engine.log, engine.cutoff, engine.nowMs);
    assert trace[..0] == [];
    for i := 0 to |inputs|
      invariant |trace| == i && engine.Valid() && engine.policy == policy && engine.clockOk
      invariant fresh(engine) && fresh(engine.tracker)
      invariant Path(Idle, Concat(trace), engine.state) && engine.epoch == Sessions(inputs, trace)
      invariant engine.nowMs == Clock(inputs, i) && engine.log == SessionLog(inputs, trace)
                && engine.ledger == Owned(inputs, trace)
      invariant engine.Recall() == Remembered(inputs, trace)
      invariant forall k | 0 <= k < i :: StepOk(policy, inputs, trace, k)
      invariant forall k | 0 <= k <= i :: NoStorm(policy, SessionLog(inputs, trace[..k]))
    {
      ghost var before := engine.state;
      ghost var found := ContextOf(engine);
      var out := Feed(engine, inputs[i]);
      PathAppend(Idle, Concat(trace), before, out, engine.state);
      ConcatSnoc(trace, out);
      SessionSafe(policy, engine.tracker.history, engine.log, engine.cutoff, engine.nowMs);
      RunStep(inputs, trace, out);
      StepMade(policy, inputs, trace, out, found, engine.state);
      forall k | 0 <= k < i ensures StepOk(policy, inputs, trace + [out], k) {
        StepStays(policy, inputs, trace, out, k);
      }
      ghost var was := trace;
      trace := trace + [out];
      assert trace[..i] == was && trace[..i + 1] == trace;
      assert forall k | 0 <= k <= i :: trace[..k] == was[..k];
    }
    assert trace[..|trace|] == trace;
    state, epoch := engine.state, engine.epoch;
  }

  // ---- Playing without a track and a configuration ----

  predicate Active(state: PlayerState)
  {
    state.Preroll? || state.Playing? || state.Paused? || state.Rebuffering?
  }

  /** The session has had a track and a configuration. */
  predicate Prepared(m: Memory)
  {
    m.hasTrack && m.hasConfig
  }

  /** An unprepared session goes into rebuffering from where it is idle or about to be. */
  ghost predicate Detour<T>(inputs: seq<Input<T>>, trace: seq<seq<Event<T>>>, j: nat)
    requires j < |trace| <= |inputs|
  {
    var c := Found(inputs, trace, j);
    && (c.state.Idle? || c.state.Stopping?) && !Prepared(c.memory)
    && Found(inputs, trace, j + 1).state.Rebuffering?
  }

  lemma StepUnprepared<T>(policy: Policy, c: Context, input: Input<T>, out: seq<Event<T>>, now: PlayerState)
    requires policy.Ok() && Follows(policy, c, input, out, now)
    requires Active(now) && !Prepared(MemoryStep(c.memory, c.epoch, c.state, input, now))
    ensures !Begins(input, out) && !Prepared(c.memory)
    ensures Active(c.state) || (now.Rebuffering? && (c.state.Idle? || c.state.Stopping?))
  {
    hide Decides, Leak, StopEvents, Change;
  }

  /** A session plays, or is about to, without a track and a configuration only behind such a detour. */
  lemma {:induction false} OnlyByDetour<T>(policy: Policy, inputs: seq<Input<T>>, trace: seq<seq<Event<T>>>, k: nat)
    requires policy.Ok() && k <= |trace| <= |inputs| && forall j | 0 <= j < k :: StepOk(policy, inputs, trace, j)
    requires Active(Found(inputs, trace, k).state) && !Prepared(Found(inputs, trace, k).memory)
    ensures exists j | 0 <= j < k ::
              Detour(inputs, trace, j) && Sessions(inputs, trace[..j]) == Sessions(inputs, trace[..k])
    decreases k
  {
    hide Follows, MemoryStep, Owned, SessionLog, Clock, Begins;
    assert trace[..0] == [];
    if k > 0 {
      var n := k - 1;
      var c := Found(inputs, trace, n);
      assert StepOk(policy, inputs, trace, n);
      assert trace[..k][..n] == trace[..n] && trace[..k] == trace[..n] + [trace[n]];
      StepUnprepared(policy, c, inputs[n], trace[n], StateAfter(Idle, Concat(trace[..k])));
      if Active(c.state) {
        OnlyByDetour(policy, inputs, trace, n);
      } else {
        assert Detour(inputs, trace, n);
      }
    }
  }

  /** Behind any such detour the next play command is obeyed. */
  lemma DetourPlays<T>(policy: Policy, inputs: seq<Input<T>>, trace: seq<seq<Event<T>>>, j: nat)
    requires policy.Ok() && j + 1 < |trace| <= |inputs| && inputs[j + 1] == Do(Play)
    requires Detour(inputs, trace, j) && StepOk(policy, inputs, trace, j) && StepOk(policy, inputs, trace, j + 1)
    ensures Found(inputs, trace, j + 2).state == Playing && !Prepared(Found(inputs, trace, j + 2).memory)
  {
    hide Decides, Owned, SessionLog, Clock, Sessions, Concat, StateAfter, Change, Leak, StopEvents;
    assert trace[..j + 1][..j] == trace[..j] && trace[..j + 2][..j + 1] == trace[..j + 1];
  }

  /**
   * A new engine that gets a network error and then the command to play, but never a track, plays if and only if the
   * policy answers the error by reconnecting the source.
   */
  method PlayWithoutTrack<T>(policy: Policy, code: nat) returns (events: seq<Event<T>>, state: PlayerState)
    requires policy.Ok()
    ensures Path(Idle, events, state)
    ensures var d := Decide(policy, code, "network", 0, AttemptsFor([], code, "network"));
            state == Playing <==> d.Retry? && d.action.ReconnectSource?
  {
    hide Path, SessionOk, Decide, AttemptsFor, AttemptsOf, IsZero, Edge, Policy.Budget;
    var engine := new Engine<T>(policy);
    var failed := engine.Apply(Network(NetworkFatal(code)));
    ghost var mid := engine.state;
    var played := engine.Apply(Play);
    PathAppend(Idle, failed.value, mid, played.value, engine.state);
    return failed.value + played.value, engine.state;
  }

  lemma NothingToDecide<T>(policy: Policy, log: seq<Attempt>, now: nat, epoch: nat, command: Command<T>,
                           was: PlayerState, out: seq<Event<T>>)
    requires policy.Ok() && !command.Network? && !command.FromBackend?
    ensures Decides(policy, log, now, epoch, command, was, out)
  {
  }

  lemma MetricsReact<T>(state: PlayerState, epoch: nat, ledger: seq<nat>, m: Memory)
    ensures Reacts<T>(state, epoch, ledger, m, GetMetrics, [Metrics], state)
    ensures MemoryAfter<T>(m, epoch, state, GetMetrics, state) == m
  {
  }

  lemma MetricsQuiet<T>(now: nat)
    ensures AttemptsOf<T>([Metrics], now) == []
  {
  }

  lemma RunBegins<T>(inputs: seq<Input<T>>)
    ensures Clock(inputs, 0) == 0 && Sessions(inputs, []) == 0 && SessionLog(inputs, []) == []
    ensures Owned(inputs, []) == ZeroLedger() && Remembered(inputs, []) == NOTHING
  {
  }

  lemma RunStep<T>(inputs: seq<Input<T>>, trace: seq<seq<Event<T>>>, out: seq<Event<T>>)
    requires |trace| < |inputs|
    ensures var i, begins := |trace|, Begins(inputs[|trace|], out);
            && Clock(inputs, i + 1) == (if inputs[i].At? then inputs[i].now else Clock(inputs, i))
            && Sessions(inputs, trace + [out]) == Sessions(inputs, trace) + (if begins then 1 else 0)
            && SessionLog(inputs, trace + [out]) ==
               (if begins then [] else SessionLog(inputs, trace)) + AttemptsOf(out, Clock(inputs, i))
  {
    hide Begins, AttemptsOf;
    assert (trace + [out])[..|trace|] == trace;
  }

  lemma SessionSafe(policy: Policy, history: seq<Attempt>, log: seq<Attempt>, cutoff: nat, now: nat)
    requires SessionOk(policy, history, log, cutoff, now)
    ensures NoStorm(policy, log)
  {
  }

  lemma NothingYet<T>()
    ensures Concat<Event<T>>([]) == []
  {
  }

  lemma NoAttempts<T>(now: nat, log: seq<Attempt>)
    ensures AttemptsOf<T>([], now) == [] && log + [] == log
  {
  }

  lemma QuietEmpty<T>()
    ensures Quiet<T>([])
  {
  }

  lemma ScheduledAttempts<T>(events: seq<Event<T>>, scheduled: Event<T>, now: nat)
    requires Quiet(events) && scheduled.RecoveryScheduled?
    ensures AttemptsOf(events + [scheduled], now) == [Attempt(scheduled.key, now)]
  {
    QuietAttempts(events, [scheduled], now);
    assert [scheduled][1..] == [];
    assert AttemptsOf([scheduled], now) == [Attempt(scheduled.key, now)] + [];
  }

  lemma NeverEscalates(policy: Policy, code: nat, stage: string, now: nat, attemptsFor: RecoveryAction -> seq<nat>)
    requires policy.Ok()
    ensures !Decide(policy, code, stage, now, attemptsFor).Escalate?
  {
    DecideFromExact(policy, Classify(policy, code, stage), now, attemptsFor, 5);
  }

  lemma Reconnects(state: PlayerState)
    requires state != Loading && state != Destroyed && state != Failed
    ensures (state == Rebuffering || Edge(state, Rebuffering)) && (state != Rebuffering ==> CanResume(state))
  {
  }

  lemma PathNone<T>(state: PlayerState)
    ensures Path<T>(state, [], state)
  {
  }
}

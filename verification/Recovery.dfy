/** Recovery policy: classification, bounded retries with backoff, escalation, and the attempt history. */
module Recovery {
  import opened Bytes

  datatype RecoveryAction = RetrySame | RebuildStage | FallbackBackend | ReconnectSource | Fatal

  datatype Decision =
    | Retry(action: RecoveryAction, delayMs: nat, attemptsLeft: nat)
    | Escalate(next: RecoveryAction)
    | GiveUp

  datatype RetryBudget = RetryBudget(maxAttempts: u32, windowMs: u64, baseMs: u64, capMs: u64)

  /** A rule for one error code, or for all, and for the stages beginning with `stage`. */
  datatype Rule = Rule(code: Option<nat>, stage: string, action: RecoveryAction)

  datatype Policy = Policy(rules: seq<Rule>, budgets: seq<RetryBudget>)
  {
    /** One budget for each action. */
    predicate Ok() { |budgets| == 5 }

    function Budget(action: RecoveryAction): RetryBudget
      requires Ok()
    {
      budgets[Rank(action)]
    }

    lemma WindowBounded(action: RecoveryAction)
      requires Ok()
      ensures Budget(action).windowMs <= MaxWindow()
    {
    }

    /** The largest window, which bounds what has to be remembered. */
    function MaxWindow(): (w: nat)
      requires Ok()
      ensures forall a :: Budget(a).windowMs <= w
    {
      Max(budgets[0].windowMs,
          Max(budgets[1].windowMs, Max(budgets[2].windowMs, Max(budgets[3].windowMs, budgets[4].windowMs))))
    }
  }

  function Max(a: nat, b: nat): nat { if a > b then a else b }

  function Rank(action: RecoveryAction): (r: nat)
    ensures r < 5
  {
    match action
    case RetrySame => 0
    case RebuildStage => 1
    case FallbackBackend => 2
    case ReconnectSource => 3
    case Fatal => 4
  }

  // ---- Classification ----

  predicate Matches(rule: Rule, code: nat, stage: string)
  {
    (rule.code.None? || rule.code.value == code) && rule.stage <= stage
  }

  /** Longer stage prefixes are more specific, and of equal ones the rule for the exact code. */
  function Specificity(rule: Rule): nat
  {
    2 * |rule.stage| + if rule.code.Some? then 1 else 0
  }

  /** The first of the most specific rules that match. */
  ghost predicate IsBest(rules: seq<Rule>, code: nat, stage: string, i: nat)
    requires i < |rules|
  {
    && Matches(rules[i], code, stage)
    && (forall j | 0 <= j < |rules| && Matches(rules[j], code, stage) ::
          Specificity(rules[j]) <= Specificity(rules[i]) && (j < i ==> Specificity(rules[j]) < Specificity(rules[i])))
  }

  /** The index of the best rule, among those from `i` on and the best so far. */
  function BestFrom(rules: seq<Rule>, code: nat, stage: string, i: nat, best: Option<nat>): (r: Option<nat>)
    requires i <= |rules| && (best.Some? ==> best.value < |rules|)
    ensures r.Some? ==> r.value < |rules|
    decreases |rules| - i
  {
    if i == |rules| then best
    else if Matches(rules[i], code, stage) &&
            (best.None? || Specificity(rules[i]) > Specificity(rules[best.value])) then
      BestFrom(rules, code, stage, i + 1, Some(i))
    else BestFrom(rules, code, stage, i + 1, best)
  }

  function Classify(policy: Policy, code: nat, stage: string): RecoveryAction
  {
    var best := BestFrom(policy.rules, code, stage, 0, None);
    if best.None? then Fatal else policy.rules[best.value].action
  }

  method ClassifyError(policy: Policy, code: nat, stage: string) returns (action: RecoveryAction)
    ensures action == Classify(policy, code, stage)
  {
    var best: Option<nat> := None;
    for i := 0 to |policy.rules|
      invariant best.Some? ==> best.value < |policy.rules|
      invariant BestFrom(policy.rules, code, stage, 0, None) == BestFrom(policy.rules, code, stage, i, best)
    {
      var rule := policy.rules[i];
      if (rule.code.None? || rule.code.value == code) && rule.stage <= stage {
        var better := true;
        if best.Some? {
          var b := policy.rules[best.value];
          var longer := |rule.stage| > |b.stage|;
          var exact := rule.code.Some? && b.code.None?;
          better := longer || (|rule.stage| == |b.stage| && exact);
        }
        if better {
          best := Some(i);
        }
      }
    }
    return if best.None? then Fatal else policy.rules[best.value].action;
  }

  lemma {:induction false} BestFromIsBest(rules: seq<Rule>, code: nat, stage: string, i: nat, best: Option<nat>)
    requires i <= |rules|
    requires best.None? ==> forall j | 0 <= j < i :: !Matches(rules[j], code, stage)
    requires best.Some? ==> best.value < i && IsBest(rules[..i], code, stage, best.value)
    ensures var r := BestFrom(rules, code, stage, i, best);
            if r.None? then forall j | 0 <= j < |rules| :: !Matches(rules[j], code, stage)
            else IsBest(rules, code, stage, r.value)
    decreases |rules| - i
  {
    if i == |rules| {
      assert rules[..i] == rules;
    } else {
      var next := if Matches(rules[i], code, stage)
      && (best.None? || Specificity(rules[i]) > Specificity(rules[best.value]))
                  then Some(i) else best;
      assert forall j | 0 <= j < i :: rules[..i][j] == rules[j];
      assert forall j | 0 <= j <= i :: rules[..i + 1][j] == rules[j];
      BestFromIsBest(rules, code, stage, i + 1, next);
    }
  }

  /** An error gets the action of the first most specific rule that matches, and is fatal if none does. */
  lemma ClassifyIsMostSpecific(policy: Policy, code: nat, stage: string)
    ensures (forall j | 0 <= j < |policy.rules| :: !Matches(policy.rules[j], code, stage)) ==>
              Classify(policy, code, stage) == Fatal
    ensures forall i | 0 <= i < |policy.rules| && IsBest(policy.rules, code, stage, i) ::
              Classify(policy, code, stage) == policy.rules[i].action
  {
    BestFromIsBest(policy.rules, code, stage, 0, None);
  }

  // ---- Deciding ----

  function Sub(a: nat, b: nat): nat { if a < b then 0 else a - b }

  /** The attempts at times from `lo` to `hi`. */
  function InWindow(attempts: seq<nat>, lo: nat, hi: nat): nat
  {
    if attempts == [] then 0
    else
      var last := attempts[|attempts| - 1];
      InWindow(attempts[..|attempts| - 1], lo, hi) + if lo <= last <= hi then 1 else 0
  }

  /** Backoff doubles with every attempt up to the cap. */
  function DelayFor(budget: RetryBudget, attempt: nat): (d: nat)
    ensures d <= budget.capMs
  {
    var exp := Pow2(if attempt < 30 then attempt else 30);
    var delay := if budget.baseMs * exp > U64_MAX then U64_MAX else budget.baseMs * exp;
    if delay < budget.capMs then delay else budget.capMs
  }

  function NextAction(action: RecoveryAction): RecoveryAction
  {
    match action
    case RetrySame => RebuildStage
    case RebuildStage => FallbackBackend
    case FallbackBackend => ReconnectSource
    case ReconnectSource => Fatal
    case Fatal => Fatal
  }

  /** Attempts left in the window, or none. */
  function Used(policy: Policy, action: RecoveryAction, now: nat, attempts: seq<nat>): nat
    requires policy.Ok()
  {
    InWindow(attempts, Sub(now, policy.Budget(action).windowMs), now)
  }

  function DecideAction(policy: Policy, action: RecoveryAction, now: nat, attempts: seq<nat>): Decision
    requires policy.Ok()
  {
    if action == Fatal then GiveUp
    else
      var budget := policy.Budget(action);
      var used := Used(policy, action, now, attempts);
      if used >= budget.maxAttempts then
        if NextAction(action) == Fatal then GiveUp else Escalate(NextAction(action))
      else
        var soFar := if |attempts| < 30 then |attempts| else 30;
        Retry(action, DelayFor(budget, soFar), budget.maxAttempts - used)
  }

  /** At most `rounds` rounds of the escalation from `action` on. */
  function DecideFrom(policy: Policy, action: RecoveryAction, now: nat, attemptsFor: RecoveryAction -> seq<nat>,
                      rounds: nat): Decision
    requires policy.Ok()
    decreases rounds
  {
    if rounds == 0 then GiveUp
    else
      match DecideAction(policy, action, now, attemptsFor(action))
      case Retry(a, d, l) => Retry(a, d, l)
      case GiveUp => GiveUp
      case Escalate(next) => DecideFrom(policy, next, now, attemptsFor, rounds - 1)
  }

  function Decide(policy: Policy, code: nat, stage: string, now: nat, attemptsFor: RecoveryAction -> seq<nat>): Decision
    requires policy.Ok()
  {
    DecideFrom(policy, Classify(policy, code, stage), now, attemptsFor, 5)
  }

  method DecideError(policy: Policy, code: nat, stage: string, now: nat, attemptsFor: RecoveryAction -> seq<nat>)
    returns (d: Decision)
    requires policy.Ok()
    ensures d == Decide(policy, code, stage, now, attemptsFor)
  {
    var action := ClassifyError(policy, code, stage);
    for i := 0 to 5
      invariant Decide(policy, code, stage, now, attemptsFor) == DecideFrom(policy, action, now, attemptsFor, 5 - i)
    {
      var attempts := attemptsFor(action);
      d := DecideAction(policy, action, now, attempts);
      match d {
        case Retry(_, _, _) => return;
        case GiveUp => return;
        case Escalate(next) => action := next;
      }
    }
    return GiveUp;
  }

  /** The budget of the action is used up. */
  predicate Exhausted(policy: Policy, action: RecoveryAction, now: nat, attemptsFor: RecoveryAction -> seq<nat>)
    requires policy.Ok()
  {
    Used(policy, action, now, attemptsFor(action)) >= policy.Budget(action).maxAttempts
  }

  /**
   * The decision is to retry the first action from `action` on, along the strictly rising chain, whose budget is not
   * used up; when all are, or the error is fatal, to give up. It is never to escalate.
   */
  lemma {:induction false} DecideFromExact(policy: Policy, action: RecoveryAction, now: nat,
                                           attemptsFor: RecoveryAction -> seq<nat>, rounds: nat)
    requires policy.Ok() && rounds + Rank(action) >= 5
    ensures var d := DecideFrom(policy, action, now, attemptsFor, rounds);
            && !d.Escalate?
            && (d.GiveUp? <==> forall a | Rank(action) <= Rank(a) < 4 :: Exhausted(policy, a, now, attemptsFor))
            && (d.Retry? ==>
                  && Rank(action) <= Rank(d.action) < 4 && !Exhausted(policy, d.action, now, attemptsFor)
                  && (forall a | Rank(action) <= Rank(a) < Rank(d.action) :: Exhausted(policy, a, now, attemptsFor))
                  && d.attemptsLeft + Used(policy, d.action, now, attemptsFor(d.action)) ==
                  policy.Budget(d.action).maxAttempts
                  && d.delayMs ==
                  DelayFor(policy.Budget(d.action), |attemptsFor(d.action)|) <= policy.Budget(d.action).capMs)
    decreases rounds
  {
    hide Used, DelayFor;
    DelayStops(policy.Budget(action), |attemptsFor(action)|);
    assert forall a :: Rank(a) == Rank(action) ==> a == action;
    if action != Fatal && Exhausted(policy, action, now, attemptsFor) && NextAction(action) != Fatal {
      var next := NextAction(action);
      assert forall a :: Rank(a) >= Rank(action) <==> a == action || Rank(a) >= Rank(next);
      DecideFromExact(policy, next, now, attemptsFor, rounds - 1);
    }
  }

  lemma DelayStops(budget: RetryBudget, n: nat)
    ensures DelayFor(budget, if n < 30 then n else 30) == DelayFor(budget, n)
  {
  }

  // ---- The attempt history ----

  datatype Key = Key(code: nat, stage: string, action: RecoveryAction)

  datatype Attempt = Attempt(key: Key, time: nat)

  /** The times of the attempts with the key, oldest first. */
  function TimesOf(history: seq<Attempt>, key: Key): seq<nat>
  {
    if history == [] then []
    else
      var last := history[|history| - 1];
      TimesOf(history[..|history| - 1], key) + if last.key == key then [last.time] else []
  }

  /** The attempts at `cutoff` or later. */
  function Kept(history: seq<Attempt>, cutoff: nat): seq<Attempt>
  {
    if history == [] then []
    else
      var last := history[|history| - 1];
      Kept(history[..|history| - 1], cutoff) + if last.time >= cutoff then [last] else []
  }

  /** The number of attempts with the key at times from `lo` to `hi`. */
  function CountIn(history: seq<Attempt>, key: Key, lo: nat, hi: nat): nat
  {
    InWindow(TimesOf(history, key), lo, hi)
  }

  lemma InWindowSnoc(times: seq<nat>, t: nat, lo: nat, hi: nat)
    ensures InWindow(times + [t], lo, hi) == InWindow(times, lo, hi) + if lo <= t <= hi then 1 else 0
  {
    assert (times + [t])[..|times|] == times;
  }

  lemma CountSnoc(history: seq<Attempt>, a: Attempt, key: Key, lo: nat, hi: nat)
    ensures CountIn(history + [a], key, lo, hi) == CountIn(history, key, lo, hi) + if a.key == key
            && lo <= a.time <= hi then 1 else 0
  {
    assert (history + [a])[..|history|] == history;
    if a.key == key {
      InWindowSnoc(TimesOf(history, key), a.time, lo, hi);
    } else {
      assert TimesOf(history, key) + [] == TimesOf(history, key);
    }
  }

  lemma KeptSnoc(history: seq<Attempt>, a: Attempt, cutoff: nat)
    ensures Kept(history + [a], cutoff) == Kept(history, cutoff) + if a.time >= cutoff then [a] else []
  {
    assert (history + [a])[..|history|] == history;
  }

  /** Pruning twice is pruning at the later cutoff. */
  lemma {:induction false} KeptKept(history: seq<Attempt>, a: nat, b: nat)
    requires a <= b
    ensures Kept(Kept(history, a), b) == Kept(history, b)
    decreases |history|
  {
    if history != [] {
      var n := |history| - 1;
      KeptKept(history[..n], a, b);
      if history[n].time >= a {
        KeptSnoc(Kept(history[..n], a), history[n], b);
      } else {
        assert Kept(history[..n], a) + [] == Kept(history[..n], a);
        assert Kept(history[..n], b) + [] == Kept(history[..n], b);
      }
    }
  }

  /** Pruning does not change what an interval behind the cutoff holds. */
  lemma {:induction false} KeptCounts(history: seq<Attempt>, cutoff: nat, key: Key, lo: nat, hi: nat)
    requires lo >= cutoff
    ensures CountIn(Kept(history, cutoff), key, lo, hi) == CountIn(history, key, lo, hi)
    decreases |history|
  {
    if history != [] {
      var n := |history| - 1;
      KeptCounts(history[..n], cutoff, key, lo, hi);
      assert history[..n] + [history[n]] == history;
      CountSnoc(history[..n], history[n], key, lo, hi);
      if history[n].time >= cutoff {
        CountSnoc(Kept(history[..n], cutoff), history[n], key, lo, hi);
      } else {
        assert Kept(history[..n], cutoff) + [] == Kept(history[..n], cutoff);
      }
    }
  }

  /** What the tracker answers for an error. */
  function AttemptsFor(history: seq<Attempt>, code: nat, stage: string): RecoveryAction -> seq<nat>
  {
    (action: RecoveryAction) => TimesOf(history, Key(code, stage, action))
  }

  /** The same decision, but for the delay. */
  predicate SameButDelay(d: Decision, e: Decision)
  {
    match d
    case Retry(a, _, l) => e.Retry? && e.action == a && e.attemptsLeft == l
    case _ => d == e
  }

  /**
   * Pruning what no window reaches changes neither the action chosen nor the attempts left.
   */
  lemma {:induction false} PruningKeepsDecision(policy: Policy, history: seq<Attempt>, cutoff: nat, code: nat,
                                                stage: string, now: nat, action: RecoveryAction, rounds: nat)
    requires policy.Ok() && cutoff <= Sub(now, policy.MaxWindow())
    ensures SameButDelay(DecideFrom(policy, action, now, AttemptsFor(history, code, stage), rounds),
                         DecideFrom(policy, action, now, AttemptsFor(Kept(history, cutoff), code, stage), rounds))
    decreases rounds
  {
    hide DelayFor, Kept, TimesOf, InWindow, Policy.MaxWindow;
    if rounds > 0 && action != Fatal {
      var w := policy.Budget(action).windowMs;
      assert w <= policy.MaxWindow() by { policy.WindowBounded(action); }
      KeptCounts(history, cutoff, Key(code, stage, action), Sub(now, w), now);
      PruningKeepsDecision(policy, history, cutoff, code, stage, now, NextAction(action), rounds - 1);
    }
  }

  lemma Doubles(base: nat, p: nat)
    ensures base * (2 * p) == 2 * (base * p)
  {
  }

  lemma ProductGrows(base: nat, m: nat, n: nat)
    requires m <= n
    ensures 0 <= base * Pow2(m) <= base * Pow2(n) && (base > 0 ==> base * Pow2(m) > 0)
    ensures m < n && base > 0 ==> base * Pow2(m) < base * Pow2(n)
    decreases n
  {
    if m < n {
      ProductGrows(base, m, n - 1);
      Doubles(base, Pow2(n - 1));
    } else if m > 0 {
      ProductGrows(base, m - 1, m - 1);
      Doubles(base, Pow2(m - 1));
    }
  }

  lemma DelayIs(budget: RetryBudget, n: nat, product: nat)
    requires product == budget.baseMs * Pow2(if n < 30 then n else 30)
    ensures DelayFor(budget, n) == if product < budget.capMs then product else budget.capMs
  {
    hide Pow2;
  }

  /** A longer history delays no less, and strictly more until the cap or thirty doublings are reached. */
  lemma DelayGrows(budget: RetryBudget, m: nat, n: nat)
    requires m <= n
    ensures DelayFor(budget, m) <= DelayFor(budget, n)
    ensures DelayFor(budget, m) == DelayFor(budget, n) <==>
            m == n || m >= 30 || budget.baseMs == 0 || DelayFor(budget, m) == budget.capMs
  {
    hide *;
    var p, q := if m < 30 then m else 30, if n < 30 then n else 30;
    ProductGrows(budget.baseMs, p, q);
    DelayIs(budget, m, budget.baseMs * Pow2(p));
    DelayIs(budget, n, budget.baseMs * Pow2(q));
    if budget.baseMs == 0 {
      assert budget.baseMs * Pow2(p) == 0 == budget.baseMs * Pow2(q);
    }
  }

  lemma TimesSnoc(history: seq<Attempt>, a: Attempt, key: Key)
    ensures |TimesOf(history + [a], key)| == |TimesOf(history, key)| + if a.key == key then 1 else 0
  {
    assert (history + [a])[..|history|] == history;
  }

  /** Pruning drops just the attempts before the cutoff. */
  lemma {:induction false} KeptTimes(history: seq<Attempt>, cutoff: nat, key: Key)
    ensures |TimesOf(Kept(history, cutoff), key)| <= |TimesOf(history, key)|
    ensures |TimesOf(Kept(history, cutoff), key)| == |TimesOf(history, key)| <==>
            forall a | a in history && a.key == key :: a.time >= cutoff
    decreases |history|
  {
    hide TimesOf;
    if history == [] {
      assert Kept(history, cutoff) == history;
    } else {
      var n := |history| - 1;
      var before, last := history[..n], history[n];
      KeptTimes(before, cutoff, key);
      assert history == before + [last];
      assert forall a :: a in history <==> a in before || a == last;
      TimesSnoc(before, last, key);
      KeptSnoc(before, last, cutoff);
      TimesSnoc(Kept(before, cutoff), last, key);
      assert Kept(before, cutoff) + [] == Kept(before, cutoff);
    }
  }

  /**
   * Pruning never lengthens the delay of a retry, and it leaves the delay as it is exactly when no attempt of the
   * kind is older than the cutoff, thirty of them are kept, the delay does not grow, or what is kept reaches the cap
   * already.
   */
  lemma PruningKeepsDelay(policy: Policy, history: seq<Attempt>, cutoff: nat, code: nat, stage: string, now: nat)
    requires policy.Ok() && cutoff <= Sub(now, policy.MaxWindow())
    ensures var d := Decide(policy, code, stage, now, AttemptsFor(history, code, stage));
            var e := Decide(policy, code, stage, now, AttemptsFor(Kept(history, cutoff), code, stage));
            && SameButDelay(d, e)
            && (d.Retry? ==>
                  var key := Key(code, stage, d.action);
                  var budget := policy.Budget(d.action);
                  var kept := |TimesOf(Kept(history, cutoff), key)|;
                  && e.delayMs <= d.delayMs
                  && (e.delayMs == d.delayMs <==>
                        || (forall a | a in history && a.key == key :: a.time >= cutoff)
                        || kept >= 30 || budget.baseMs == 0 || DelayFor(budget, kept) == budget.capMs))
  {
    hide DecideFrom, Classify, DelayFor, Kept, TimesOf, Used, Policy.MaxWindow;
    var action := Classify(policy, code, stage);
    var full, pruned := AttemptsFor(history, code, stage), AttemptsFor(Kept(history, cutoff), code, stage);
    PruningKeepsDecision(policy, history, cutoff, code, stage, now, action, 5);
    DecideFromExact(policy, action, now, full, 5);
    DecideFromExact(policy, action, now, pruned, 5);
    var d := DecideFrom(policy, action, now, full, 5);
    if d.Retry? {
      var key := Key(code, stage, d.action);
      KeptTimes(history, cutoff, key);
      DelayGrows(policy.Budget(d.action), |TimesOf(Kept(history, cutoff), key)|, |TimesOf(history, key)|);
    }
  }

  /** It can change the delay: an attempt outside its window still lengthens it until it is pruned. */
  lemma PruningShortensDelay(policy: Policy)
    requires policy == Policy([Rule(None, "network", ReconnectSource)],
                              [RetryBudget(0, 0, 0, 0), RetryBudget(0, 0, 0, 0), RetryBudget(0, 0, 0, 0),
                               RetryBudget(5, 60_000, 500, 8_000), RetryBudget(0, 0, 0, 0)])
    ensures var history := [Attempt(Key(7, "network", ReconnectSource), 0)];
            && Decide(policy, 7, "network", 60_001, AttemptsFor(history, 7, "network")) ==
            Retry(ReconnectSource, 1000, 5)
            && Decide(policy, 7, "network", 60_001,
                      AttemptsFor(Kept(history, Sub(60_001, policy.MaxWindow())), 7, "network"))
               == Retry(ReconnectSource, 500, 5)
  {
    var history := [Attempt(Key(7, "network", ReconnectSource), 0)];
    assert Matches(policy.rules[0], 7, "network");
    assert IsBest(policy.rules, 7, "network", 0);
    ClassifyIsMostSpecific(policy, 7, "network");
    assert history[..0] == [];
    assert TimesOf(history, Key(7, "network", ReconnectSource)) == [0];
    assert InWindow([0], 1, 60_001) == 0;
    assert policy.MaxWindow() == 60_000;
    assert Kept(history, 1) == [];
    assert Pow2(1) == 2;
  }

  /** The interval from `lo` on, as long as the action's window, holds no more attempts than the budget allows. */
  predicate WithinBudget(policy: Policy, log: seq<Attempt>, key: Key, lo: nat)
    requires policy.Ok()
  {
    var budget := policy.Budget(key.action);
    CountIn(log, key, lo, lo + budget.windowMs) <= budget.maxAttempts
  }

  /** No interval as long as its window holds more attempts of a kind than its budget allows. */
  ghost predicate NoStorm(policy: Policy, log: seq<Attempt>)
    requires policy.Ok()
  {
    forall key: Key, lo: nat :: WithinBudget(policy, log, key, lo)
  }

  ghost predicate AllBy(log: seq<Attempt>, now: nat)
  {
    forall i | 0 <= i < |log| :: log[i].time <= now
  }

  /** In a log up to `now`, intervals that end later hold what they hold up to `now`. */
  lemma {:induction false} CountUpTo(log: seq<Attempt>, key: Key, lo: nat, lo': nat, hi: nat, now: nat)
    requires AllBy(log, now) && lo' <= lo && now <= hi
    ensures CountIn(log, key, lo, hi) <= CountIn(log, key, lo', now)
    decreases |log|
  {
    if log != [] {
      var n := |log| - 1;
      CountUpTo(log[..n], key, lo, lo', hi, now);
      assert log[..n] + [log[n]] == log;
      CountSnoc(log[..n], log[n], key, lo, hi);
      CountSnoc(log[..n], log[n], key, lo', now);
    }
  }

  /** Recording an attempt that was within its budget makes no storm. */
  lemma RecordKeepsNoStorm(policy: Policy, log: seq<Attempt>, a: Attempt)
    requires policy.Ok() && NoStorm(policy, log) && AllBy(log, a.time)
    requires CountIn(log, a.key, Sub(a.time, policy.Budget(a.key.action).windowMs),
                     a.time) < policy.Budget(a.key.action).maxAttempts
    ensures NoStorm(policy, log + [a])
  {
    hide CountIn, Policy.Budget;
    forall key: Key, lo: nat ensures WithinBudget(policy, log + [a], key, lo) {
      assert WithinBudget(policy, log, key, lo);
      var w := policy.Budget(key.action).windowMs;
      CountSnoc(log, a, key, lo, lo + w);
      if a.key == key && lo <= a.time <= lo + w {
        CountUpTo(log, key, lo, Sub(a.time, w), lo + w, a.time);
      }
    }
  }

  class RecoveryTracker {
    var history: seq<Attempt>

    constructor ()
      ensures history == []
    {
      history := [];
    }

    method Record(code: nat, stage: string, action: RecoveryAction, now: nat)
      modifies this
      ensures history == old(history) + [Attempt(Key(code, stage, action), now)]
    {
      history := history + [Attempt(Key(code, stage, action), now)];
    }

    /** The attempts for a code, stage and action, oldest first. */
    method Attempts(code: nat, stage: string, action: RecoveryAction) returns (times: seq<nat>)
      ensures times == TimesOf(history, Key(code, stage, action))
    {
      times := [];
      for i := 0 to |history|
        invariant times == TimesOf(history[..i], Key(code, stage, action))
      {
        assert history[..i + 1][..i] == history[..i];
        if history[i].key == Key(code, stage, action) {
          times := times + [history[i].time];
        }
      }
      assert history[..|history|] == history;
    }

    method Prune(before: nat)
      modifies this
      ensures history == Kept(old(history), before)
    {
      var kept := [];
      for i := 0 to |history|
        invariant kept == Kept(history[..i], before) && history == old(history)
      {
        assert history[..i + 1][..i] == history[..i];
        if history[i].time >= before {
          kept := kept + [history[i]];
        }
      }
      assert history[..|history|] == history;
      history := kept;
    }
  }
}

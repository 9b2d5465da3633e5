/** The engine's bounded priority queues and the scheduler over them. */
module Scheduler {
  import opened Bytes

  datatype Priority = Control | AudioClock | Keyframe | Data
  {
    /** Lower levels are more urgent. */
    function Level(): nat
    {
      match this
      case Control => 0
      case AudioClock => 1
      case Keyframe => 2
      case Data => 3
    }
  }

  datatype Item<T> = Item(priority: Priority, value: T)

  datatype Event = Dropped(queue: string, count: nat) | HighWatermark(queue: string, level: nat)
    | LowWatermark(queue: string, level: nat)

  datatype QueueConfig = QueueConfig(capacity: nat, high: nat, low: nat)

  /** Watermarks at three quarters and one quarter; the high one is at least 1 when there is room at all. */
  function WithWatermarks(capacity: nat): (c: QueueConfig)
    requires capacity <= U64_MAX
    ensures c.capacity == capacity && c.low <= c.high <= capacity && (capacity > 0 ==> c.high > 0)
  {
    var high := (if capacity * 3 > U64_MAX then U64_MAX else capacity * 3) / 4;
    QueueConfig(capacity, if capacity > 0 && high == 0 then 1 else high, capacity / 4)
  }

  function Levels<T>(items: seq<Item<T>>): (s: seq<nat>)
    ensures |s| == |items| && forall i | 0 <= i < |s| :: s[i] == items[i].priority.Level()
  {
    seq(|items|, i requires 0 <= i < |items| => items[i].priority.Level())
  }

  /** The first of the least urgent. */
  predicate IsVictim(levels: seq<nat>, v: nat)
    requires v < |levels|
  {
    && (forall i | 0 <= i < |levels| :: levels[i] <= levels[v])
    && (forall i | 0 <= i < v :: levels[i] < levels[v])
  }

  /** The victim is less urgent than a newcomer. */
  predicate Yields(levels: seq<nat>, v: nat, level: nat)
    requires v < |levels|
  {
    IsVictim(levels, v) && level < levels[v]
  }

  /** The first of the most urgent. */
  predicate IsBest(levels: seq<nat>, b: nat)
    requires b < |levels|
  {
    && (forall i | 0 <= i < |levels| :: levels[b] <= levels[i])
    && (forall i | 0 <= i < b :: levels[b] < levels[i])
  }

  function Victim(levels: seq<nat>): (v: nat)
    requires levels != []
    ensures v < |levels| && IsVictim(levels, v)
  {
    var n := |levels| - 1;
    if n == 0 then 0
    else
      var v := Victim(levels[..n]);
      assert forall i | 0 <= i < n :: levels[..n][i] == levels[i];
      if levels[n] > levels[v] then n else v
  }

  function Best(levels: seq<nat>): (b: nat)
    requires levels != []
    ensures b < |levels| && IsBest(levels, b)
  {
    var n := |levels| - 1;
    if n == 0 then 0
    else
      var b := Best(levels[..n]);
      assert forall i | 0 <= i < n :: levels[..n][i] == levels[i];
      if levels[n] < levels[b] then n else b
  }

  function Without<A>(s: seq<A>, i: nat): (r: seq<A>)
    requires i < |s|
    ensures |r| == |s| - 1 && forall j | 0 <= j < |r| :: r[j] == if j < i then s[j] else s[j + 1]
  {
    s[..i] + s[i + 1..]
  }

  // ---- Which items a queue keeps ----

  /** How many of the levels are at most `p`. */
  function CountTo(levels: seq<nat>, p: nat): (n: nat)
    ensures n <= |levels|
  {
    if levels == [] then 0
    else CountTo(levels[..|levels| - 1], p) + if levels[|levels| - 1] <= p then 1 else 0
  }

  function Min(a: nat, b: nat): nat { if a < b then a else b }

  /** At every level, the queue holds as many items up to it as were pushed, as far as its capacity goes. */
  ghost predicate BestKept(pushed: seq<nat>, held: seq<nat>, capacity: nat)
  {
    |held| <= capacity && forall p: nat :: CountTo(held, p) == Min(capacity, CountTo(pushed, p))
  }

  lemma CountSnoc(levels: seq<nat>, l: nat, p: nat)
    ensures CountTo(levels + [l], p) == CountTo(levels, p) + if l <= p then 1 else 0
  {
    assert (levels + [l])[..|levels|] == levels;
  }

  lemma {:induction false} CountWithout(levels: seq<nat>, i: nat, p: nat)
    requires i < |levels|
    ensures CountTo(Without(levels, i), p) == CountTo(levels, p) - if levels[i] <= p then 1 else 0
    decreases |levels|
  {
    var n := |levels| - 1;
    if i == n {
      assert Without(levels, i) == levels[..n];
    } else {
      assert Without(levels, i) == Without(levels[..n], i) + [levels[n]];
      CountWithout(levels[..n], i, p);
      CountSnoc(Without(levels[..n], i), levels[n], p);
    }
  }

  /** All levels are counted if and only if none is above. */
  lemma {:induction false} CountAll(levels: seq<nat>, p: nat)
    ensures CountTo(levels, p) == |levels| <==> forall i | 0 <= i < |levels| :: levels[i] <= p
    decreases |levels|
  {
    if levels != [] {
      var n := |levels| - 1;
      CountAll(levels[..n], p);
      assert forall i | 0 <= i < n :: levels[..n][i] == levels[i];
    }
  }

  lemma AcceptKeepsBest(pushed: seq<nat>, held: seq<nat>, capacity: nat, l: nat)
    requires BestKept(pushed, held, capacity) && |held| < capacity
    ensures BestKept(pushed + [l], held + [l], capacity)
  {
    forall p: nat ensures CountTo(held + [l], p) == Min(capacity, CountTo(pushed + [l], p)) {
      CountSnoc(held, l, p);
      CountSnoc(pushed, l, p);
      assert CountTo(held, p) == Min(capacity, CountTo(pushed, p));
    }
  }

  lemma EvictKeepsBest(pushed: seq<nat>, held: seq<nat>, capacity: nat, l: nat, v: nat)
    requires BestKept(pushed, held, capacity) && |held| == capacity && v < |held| && IsVictim(held, v) && l < held[v]
    ensures BestKept(pushed + [l], Without(held, v) + [l], capacity)
  {
    forall p: nat ensures CountTo(Without(held, v) + [l], p) == Min(capacity, CountTo(pushed + [l], p)) {
      CountWithout(held, v, p);
      CountSnoc(Without(held, v), l, p);
      CountSnoc(pushed, l, p);
      CountAll(held, p);
      assert CountTo(held, p) == Min(capacity, CountTo(pushed, p));
    }
  }

  lemma RefuseKeepsBest(pushed: seq<nat>, held: seq<nat>, capacity: nat, l: nat)
    requires BestKept(pushed, held, capacity) && |held| == capacity && forall i | 0 <= i < |held| :: held[i] <= l
    ensures BestKept(pushed + [l], held, capacity)
  {
    forall p: nat ensures CountTo(held, p) == Min(capacity, CountTo(pushed + [l], p)) {
      CountSnoc(pushed, l, p);
      CountAll(held, p);
      assert CountTo(held, p) == Min(capacity, CountTo(pushed, p));
    }
  }

  // ---- What becomes of every item ----

  predicate NoDup(s: seq<nat>)
  {
    forall i, j | 0 <= i < j < |s| :: s[i] != s[j]
  }

  predicate Apart(a: seq<nat>, b: seq<nat>)
  {
    forall i, j | 0 <= i < |a| && 0 <= j < |b| :: a[i] != b[j]
  }

  predicate Below(n: nat, s: seq<nat>)
  {
    forall i | 0 <= i < |s| :: s[i] < n
  }

  /** Every item pushed, by number, is popped, held or lost, exactly once. */
  ghost predicate Accounted(n: nat, popped: seq<nat>, held: seq<nat>, lost: seq<nat>)
  {
    && NoDup(popped) && NoDup(held) && NoDup(lost) && Apart(popped, held) && Apart(popped, lost) && Apart(held, lost)
    && Below(n, popped) && Below(n, held) && Below(n, lost)
    && (forall i | 0 <= i < n :: i in popped || i in held || i in lost)
  }

  /** Held items are in order of arrival; of one level, those popped arrived in order and before those held. */
  ghost predicate Fifo(levels: seq<nat>, popped: seq<nat>, held: seq<nat>)
    requires Below(|levels|, popped) && Below(|levels|, held)
  {
    && (forall i, j | 0 <= i < j < |held| :: held[i] < held[j])
    && (forall i, j | 0 <= i < j < |popped| :: levels[popped[i]] == levels[popped[j]] ==> popped[i] < popped[j])
    && (forall i, j | 0 <= i < |popped| && 0 <= j < |held| :: levels[popped[i]] == levels[held[j]] ==>
          popped[i] < held[j])
  }

  ghost predicate History<T>(pushed: seq<Item<T>>, items: seq<Item<T>>, popped: seq<nat>, held: seq<nat>,
                             lost: seq<nat>)
  {
    && Accounted(|pushed|, popped, held, lost)
    && Fifo(Levels(pushed), popped, held)
    && |held| == |items| && forall c | 0 <= c < |items| :: items[c] == pushed[held[c]]
  }

  lemma InWithout(s: seq<nat>, i: nat, x: nat)
    requires i < |s| && x in s && x != s[i]
    ensures x in Without(s, i)
  {
    var j :| 0 <= j < |s| && s[j] == x;
    assert Without(s, i)[if j < i then j else j - 1] == x;
  }

  lemma AccountedGains(n: nat, popped: seq<nat>, held: seq<nat>, lost: seq<nat>)
    requires Accounted(n, popped, held, lost)
    ensures Accounted(n + 1, popped, held + [n], lost)
    ensures Accounted(n + 1, popped, held, lost + [n])
  {
  }

  lemma AccountedLoses(n: nat, popped: seq<nat>, held: seq<nat>, lost: seq<nat>, v: nat)
    requires Accounted(n, popped, held, lost) && v < |held|
    ensures Accounted(n, popped, Without(held, v), lost + [held[v]])
  {
    forall i | 0 <= i < n ensures i in popped || i in Without(held, v) || i in lost + [held[v]] {
      if i in held && i != held[v] {
        InWithout(held, v, i);
      }
    }
  }

  lemma AccountedPops(n: nat, popped: seq<nat>, held: seq<nat>, lost: seq<nat>, b: nat)
    requires Accounted(n, popped, held, lost) && b < |held|
    ensures Accounted(n, popped + [held[b]], Without(held, b), lost)
  {
    forall i | 0 <= i < n ensures i in popped + [held[b]] || i in Without(held, b) || i in lost {
      if i in held && i != held[b] {
        InWithout(held, b, i);
      }
    }
  }

  lemma HistoryAccepts<T>(pushed: seq<Item<T>>, items: seq<Item<T>>, popped: seq<nat>, held: seq<nat>, lost: seq<nat>,
                          x: Item<T>)
    requires History(pushed, items, popped, held, lost)
    ensures History(pushed + [x], items + [x], popped, held + [|pushed|], lost)
  {
    hide Accounted;
    AccountedGains(|pushed|, popped, held, lost);
    AccountedBelow(|pushed|, popped, held, lost);
  }

  lemma HistoryRefuses<T>(pushed: seq<Item<T>>, items: seq<Item<T>>, popped: seq<nat>, held: seq<nat>, lost: seq<nat>,
                          x: Item<T>)
    requires History(pushed, items, popped, held, lost)
    ensures History(pushed + [x], items, popped, held, lost + [|pushed|])
  {
    hide Accounted;
    AccountedGains(|pushed|, popped, held, lost);
    AccountedBelow(|pushed|, popped, held, lost);
  }

  lemma HistoryEvicts<T>(pushed: seq<Item<T>>, items: seq<Item<T>>, popped: seq<nat>, held: seq<nat>, lost: seq<nat>,
                         v: nat)
    requires History(pushed, items, popped, held, lost) && v < |items|
    ensures History(pushed, Without(items, v), popped, Without(held, v), lost + [held[v]])
  {
    hide Accounted;
    AccountedLoses(|pushed|, popped, held, lost, v);
    AccountedBelow(|pushed|, popped, Without(held, v), lost + [held[v]]);
  }

  lemma HistoryPops<T>(pushed: seq<Item<T>>, items: seq<Item<T>>, popped: seq<nat>, held: seq<nat>, lost: seq<nat>,
                       b: nat)
    requires History(pushed, items, popped, held, lost) && b < |items| && IsBest(Levels(items), b)
    ensures History(pushed, Without(items, b), popped + [held[b]], Without(held, b), lost)
  {
    hide Accounted;
    AccountedPops(|pushed|, popped, held, lost, b);
    AccountedBelow(|pushed|, popped, held, lost);
    AccountedBelow(|pushed|, popped + [held[b]], Without(held, b), lost);
    forall j | 0 <= j < |held| && Levels(pushed)[held[j]] == Levels(pushed)[held[b]] && j != b
      ensures held[b] < held[j]
    {
      assert Levels(items)[j] == Levels(items)[b];
    }
  }

  lemma AccountedBelow(n: nat, popped: seq<nat>, held: seq<nat>, lost: seq<nat>)
    requires Accounted(n, popped, held, lost)
    ensures Below(n, popped) && Below(n, held) && Below(n, lost)
  {
  }

  /** Marks, true for high and false for low, begin with a high one and alternate. */
  predicate Alternates(marks: seq<bool>)
  {
    (marks != [] ==> marks[0]) && forall i | 0 < i < |marks| :: marks[i] != marks[i - 1]
  }

  /** The watermark events of a queue as marks. */
  function MarksOf(events: seq<Event>): seq<bool>
  {
    if events == [] then []
    else
      (if events[0].HighWatermark? then [true] else if events[0].LowWatermark? then [false] else [])
      + MarksOf(events[1..])
  }

  class BoundedQueue<T> {
    const name: string
    const config: QueueConfig

    var items: seq<Item<T>>
    var dropped: nat
    var overHigh: bool

    /** Everything pushed; the numbers of what was popped, is held and was lost; the watermarks reported. */
    ghost var pushed: seq<Item<T>>
    ghost var popped: seq<nat>
    ghost var held: seq<nat>
    ghost var lost: seq<nat>
    ghost var marks: seq<bool>

    ghost predicate Valid()
      reads this
    {
      && |items| <= config.capacity && History(pushed, items, popped, held, lost) && dropped == Min(|lost|, U64_MAX)
      && (popped == [] ==> BestKept(Levels(pushed), Levels(items), config.capacity))
      && Alternates(marks) && overHigh == (marks != [] && marks[|marks| - 1])
    }

    constructor (name: string, config: QueueConfig)
      ensures Valid() && items == [] && pushed == [] && popped == [] && lost == [] && marks == [] && dropped == 0
      ensures this.name == name && this.config == config
    {
      this.name, this.config := name, config;
      items, dropped, overHigh := [], 0, false;
      pushed, popped, held, lost, marks := [], [], [], [], [];
    }

    method CountDrop()
      modifies this`dropped
      ensures dropped == if old(dropped) >= U64_MAX then old(dropped) else old(dropped) + 1
    {
      if dropped < U64_MAX {
        dropped := dropped + 1;
      }
    }

    /**
     * A full queue gives up the oldest of its least urgent items for a more urgent newcomer, and refuses any other.
     * Whatever is lost, nothing less urgent is kept.
     */
    method Push(priority: Priority, value: T) returns (refused: nat)
      requires Valid()
      modifies this`items, this`dropped, this`pushed, this`held, this`lost
      ensures Valid() && pushed == old(pushed) + [Item(priority, value)]
      ensures |old(items)| < config.capacity ==> lost == old(lost) && items == old(items) + [Item(priority, value)]
      ensures |old(items)| >= config.capacity ==>
                && |lost| == |old(lost)| + 1 && old(lost) == lost[..|old(lost)|] && lost[|old(lost)|] < |pushed|
                && forall c | 0 <= c < |items| ::
                  items[c].priority.Level() <= pushed[lost[|old(lost)|]].priority.Level()
      ensures |old(items)| >= config.capacity ==>
                if exists v | 0 <= v < |old(items)| :: Yields(old(Levels(items)), v, priority.Level())
                then exists v | 0 <= v < |old(items)| :: Yields(old(Levels(items)), v, priority.Level())
                                                         && items == Without(old(items), v) + [Item(priority, value)]
                else items == old(items)
      ensures refused == (if |lost| > |old(lost)| && lost[|old(lost)|] == |old(pushed)| then 1 else 0)
    {
      hide History, BestKept, IsVictim, Alternates;
      var item := Item(priority, value);
      var level := priority.Level();
      ghost var levels, all := Levels(items), Levels(pushed);
      assert Levels(pushed + [item]) == all + [level];
      if config.capacity == 0 {
        Refuse(item);
        return 1;
      }
      if |items| >= config.capacity {
        var v := Victim(Levels(items));
        if level >= items[v].priority.Level() {
          VictimIsLeast(levels, v, level);
          assert forall w | 0 <= w < |levels| :: !Yields(levels, w, level);
          Refuse(item);
          return 1;
        }
        assert Yields(levels, v, level);
        Evict(v, item);
        return 0;
      }
      if popped == [] {
        AcceptKeepsBest(all, levels, config.capacity, level);
        assert Levels(items + [item]) == levels + [level];
      }
      HistoryAccepts(pushed, items, popped, held, lost, item);
      items := items + [item];
      held := held + [|pushed|];
      pushed := pushed + [item];
      return 0;
    }

    /** A newcomer that is no more urgent than anything there is lost itself. */
    method Refuse(item: Item<T>)
      requires Valid() && |items| == config.capacity
      requires forall c | 0 <= c < |items| :: Levels(items)[c] <= item.priority.Level()
      modifies this`dropped, this`pushed, this`lost
      ensures Valid() && pushed == old(pushed) + [item] && lost == old(lost) + [|old(pushed)|]
    {
      hide History, BestKept, Alternates;
      if popped == [] {
        RefuseKeepsBest(Levels(pushed), Levels(items), config.capacity, item.priority.Level());
        assert Levels(pushed + [item]) == Levels(pushed) + [item.priority.Level()];
      }
      HistoryRefuses(pushed, items, popped, held, lost, item);
      CountDrop();
      lost := lost + [|pushed|];
      pushed := pushed + [item];
    }

    /** The victim makes room for the newcomer. */
    method Evict(v: nat, item: Item<T>)
      requires Valid() && |items| == config.capacity && v < |items| && IsVictim(Levels(items), v)
      requires item.priority.Level() < items[v].priority.Level()
      modifies this`items, this`dropped, this`pushed, this`held, this`lost
      ensures Valid() && pushed == old(pushed) + [item] && |held| == |items| && |old(held)| == |old(items)|
      ensures lost == old(lost) + [old(held)[v]] && old(held)[v] < |old(pushed)|
      ensures items == Without(old(items), v) + [item]
      ensures forall c | 0 <= c < |items| :: items[c].priority.Level() <= pushed[old(held)[v]].priority.Level()
    {
      hide History, BestKept, Alternates;
      ghost var levels, all, level := Levels(items), Levels(pushed), item.priority.Level();
      if popped == [] {
        EvictKeepsBest(all, levels, config.capacity, level, v);
        assert Levels(pushed + [item]) == all + [level];
        assert Levels(Without(items, v) + [item]) == Without(levels, v) + [level];
      }
      HistoryItem(pushed, items, popped, held, lost, v);
      HistoryEvicts(pushed, items, popped, held, lost, v);
      HistoryAccepts(pushed, Without(items, v), popped, Without(held, v), lost + [held[v]], item);
      items := Without(items, v) + [item];
      CountDrop();
      lost := lost + [held[v]];
      held := Without(held, v) + [|pushed|];
      pushed := pushed + [item];
    }

    /** The earliest of the most urgent items. */
    method Pop() returns (r: Option<T>)
      requires Valid()
      modifies this`items, this`popped, this`held
      ensures Valid()
      ensures old(items) == [] ==> r == None && unchanged(this)
      ensures old(items) != [] ==>
                exists b | 0 <= b < |old(items)| ::
                  && IsBest(Levels(old(items)), b) && r == Some(old(items)[b].value) && items == Without(old(items), b)
                  && |old(held)| == |old(items)| && popped == old(popped) + [old(held)[b]]
    {
      hide History, BestKept, Alternates;
      if items == [] {
        return None;
      }
      var b := Best(Levels(items));
      HistoryItem(pushed, items, popped, held, lost, b);
      HistoryPops(pushed, items, popped, held, lost, b);
      r := Some(items[b].value);
      items := Without(items, b);
      popped := popped + [held[b]];
      held := Without(held, b);
    }

    /** High is reported when the level reaches the high mark, low when it is back at the low mark; each in its turn. */
    method PollWatermarks() returns (events: seq<Event>)
      requires Valid()
      modifies this`overHigh, this`marks
      ensures Valid() && marks == old(marks) + MarksOf(events)
      ensures config.capacity == 0 ==> events == []
      ensures config.capacity > 0 ==>
                && (HighWatermark(name, |items|) in events <==> !old(overHigh) && |items| >= config.high)
                && (LowWatermark(name, |items|) in events <==>
                    (old(overHigh) || |items| >= config.high) && |items| <= config.low)
      ensures forall e | e in events :: e == HighWatermark(name, |items|) || e == LowWatermark(name, |items|)
      ensures events == Crossed(name, config, |items|, old(overHigh))
              && overHigh == OverAfter(config, |items|, old(overHigh))
    {
      hide History, BestKept, Alternates;
      events := [];
      MarksOfFew(name, |items|, marks);
      if config.capacity == 0 {
        return;
      }
      var level := |items|;
      if !overHigh && level >= config.high {
        overHigh := true;
        events := [HighWatermark(name, level)];
        marks := marks + [true];
      }
      if overHigh && level <= config.low {
        overHigh := false;
        events := events + [LowWatermark(name, level)];
        marks := marks + [false];
      }
    }
  }

  /**
   * The fill level is at the high mark for the first time since it was back at the low one, if it ever was at the
   * high mark.
   */
  predicate Rises(config: QueueConfig, level: nat, overHigh: bool)
  {
    config.capacity > 0 && !overHigh && level >= config.high
  }

  /** The fill level is back at the low mark, or the marks are such that it is there already. */
  predicate Falls(config: QueueConfig, level: nat, overHigh: bool)
  {
    config.capacity > 0 && (overHigh || level >= config.high) && level <= config.low
  }

  /** The marks a poll reports. */
  function Crossed(name: string, config: QueueConfig, level: nat, overHigh: bool): seq<Event>
  {
    (if Rises(config, level, overHigh) then [HighWatermark(name, level)] else [])
    + if Falls(config, level, overHigh) then [LowWatermark(name, level)] else []
  }

  function OverAfter(config: QueueConfig, level: nat, overHigh: bool): bool
  {
    (overHigh || Rises(config, level, overHigh)) && !Falls(config, level, overHigh)
  }

  lemma MarksOfFew(name: string, level: nat, marks: seq<bool>)
    requires Alternates(marks)
    ensures marks + MarksOf([]) == marks
    ensures var h, l := HighWatermark(name, level), LowWatermark(name, level);
            MarksOf([h]) == [true] && MarksOf([] + [l]) == [false]
            && marks + MarksOf([h] + [l]) == marks + [true] + [false]
    ensures marks == [] || !marks[|marks| - 1] ==> Alternates(marks + [true]) && Alternates(marks + [true] + [false])
    ensures marks != [] && marks[|marks| - 1] ==> Alternates(marks + [false])
  {
    hide MarksOf, Alternates;
    var h, l := HighWatermark(name, level), LowWatermark(name, level);
    MarkOfOne(h);
    MarkOfOne(l);
    MarkOfTwo(h, l);
    assert marks + [] == marks && [] + [l] == [l];
    Assoc(marks, [true], [false]);
    if marks == [] || !marks[|marks| - 1] {
      AlternatesNext(marks, true);
      AlternatesNext(marks + [true], false);
    } else {
      AlternatesNext(marks, false);
    }
  }

  lemma MarkOfOne(e: Event)
    requires e.HighWatermark? || e.LowWatermark?
    ensures MarksOf([e]) == [e.HighWatermark?] && MarksOf([]) == []
  {
    assert [e][1..] == [];
  }

  lemma MarkOfTwo(e: Event, f: Event)
    requires e.HighWatermark? && f.LowWatermark?
    ensures MarksOf([e] + [f]) == [true] + [false]
  {
    MarkOfOne(f);
    assert ([e] + [f])[1..] == [f];
  }

  lemma AlternatesNext(marks: seq<bool>, mark: bool)
    requires Alternates(marks) && (if marks == [] then mark else mark != marks[|marks| - 1])
    ensures Alternates(marks + [mark])
  {
  }

  lemma VictimIsLeast(levels: seq<nat>, v: nat, level: nat)
    requires v < |levels| && IsVictim(levels, v) && level >= levels[v]
    ensures forall i | 0 <= i < |levels| :: levels[i] <= level
  {
  }

  lemma HistoryItem<T>(pushed: seq<Item<T>>, items: seq<Item<T>>, popped: seq<nat>, held: seq<nat>, lost: seq<nat>,
                       c: nat)
    requires History(pushed, items, popped, held, lost) && c < |items|
    ensures |held| == |items| && held[c] < |pushed| && pushed[held[c]] == items[c]
  {
  }

  // ---- A queue filled and then emptied ----

  function LevelsAt<T>(pushed: seq<Item<T>>, order: seq<nat>): (s: seq<nat>)
    requires Below(|pushed|, order)
    ensures |s| == |order| && forall i | 0 <= i < |s| :: s[i] == pushed[order[i]].priority.Level()
  {
    seq(|order|, i requires 0 <= i < |order| => pushed[order[i]].priority.Level())
  }

  /** Most urgent first, and of one level in order of arrival. */
  ghost predicate Ranked<T>(pushed: seq<Item<T>>, order: seq<nat>)
    requires Below(|pushed|, order)
  {
    forall i, j | 0 <= i < j < |order| ::
      var a, b := pushed[order[i]].priority.Level(), pushed[order[j]].priority.Level();
      a < b || (a == b && order[i] < order[j])
  }

  /**
   * What has been popped, most urgent first, is no less urgent than what is still held; together it is what there
   * was.
   */
  ghost predicate Emptying<T>(pushed: seq<Item<T>>, popped: seq<nat>, items: seq<Item<T>>, before: seq<nat>)
  {
    && Below(|pushed|, popped)
    && (forall i, j | 0 <= i < j < |popped| :: LevelsAt(pushed, popped)[i] <= LevelsAt(pushed, popped)[j])
    && (forall i, c | 0 <= i < |popped| && 0 <= c < |items| :: LevelsAt(pushed, popped)[i] <= Levels(items)[c])
    && (forall p: nat :: CountTo(LevelsAt(pushed, popped), p) + CountTo(Levels(items), p) == CountTo(before, p))
  }

  lemma EmptyingPops<T>(pushed: seq<Item<T>>, popped: seq<nat>, items: seq<Item<T>>, before: seq<nat>, b: nat, n: nat)
    requires Emptying(pushed, popped, items, before) && b < |items| && IsBest(Levels(items), b)
    requires n < |pushed| && pushed[n] == items[b]
    ensures Emptying(pushed, popped + [n], Without(items, b), before)
  {
    var level := items[b].priority.Level();
    assert LevelsAt(pushed, popped + [n]) == LevelsAt(pushed, popped) + [level];
    assert Levels(Without(items, b)) == Without(Levels(items), b);
    forall p: nat
      ensures CountTo(LevelsAt(pushed, popped + [n]), p) + CountTo(Levels(Without(items, b)), p) == CountTo(before, p)
    {
      CountSnoc(LevelsAt(pushed, popped), level, p);
      CountWithout(Levels(items), b, p);
      assert CountTo(LevelsAt(pushed, popped), p) + CountTo(Levels(items), p) == CountTo(before, p);
    }
  }

  lemma EmptyingStarts<T>(pushed: seq<Item<T>>, items: seq<Item<T>>)
    ensures Emptying(pushed, [], items, Levels(items))
  {
  }

  lemma EmptyingEnds<T>(pushed: seq<Item<T>>, popped: seq<nat>, held: seq<nat>, lost: seq<nat>, before: seq<nat>,
                        capacity: nat)
    requires Emptying(pushed, popped, [], before) && History(pushed, [], popped, held, lost)
    requires BestKept(Levels(pushed), before, capacity)
    ensures Below(|pushed|, popped) && Ranked(pushed, popped) && NoDup(popped)
    ensures forall p: nat :: CountTo(LevelsAt(pushed, popped), p) == Min(capacity, CountTo(Levels(pushed), p))
  {
    forall p: nat ensures CountTo(LevelsAt(pushed, popped), p) == Min(capacity, CountTo(Levels(pushed), p)) {
      assert CountTo(LevelsAt(pushed, popped), p) + CountTo(Levels<T>([]), p) == CountTo(before, p);
    }
    forall i, j | 0 <= i < j < |popped|
      ensures var a, b := pushed[popped[i]].priority.Level(), pushed[popped[j]].priority.Level();
              a < b || (a == b && popped[i] < popped[j])
    {
      assert LevelsAt(pushed, popped)[i] <= LevelsAt(pushed, popped)[j];
      assert Levels(pushed)[popped[i]] == LevelsAt(pushed, popped)[i]
             && Levels(pushed)[popped[j]] == LevelsAt(pushed, popped)[j];
    }
  }

  /**
   * The items numbered `order` are the `capacity` most urgent ones: each once, more urgent ones first, those of one
   * level in the order they were pushed, and as many of every range of levels as fit.
   */
  ghost predicate BestInOrder<T>(input: seq<Item<T>>, capacity: nat, order: seq<nat>, out: seq<T>)
  {
    && Below(|input|, order) && NoDup(order) && Ranked(input, order)
    && (forall p: nat :: CountTo(LevelsAt(input, order), p) == Min(capacity, CountTo(Levels(input), p)))
    && |out| == |order| && forall i | 0 <= i < |out| :: out[i] == input[order[i]].value
  }

  /**
   * A queue filled with any items and then emptied gives the capacity-many most urgent of them, most urgent first and
   * of one level in order of arrival.
   */
  method FillAndEmpty<T>(config: QueueConfig, input: seq<Item<T>>) returns (out: seq<T>)
    ensures exists order :: BestInOrder(input, config.capacity, order, out)
  {
    hide History, BestKept, Emptying, Alternates, IsBest;
    var q := new BoundedQueue<T>("", config);
    for i := 0 to |input|
      invariant q.Valid() && q.config == config && q.pushed == input[..i] && q.popped == []
    {
      assert input[..i + 1] == input[..i] + [input[i]] && Item(input[i].priority, input[i].value) == input[i];
      var _ := q.Push(input[i].priority, input[i].value);
    }
    assert input[..|input|] == input;
    ghost var before := Levels(q.items);
    EmptyingStarts(input, q.items);
    out := [];
    while q.items != []
      invariant q.Valid() && q.config == config && q.pushed == input && Emptying(input, q.popped, q.items, before)
      invariant Below(|input|, q.popped) && |out| == |q.popped|
      invariant forall i | 0 <= i < |out| :: out[i] == input[q.popped[i]].value
      decreases |q.items|
    {
      ghost var items, popped, held, lost := q.items, q.popped, q.held, q.lost;
      var r := q.Pop();
      ghost var b :| 0 <= b < |items| && IsBest(Levels(items), b) && r == Some(items[b].value)
      && q.items == Without(items, b)
                     && |held| == |items| && q.popped == popped + [held[b]];
      HistoryItem(input, items, popped, held, lost, b);
      EmptyingPops(input, popped, items, before, b, held[b]);
      out := out + [r.value];
    }
    EmptyingEnds(input, q.popped, q.held, q.lost, before, config.capacity);
    assert BestInOrder(input, config.capacity, q.popped, out);
  }

  // ---- Several queues ----

  datatype QueueName = Input | PacketQueue | Decode | Frame | Render | Audio | Record

  const ALL_QUEUES: seq<QueueName> := [Input, PacketQueue, Decode, Frame, Render, Audio, Record]

  function NameOf(name: QueueName): string
  {
    match name
    case Input => "input"
    case PacketQueue => "packet"
    case Decode => "decode"
    case Frame => "frame"
    case Render => "render"
    case Audio => "audio"
    case Record => "record"
  }

  function IndexOf(names: seq<QueueName>, name: QueueName): (r: Option<nat>)
    ensures r.Some? ==> r.value < |names| && names[r.value] == name && forall i | 0 <= i < r.value :: names[i] != name
    ensures r.None? ==> name !in names
  {
    if names == [] then None
    else if names[0] == name then Some(0)
    else match IndexOf(names[1..], name) case None => None case Some(i) => Some(i + 1)
  }

  /** The level of the most urgent item of a queue that has one. */
  function BestLevel<T>(items: seq<Item<T>>): Option<nat>
  {
    if items == [] then None else Some(Levels(items)[Best(Levels(items))])
  }

  predicate Ahead(a: Option<nat>, b: Option<nat>)
  {
    a.Some? && (b.None? || a.value < b.value)
  }

  class Scheduler<T> {
    const queues: seq<BoundedQueue<T>>
    const names: seq<QueueName>

    ghost predicate Valid()
      reads queues
    {
      && |names| == |queues| && (forall i | 0 <= i < |queues| :: queues[i].Valid())
      && (forall i, j | 0 <= i < j < |queues| :: queues[i] != queues[j])
    }

    constructor (configs: map<QueueName, QueueConfig>)
      ensures Valid() && names == ALL_QUEUES && fresh(queues)
      ensures forall i | 0 <= i < |queues| :: queues[i].items == [] && queues[i].name == NameOf(names[i])
    {
      hide History, BestKept, Alternates, WithWatermarks, NameOf;
      var made: seq<BoundedQueue<T>> := [];
      for i := 0 to |ALL_QUEUES|
        invariant |made| == i && fresh(made) && forall k | 0 <= k < i :: made[k].Valid() && made[k].items == []
                                                              && made[k].name == NameOf(ALL_QUEUES[k])
        invariant forall j, k | 0 <= j < k < i :: made[j] != made[k]
      {
        var name := ALL_QUEUES[i];
        var q := new BoundedQueue<T>(NameOf(name), if name in configs then configs[name] else WithWatermarks(64));
        made := made + [q];
      }
      queues, names := made, ALL_QUEUES;
    }

    /** A push reports what it dropped and the watermarks it crossed. */
    method Push(queue: QueueName, priority: Priority, value: T) returns (dropped: nat, events: seq<Event>)
      requires Valid()
      modifies queues
      ensures Valid()
      ensures queue !in names ==> dropped == 1 && events == [Dropped(NameOf(queue), 1)] && unchanged(queues)
      ensures queue in names ==>
                && IndexOf(names, queue).Some? && var q := queues[IndexOf(names, queue).value];
                   && q.pushed == old(q.pushed) + [Item(priority, value)]
                   && (|old(q.items)| < q.config.capacity ==> q.items == old(q.items) + [Item(priority, value)])
                   && (|old(q.items)| >= q.config.capacity ==>
                         if exists v | 0 <= v < |old(q.items)| :: Yields(old(Levels(q.items)), v, priority.Level())
                         then exists v | 0 <= v < |old(q.items)| :: Yields(old(Levels(q.items)), v, priority.Level())
                                                                    && q.items ==
                                                                    Without(old(q.items), v) + [Item(priority, value)]
                         else q.items == old(q.items))
                   && dropped == q.dropped - old(q.dropped)
                   && (dropped > 0 <==> |old(q.items)| >= q.config.capacity && old(q.dropped) < U64_MAX)
                   && events == Crossed(q.name, q.config, |q.items|, old(q.overHigh))
                                + (if dropped > 0 then [Dropped(NameOf(queue), dropped)] else [])
                   && q.overHigh == OverAfter(q.config, |q.items|, old(q.overHigh))
                   && forall i | 0 <= i < |queues| && queues[i] != q :: unchanged(queues[i])
    {
      hide Yields, IsVictim, History, BestKept, Alternates, Levels, MarksOf, Crossed, OverAfter;
      var index := IndexOf(names, queue);
      if index.None? {
        return 1, [Dropped(NameOf(queue), 1)];
      }
      var q := queues[index.value];
      var before := q.dropped;
      DropsAre(q);
      var _ := q.Push(priority, value);
      dropped := q.dropped - before;
      events := q.PollWatermarks();
      assert events + [] == events;
      if dropped > 0 {
        events := events + [Dropped(NameOf(queue), dropped)];
      }
    }

    /** The most urgent item of all, from the earliest queue that has one so urgent. */
    method Pop() returns (r: Option<(QueueName, T)>)
      requires Valid()
      modifies queues
      ensures Valid()
      ensures (forall i | 0 <= i < |queues| :: old(queues[i].items) == []) ==> r == None && unchanged(queues)
      ensures (exists i | 0 <= i < |queues| :: old(queues[i].items) != []) ==>
                exists i, b | 0 <= i < |queues| && 0 <= b < |old(queues[i].items)| ::
                  && r == Some((names[i], old(queues[i].items)[b].value))
                  && queues[i].items == Without(old(queues[i].items), b) && IsBest(Levels(old(queues[i].items)), b)
                  && (forall j | 0 <= j < |queues| ::
                        !Ahead(BestLevel(old(queues[j].items)), BestLevel(old(queues[i].items))))
                  && (forall j | 0 <= j < i :: Ahead(BestLevel(old(queues[i].items)), BestLevel(old(queues[j].items))))
                  && (forall j | 0 <= j < |queues| && j != i :: unchanged(queues[j]))
    {
      hide Best, BestLevel, IsBest, Levels, History, BestKept, Alternates, Ahead;
      var tops := Tops();
      TopsAre(queues, tops);
      var best := MostUrgent(tops);
      if best.None? {
        assert forall i | 0 <= i < |queues| :: tops[i].None?;
        return None;
      }
      var q := queues[best.value];
      assert tops[best.value].Some?;
      var popped := q.Pop();
      return Some((names[best.value], popped.value));
    }

    method Tops() returns (tops: seq<Option<nat>>)
      ensures |tops| == |queues| && forall i | 0 <= i < |queues| :: tops[i] == BestLevel(queues[i].items)
    {
      tops := [];
      for i := 0 to |queues|
        invariant |tops| == i && forall k | 0 <= k < i :: tops[k] == BestLevel(queues[k].items)
      {
        tops := tops + [BestLevel(queues[i].items)];
      }
    }
  }

  /** The first of the least levels there are. */
  method MostUrgent(tops: seq<Option<nat>>) returns (best: Option<nat>)
    ensures best.None? ==> forall i | 0 <= i < |tops| :: tops[i].None?
    ensures best.Some? ==> best.value < |tops| && tops[best.value].Some?
    ensures best.Some? ==> forall j | 0 <= j < |tops| :: !Ahead(tops[j], tops[best.value])
    ensures best.Some? ==> forall j | 0 <= j < best.value :: Ahead(tops[best.value], tops[j])
  {
    best := None;
    for i := 0 to |tops|
      invariant best.None? ==> forall j | 0 <= j < i :: tops[j].None?
      invariant best.Some? ==> best.value < i && tops[best.value].Some?
      invariant best.Some? ==> forall j | 0 <= j < i :: !Ahead(tops[j], tops[best.value])
      invariant best.Some? ==> forall j | 0 <= j < best.value :: Ahead(tops[best.value], tops[j])
    {
      if tops[i].Some? && (best.None? || tops[i].value < tops[best.value].value) {
        best := Some(i);
      }
    }
  }

  lemma TopsAre<T>(queues: seq<BoundedQueue<T>>, tops: seq<Option<nat>>)
    requires |tops| == |queues| && forall i | 0 <= i < |queues| :: tops[i] == BestLevel(queues[i].items)
    ensures forall i | 0 <= i < |queues| :: tops[i].None? <==> queues[i].items == []
  {
  }

  lemma DropsAre<T>(q: BoundedQueue<T>)
    requires q.Valid()
    ensures q.dropped == Min(|q.lost|, U64_MAX)
  {
  }
}

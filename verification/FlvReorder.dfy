/** Sorting with a bounded queue that always gives up a least element: when exactly the output is sorted. */
module FlvReorder {
  import opened Bytes

  /** A DTS, or none; none comes before every DTS. */
  type Key = Option<int>

  predicate Above(a: Key, b: Key)
  {
    a.Some? && (b.None? || a.value > b.value)
  }

  /** The packets that arrived before packet `j` and belong behind it. */
  ghost function Ahead(keys: seq<Key>, j: nat): set<nat>
    requires j < |keys|
  {
    set i | 0 <= i < j && Above(keys[i], keys[j])
  }

  /** How late packet `j` arrives: the number of packets it has to overtake. */
  ghost function Late(keys: seq<Key>, j: nat): nat
    requires j < |keys|
  {
    |Ahead(keys, j)|
  }

  predicate NoDup(s: seq<nat>)
  {
    forall i, j | 0 <= i < j < |s| :: s[i] != s[j]
  }

  predicate Below(n: nat, s: seq<nat>)
  {
    forall p | 0 <= p < |s| :: s[p] < n
  }

  /** Every one of the first `n` arrivals is written or queued, exactly once. */
  ghost predicate Partition(n: nat, order: seq<nat>, queued: seq<nat>)
  {
    && NoDup(order) && NoDup(queued) && Below(n, order) && Below(n, queued)
    && (forall p, c | 0 <= p < |order| && 0 <= c < |queued| :: order[p] != queued[c])
    && (forall i | 0 <= i < n :: i in order || i in queued)
  }

  ghost predicate Sorted(keys: seq<Key>, order: seq<nat>)
    requires Below(|keys|, order)
  {
    forall p, q | 0 <= p < q < |order| :: !Above(keys[order[p]], keys[order[q]])
  }

  /** The first `w` arrivals that do not belong before the key. */
  ghost function NotBefore(keys: seq<Key>, w: nat, key: Key): set<nat>
    requires w <= |keys|
  {
    set i | 0 <= i < w && !Above(key, keys[i])
  }

  /**
   * Arrival `order[p]` was written when `when[p]` packets had arrived. It was then least in the queue, and the queue
   * was over its depth, unless the input had been closed.
   */
  ghost predicate LeastFirst(keys: seq<Key>, order: seq<nat>, queued: seq<nat>, when: seq<nat>, depth: nat,
                             closed: bool)
    requires Below(|keys|, order) && Below(|keys|, queued)
  {
    && |when| == |order|
    && (forall p | 0 <= p < |order| ::
          && when[p] <= |keys|
          && (|NotBefore(keys, when[p], keys[order[p]])| > depth || (closed && when[p] == |keys|)))
    && (forall p, c | 0 <= p < |order| && 0 <= c < |queued| ::
          queued[c] < when[p] ==> !Above(keys[order[p]], keys[queued[c]]))
    && (forall p, q | 0 <= p < q < |order| :: order[q] < when[p] ==> !Above(keys[order[p]], keys[order[q]]))
  }

  /** A packet that belongs behind `j` has been written before it. */
  ghost predicate Overtaken(keys: seq<Key>, order: seq<nat>, j: nat, p: nat)
    requires j < |keys| && Below(|keys|, order) && p < |order|
  {
    Above(keys[order[p]], keys[j]) && forall q | 0 <= q <= p :: order[q] != j
  }

  ghost predicate TooLate(keys: seq<Key>, order: seq<nat>, depth: nat)
    requires Below(|keys|, order)
  {
    forall j | 0 <= j < |keys| && Late(keys, j) > depth :: exists p | 0 <= p < |order| :: Overtaken(keys, order, j, p)
  }

  /** The state of the queue: what has been pushed, written and is waiting. */
  ghost predicate QueueOk(keys: seq<Key>, order: seq<nat>, queued: seq<nat>, when: seq<nat>, depth: nat, closed: bool)
  {
    && Partition(|keys|, order, queued)
    && LeastFirst(keys, order, queued, when, depth, closed)
    && TooLate(keys, order, depth)
  }

  ghost function Elements(s: seq<nat>): set<nat>
  {
    set i | i in s
  }

  lemma {:induction false} ElementsCount(s: seq<nat>)
    requires NoDup(s)
    ensures |Elements(s)| == |s|
    decreases |s|
  {
    if s != [] {
      var n := |s| - 1;
      ElementsCount(s[..n]);
      assert Elements(s) == Elements(s[..n]) + {s[n]};
      assert s[n] !in s[..n];
    }
  }

  lemma {:induction false} SubsetCount(a: set<nat>, b: set<nat>)
    requires a <= b
    ensures |a| <= |b|
    decreases |a|
  {
    if a != {} {
      var x :| x in a;
      SubsetCount(a - {x}, b - {x});
    }
  }

  // ---- A packet arrives ----

  /** A packet too late for the queue arrives when one that belongs behind it has been written. */
  lemma NewcomerTooLate(keys: seq<Key>, key: Key, order: seq<nat>, queued: seq<nat>, depth: nat)
    requires Partition(|keys|, order, queued) && |queued| <= depth
    requires Late(keys + [key], |keys|) > depth
    ensures exists p | 0 <= p < |order| :: Above(keys[order[p]], key)
  {
    var n := |keys|;
    var ahead := Ahead(keys + [key], n);
    if ahead <= Elements(queued) {
      ElementsCount(queued);
      SubsetCount(ahead, Elements(queued));
      assert false;
    }
    var i :| i in ahead && i !in Elements(queued);
    var p :| 0 <= p < |order| && order[p] == i;
  }

  lemma TooLatePush(keys: seq<Key>, key: Key, order: seq<nat>, queued: seq<nat>, depth: nat)
    requires Partition(|keys|, order, queued) && TooLate(keys, order, depth) && |queued| <= depth
    ensures Below(|keys| + 1, order) && TooLate(keys + [key], order, depth)
  {
    var now, n := keys + [key], |keys|;
    forall j | 0 <= j <= n && Late(now, j) > depth
      ensures exists p | 0 <= p < |order| :: Overtaken(now, order, j, p)
    {
      if j < n {
        assert Ahead(now, j) == Ahead(keys, j);
        assert Late(keys, j) > depth;
        var p :| 0 <= p < |order| && Overtaken(keys, order, j, p);
        assert Overtaken(now, order, j, p);
      } else {
        NewcomerTooLate(keys, key, order, queued, depth);
        var p :| 0 <= p < |order| && Above(keys[order[p]], key);
        assert Overtaken(now, order, n, p);
      }
    }
  }

  lemma LeastFirstPush(keys: seq<Key>, key: Key, order: seq<nat>, queued: seq<nat>, when: seq<nat>, depth: nat)
    requires Below(|keys|, order) && Below(|keys|, queued) && LeastFirst(keys, order, queued, when, depth, false)
    ensures Below(|keys| + 1, order) && Below(|keys| + 1, queued + [|keys|])
    ensures LeastFirst(keys + [key], order, queued + [|keys|], when, depth, false)
  {
    forall p | 0 <= p < |order|
      ensures NotBefore(keys + [key], when[p], (keys + [key])[order[p]]) == NotBefore(keys, when[p], keys[order[p]])
    {
    }
  }

  lemma PushKeeps(keys: seq<Key>, key: Key, order: seq<nat>, queued: seq<nat>, when: seq<nat>, depth: nat)
    requires QueueOk(keys, order, queued, when, depth, false) && |queued| <= depth
    ensures QueueOk(keys + [key], order, queued + [|keys|], when, depth, false)
  {
    hide LeastFirst, TooLate;
    assert Partition(|keys| + 1, order, queued + [|keys|]);
    LeastFirstPush(keys, key, order, queued, when, depth);
    TooLatePush(keys, key, order, queued, depth);
  }

  // ---- A least packet is written ----

  function Without(s: seq<nat>, c: nat): (r: seq<nat>)
    requires c < |s|
    ensures |r| == |s| - 1
  {
    s[..c] + s[c + 1..]
  }

  ghost predicate Least(keys: seq<Key>, queued: seq<nat>, c: nat)
    requires Below(|keys|, queued) && c < |queued|
  {
    forall d | 0 <= d < |queued| :: !Above(keys[queued[c]], keys[queued[d]])
  }

  lemma PartitionPop(n: nat, order: seq<nat>, queued: seq<nat>, c: nat)
    requires Partition(n, order, queued) && c < |queued|
    ensures Partition(n, order + [queued[c]], Without(queued, c))
  {
    var rest := Without(queued, c);
    assert forall d | 0 <= d < |rest| :: rest[d] == if d < c then queued[d] else queued[d + 1];
    forall i | 0 <= i < n ensures i in order + [queued[c]] || i in rest {
      if i in queued && i != queued[c] {
        var d :| 0 <= d < |queued| && queued[d] == i;
        assert rest[if d < c then d else d - 1] == i;
      }
    }
  }

  lemma LeastFirstPop(keys: seq<Key>, order: seq<nat>, queued: seq<nat>, when: seq<nat>, depth: nat, closed: bool,
                      c: nat)
    requires Partition(|keys|, order, queued) && LeastFirst(keys, order, queued, when, depth, closed)
    requires c < |queued| && Least(keys, queued, c) && (closed || |queued| > depth)
    ensures Partition(|keys|, order + [queued[c]], Without(queued, c))
    ensures LeastFirst(keys, order + [queued[c]], Without(queued, c), when + [|keys|], depth, closed)
  {
    PartitionPop(|keys|, order, queued, c);
    var rest := Without(queued, c);
    assert forall d | 0 <= d < |rest| :: rest[d] == if d < c then queued[d] else queued[d + 1];
    if !closed {
      ElementsCount(queued);
      assert forall i | i in Elements(queued) :: i in NotBefore(keys, |keys|, keys[queued[c]]);
      SubsetCount(Elements(queued), NotBefore(keys, |keys|, keys[queued[c]]));
    }
  }

  lemma TooLatePop(keys: seq<Key>, order: seq<nat>, depth: nat, m: nat)
    requires Below(|keys|, order) && m < |keys| && TooLate(keys, order, depth)
    ensures Below(|keys|, order + [m]) && TooLate(keys, order + [m], depth)
  {
    forall j | 0 <= j < |keys| && Late(keys, j) > depth
      ensures exists p | 0 <= p < |order + [m]| :: Overtaken(keys, order + [m], j, p)
    {
      var p :| 0 <= p < |order| && Overtaken(keys, order, j, p);
      assert Overtaken(keys, order + [m], j, p);
    }
  }

  lemma PopKeeps(keys: seq<Key>, order: seq<nat>, queued: seq<nat>, when: seq<nat>, depth: nat, closed: bool, c: nat)
    requires QueueOk(keys, order, queued, when, depth, closed)
    requires c < |queued| && Least(keys, queued, c) && (closed || |queued| > depth)
    ensures QueueOk(keys, order + [queued[c]], Without(queued, c), when + [|keys|], depth, closed)
  {
    hide LeastFirst, TooLate, Partition, Least;
    assert queued[c] < |keys| by { QueuedBelow(keys, order, queued, c); }
    LeastFirstPop(keys, order, queued, when, depth, closed, c);
    OrderBelow(|keys|, order, queued);
    TooLatePop(keys, order, depth, queued[c]);
  }

  lemma QueuedBelow(keys: seq<Key>, order: seq<nat>, queued: seq<nat>, c: nat)
    requires Partition(|keys|, order, queued) && c < |queued|
    ensures queued[c] < |keys|
  {
  }

  lemma OrderBelow(n: nat, order: seq<nat>, queued: seq<nat>)
    requires Partition(n, order, queued)
    ensures Below(n, order) && Below(n, queued)
  {
  }

  lemma Closing(keys: seq<Key>, order: seq<nat>, queued: seq<nat>, when: seq<nat>, depth: nat)
    requires QueueOk(keys, order, queued, when, depth, false)
    ensures QueueOk(keys, order, queued, when, depth, true)
  {
  }

  // ---- The verdict ----

  /** Written in the wrong order, the second of two packets was too late. */
  lemma WrongOrderIsLate(keys: seq<Key>, order: seq<nat>, when: seq<nat>, depth: nat, p: nat, q: nat)
    requires Below(|keys|, order) && LeastFirst(keys, order, [], when, depth, true) && p < q < |order|
    requires Above(keys[order[p]], keys[order[q]])
    ensures Late(keys, order[q]) > depth
  {
    assert NotBefore(keys, when[p], keys[order[p]]) <= Ahead(keys, order[q]);
    SubsetCount(NotBefore(keys, when[p], keys[order[p]]), Ahead(keys, order[q]));
  }

  /** The output is sorted if and only if no packet arrives behind more than `depth` packets that belong behind it. */
  lemma SortedExactly(keys: seq<Key>, order: seq<nat>, when: seq<nat>, depth: nat)
    requires QueueOk(keys, order, [], when, depth, true)
    ensures Below(|keys|, order)
    ensures Sorted(keys, order) <==> forall j | 0 <= j < |keys| :: Late(keys, j) <= depth
  {
    hide Late;
    if !Sorted(keys, order) {
      var p, q :| 0 <= p < q < |order| && Above(keys[order[p]], keys[order[q]]);
      WrongOrderIsLate(keys, order, when, depth, p, q);
    }
    if j: nat :| j < |keys| && Late(keys, j) > depth {
      var p :| 0 <= p < |order| && Overtaken(keys, order, j, p);
      assert j in order;
      var q :| 0 <= q < |order| && order[q] == j;
      assert q > p;
    }
  }

  // ---- Packets not far from their place ----

  /** Arrival `i` belongs before arrival `j`; equal keys keep their order of arrival. */
  predicate Before(keys: seq<Key>, i: nat, j: nat)
    requires i < |keys| && j < |keys|
  {
    Above(keys[j], keys[i]) || (!Above(keys[i], keys[j]) && i < j)
  }

  ghost function Earlier(keys: seq<Key>, j: nat): set<nat>
    requires j < |keys|
  {
    set i | 0 <= i < |keys| && Before(keys, i, j)
  }

  /** The place of arrival `j` in the sorted order. */
  ghost function Place(keys: seq<Key>, j: nat): nat
    requires j < |keys|
  {
    |Earlier(keys, j)|
  }

  lemma {:induction false} UpTo(n: nat) returns (s: set<nat>)
    ensures |s| == n && forall i :: i in s <==> 0 <= i < n
  {
    s := {};
    for k := 0 to n
      invariant |s| == k && forall i :: i in s <==> 0 <= i < k
    {
      s := s + {k};
    }
  }

  /** The last arrival that does not belong behind `j`. */
  lemma {:induction false} LastBefore(keys: seq<Key>, j: nat, n: nat) returns (x: nat)
    requires j < n <= |keys|
    ensures j <= x < n && (x == j || Before(keys, x, j)) && forall i | x < i < n :: !Before(keys, i, j)
    decreases n
  {
    if n - 1 == j || Before(keys, n - 1, j) {
      x := n - 1;
    } else {
      x := LastBefore(keys, j, n - 1);
    }
  }

  /** If no packet arrives more than `depth` places behind its sorted place, none is later than the queue can mend. */
  lemma NearPlaceIsNotLate(keys: seq<Key>, depth: nat, j: nat)
    requires forall i | 0 <= i < |keys| :: i <= Place(keys, i) + depth
    requires j < |keys|
    ensures Late(keys, j) <= depth
  {
    var x := LastBefore(keys, j, |keys|);
    var upTo := UpTo(x + 1);
    var rest := upTo - {j} - Ahead(keys, j);
    assert |upTo - {j}| == x;
    assert Ahead(keys, j) <= upTo - {j};
    assert |rest| == x - Late(keys, j);
    assert Earlier(keys, j) <= rest;
    SubsetCount(Earlier(keys, j), rest);
    assert Earlier(keys, x) <= Earlier(keys, j);
    SubsetCount(Earlier(keys, x), Earlier(keys, j));
    assert x <= Place(keys, x) + depth;
  }

  /** Packets at most `depth` places from where they belong come out sorted. */
  lemma NearPlaceSorts(keys: seq<Key>, order: seq<nat>, when: seq<nat>, depth: nat)
    requires QueueOk(keys, order, [], when, depth, true)
    requires forall i | 0 <= i < |keys| :: i <= Place(keys, i) + depth
    ensures Below(|keys|, order) && Sorted(keys, order)
  {
    hide QueueOk, Late, Place, Sorted;
    forall j: nat | j < |keys| ensures Late(keys, j) <= depth {
      NearPlaceIsNotLate(keys, depth, j);
    }
    SortedExactly(keys, order, when, depth);
  }
}

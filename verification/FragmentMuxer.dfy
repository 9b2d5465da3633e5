/** The fragmented MP4 muxer: packets buffered per track, cut into segments behind the last keyframe. */
module FragmentMuxer {
  import opened Bytes
  import opened Boxes
  import opened FragmentWriter
  import opened Ordered

  type Buffers = map<u32, seq<Packet>>

  /** Initialisation segments and configuration hashes come from the track configuration, which is opaque. */
  datatype Init<!C> = Init(segment: map<u32, C> -> Result<bytes, Mp4Error>, hash: map<u32, C> -> u64)

  datatype SegmentOutput = SegmentOutput(initSegment: Option<bytes>, mediaSegment: bytes, sequence: u32)

  predicate HasKey(packets: seq<Packet>)
  {
    exists i | 0 <= i < |packets| :: packets[i].key
  }

  /** Where a buffer is cut: behind its last keyframe, or at its end when it has none. */
  ghost predicate CutAt(buf: seq<Packet>, cut: nat)
  {
    && 0 < cut <= |buf| && !HasKey(buf[cut..])
    && (if HasKey(buf) then buf[cut - 1].key else cut == |buf|)
  }

  method FindCut(buf: seq<Packet>) returns (cut: nat)
    requires buf != []
    ensures CutAt(buf, cut)
  {
    var lastKey: Option<nat> := None;
    for i := 0 to |buf|
      invariant lastKey.None? ==> forall j | 0 <= j < i :: !buf[j].key
      invariant lastKey.Some? ==>
                  lastKey.value < i && buf[lastKey.value].key && forall j | lastKey.value < j < i :: !buf[j].key
    {
      if buf[i].key {
        lastKey := Some(i);
      }
    }
    cut := if lastKey.Some? then lastKey.value + 1 else |buf|;
    if lastKey.Some? {
      assert HasKey(buf);
    }
  }

  function At(buffers: Buffers, id: u32): seq<Packet>
  {
    if id in buffers then buffers[id] else []
  }

  /** The packets of the runs for a track. */
  function Taken(runs: seq<Run>, id: u32): seq<Packet>
    decreases |runs|
  {
    if runs == [] then []
    else Taken(runs[..|runs| - 1], id) + if runs[|runs| - 1].trackId == id then runs[|runs| - 1].packets else []
  }

  lemma TakenSnoc(runs: seq<Run>, r: Run, id: u32)
    ensures Taken(runs + [r], id) == Taken(runs, id) + if r.trackId == id then r.packets else []
  {
    assert (runs + [r])[..|runs|] == runs;
  }

  lemma {:induction false} TakenNone(runs: seq<Run>, id: u32)
    requires forall k | 0 <= k < |runs| :: runs[k].trackId != id
    ensures Taken(runs, id) == []
    decreases |runs|
  {
    if runs != [] {
      TakenNone(runs[..|runs| - 1], id);
    }
  }

  /** A track's buffer: the packets taken from it, up to its cut, and what is retained, without a keyframe. */
  ghost predicate TrackCut(before: seq<Packet>, taken: seq<Packet>, after: seq<Packet>)
  {
    && before == taken + after && !HasKey(after)
    && (before != [] ==> CutAt(before, |taken|))
  }

  /** Runs have packets and are in ascending order of track ids. */
  ghost predicate RunsOk(runs: seq<Run>)
  {
    && (forall j, k | 0 <= j < k < |runs| :: runs[j].trackId < runs[k].trackId)
    && (forall k | 0 <= k < |runs| :: runs[k].packets != [])
  }

  /** Every track with packets gives one run, and is cut. */
  ghost predicate Cuts(before: Buffers, after: Buffers, runs: seq<Run>)
  {
    && RunsOk(runs) && after.Keys == before.Keys
    && (forall k | 0 <= k < |runs| :: runs[k].trackId in before)
    && (forall id | id in before :: TrackCut(before[id], Taken(runs, id), after[id]))
  }

  /** The tracks visited have been cut, the others not. */
  ghost predicate CutTo(before: Buffers, after: Buffers, runs: seq<Run>, visited: set<u32>)
  {
    && RunsOk(runs) && after.Keys == before.Keys
    && (forall k | 0 <= k < |runs| :: runs[k].trackId in before && runs[k].trackId in visited)
    && (forall id | id in before :: TrackState(before, after, runs, visited, id))
  }

  ghost predicate TrackState(before: Buffers, after: Buffers, runs: seq<Run>, visited: set<u32>, id: u32)
  {
    && id in before && id in after
    && if id in visited then TrackCut(before[id], Taken(runs, id), after[id]) else after[id] == before[id]
  }

  lemma RunNext(runs: seq<Run>, r: Run)
    requires RunsOk(runs) && r.packets != [] && forall k | 0 <= k < |runs| :: runs[k].trackId < r.trackId
    ensures RunsOk(runs + [r])
  {
  }

  lemma TakenNext(runs: seq<Run>, r: Run, id: u32)
    requires forall k | 0 <= k < |runs| :: runs[k].trackId < r.trackId
    ensures Taken(runs + [r], id) == if id == r.trackId then r.packets else Taken(runs, id)
  {
    TakenSnoc(runs, r, id);
    if id == r.trackId {
      TakenNone(runs, id);
      assert [] + r.packets == r.packets;
    } else {
      assert Taken(runs, id) + [] == Taken(runs, id);
    }
  }

  lemma CutNext(before: Buffers, after: Buffers, runs: seq<Run>, visited: set<u32>, id: u32, cut: nat)
    requires id in before && CutTo(before, after, runs, visited) && forall v | v in visited :: v < id
    requires before[id] != [] && CutAt(before[id], cut)
    ensures cut <= |before[id]|
    ensures CutTo(before, after[id := before[id][cut..]], runs + [Run(id, before[id][..cut])], visited + {id})
  {
    hide TrackState, CutAt, RunsOk, TrackCut;
    CutTrack(before[id], cut);
    var r := Run(id, before[id][..cut]);
    RunNext(runs, r);
    forall x: u32 | x in before
      ensures TrackState(before, after[id := before[id][cut..]], runs + [r], visited + {id}, x)
    {
      assert TrackState(before, after, runs, visited, x);
      TrackNext(before, after, runs, visited, r, before[id][cut..], x);
    }
  }

  lemma TrackNext(before: Buffers, after: Buffers, runs: seq<Run>, visited: set<u32>, r: Run, left: seq<Packet>, x: u32)
    requires TrackState(before, after, runs, visited, x) && forall k | 0 <= k < |runs| :: runs[k].trackId < r.trackId
    requires r.trackId in before && TrackCut(before[r.trackId], r.packets, left)
    ensures TrackState(before, after[r.trackId := left], runs + [r], visited + {r.trackId}, x)
  {
    hide TrackCut, Taken;
    TakenNext(runs, r, x);
  }

  lemma CutTrack(buf: seq<Packet>, cut: nat)
    requires buf != [] && CutAt(buf, cut)
    ensures 0 < cut <= |buf| && TrackCut(buf, buf[..cut], buf[cut..])
  {
    assert buf[..cut] + buf[cut..] == buf;
  }

  lemma CutSkip(before: Buffers, after: Buffers, runs: seq<Run>, visited: set<u32>, id: u32)
    requires id in before && CutTo(before, after, runs, visited) && id !in visited && before[id] == []
    ensures CutTo(before, after, runs, visited + {id})
  {
    hide TrackState, RunsOk;
    forall x: u32 | x in before ensures TrackState(before, after, runs, visited + {id}, x) {
      assert TrackState(before, after, runs, visited, x);
      TrackSkip(before, after, runs, visited, id, x);
    }
  }

  lemma TrackSkip(before: Buffers, after: Buffers, runs: seq<Run>, visited: set<u32>, id: u32, x: u32)
    requires TrackState(before, after, runs, visited, x) && id !in visited && id in before && before[id] == []
    requires forall k | 0 <= k < |runs| :: runs[k].trackId in visited
    ensures TrackState(before, after, runs, visited + {id}, x)
  {
    if x == id {
      TakenNone(runs, id);
    }
  }

  /** When all tracks have been visited, all are cut. */
  lemma CutAll(before: Buffers, after: Buffers, runs: seq<Run>, visited: set<u32>)
    requires CutTo(before, after, runs, visited) && before.Keys <= visited
    ensures Cuts(before, after, runs)
  {
    hide TrackCut, RunsOk, Taken;
    forall id: u32 | id in before ensures TrackCut(before[id], Taken(runs, id), after[id]) {
      assert TrackState(before, after, runs, visited, id);
    }
  }

  /** A track not visited is as it was. */
  lemma NotVisited(before: Buffers, after: Buffers, runs: seq<Run>, visited: set<u32>, id: u32)
    requires CutTo(before, after, runs, visited) && id in before && id !in visited
    ensures id in after && after[id] == before[id]
  {
    assert TrackState(before, after, runs, visited, id);
  }

  // ---- The one way to cut ----

  /** How many packets there are up to the last keyframe, and with it. */
  function LastKey(buf: seq<Packet>): (n: nat)
    ensures n <= |buf|
    decreases |buf|
  {
    if buf == [] then 0 else if buf[|buf| - 1].key then |buf| else LastKey(buf[..|buf| - 1])
  }

  function CutPoint(buf: seq<Packet>): (cut: nat)
    ensures cut <= |buf|
  {
    if LastKey(buf) == 0 then |buf| else LastKey(buf)
  }

  lemma {:induction false} LastKeyIs(buf: seq<Packet>)
    ensures LastKey(buf) == 0 <==> !HasKey(buf)
    ensures LastKey(buf) > 0 ==> buf[LastKey(buf) - 1].key
    ensures forall k | LastKey(buf) <= k < |buf| :: !buf[k].key
    decreases |buf|
  {
    if buf != [] {
      var n := |buf| - 1;
      LastKeyIs(buf[..n]);
      assert forall k | 0 <= k < n :: buf[..n][k] == buf[k];
      if buf[n].key {
        assert HasKey(buf);
      } else if HasKey(buf) {
        var k :| 0 <= k < |buf| && buf[k].key;
        assert buf[..n][k].key;
      }
    }
  }

  /** A buffer with packets can be cut in one place only. */
  lemma CutIsPoint(buf: seq<Packet>, cut: nat)
    requires buf != []
    ensures CutAt(buf, cut) <==> cut == CutPoint(buf)
  {
    hide HasKey, LastKey;
    LastKeyIs(buf);
    if 0 < cut <= |buf| {
      KeysBehind(buf, cut);
    }
    KeysBehind(buf, LastKey(buf));
  }

  lemma KeysBehind(buf: seq<Packet>, cut: nat)
    requires cut <= |buf|
    ensures HasKey(buf[cut..]) <==> exists k | cut <= k < |buf| :: buf[k].key
  {
    if HasKey(buf[cut..]) {
      var k :| 0 <= k < |buf| - cut && buf[cut..][k].key;
      assert buf[cut + k].key;
    }
    if k :| cut <= k < |buf| && buf[k].key {
      assert buf[cut..][k - cut].key;
    }
  }

  /** The runs a flush takes: one of each track below `n` that has packets, in ascending order. */
  ghost function RunsBelow(buffers: Buffers, n: nat): seq<Run>
    requires n <= U32_MAX + 1
  {
    if n == 0 then []
    else
      var id: u32 := n - 1;
      var buf := At(buffers, id);
      RunsBelow(buffers, n - 1) + if buf == [] then [] else [Run(id, buf[..CutPoint(buf)])]
  }

  ghost function RunsOf(buffers: Buffers): seq<Run>
  {
    RunsBelow(buffers, U32_MAX + 1)
  }

  /** What a flush leaves in the buffers. */
  ghost function LeftOf(buffers: Buffers): Buffers
  {
    map id: u32 | id in buffers :: buffers[id][CutPoint(buffers[id])..]
  }

  lemma {:induction false} RunsBelowOk(buffers: Buffers, n: nat)
    requires n <= U32_MAX + 1
    ensures RunsOk(RunsBelow(buffers, n))
    ensures forall k | 0 <= k < |RunsBelow(buffers, n)| ::
              RunsBelow(buffers, n)[k].trackId < n && RunsBelow(buffers, n)[k].trackId in buffers
    decreases n
  {
    hide CutPoint;
    if n > 0 {
      RunsBelowOk(buffers, n - 1);
      var id: u32 := n - 1;
      var buf, before := At(buffers, id), RunsBelow(buffers, n - 1);
      if buf != [] {
        CutSome(buf);
        RunNext(before, Run(id, buf[..CutPoint(buf)]));
      }
    }
  }

  lemma BelowNext(buffers: Buffers, n: nat)
    requires 0 < n <= U32_MAX + 1
    ensures var id: u32 := n - 1;
            var buf := At(buffers, id);
            RunsBelow(buffers, n) ==
            RunsBelow(buffers, n - 1) + if buf == [] then [] else [Run(id, buf[..CutPoint(buf)])]
  {
  }

  lemma TakenStep(buffers: Buffers, n: nat, x: u32)
    requires 0 < n <= U32_MAX + 1
    ensures Taken(RunsBelow(buffers, n), x) ==
            if x == n - 1 then At(buffers, x)[..CutPoint(At(buffers, x))] else Taken(RunsBelow(buffers, n - 1), x)
  {
    hide CutPoint, At, Taken, RunsBelow, RunsOk;
    var id: u32 := n - 1;
    var buf, before := At(buffers, id), RunsBelow(buffers, n - 1);
    BelowNext(buffers, n);
    RunsBelowOk(buffers, n - 1);
    if buf == [] {
      assert before + [] == before && buf[..CutPoint(buf)] == [];
      TakenNone(before, id);
    } else {
      TakenNext(before, Run(id, buf[..CutPoint(buf)]), x);
    }
  }

  lemma {:induction false} TakenBelow(buffers: Buffers, n: nat, x: u32)
    requires n <= U32_MAX + 1
    ensures Taken(RunsBelow(buffers, n), x) == if x < n then At(buffers, x)[..CutPoint(At(buffers, x))] else []
    decreases n
  {
    hide CutPoint, At;
    if n > 0 {
      TakenStep(buffers, n, x);
      TakenBelow(buffers, n - 1, x);
    }
  }

  lemma CutSome(buf: seq<Packet>)
    requires buf != []
    ensures 0 < CutPoint(buf) <= |buf|
  {
  }

  /** Runs in ascending order are determined by what they take of each track. */
  lemma {:induction false} SameRuns(a: seq<Run>, b: seq<Run>)
    requires RunsOk(a) && RunsOk(b) && forall id: u32 :: Taken(a, id) == Taken(b, id)
    ensures a == b
    decreases |a| + |b|
  {
    hide Taken, RunsOk;
    if a == [] || b == [] {
      if a != [] {
        TakenNone(b, a[|a| - 1].trackId);
        assert Taken(a, a[|a| - 1].trackId) == [];
        LastTaken(a);
      }
      if b != [] {
        TakenNone(a, b[|b| - 1].trackId);
        assert Taken(b, b[|b| - 1].trackId) == [];
        LastTaken(b);
      }
    } else {
      assert Taken(a, a[|a| - 1].trackId) == Taken(b, a[|a| - 1].trackId);
      assert Taken(a, b[|b| - 1].trackId) == Taken(b, b[|b| - 1].trackId);
      SameLast(a, b);
      SplitLast(a);
      SplitLast(b);
      var last, a', b' := a[|a| - 1], a[..|a| - 1], b[..|b| - 1];
      forall id: u32 ensures Taken(a', id) == Taken(b', id) {
        assert Taken(a, id) == Taken(b, id);
        TakenNext(a', last, id);
        TakenNext(b', last, id);
        if id == last.trackId {
          TakenNone(a', id);
          TakenNone(b', id);
        }
      }
      SameRuns(a', b');
    }
  }

  lemma SameLast(a: seq<Run>, b: seq<Run>)
    requires RunsOk(a) && RunsOk(b) && a != [] && b != []
    requires Taken(a, a[|a| - 1].trackId) == Taken(b, a[|a| - 1].trackId)
    requires Taken(a, b[|b| - 1].trackId) == Taken(b, b[|b| - 1].trackId)
    ensures a[|a| - 1] == b[|b| - 1]
  {
    hide Taken, RunsOk;
    LastTaken(a);
    LastTaken(b);
  }

  lemma SplitLast(runs: seq<Run>)
    requires RunsOk(runs) && runs != []
    ensures var n := |runs| - 1;
            && runs == runs[..n] + [runs[n]] && RunsOk(runs[..n])
            && forall k | 0 <= k < n :: runs[..n][k].trackId < runs[n].trackId
  {
    assert forall k | 0 <= k < |runs| - 1 :: runs[..|runs| - 1][k] == runs[k];
  }

  /** The last run is all that is taken of its track, which is the highest of those with packets. */
  lemma LastTaken(runs: seq<Run>)
    requires RunsOk(runs) && runs != []
    ensures var last := runs[|runs| - 1];
            Taken(runs, last.trackId) == last.packets != [] && forall id: u32 | id > last.trackId ::
              Taken(runs, id) == []
  {
    var n := |runs| - 1;
    var last := runs[n];
    TakenNone(runs[..n], last.trackId);
    assert [] + last.packets == last.packets;
    forall id: u32 | id > last.trackId ensures Taken(runs, id) == [] {
      TakenNone(runs, id);
    }
  }

  lemma TakenAll(buffers: Buffers, id: u32)
    ensures RunsOk(RunsOf(buffers)) && Taken(RunsOf(buffers), id) == At(buffers, id)[..CutPoint(At(buffers, id))]
  {
    hide CutPoint, RunsBelow, RunsOk;
    RunsBelowOk(buffers, U32_MAX + 1);
    TakenBelow(buffers, U32_MAX + 1, id);
  }

  lemma PointsCut(before: Buffers)
    ensures Cuts(before, LeftOf(before), RunsOf(before))
  {
    hide TrackCut, CutPoint, RunsBelow, RunsOk;
    RunsBelowOk(before, U32_MAX + 1);
    forall id: u32 | id in before ensures TrackCut(before[id], Taken(RunsOf(before), id), LeftOf(before)[id]) {
      PointCuts(before[id]);
      TakenAll(before, id);
    }
  }

  /** The rule for cutting determines the runs and what is left, and they obey it. */
  lemma CutsExactly(before: Buffers, after: Buffers, runs: seq<Run>)
    ensures Cuts(before, after, runs) <==> runs == RunsOf(before) && after == LeftOf(before)
  {
    hide TrackCut, CutPoint, RunsOk, RunsOf;
    PointsCut(before);
    if Cuts(before, after, runs) {
      forall id: u32 ensures Taken(runs, id) == Taken(RunsOf(before), id) {
        TakenAll(before, id);
        if id in before {
          OneCut(before[id], Taken(runs, id), after[id]);
        } else {
          TakenNone(runs, id);
        }
      }
      SameRuns(runs, RunsOf(before));
      forall id: u32 | id in before ensures after[id] == LeftOf(before)[id] {
        OneCut(before[id], Taken(runs, id), after[id]);
      }
    }
  }

  lemma PointCuts(buf: seq<Packet>)
    ensures TrackCut(buf, buf[..CutPoint(buf)], buf[CutPoint(buf)..])
  {
    var cut := CutPoint(buf);
    assert buf[..cut] + buf[cut..] == buf;
    if buf != [] {
      CutIsPoint(buf, cut);
    }
  }

  lemma OneCut(buf: seq<Packet>, taken: seq<Packet>, after: seq<Packet>)
    requires TrackCut(buf, taken, after)
    ensures taken == buf[..CutPoint(buf)] && after == buf[CutPoint(buf)..]
  {
    assert (taken + after)[..|taken|] == taken && (taken + after)[|taken|..] == after;
    if buf != [] {
      CutIsPoint(buf, |taken|);
    }
  }

  /** Track by track, what was pushed is what was emitted followed by what is buffered. */
  ghost predicate Conserved(pushed: Buffers, emitted: Buffers, buffers: Buffers)
  {
    forall id: u32 :: At(pushed, id) == At(emitted, id) + At(buffers, id)
  }

  /** The emitted packets with those of another segment. */
  ghost function Emit(emitted: Buffers, runs: seq<Run>): Buffers
  {
    map id: u32 | id in emitted.Keys + (set k | 0 <= k < |runs| :: runs[k].trackId) :: At(emitted, id) + Taken(runs, id)
  }

  lemma EmitAt(emitted: Buffers, runs: seq<Run>, id: u32)
    ensures At(Emit(emitted, runs), id) == At(emitted, id) + Taken(runs, id)
  {
    if id !in Emit(emitted, runs) {
      TakenNone(runs, id);
    }
  }

  lemma PushConserves(pushed: Buffers, emitted: Buffers, buffers: Buffers, id: u32, p: Packet)
    requires Conserved(pushed, emitted, buffers)
    ensures Conserved(pushed[id := At(pushed, id) + [p]], emitted, buffers[id := At(buffers, id) + [p]])
  {
    assert At(pushed, id) == At(emitted, id) + At(buffers, id);
    Assoc(At(emitted, id), At(buffers, id), [p]);
    forall x: u32
      ensures At(pushed[id := At(pushed, id) + [p]], x) == At(emitted, x) + At(buffers[id := At(buffers, id) + [p]], x)
    {
      assert At(pushed, x) == At(emitted, x) + At(buffers, x);
    }
  }

  lemma FlushConserves(pushed: Buffers, emitted: Buffers, before: Buffers, after: Buffers, runs: seq<Run>)
    requires Conserved(pushed, emitted, before) && Cuts(before, after, runs)
    ensures Conserved(pushed, Emit(emitted, runs), after)
  {
    hide CutAt, HasKey, Emit, RunsOk;
    forall id: u32 ensures At(pushed, id) == At(Emit(emitted, runs), id) + At(after, id) {
      assert At(pushed, id) == At(emitted, id) + At(before, id);
      EmitAt(emitted, runs, id);
      if id in before {
        Assoc(At(emitted, id), Taken(runs, id), after[id]);
      } else {
        TakenNone(runs, id);
      }
    }
  }

  class FragmentedMp4Muxer<C> {
    const init: Init<C>

    var configs: map<u32, C>
    var buffers: Buffers
    var sequence: u32
    var initSegment: Option<bytes>
    var lastInitHash: u64

    /** What has been pushed and emitted for each track, unless a segment was lost to an error. */
    ghost var pushed: Buffers
    ghost var emitted: Buffers
    ghost var failed: bool

    ghost function Numbers(): Numbering
      reads this`sequence, this`initSegment, this`lastInitHash
    {
      Numbering(sequence, if initSegment.None? then None else Some(lastInitHash))
    }

    ghost predicate Valid()
      reads this`pushed, this`emitted, this`buffers, this`failed
    {
      !failed ==> Conserved(pushed, emitted, buffers)
    }

    constructor (init: Init<C>)
      ensures Valid() && this.init == init && !failed && sequence == 1 && initSegment == None
      ensures pushed == map[] && emitted == map[] && buffers == map[] && configs == map[]
    {
      this.init := init;
      configs, buffers, sequence, initSegment, lastInitHash := map[], map[], 1, None, 0;
      pushed, emitted, failed := map[], map[], false;
    }

    method Configure(id: u32, config: C)
      modifies this`configs
      ensures configs == old(configs)[id := config]
    {
      configs := configs[id := config];
    }

    method PushPacket(id: u32, p: Packet) returns (r: Result<(), Mp4Error>)
      requires Valid()
      modifies this`buffers, this`pushed
      ensures Valid()
      ensures id !in configs ==> r == Err(InvalidInput(3505)) && unchanged(this)
      ensures id in configs ==> && r.Ok? && pushed == old(pushed)[id := At(old(pushed), id) + [p]]
                                && buffers == old(buffers)[id := At(old(buffers), id) + [p]]
    {
      hide Conserved;
      if id !in configs {
        return Err(InvalidInput(3505));
      }
      if !failed {
        PushConserves(pushed, emitted, buffers, id, p);
      }
      pushed := pushed[id := At(pushed, id) + [p]];
      buffers := buffers[id := At(buffers, id) + [p]];
      return Ok(());
    }

    /** Takes the packets up to each track's cut. */
    method TakeRuns() returns (runs: seq<Run>)
      modifies this`buffers
      ensures Cuts(old(buffers), buffers, runs)
      ensures runs == [] <==> forall id | id in old(buffers) :: old(buffers)[id] == []
    {
      hide CutTo, CutAt, Cuts;
      var ids := Ascending(buffers.Keys);
      runs := [];
      ghost var visited: set<u32> := {};
      NoCuts(buffers);
      for n := 0 to |ids|
        invariant CutTo(old(buffers), buffers, runs, visited) && forall v: u32 :: v in visited <==> v in ids[..n]
        invariant runs == [] <==> forall v: u32 | v in visited && v in old(buffers) :: old(buffers)[v] == []
      {
        assert ids[n] in ids && ids[..n + 1] == ids[..n] + [ids[n]];
        var id: u32 := ids[n];
        assert forall v | v in visited :: v < id;
        NotVisited(old(buffers), buffers, runs, visited, id);
        if buffers[id] == [] {
          CutSkip(old(buffers), buffers, runs, visited, id);
        } else {
          var cut := FindCut(buffers[id]);
          CutNext(old(buffers), buffers, runs, visited, id, cut);
          runs := runs + [Run(id, buffers[id][..cut])];
          buffers := buffers[id := buffers[id][cut..]];
        }
        visited := visited + {id};
      }
      assert ids[..|ids|] == ids;
      CutAll(old(buffers), buffers, runs, visited);
    }

    /** The initialisation segment, when there is none yet or the configuration's hash has changed. */
    method RefreshInit() returns (r: Result<Option<bytes>, Mp4Error>)
      modifies this`initSegment, this`lastInitHash
      ensures old(initSegment).Some? && init.hash(configs) == old(lastInitHash) ==> r == Ok(None) && unchanged(this)
      ensures old(initSegment).None? || init.hash(configs) != old(lastInitHash) ==>
                match init.segment(configs)
                case Err(e) => r == Err(e) && unchanged(this)
                case Ok(s) => r == Ok(Some(s)) && initSegment == Some(s) && lastInitHash == init.hash(configs)
    {
      var hash := init.hash(configs);
      if initSegment.None? || hash != lastInitHash {
        var segment := init.segment(configs);
        if segment.Err? {
          return Err(segment.error);
        }
        lastInitHash := hash;
        initSegment := Some(segment.value);
        return Ok(Some(segment.value));
      }
      return Ok(None);
    }

    /** A segment with at least one packet of every track that has any; an error loses the packets taken for it. */
    method FlushSegment() returns (r: Result<Option<SegmentOutput>, Mp4Error>, ghost runs: seq<Run>)
      requires Valid()
      modifies this`buffers, this`sequence, this`initSegment, this`lastInitHash, this`emitted, this`failed
      ensures Valid() && Cuts(old(buffers), buffers, runs)
      ensures runs == RunsOf(old(buffers)) && buffers == LeftOf(old(buffers))
      ensures (Numbers(), r) == FlushAnswer(init, configs, runs, old(Numbers()))
      ensures (forall id | id in old(buffers) :: old(buffers)[id] == []) <==> runs == []
      ensures runs == [] ==>
                r == Ok(None) && sequence == old(sequence) && failed == old(failed) && emitted == old(emitted)
      ensures runs != [] && r.Err? ==> failed
      ensures var due := old(initSegment).None? || init.hash(configs) != old(lastInitHash);
              && (runs != [] && due && init.segment(configs).Err? ==> r == Err(init.segment(configs).error))
              && (runs != [] && !(due && init.segment(configs).Err?) && Moof(runs, old(sequence)).Err? ==>
                    r == Err(Moof(runs, old(sequence)).error))
              && (runs != [] && !(due && init.segment(configs).Err?) && Moof(runs, old(sequence)).Ok? ==>
                    r.Ok? && r.value.Some?
                    && r.value.value.initSegment == if due then Some(init.segment(configs).value) else None)
      ensures runs != [] && r.Ok? ==>
                && r.value.Some? && failed == old(failed) && emitted == Emit(old(emitted), runs)
                && r.value.value.sequence == old(sequence)
                && sequence == (if old(sequence) == U32_MAX then 0 else old(sequence) + 1)
                && Moof(runs, old(sequence)).Ok?
                && r.value.value.mediaSegment == Moof(runs, old(sequence)).value + WriteBox(MDAT, MdatBody(runs))
    {
      hide Conserved, Cuts, Moof, WriteBox, MdatBody, Emit, RunsOf, LeftOf, HasKey, At;
      runs := [];
      var taken := TakeRuns();
      runs := taken;
      CutsExactly(old(buffers), buffers, runs);
      if !failed {
        FlushConserves(pushed, emitted, old(buffers), buffers, runs);
      }
      if taken == [] {
        NothingTaken(emitted, pushed, old(buffers), buffers, runs);
        return Ok(None), runs;
      }
      emitted := Emit(emitted, runs);
      r := WriteRuns(taken);
      failed := failed || r.Err?;
    }

    /** Numbers and writes the segment of the packets taken, with the initialisation segment when that is due. */
    method WriteRuns(runs: seq<Run>) returns (r: Result<Option<SegmentOutput>, Mp4Error>)
      requires runs != []
      modifies this`sequence, this`initSegment, this`lastInitHash
      ensures (Numbers(), r) == FlushAnswer(init, configs, runs, old(Numbers()))
    {
      hide Moof, WriteBox, MdatBody;
      var initial := RefreshInit();
      if initial.Err? {
        return Err(initial.error);
      }
      var media := WriteMediaSegment(runs, sequence);
      if media.Err? {
        return Err(media.error);
      }
      var output := SegmentOutput(initial.value, media.value, sequence);
      sequence := if sequence == U32_MAX then 0 else sequence + 1;
      return Ok(Some(output));
    }
  }

  /** Nothing taken leaves everything where it was. */
  lemma NothingTaken(emitted: Buffers, pushed: Buffers, before: Buffers, after: Buffers, runs: seq<Run>)
    requires Cuts(before, after, runs) && runs == []
    ensures Conserved(pushed, emitted, before) ==> Conserved(pushed, emitted, after)
  {
    forall id: u32 ensures At(after, id) == At(before, id) {
      if id in before {
        assert [] + after[id] == after[id];
      }
    }
  }

  lemma NoCuts(buffers: Buffers)
    ensures CutTo(buffers, buffers, [], {})
  {
  }

  // ---- Whole runs ----

  datatype Op<C> = Configure(id: u32, config: C) | Push(id: u32, packet: Packet) | Flush

  type Answer = Result<Option<SegmentOutput>, Mp4Error>

  function Configured<C>(ops: seq<Op<C>>): map<u32, C>
    decreases |ops|
  {
    if ops == [] then map[]
    else
      var last := ops[|ops| - 1];
      var before := Configured(ops[..|ops| - 1]);
      if last.Configure? then before[last.id := last.config] else before
  }

  /** The packets pushed for a track and accepted. */
  function PushedTo<C>(ops: seq<Op<C>>, id: u32): seq<Packet>
    decreases |ops|
  {
    if ops == [] then []
    else
      var n := |ops| - 1;
      PushedTo(ops[..n], id) + if ops[n].Push? && ops[n].id == id && id in Configured(ops[..n]) then [ops[n].packet]
      else []
  }

  /**
   * What is buffered after the operations: pushes add to their track's buffer and flushes leave what is behind the
   * cut.
   */
  ghost function BuffersAfter<C>(ops: seq<Op<C>>): Buffers
    decreases |ops|
  {
    if ops == [] then map[]
    else
      var n := |ops| - 1;
      var b := BuffersAfter(ops[..n]);
      match ops[n]
      case Configure(_, _) => b
      case Push(id, p) => if id in Configured(ops[..n]) then b[id := At(b, id) + [p]] else b
      case Flush => LeftOf(b)
  }

  /** What has been cut out: for each flush that found packets, the runs it took. */
  ghost function SegmentsAfter<C>(ops: seq<Op<C>>): seq<seq<Run>>
    decreases |ops|
  {
    if ops == [] then []
    else
      var n := |ops| - 1;
      var runs := RunsOf(BuffersAfter(ops[..n]));
      SegmentsAfter(ops[..n]) + if ops[n].Flush? && runs != [] then [runs] else []
  }

  /** The number the next segment gets, and the hash of the configuration last announced. */
  datatype Numbering = Numbering(sequence: u32, hash: Option<u64>)

  /** How a flush that takes `runs` is answered; a failure to write the media counts the configuration as announced. */
  function FlushAnswer<C>(init: Init<C>, configs: map<u32, C>, runs: seq<Run>, n: Numbering): (Numbering, Answer)
  {
    if runs == [] then (n, Ok(None))
    else
      var due := n.hash != Some(init.hash(configs));
      var head := init.segment(configs);
      if due && head.Err? then (n, Err(head.error))
      else
        var announced := n.(hash := Some(init.hash(configs)));
        match Moof(runs, n.sequence)
        case Err(e) => (announced, Err(e))
        case Ok(moof) =>
          (announced.(sequence := if n.sequence == U32_MAX then 0 else n.sequence + 1),
           Ok(Some(SegmentOutput(if due then Some(head.value) else None, moof + WriteBox(MDAT, MdatBody(runs)),
                                 n.sequence))))
  }

  ghost function NumberingAfter<C>(init: Init<C>, ops: seq<Op<C>>): Numbering
    decreases |ops|
  {
    if ops == [] then Numbering(1, None)
    else
      var n := |ops| - 1;
      var before := NumberingAfter(init, ops[..n]);
      if ops[n].Flush? then
        FlushAnswer(init, Configured(ops[..n]), RunsOf(BuffersAfter(ops[..n])), before).0
      else before
  }

  /** How operation `k` is answered. */
  ghost function AnswerAt<C>(init: Init<C>, ops: seq<Op<C>>, k: nat): Answer
    requires k < |ops|
  {
    match ops[k]
    case Configure(_, _) => Ok(None)
    case Push(id, _) => if id in Configured(ops[..k]) then Ok(None) else Err(InvalidInput(3505))
    case Flush => FlushAnswer(init, Configured(ops[..k]), RunsOf(BuffersAfter(ops[..k])),
                              NumberingAfter(init, ops[..k])).1
  }

  method Serve<C>(mux: FragmentedMp4Muxer<C>, op: Op<C>) returns (answer: Answer)
    requires mux.Valid()
    modifies mux
    ensures mux.Valid() && mux.configs == if op.Configure? then old(mux.configs)[op.id := op.config]
            else old(mux.configs)
    ensures var before := old(mux.buffers);
            var flushed := FlushAnswer(mux.init, old(mux.configs), RunsOf(before), old(mux.Numbers()));
            match op
            case Configure(_, _) => mux.buffers == before && mux.Numbers() == old(mux.Numbers()) && answer == Ok(None)
            case Push(id, p) =>
              if id in old(mux.configs) then
                mux.buffers == before[id := At(before, id) + [p]] && mux.Numbers() == old(mux.Numbers())
                && answer == Ok(None)
              else
                mux.buffers == before && mux.Numbers() == old(mux.Numbers()) && answer == Err(InvalidInput(3505))
            case Flush => mux.buffers == LeftOf(before) && (mux.Numbers(), answer) == flushed
  {
    hide FlushAnswer, RunsOf, LeftOf, At;
    answer := Ok(None);
    match op {
      case Configure(id, config) =>
        mux.Configure(id, config);
      case Push(id, packet) =>
        var pushed := mux.PushPacket(id, packet);
        if pushed.Err? {
          answer := Err(pushed.error);
        }
      case Flush =>
        var flushed, _ := mux.FlushSegment();
        answer := flushed;
    }
  }

  /**
   * Any run of operations, whatever fails: each operation is answered as the operations before it demand, and what is
   * buffered in the end is what they leave.
   */
  method MuxRun<C>(init: Init<C>, ops: seq<Op<C>>) returns (answers: seq<Answer>, retained: Buffers)
    ensures |answers| == |ops| && forall k | 0 <= k < |ops| :: answers[k] == AnswerAt(init, ops, k)
    ensures retained == BuffersAfter(ops)
  {
    hide FlushAnswer, RunsOf, LeftOf, BuffersAfter, NumberingAfter, Configured;
    var mux := new FragmentedMp4Muxer<C>(init);
    answers := [];
    Before(init);
    assert ops[..0] == [];
    for i := 0 to |ops|
      invariant |answers| == i && forall k | 0 <= k < i :: answers[k] == AnswerAt(init, ops, k)
      invariant mux.Valid() && mux.init == init && mux.configs == Configured(ops[..i])
                && mux.buffers == BuffersAfter(ops[..i])
      invariant mux.Numbers() == NumberingAfter(init, ops[..i])
    {
      RunSnoc(init, ops, i);
      var answer := Serve(mux, ops[i]);
      answers := answers + [answer];
    }
    assert ops[..|ops|] == ops;
    return answers, mux.buffers;
  }

  lemma Before<C>(init: Init<C>)
    ensures Configured<C>([]) == map[] && BuffersAfter<C>([]) == map[] && NumberingAfter(init, []) == Numbering(1, None)
  {
  }

  lemma RunSnoc<C>(init: Init<C>, ops: seq<Op<C>>, i: nat)
    requires i < |ops|
    ensures var b, configs, n := BuffersAfter(ops[..i]), Configured(ops[..i]), NumberingAfter(init, ops[..i]);
            && Configured(ops[..i + 1]) == (if ops[i].Configure? then configs[ops[i].id := ops[i].config] else configs)
            && BuffersAfter(ops[..i + 1]) ==
               (match ops[i]
                case Configure(_, _) => b
                case Push(id, p) => if id in configs then b[id := At(b, id) + [p]] else b
                case Flush => LeftOf(b))
            && NumberingAfter(init, ops[..i + 1]) ==
            (if ops[i].Flush? then FlushAnswer(init, configs, RunsOf(b), n).0 else n)
            && SegmentsAfter(ops[..i + 1]) ==
               SegmentsAfter(ops[..i]) + (if ops[i].Flush? && RunsOf(b) != [] then [RunsOf(b)] else [])
  {
    hide FlushAnswer, RunsOf, LeftOf;
    assert ops[..i + 1][..i] == ops[..i] && ops[..i + 1][i] == ops[i];
  }

  // ---- What a run keeps ----

  /** The packets of a track in all segments. */
  function EmittedTo(segments: seq<seq<Run>>, id: u32): seq<Packet>
    decreases |segments|
  {
    if segments == [] then []
    else EmittedTo(segments[..|segments| - 1], id) + Taken(segments[|segments| - 1], id)
  }

  /** Every packet is in exactly one segment or retained, in order, track by track. */
  ghost predicate Accounted<C>(ops: seq<Op<C>>, segments: seq<seq<Run>>, retained: Buffers)
  {
    forall id: u32 :: PushedTo(ops, id) == EmittedTo(segments, id) + At(retained, id)
  }

  lemma CutSplits(buffers: Buffers, id: u32)
    ensures At(buffers, id) == Taken(RunsOf(buffers), id) + At(LeftOf(buffers), id)
  {
    hide CutPoint, RunsOf;
    TakenAll(buffers, id);
    var buf := At(buffers, id);
    assert buf[..CutPoint(buf)] + buf[CutPoint(buf)..] == buf;
  }

  lemma {:induction false} TrackAccounted<C>(ops: seq<Op<C>>, id: u32)
    ensures PushedTo(ops, id) == EmittedTo(SegmentsAfter(ops), id) + At(BuffersAfter(ops), id)
    decreases |ops|
  {
    hide RunsOf, LeftOf, Configured;
    if ops != [] {
      var n := |ops| - 1;
      TrackAccounted(ops[..n], id);
      var b, segments := BuffersAfter(ops[..n]), SegmentsAfter(ops[..n]);
      match ops[n] {
        case Configure(_, _) =>
          assert PushedTo(ops[..n], id) + [] == PushedTo(ops[..n], id);
          assert segments + [] == segments;
        case Push(_, p) =>
          Assoc(EmittedTo(segments, id), At(b, id), [p]);
          assert PushedTo(ops[..n], id) + [] == PushedTo(ops[..n], id);
          assert segments + [] == segments;
        case Flush =>
          assert PushedTo(ops[..n], id) + [] == PushedTo(ops[..n], id);
          CutSplits(b, id);
          var runs := RunsOf(b);
          if runs == [] {
            assert segments + [] == segments && [] + At(LeftOf(b), id) == At(LeftOf(b), id);
          } else {
            assert (segments + [runs])[..|segments|] == segments;
            Assoc(EmittedTo(segments, id), Taken(runs, id), At(LeftOf(b), id));
          }
      }
    }
  }

  /** Over any run, what has been cut out and what is buffered are the packets accepted, track by track and in order. */
  lemma RunConserves<C>(ops: seq<Op<C>>)
    ensures Accounted(ops, SegmentsAfter(ops), BuffersAfter(ops))
  {
    hide PushedTo, EmittedTo, SegmentsAfter, BuffersAfter;
    forall id: u32 ensures PushedTo(ops, id) == EmittedTo(SegmentsAfter(ops), id) + At(BuffersAfter(ops), id) {
      TrackAccounted(ops, id);
    }
  }

  /** Some buffer has packets. */
  ghost predicate Waiting(buffers: Buffers)
  {
    exists id | id in buffers :: buffers[id] != []
  }

  /**
   * A flush cuts out one segment if any packet is buffered and none otherwise; the segment has a run of every track
   * with packets, which takes at least one of them, and no keyframe stays behind.
   */
  lemma FlushTakesAll<C>(ops: seq<Op<C>>)
    ensures var before, after := BuffersAfter(ops), BuffersAfter(ops + [Flush]);
            && SegmentsAfter(ops + [Flush]) == SegmentsAfter(ops) + (if Waiting(before) then [RunsOf(before)] else [])
            && (forall id | id in before && before[id] != [] ::
                  exists k | 0 <= k < |RunsOf(before)| ::
                    RunsOf(before)[k].trackId == id && RunsOf(before)[k].packets != []
                                                        && RunsOf(before)[k].packets + after[id] == before[id])
            && forall id | id in after :: !HasKey(after[id])
  {
    var before, after := BuffersAfter(ops), BuffersAfter(ops + [Flush]);
    var runs := RunsOf(before);
    assert (ops + [Flush])[..|ops|] == ops;
    CutsExactly(before, LeftOf(before), runs);
    hide RunsOf, BuffersAfter, SegmentsAfter, LeftOf, HasKey;
    FlushSnoc(ops);
    forall id | id in before && before[id] != []
      ensures exists k | 0 <= k < |runs| ::
                runs[k].trackId == id && runs[k].packets != [] && runs[k].packets + after[id] == before[id]
    {
      assert TrackCut(before[id], Taken(runs, id), after[id]);
      var k := TakenRun(runs, id);
    }
    NoneTaken(before, runs);
  }

  lemma FlushSnoc<C>(ops: seq<Op<C>>)
    ensures BuffersAfter(ops + [Flush]) == LeftOf(BuffersAfter(ops))
    ensures SegmentsAfter(ops + [Flush]) ==
            SegmentsAfter(ops) + if RunsOf(BuffersAfter(ops)) != [] then [RunsOf(BuffersAfter(ops))] else []
  {
    hide RunsOf, LeftOf;
    assert (ops + [Flush])[..|ops|] == ops;
  }

  /** What is taken of a track is taken by one run. */
  lemma {:induction false} TakenRun(runs: seq<Run>, id: u32) returns (k: nat)
    requires RunsOk(runs) && Taken(runs, id) != []
    ensures k < |runs| && runs[k].trackId == id && runs[k].packets == Taken(runs, id)
    decreases |runs|
  {
    var n := |runs| - 1;
    if runs[n].trackId == id {
      TakenNone(runs[..n], id);
      k := n;
      assert [] + runs[n].packets == runs[n].packets;
    } else {
      assert Taken(runs[..n], id) + [] == Taken(runs[..n], id);
      k := TakenRun(runs[..n], id);
    }
  }

  lemma NoneTaken(before: Buffers, runs: seq<Run>)
    requires Cuts(before, LeftOf(before), runs)
    ensures runs != [] <==> Waiting(before)
  {
    hide LeftOf, HasKey;
    if runs != [] {
      LastTaken(runs);
      var id := runs[|runs| - 1].trackId;
      assert TrackCut(before[id], Taken(runs, id), LeftOf(before)[id]);
      assert before[id] != [];
    }
    if Waiting(before) {
      var id :| id in before && before[id] != [];
      assert TrackCut(before[id], Taken(runs, id), LeftOf(before)[id]);
    }
  }

  /** The segments written, in order. */
  function OutputsIn(answers: seq<Answer>): seq<SegmentOutput>
    decreases |answers|
  {
    if answers == [] then []
    else
      var last := answers[|answers| - 1];
      OutputsIn(answers[..|answers| - 1]) + if last.Ok? && last.value.Some? then [last.value.value] else []
  }

  /** The segments of a run, numbered from 1, each the written form of its packets. */
  ghost predicate SegmentsOf(outputs: seq<SegmentOutput>, segments: seq<seq<Run>>)
  {
    |outputs| == |segments| && forall k | 0 <= k < |outputs| :: SegmentOf(outputs[k], k, segments[k])
  }

  ghost predicate SegmentOf(output: SegmentOutput, k: nat, runs: seq<Run>)
  {
    && output.sequence == (k + 1) % 0x1_0000_0000 && runs != [] && RunsOk(runs)
    && Moof(runs, output.sequence).Ok?
    && output.mediaSegment == Moof(runs, output.sequence).value + WriteBox(MDAT, MdatBody(runs))
  }

  /**
   * An initialisation segment is lost with the media segment that fails: a flush that succeeds behind one that failed, in
   * the same configuration, comes without any.
   */
  lemma FailedFlushLosesInit<C>(init: Init<C>, configs: map<u32, C>, n: Numbering, runs: seq<Run>, more: seq<Run>)
    requires more != [] && FlushAnswer(init, configs, runs, n).1.Err?
    requires FlushAnswer(init, configs, more, FlushAnswer(init, configs, runs, n).0).1.Ok?
    ensures var later := FlushAnswer(init, configs, more, FlushAnswer(init, configs, runs, n).0).1;
            later.value.Some? && later.value.value.initSegment == None
  {
    hide Moof, WriteBox, MdatBody;
  }

  /** The answers to the operations, in order. */
  ghost function AnswersOf<C>(init: Init<C>, ops: seq<Op<C>>): (a: seq<Answer>)
    ensures |a| == |ops|
    decreases |ops|
  {
    if ops == [] then [] else AnswersOf(init, ops[..|ops| - 1]) + [AnswerAt(init, ops, |ops| - 1)]
  }

  lemma {:induction false} AnswersAre<C>(init: Init<C>, ops: seq<Op<C>>, answers: seq<Answer>)
    requires |answers| == |ops| && forall k | 0 <= k < |ops| :: answers[k] == AnswerAt(init, ops, k)
    ensures answers == AnswersOf(init, ops)
    decreases |ops|
  {
    hide AnswerAt;
    if ops != [] {
      var n := |ops| - 1;
      forall k | 0 <= k < n ensures answers[..n][k] == AnswerAt(init, ops[..n], k) {
        AnswerEarly(init, ops, n, k);
      }
      AnswersAre(init, ops[..n], answers[..n]);
    }
  }

  /** An operation is answered whatever comes after it. */
  lemma AnswerEarly<C>(init: Init<C>, ops: seq<Op<C>>, n: nat, k: nat)
    requires k < n <= |ops|
    ensures AnswerAt(init, ops[..n], k) == AnswerAt(init, ops, k)
  {
    assert ops[..n][..k] == ops[..k];
  }

  lemma OutputsSnoc(before: seq<Answer>, a: Answer)
    ensures OutputsIn(before + [a]) == OutputsIn(before) + if a.Ok? && a.value.Some? then [a.value.value] else []
  {
    assert (before + [a])[..|before|] == before;
  }

  lemma SegmentsNext(outputs: seq<SegmentOutput>, segments: seq<seq<Run>>, output: SegmentOutput, runs: seq<Run>)
    requires SegmentsOf(outputs, segments) && SegmentOf(output, |segments|, runs)
    ensures SegmentsOf(outputs + [output], segments + [runs])
  {
    hide SegmentOf;
  }

  lemma NothingOut<C>(init: Init<C>)
    ensures OutputsIn([]) == [] && SegmentsAfter<C>([]) == [] && SegmentsOf([], []) && AnswersOf(init, []) == []
  {
  }

  lemma AnswersSnoc<C>(init: Init<C>, ops: seq<Op<C>>, n: nat)
    requires |ops| == n + 1
    ensures AnswersOf(init, ops) == AnswersOf(init, ops[..n]) + [AnswerAt(init, ops, n)]
    ensures AnswerAt(init, ops, n) ==
            if ops[n].Flush? then
              FlushAnswer(init, Configured(ops[..n]), RunsOf(BuffersAfter(ops[..n])), NumberingAfter(init, ops[..n])).1
            else if ops[n].Push? && ops[n].id !in Configured(ops[..n]) then Err(InvalidInput(3505)) else Ok(None)
  {
    hide FlushAnswer, RunsOf, BuffersAfter, NumberingAfter, Configured;
  }

  /** When no flush fails, every flush that finds packets gives its segment, numbered from 1. */
  lemma {:induction false} OutputsAre<C>(init: Init<C>, ops: seq<Op<C>>)
    requires forall k | 0 <= k < |ops| && ops[k].Flush? :: AnswersOf(init, ops)[k].Ok?
    ensures SegmentsOf(OutputsIn(AnswersOf(init, ops)), SegmentsAfter(ops))
    ensures NumberingAfter(init, ops).sequence == (|SegmentsAfter(ops)| + 1) % 0x1_0000_0000
    decreases |ops|
  {
    hide FlushAnswer, RunsOf, LeftOf, BuffersAfter, Configured, SegmentOf, SegmentsOf, OutputsIn, SegmentsAfter,
         AnswersOf, AnswerAt, NumberingAfter;
    NothingOut(init);
    Before(init);
    if ops != [] {
      var n := |ops| - 1;
      var before, answer := AnswersOf(init, ops[..n]), AnswerAt(init, ops, n);
      AnswersSnoc(init, ops, n);
      OutputsAre(init, ops[..n]);
      RunSnoc(init, ops, n);
      assert ops[..n + 1] == ops;
      OutputsSnoc(before, answer);
      var b, segments, outputs := BuffersAfter(ops[..n]), SegmentsAfter(ops[..n]), OutputsIn(before);
      if ops[n].Flush? {
        assert answer == AnswersOf(init, ops)[n];
        FlushWrites(init, Configured(ops[..n]), b, NumberingAfter(init, ops[..n]), |segments|);
      }
      if ops[n].Flush? && RunsOf(b) != [] {
        SegmentsNext(outputs, segments, answer.value.value, RunsOf(b));
      } else {
        assert segments + [] == segments && outputs + [] == outputs;
      }
    }
  }

  lemma FlushWrites<C>(init: Init<C>, configs: map<u32, C>, b: Buffers, n: Numbering, k: nat)
    requires n.sequence == (k + 1) % 0x1_0000_0000 && FlushAnswer(init, configs, RunsOf(b), n).1.Ok?
    ensures var (next, answer) := FlushAnswer(init, configs, RunsOf(b), n);
            if RunsOf(b) == [] then next == n && answer == Ok(None)
            else
              && next.sequence == (k + 2) % 0x1_0000_0000 && answer.value.Some?
              && SegmentOf(answer.value.value, k, RunsOf(b))
  {
    hide Moof, WriteBox, MdatBody, RunsOf;
    CutsExactly(b, LeftOf(b), RunsOf(b));
  }
}

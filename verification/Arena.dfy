/** The slot-map memory arena: handles carry a generation, so a released one never comes back to life. */
module Arena {
  import opened Bytes

  datatype AbiError = InvalidData | OutOfBounds | WrongInstance | StaleHandle | DoubleFree

  datatype Handle = Handle(instanceId: nat, slot: nat, generation: nat)

  datatype Descriptor = Descriptor(length: nat, generation: nat)

  /** An owned region; its committed length is always that of its data. */
  datatype Slot = Free(generation: nat) | Occupied(generation: nat, data: bytes)

  const MAX_SIZE: nat := 0xFFFF_FFFE

  // ---- What the slots stand for ----

  /** Each live handle has an occupied slot with its contents, and each occupied slot a live handle. */
  ghost predicate Mapped(instance: nat, slots: seq<Slot>, live: map<Handle, bytes>)
  {
    && (forall h | h in live ::
          h.instanceId == instance && h.slot < |slots| && slots[h.slot] == Occupied(h.generation, live[h]))
    && (forall i | 0 <= i < |slots| && slots[i].Occupied? :: Handle(instance, i, slots[i].generation) in live)
  }

  /** The free list has the free slots, each once. */
  ghost predicate FreeListed(slots: seq<Slot>, free: seq<nat>)
  {
    && (forall j | 0 <= j < |free| :: free[j] < |slots| && slots[free[j]].Free?)
    && (forall j, k | 0 <= j < k < |free| :: free[j] != free[k])
    && (forall i | 0 <= i < |slots| && slots[i].Free? :: i in free)
  }

  /** Generations are handed out once, and a slot has that of the last handle issued for it. */
  ghost predicate Generations(instance: nat, slots: seq<Slot>, issued: set<Handle>, next: nat)
  {
    && (forall h | h in issued :: h.instanceId == instance && h.generation < next && h.slot < |slots|
                                  && h.generation <= slots[h.slot].generation)
    && (forall i | 0 <= i < |slots| :: Handle(instance, i, slots[i].generation) in issued)
  }

  ghost predicate ArenaOk(instance: nat, slots: seq<Slot>, free: seq<nat>, next: nat, live: map<Handle, bytes>,
                          issued: set<Handle>)
  {
    && Mapped(instance, slots, live) && FreeListed(slots, free) && Generations(instance, slots, issued, next)
    && live.Keys <= issued && next <= U64_MAX && |slots| <= U32_MAX + 1
  }

  /** No later handle has been issued for the slot of this one. */
  ghost predicate SlotNotReused(h: Handle, issued: set<Handle>)
  {
    forall k | k in issued && k.slot == h.slot :: k.generation <= h.generation
  }

  lemma Reoccupy(instance: nat, slots: seq<Slot>, free: seq<nat>, next: nat, live: map<Handle, bytes>,
                 issued: set<Handle>, data: bytes)
    requires ArenaOk(instance, slots, free, next, live, issued) && free != [] && next < U64_MAX
    ensures var i := free[|free| - 1];
            && i < |slots| && var h := Handle(instance, i, next);
            && h !in issued
            && ArenaOk(instance, slots[i := Occupied(next, data)], free[..|free| - 1], next + 1, live[h := data],
                       issued + {h})
  {
    var i := free[|free| - 1];
    var h := Handle(instance, i, next);
    var now := slots[i := Occupied(next, data)];
    assert FreeListed(now, free[..|free| - 1]) by {
      forall k | 0 <= k < |now| && now[k].Free? ensures k in free[..|free| - 1] {
        var j :| 0 <= j < |free| && free[j] == k;
        assert free[..|free| - 1][j] == k;
      }
    }
  }

  lemma Grow(instance: nat, slots: seq<Slot>, next: nat, live: map<Handle, bytes>, issued: set<Handle>, data: bytes)
    requires ArenaOk(instance, slots, [], next, live, issued) && next < U64_MAX && |slots| <= U32_MAX
    ensures var h := Handle(instance, |slots|, next);
            && h !in issued
            && ArenaOk(instance, slots + [Occupied(next, data)], [], next + 1, live[h := data], issued + {h})
  {
  }

  lemma Change(instance: nat, slots: seq<Slot>, free: seq<nat>, next: nat, live: map<Handle, bytes>,
               issued: set<Handle>, h: Handle, data: bytes)
    requires ArenaOk(instance, slots, free, next, live, issued) && h in live
    ensures h.slot < |slots|
    ensures ArenaOk(instance, slots[h.slot := Occupied(h.generation, data)], free, next, live[h := data], issued)
  {
  }

  lemma Vacate(instance: nat, slots: seq<Slot>, free: seq<nat>, next: nat, live: map<Handle, bytes>,
               issued: set<Handle>, h: Handle)
    requires ArenaOk(instance, slots, free, next, live, issued) && h in live
    ensures h.slot < |slots|
    ensures ArenaOk(instance, slots[h.slot := Free(h.generation)], free + [h.slot], next, live - {h}, issued)
  {
    var now := slots[h.slot := Free(h.generation)];
    assert FreeListed(now, free + [h.slot]) by {
      forall k | 0 <= k < |now| && now[k].Free? ensures k in free + [h.slot] {
        if k != h.slot {
          assert k in free;
        }
      }
    }
  }

  /** What the generation check tells apart. */
  lemma CheckExact(instance: nat, slots: seq<Slot>, free: seq<nat>, next: nat, live: map<Handle, bytes>,
                   issued: set<Handle>, h: Handle)
    requires ArenaOk(instance, slots, free, next, live, issued) && h.instanceId == instance && h.slot < |slots|
    ensures slots[h.slot].Occupied? && slots[h.slot].generation == h.generation <==> h in live
    ensures slots[h.slot].Free? && slots[h.slot].generation == h.generation <==>
              h in issued && h !in live && SlotNotReused(h, issued)
  {
    var last := Handle(instance, h.slot, slots[h.slot].generation);
    assert last in issued;
    if h in issued && h !in live && SlotNotReused(h, issued) {
      assert last.generation <= h.generation;
      assert last == h;
    }
  }

  class MemoryArena {
    const instanceId: nat

    var slots: seq<Slot>
    var free: seq<nat>
    var nextGeneration: nat

    /** The contents of the live handles, and all handles ever issued. */
    ghost var live: map<Handle, bytes>
    ghost var issued: set<Handle>

    ghost predicate Valid()
      reads this
    {
      ArenaOk(instanceId, slots, free, nextGeneration, live, issued)
    }

    constructor (instanceId: nat)
      ensures Valid() && live == map[] && issued == {} && this.instanceId == instanceId
      ensures slots == [] && free == [] && nextGeneration == 1
    {
      this.instanceId := instanceId;
      slots, free, nextGeneration := [], [], 1;
      live, issued := map[], {};
    }

    /** A new region of zero bytes under a handle never issued before; nothing else changes. */
    method Request(size: nat) returns (r: Result<(Handle, Descriptor), AbiError>)
      requires Valid()
      modifies this
      ensures Valid()
      ensures r.Ok? <==>
                0 < size <= MAX_SIZE && old(nextGeneration) != U64_MAX && (old(free) != [] || |old(slots)| <= U32_MAX)
      ensures r.Err? ==> r == Err(if size == 0 then InvalidData else OutOfBounds)
                         && unchanged(this`slots, this`free, this`live, this`issued)
      ensures nextGeneration ==
              old(nextGeneration) + if 0 < size <= MAX_SIZE && old(nextGeneration) != U64_MAX then 1 else 0
      ensures r.Ok? ==>
                && r.value.0 !in old(issued) && r.value.1 == Descriptor(size, r.value.0.generation)
                && live == old(live)[r.value.0 := Zeros(size)] && issued == old(issued) + {r.value.0}
                && r.value.0.generation == old(nextGeneration)
                && (if old(free) == [] then
                      r.value.0.slot == |old(slots)| && |slots| == |old(slots)| + 1 && free == []
                    else
                      && r.value.0.slot == old(free)[|old(free)| - 1] && |slots| == |old(slots)|
                      && free == old(free)[..|old(free)| - 1])
    {
      hide ArenaOk;
      if size == 0 {
        return Err(InvalidData);
      }
      if size > MAX_SIZE {
        return Err(OutOfBounds);
      }
      var generation := nextGeneration;
      if nextGeneration == U64_MAX {
        return Err(OutOfBounds);
      }
      NextBounded(instanceId, slots, free, nextGeneration, live, issued);
      nextGeneration := nextGeneration + 1;
      var data := Zeros(size);
      var index;
      if free != [] {
        Reoccupy(instanceId, slots, free, generation, live, issued, data);
        index := free[|free| - 1];
        free := free[..|free| - 1];
        slots := slots[index := Occupied(generation, data)];
      } else {
        index := |slots|;
        if index > U32_MAX {
          NextGrows(instanceId, slots, free, generation, live, issued);
          return Err(OutOfBounds);
        }
        Grow(instanceId, slots, generation, live, issued, data);
        slots := slots + [Occupied(generation, data)];
      }
      var handle := Handle(instanceId, index, generation);
      live := live[handle := data];
      issued := issued + {handle};
      return Ok((handle, Descriptor(size, generation)));
    }

    /**
     * A handle is accepted exactly while it is live. A released one is a double free exactly as long as its slot has
     * not been reused.
     */
    method Validate(h: Handle) returns (r: Result<nat, AbiError>)
      requires Valid()
      ensures h.instanceId != instanceId ==> r == Err(WrongInstance)
      ensures h.instanceId == instanceId && h.slot >= |slots| ==> r == Err(OutOfBounds)
      ensures r.Ok? <==> h in live
      ensures r.Ok? ==> r.value == h.slot < |slots| && slots[h.slot] == Occupied(h.generation, live[h])
      ensures r == Err(DoubleFree) <==> h in issued && h !in live && SlotNotReused(h, issued)
      ensures h in issued && h !in live && !SlotNotReused(h, issued) ==> r == Err(StaleHandle)
    {
      hide SlotNotReused;
      if h.instanceId != instanceId {
        return Err(WrongInstance);
      }
      if h.slot >= |slots| {
        return Err(OutOfBounds);
      }
      CheckExact(instanceId, slots, free, nextGeneration, live, issued, h);
      match slots[h.slot] {
        case Free(generation) => return if generation == h.generation then Err(DoubleFree) else Err(StaleHandle);
        case Occupied(generation, _) => return if generation == h.generation then Ok(h.slot) else Err(StaleHandle);
      }
    }

    /** For use rather than release, a released handle is always stale. */
    method ValidateOccupied(h: Handle) returns (r: Result<nat, AbiError>)
      requires Valid()
      ensures r.Ok? <==> h in live
      ensures r.Ok? ==> r.value == h.slot < |slots| && slots[h.slot] == Occupied(h.generation, live[h])
      ensures h in issued && h !in live ==> r == Err(StaleHandle)
      ensures r != Err(DoubleFree)
    {
      hide ArenaOk, SlotNotReused;
      r := Validate(h);
      if r == Err(DoubleFree) {
        return Err(StaleHandle);
      }
    }

    method Write(h: Handle, data: bytes) returns (r: Result<(), AbiError>)
      requires Valid()
      modifies this`slots, this`live
      ensures Valid() && |slots| == |old(slots)|
      ensures r.Err? ==> unchanged(this)
      ensures h !in old(live) ==> r.Err? && (h in issued ==> r == Err(StaleHandle))
      ensures h in old(live) ==>
                if |data| > |old(live)[h]| then r == Err(OutOfBounds)
                else r.Ok? && live == old(live)[h := data + old(live)[h][|data|..]]
    {
      hide ArenaOk;
      var index := ValidateOccupied(h);
      if index.Err? {
        return Err(index.error);
      }
      var region := slots[index.value].data;
      if |data| > |region| {
        return Err(OutOfBounds);
      }
      var now := data + region[|data|..];
      Change(instanceId, slots, free, nextGeneration, live, issued, h, now);
      slots := slots[index.value := Occupied(h.generation, now)];
      live := live[h := now];
      return Ok(());
    }

    /** Keeps the first `len` bytes. */
    method Commit(h: Handle, len: nat) returns (r: Result<(), AbiError>)
      requires Valid()
      modifies this`slots, this`live
      ensures Valid() && |slots| == |old(slots)|
      ensures r.Err? ==> unchanged(this)
      ensures h !in old(live) ==> r.Err? && (h in issued ==> r == Err(StaleHandle))
      ensures h in old(live) ==>
                if len > |old(live)[h]| then r == Err(OutOfBounds)
                else r.Ok? && live == old(live)[h := old(live)[h][..len]]
    {
      hide ArenaOk;
      var index := ValidateOccupied(h);
      if index.Err? {
        return Err(index.error);
      }
      var region := slots[index.value].data;
      if len > |region| {
        return Err(OutOfBounds);
      }
      assert region[..|region|] == region;
      var now := if len < |region| then region[..len] else region;
      Change(instanceId, slots, free, nextGeneration, live, issued, h, now);
      slots := slots[index.value := Occupied(h.generation, now)];
      live := live[h := now];
      return Ok(());
    }

    method Read(h: Handle) returns (r: Result<bytes, AbiError>)
      requires Valid()
      ensures h in live ==> r == Ok(live[h])
      ensures h !in live ==> r.Err? && (h in issued ==> r == Err(StaleHandle))
    {
      hide ArenaOk;
      var index := ValidateOccupied(h);
      if index.Err? {
        return Err(index.error);
      }
      return Ok(slots[index.value].data);
    }

    /** Ends a live handle for good; its slot may be used again. */
    method Release(h: Handle) returns (r: Result<(), AbiError>)
      requires Valid()
      modifies this`slots, this`free, this`live
      ensures Valid() && |slots| == |old(slots)|
      ensures r.Ok? <==> h in old(live)
      ensures r.Ok? ==> live == old(live) - {h} && free == old(free) + [h.slot]
      ensures r.Err? ==> unchanged(this)
      ensures r == Err(DoubleFree) <==> h in issued && h !in old(live) && SlotNotReused(h, issued)
      ensures h in issued && h !in old(live) && !SlotNotReused(h, issued) ==> r == Err(StaleHandle)
    {
      hide ArenaOk, SlotNotReused;
      var index := Validate(h);
      if index.Err? {
        return Err(index.error);
      }
      Vacate(instanceId, slots, free, nextGeneration, live, issued, h);
      slots := slots[index.value := Free(h.generation)];
      free := free + [index.value];
      live := live - {h};
      return Ok(());
    }

    /** A region with the data in it, in one call. */
    method Store(data: bytes) returns (r: Result<(Handle, Descriptor), AbiError>)
      requires Valid()
      modifies this
      ensures Valid()
      ensures data == [] ==> r == Err(InvalidData)
      ensures r.Err? ==> live == old(live)
      ensures r.Ok? ==>
                && r.value.0 !in old(issued) && live == old(live)[r.value.0 := data]
                && r.value.1 == Descriptor(|data|, r.value.0.generation)
    {
      hide ArenaOk;
      if data == [] {
        return Err(InvalidData);
      }
      var requested := Request(|data|);
      if requested.Err? {
        return Err(requested.error);
      }
      var handle := requested.value.0;
      assert data + Zeros(|data|)[|data|..] == data && data[..|data|] == data;
      LiveIssued(instanceId, old(slots), old(free), old(nextGeneration), old(live), old(issued));
      var written := Write(handle, data);
      var committed := Commit(handle, |data|);
      var whole := Read(handle);
      return Ok((handle, Descriptor(|whole.value|, handle.generation)));
    }
  }

  lemma LiveIssued(instance: nat, slots: seq<Slot>, free: seq<nat>, next: nat, live: map<Handle, bytes>,
                   issued: set<Handle>)
    requires ArenaOk(instance, slots, free, next, live, issued)
    ensures live.Keys <= issued
  {
  }

  lemma NextBounded(instance: nat, slots: seq<Slot>, free: seq<nat>, next: nat, live: map<Handle, bytes>,
                    issued: set<Handle>)
    requires ArenaOk(instance, slots, free, next, live, issued)
    ensures next <= U64_MAX
  {
  }

  lemma NextGrows(instance: nat, slots: seq<Slot>, free: seq<nat>, next: nat, live: map<Handle, bytes>,
                  issued: set<Handle>)
    requires ArenaOk(instance, slots, free, next, live, issued) && next < U64_MAX
    ensures ArenaOk(instance, slots, free, next + 1, live, issued)
  {
  }

  // ---- A list of regions behind the arena ----

  /** Operations name a region by the number of the request that made it. */
  datatype Op = Request(size: nat) | Write(region: nat, data: bytes) | Commit(region: nat, len: nat) | Read(region: nat)
    | Release(region: nat)

  datatype Outcome = Done | Contents(data: bytes) | Refused(error: AbiError) | NoRegion

  /**
   * All regions ever made, those released gone for good; the released ones whose place nobody has taken, latest last;
   * and how many requests of a valid size have been made.
   */
  datatype Regions = Regions(all: seq<Option<bytes>>, idle: seq<nat>, asked: nat)

  /** How many regions are there. */
  function Live(all: seq<Option<bytes>>): nat
    decreases |all|
  {
    if all == [] then 0 else Live(all[..|all| - 1]) + if all[|all| - 1].Some? then 1 else 0
  }

  const MAX_REGIONS: nat := U32_MAX + 1
  const MAX_REQUESTS: nat := U64_MAX - 1

  /**
   * One operation on the list. A request takes the place of the region released last, so that releasing that one again
   * is no longer told from any other stale use.
   */
  function Step(s: Regions, op: Op): (Regions, Outcome)
  {
    match op
    case Request(size) =>
      if size == 0 then (s, Refused(InvalidData))
      else if size > MAX_SIZE || s.asked >= MAX_REQUESTS then (s, Refused(OutOfBounds))
      else if s.idle == [] && Live(s.all) >= MAX_REGIONS then (s.(asked := s.asked + 1), Refused(OutOfBounds))
      else
        (Regions(s.all + [Some(Zeros(size))], if s.idle == [] then [] else s.idle[..|s.idle| - 1], s.asked + 1), Done)
    case Write(k, data) =>
      if k >= |s.all| then (s, NoRegion)
      else if s.all[k].None? then (s, Refused(StaleHandle))
      else if |data| > |s.all[k].value| then (s, Refused(OutOfBounds))
      else (s.(all := s.all[k := Some(data + s.all[k].value[|data|..])]), Done)
    case Commit(k, len) =>
      if k >= |s.all| then (s, NoRegion)
      else if s.all[k].None? then (s, Refused(StaleHandle))
      else if len > |s.all[k].value| then (s, Refused(OutOfBounds))
      else (s.(all := s.all[k := Some(s.all[k].value[..len])]), Done)
    case Read(k) =>
      if k >= |s.all| then (s, NoRegion)
      else if s.all[k].None? then (s, Refused(StaleHandle))
      else (s, Contents(s.all[k].value))
    case Release(k) =>
      if k >= |s.all| then (s, NoRegion)
      else if s.all[k].None? then (s, Refused(if k in s.idle then DoubleFree else StaleHandle))
      else (s.(all := s.all[k := None], idle := s.idle + [k]), Done)
  }

  function Run(s: Regions, ops: seq<Op>): seq<Outcome>
    decreases |ops|
  {
    if ops == [] then []
    else
      var (next, outcome) := Step(s, ops[0]);
      [outcome] + Run(next, ops[1..])
  }

  /** The handles stand for the regions: live ones for those that are there, released ones for those that are gone. */
  ghost predicate StandFor(handles: seq<Handle>, all: seq<Option<bytes>>, live: map<Handle, bytes>, issued: set<Handle>)
  {
    && |handles| == |all|
    && (forall j, k | 0 <= j < k < |handles| :: handles[j] != handles[k])
    && (forall k | 0 <= k < |handles| :: handles[k] in issued)
    && (forall k | 0 <= k < |handles| ::
          if handles[k] in live then all[k] == Some(live[handles[k]]) else all[k] == None)
  }

  /** The idle regions are those of the free slots, and the only ones gone whose slot has not been reused. */
  ghost predicate IdleFor(handles: seq<Handle>, all: seq<Option<bytes>>, idle: seq<nat>, free: seq<nat>,
                          issued: set<Handle>)
  {
    && |handles| == |all| && |idle| == |free|
    && (forall j, k | 0 <= j < k < |free| :: free[j] != free[k])
    && (forall j | 0 <= j < |idle| :: idle[j] < |all| && handles[idle[j]].slot == free[j])
    && (forall k | 0 <= k < |all| :: all[k].None? ==> (k in idle <==> SlotNotReused(handles[k], issued)))
  }

  lemma {:induction false} LiveUpdate(all: seq<Option<bytes>>, k: nat, now: Option<bytes>)
    requires k < |all|
    ensures Live(all[k := now]) + (if all[k].Some? then 1 else 0) == Live(all) + (if now.Some? then 1 else 0)
    decreases |all|
  {
    var n := |all| - 1;
    if k < n {
      LiveUpdate(all[..n], k, now);
      assert all[k := now][..n] == all[..n][k := now];
    } else {
      assert all[k := now][..n] == all[..n];
    }
  }

  lemma LiveSnoc(all: seq<Option<bytes>>, region: Option<bytes>)
    ensures Live(all + [region]) == Live(all) + if region.Some? then 1 else 0
  {
    assert (all + [region])[..|all|] == all;
  }

  /** A live handle is the last issued for its slot. */
  lemma LiveNotReused(instance: nat, slots: seq<Slot>, free: seq<nat>, next: nat, live: map<Handle, bytes>,
                      issued: set<Handle>, h: Handle)
    requires ArenaOk(instance, slots, free, next, live, issued) && h in live
    ensures SlotNotReused(h, issued) && forall j | 0 <= j < |free| :: free[j] != h.slot
  {
  }

  lemma FreeFacts(instance: nat, slots: seq<Slot>, free: seq<nat>, next: nat, live: map<Handle, bytes>,
                  issued: set<Handle>)
    requires ArenaOk(instance, slots, free, next, live, issued)
    ensures forall h | h in issued :: h.generation < next && h.slot < |slots|
    ensures 1 <= next ==> next <= U64_MAX
  {
  }

  /** A request takes the latest idle region's slot, or a new one. */
  lemma IdleRequest(handles: seq<Handle>, all: seq<Option<bytes>>, idle: seq<nat>, free: seq<nat>, issued: set<Handle>,
                    h: Handle, region: bytes, free': seq<nat>)
    requires IdleFor(handles, all, idle, free, issued)
    requires forall k | k in issued :: k.generation < h.generation
    requires forall k | 0 <= k < |handles| :: handles[k] in issued
    requires if free == [] then free' == [] && forall k | k in issued :: k.slot != h.slot
             else h.slot == free[|free| - 1] && free' == free[..|free| - 1]
    ensures IdleFor(handles + [h], all + [Some(region)], if idle == [] then [] else idle[..|idle| - 1], free',
                    issued + {h})
  {
    var now := if idle == [] then [] else idle[..|idle| - 1];
    forall k | 0 <= k < |all| && all[k].None?
      ensures k in now <==> SlotNotReused(handles[k], issued + {h})
    {
      ReuseMeans(handles[k], issued, h);
      if k in idle {
        var j :| 0 <= j < |idle| && idle[j] == k;
        if j < |idle| - 1 {
          assert now[j] == k;
        }
      }
    }
  }

  lemma ReuseMeans(k: Handle, issued: set<Handle>, h: Handle)
    requires k.generation < h.generation
    ensures SlotNotReused(k, issued + {h}) <==> SlotNotReused(k, issued) && k.slot != h.slot
  {
    assert h in issued + {h};
  }

  lemma IdleRelease(handles: seq<Handle>, all: seq<Option<bytes>>, idle: seq<nat>, free: seq<nat>, issued: set<Handle>,
                    k: nat)
    requires IdleFor(handles, all, idle, free, issued) && k < |all| && all[k].Some?
    requires SlotNotReused(handles[k], issued) && forall j | 0 <= j < |free| :: free[j] != handles[k].slot
    ensures IdleFor(handles, all[k := None], idle + [k], free + [handles[k].slot], issued)
  {
    hide SlotNotReused;
  }

  lemma IdleWrite(handles: seq<Handle>, all: seq<Option<bytes>>, idle: seq<nat>, free: seq<nat>, issued: set<Handle>,
                  k: nat, region: bytes)
    requires IdleFor(handles, all, idle, free, issued) && k < |all| && all[k].Some?
    ensures IdleFor(handles, all[k := Some(region)], idle, free, issued)
  {
    hide SlotNotReused;
  }

  /** The arena is where the list of regions is. */
  ghost predicate Mirrors(arena: MemoryArena, handles: seq<Handle>, s: Regions)
    reads arena
  {
    && arena.Valid() && StandFor(handles, s.all, arena.live, arena.issued)
    && IdleFor(handles, s.all, s.idle, arena.free, arena.issued)
    && arena.nextGeneration == 1 + s.asked && |arena.slots| == Live(s.all) + |s.idle|
  }

  method PerformRequest(arena: MemoryArena, handles: seq<Handle>, size: nat, ghost s: Regions)
    returns (now: seq<Handle>, outcome: Outcome)
    requires Mirrors(arena, handles, s)
    modifies arena
    ensures outcome == Step(s, Request(size)).1 && Mirrors(arena, now, Step(s, Request(size)).0)
  {
    hide ArenaOk, SlotNotReused, IdleFor, Live;
    now := handles;
    IdleLength(handles, s.all, s.idle, arena.free, arena.issued);
    FreeFacts(arena.instanceId, arena.slots, arena.free, arena.nextGeneration, arena.live, arena.issued);
    ghost var free, issued := arena.free, arena.issued;
    var r := arena.Request(size);
    if r.Err? {
      return now, Refused(r.error);
    }
    IdleRequest(handles, s.all, s.idle, free, issued, r.value.0, Zeros(size), arena.free);
    LiveSnoc(s.all, Some(Zeros(size)));
    return handles + [r.value.0], Done;
  }

  lemma IdleLength(handles: seq<Handle>, all: seq<Option<bytes>>, idle: seq<nat>, free: seq<nat>, issued: set<Handle>)
    requires IdleFor(handles, all, idle, free, issued)
    ensures |idle| == |free|
  {
  }

  method PerformRelease(arena: MemoryArena, handles: seq<Handle>, k: nat, ghost s: Regions) returns (outcome: Outcome)
    requires Mirrors(arena, handles, s)
    modifies arena
    ensures outcome == Step(s, Release(k)).1 && Mirrors(arena, handles, Step(s, Release(k)).0)
  {
    hide ArenaOk, SlotNotReused, Live;
    if k >= |handles| {
      return NoRegion;
    }
    if handles[k] in arena.live {
      LiveNotReused(arena.instanceId, arena.slots, arena.free, arena.nextGeneration, arena.live, arena.issued,
                    handles[k]);
      IdleRelease(handles, s.all, s.idle, arena.free, arena.issued, k);
      LiveUpdate(s.all, k, None);
    }
    hide IdleFor;
    var r := arena.Release(handles[k]);
    return if r.Ok? then Done else Refused(r.error);
  }

  method PerformChange(arena: MemoryArena, handles: seq<Handle>, op: Op, ghost s: Regions) returns (outcome: Outcome)
    requires Mirrors(arena, handles, s) && (op.Write? || op.Commit?)
    modifies arena
    ensures outcome == Step(s, op).1 && Mirrors(arena, handles, Step(s, op).0)
  {
    hide ArenaOk, SlotNotReused, IdleFor, Live;
    if op.region >= |handles| {
      return NoRegion;
    }
    var k := op.region;
    if s.all[k].Some? && Step(s, op).1 == Done {
      IdleWrite(handles, s.all, s.idle, arena.free, arena.issued, k, Step(s, op).0.all[k].value);
      LiveUpdate(s.all, k, Step(s, op).0.all[k]);
    }
    var r;
    match op {
      case Write(_, data) => r := arena.Write(handles[k], data);
      case Commit(_, len) => r := arena.Commit(handles[k], len);
    }
    return if r.Ok? then Done else Refused(r.error);
  }

  method Perform(arena: MemoryArena, handles: seq<Handle>, op: Op, ghost s: Regions)
    returns (now: seq<Handle>, outcome: Outcome)
    requires Mirrors(arena, handles, s)
    modifies arena
    ensures outcome == Step(s, op).1 && Mirrors(arena, now, Step(s, op).0)
  {
    hide ArenaOk, SlotNotReused, IdleFor, Live;
    now := handles;
    match op {
      case Request(size) =>
        now, outcome := PerformRequest(arena, handles, size, s);
      case Read(k) =>
        if k >= |handles| {
          return now, NoRegion;
        }
        var r := arena.Read(handles[k]);
        return now, if r.Ok? then Contents(r.value) else Refused(r.error);
      case Release(k) =>
        outcome := PerformRelease(arena, handles, k, s);
      case _ =>
        outcome := PerformChange(arena, handles, op, s);
    }
  }

  /** Any run on the arena tells what the same run on a plain list of regions tells. */
  method RunArena(instanceId: nat, ops: seq<Op>) returns (outcomes: seq<Outcome>)
    ensures outcomes == Run(Regions([], [], 0), ops)
  {
    hide ArenaOk, Mirrors, Step;
    var arena := new MemoryArena(instanceId);
    var handles := [];
    ghost var s := Regions([], [], 0);
    outcomes := [];
    NoRegions(arena);
    assert ops[0..] == ops && [] + Run(s, ops) == Run(s, ops);
    for i := 0 to |ops|
      invariant Mirrors(arena, handles, s) && fresh(arena)
      invariant outcomes + Run(s, ops[i..]) == Run(Regions([], [], 0), ops)
    {
      assert ops[i..][0] == ops[i] && ops[i..][1..] == ops[i + 1..];
      ghost var next := Step(s, ops[i]);
      var outcome;
      handles, outcome := Perform(arena, handles, ops[i], s);
      Assoc(outcomes, [outcome], Run(next.0, ops[i + 1..]));
      outcomes := outcomes + [outcome];
      s := next.0;
    }
    assert ops[|ops|..] == [];
    assert outcomes + [] == outcomes;
  }

  lemma NoRegions(arena: MemoryArena)
    requires arena.Valid() && arena.live == map[] && arena.slots == [] && arena.free == [] && arena.nextGeneration == 1
    ensures Mirrors(arena, [], Regions([], [], 0))
  {
  }
}

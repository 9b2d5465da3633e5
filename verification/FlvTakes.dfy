/** Runs of the FLV muxer in which output is taken away early: what patching the flags then does to the stream. */
module FlvTakes {
  import opened Bytes
  import opened FlvPatch
  import opened FlvTag
  import FlvReorder
  import M = FlvMuxer

  datatype Op<T, P> = Add(track: M.Track<T>) | Push(packet: M.Packet<T, P>) | Take

  function TrackOf<T, P>(op: Op<T, P>): Option<M.Track<T>>
  {
    match op
    case Add(track) => Some(track)
    case Push(packet) => Some(packet.track)
    case Take => None
  }

  function KindOf<T, P>(op: Op<T, P>): Option<M.TrackKind>
  {
    var track := TrackOf(op);
    if track.Some? then Some(track.value.kind) else None
  }

  predicate Seen<T, P>(ops: seq<Op<T, P>>, kind: M.TrackKind)
  {
    exists j | 0 <= j < |ops| :: KindOf(ops[j]) == Some(kind)
  }

  function PacketsOf<T, P>(ops: seq<Op<T, P>>): seq<M.Packet<T, P>>
    decreases |ops|
  {
    if ops == [] then []
    else
      var last := ops[|ops| - 1];
      PacketsOf(ops[..|ops| - 1]) + if last.Push? then [last.packet] else []
  }

  // ---- What a caller sees: `outputs` are the bytes waiting before each operation ----

  /** The bytes taken by the operations. */
  function TakenBy<T, P>(ops: seq<Op<T, P>>, outputs: seq<bytes>): bytes
    requires |ops| == |outputs|
    decreases |ops|
  {
    if ops == [] then []
    else
      var n := |ops| - 1;
      TakenBy(ops[..n], outputs[..n]) + if ops[n].Take? then outputs[n] else []
  }

  /** The first operation that takes any bytes, or the end. */
  function FirstTake<T, P>(ops: seq<Op<T, P>>, outputs: seq<bytes>): (i: nat)
    requires |ops| == |outputs|
    ensures i <= |ops| && (i < |ops| ==> ops[i].Take?) && (i == |ops| <==> TakenBy(ops, outputs) == [])
    decreases |ops|
  {
    if ops == [] then 0
    else
      var n := |ops| - 1;
      var before := FirstTake(ops[..n], outputs[..n]);
      if before < n then before else if ops[n].Take? && outputs[n] != [] then n else |ops|
  }

  /** The flags put behind bytes already taken: those of operations that bring a new kind of track. */
  function StraysOf<T, P>(ops: seq<Op<T, P>>, outputs: seq<bytes>): seq<Stray>
    requires |ops| == |outputs|
    decreases |ops|
  {
    if ops == [] then []
    else
      var n := |ops| - 1;
      StraysOf(ops[..n], outputs[..n]) + StrayAt(ops, outputs, n)
  }

  function StrayAt<T, P>(ops: seq<Op<T, P>>, outputs: seq<bytes>, n: nat): seq<Stray>
    requires n < |ops| == |outputs|
  {
    match KindOf(ops[n])
    case None => []
    case Some(kind) =>
      M.StrayOf(|TakenBy(ops[..n], outputs[..n])|, outputs[n], Seen(ops[..n], M.AudioTrack),
                Seen(ops[..n], M.VideoTrack), kind)
  }

  /** The flags of the tracks the operations bring. */
  function FlagsOf<T, P>(ops: seq<Op<T, P>>): byte
  {
    Flags(Seen(ops, M.AudioTrack), Seen(ops, M.VideoTrack))
  }

  /** Every kind of track is there before anything is taken. */
  predicate KindsFirst<T, P>(ops: seq<Op<T, P>>)
  {
    forall i, j | 0 <= i < j < |ops| && ops[i].Take? && KindOf(ops[j]).Some? :: Seen(ops[..i], KindOf(ops[j]).value)
  }

  lemma SeenSnoc<T, P>(ops: seq<Op<T, P>>, i: nat, kind: M.TrackKind)
    requires i < |ops|
    ensures Seen(ops[..i + 1], kind) <==> Seen(ops[..i], kind) || KindOf(ops[i]) == Some(kind)
  {
    var now := ops[..i + 1];
    assert forall j | 0 <= j < i :: now[j] == ops[..i][j];
    assert now[i] == ops[i];
    if Seen(ops[..i], kind) {
      var j :| 0 <= j < i && KindOf(ops[..i][j]) == Some(kind);
      assert KindOf(now[j]) == Some(kind);
    }
    if KindOf(ops[i]) == Some(kind) {
      assert KindOf(now[i]) == Some(kind);
    }
  }

  lemma SeenMore<T, P>(ops: seq<Op<T, P>>, i: nat, kind: M.TrackKind)
    requires i <= |ops| && Seen(ops[..i], kind)
    ensures Seen(ops, kind)
  {
    var j :| 0 <= j < i && KindOf(ops[..i][j]) == Some(kind);
    assert KindOf(ops[j]) == Some(kind);
  }

  lemma KindsFirstPrefix<T, P>(ops: seq<Op<T, P>>, n: nat)
    requires n <= |ops| && KindsFirst(ops)
    ensures KindsFirst(ops[..n])
  {
    var some := ops[..n];
    forall i, j | 0 <= i < j < n && some[i].Take? && KindOf(some[j]).Some?
      ensures Seen(some[..i], KindOf(some[j]).value)
    {
      assert some[i] == ops[i] && some[j] == ops[j] && some[..i] == ops[..i];
    }
  }

  /** When every kind is there first, nothing is ever put in the wrong place and the header has every flag. */
  lemma {:induction false} KindsFirstIsSafe<T, P>(ops: seq<Op<T, P>>, outputs: seq<bytes>)
    requires |ops| == |outputs| && KindsFirst(ops)
    ensures StraysOf(ops, outputs) == [] && FlagsOf(ops[..FirstTake(ops, outputs)]) == FlagsOf(ops)
    decreases |ops|
  {
    hide KindsFirst, StrayAt, Seen, TakenBy;
    var first := FirstTake(ops, outputs);
    if first == |ops| {
      assert ops[..first] == ops;
    } else {
      NoKindAfter(ops, first, M.AudioTrack);
      NoKindAfter(ops, first, M.VideoTrack);
    }
    hide FirstTake;
    if ops != [] {
      var n := |ops| - 1;
      KindsFirstPrefix(ops, n);
      KindsFirstIsSafe(ops[..n], outputs[..n]);
      NoStrayAt(ops, outputs, n);
    }
  }

  lemma NoKindAfter<T, P>(ops: seq<Op<T, P>>, first: nat, kind: M.TrackKind)
    requires KindsFirst(ops) && first < |ops| && ops[first].Take?
    ensures Seen(ops[..first], kind) <==> Seen(ops, kind)
  {
    if Seen(ops[..first], kind) {
      SeenMore(ops, first, kind);
    }
    if Seen(ops, kind) {
      var j :| 0 <= j < |ops| && KindOf(ops[j]) == Some(kind);
      if j < first {
        assert KindOf(ops[..first][j]) == Some(kind);
      }
    }
  }

  lemma NoStrayAt<T, P>(ops: seq<Op<T, P>>, outputs: seq<bytes>, n: nat)
    requires n < |ops| == |outputs| && KindsFirst(ops)
    ensures StrayAt(ops, outputs, n) == []
  {
    hide Seen;
    var first := FirstTake(ops[..n], outputs[..n]);
    if KindOf(ops[n]).Some? && first < n {
      assert ops[..n][first] == ops[first] && ops[..n][..first] == ops[..first];
      SeenMore(ops[..n], first, KindOf(ops[n]).value);
    }
  }

  // ---- Whole runs ----

  /** How far the muxer has got after `ops`, of which `outputs` is what was waiting before each. */
  ghost predicate Reached<T, P>(ops: seq<Op<T, P>>, outputs: seq<bytes>, taken: bytes, headerFlags: byte,
                                hasAudio: bool, hasVideo: bool, strays: seq<Stray>)
  {
    && |ops| == |outputs| && taken == TakenBy(ops, outputs) && strays == StraysOf(ops, outputs)
    && (hasAudio <==> Seen(ops, M.AudioTrack)) && (hasVideo <==> Seen(ops, M.VideoTrack))
    && (taken != [] ==> headerFlags == FlagsOf(ops[..FirstTake(ops, outputs)]))
  }

  lemma ReachedNothing<T, P>(headerFlags: byte)
    ensures Reached<T, P>([], [], [], headerFlags, false, false, [])
  {
  }

  lemma ReachedFlags<T, P>(ops: seq<Op<T, P>>, outputs: seq<bytes>, taken: bytes, headerFlags: byte, hasAudio: bool,
                           hasVideo: bool, strays: seq<Stray>, headerFlags': byte)
    requires Reached(ops, outputs, taken, headerFlags, hasAudio, hasVideo, strays)
    requires taken != [] ==> headerFlags' == headerFlags
    ensures Reached(ops, outputs, taken, headerFlags', hasAudio, hasVideo, strays)
  {
  }

  lemma AfterKind<T, P>(ops: seq<Op<T, P>>, outputs: seq<bytes>, taken: bytes, headerFlags: byte, hasAudio: bool,
                        hasVideo: bool, strays: seq<Stray>, i: nat, output: bytes, kind: M.TrackKind,
                        headerFlags': byte)
    requires i < |ops| && Reached(ops[..i], outputs, taken, headerFlags, hasAudio, hasVideo, strays)
    requires KindOf(ops[i]) == Some(kind) && (taken != [] ==> headerFlags' == headerFlags)
    ensures Reached(ops[..i + 1], outputs + [output], taken, headerFlags', hasAudio || kind.AudioTrack?,
                    hasVideo || kind.VideoTrack?, strays + M.StrayOf(|taken|, output, hasAudio, hasVideo, kind))
  {
    hide Seen, M.StrayOf;
    SeenSnoc(ops, i, M.AudioTrack);
    SeenSnoc(ops, i, M.VideoTrack);
    Stepped(ops, outputs, i, output);
  }

  lemma AfterTake<T, P>(ops: seq<Op<T, P>>, outputs: seq<bytes>, taken: bytes, headerFlags: byte, hasAudio: bool,
                        hasVideo: bool, strays: seq<Stray>, i: nat, output: bytes)
    requires i < |ops| && Reached(ops[..i], outputs, taken, headerFlags, hasAudio, hasVideo, strays)
    requires ops[i].Take? && (taken == [] && output != [] ==> headerFlags == Flags(hasAudio, hasVideo))
    ensures Reached(ops[..i + 1], outputs + [output], taken + output, headerFlags, hasAudio, hasVideo, strays)
  {
    hide Seen, M.StrayOf;
    SeenSnoc(ops, i, M.AudioTrack);
    SeenSnoc(ops, i, M.VideoTrack);
    Stepped(ops, outputs, i, output);
    assert strays + [] == strays;
  }

  lemma AfterOp<T, P>(ops: seq<Op<T, P>>, outputs: seq<bytes>, taken: bytes, headerFlags: byte, hasAudio: bool,
                      hasVideo: bool, strays: seq<Stray>, i: nat, output: bytes, handed: bytes, headerFlags': byte,
                      hasAudio': bool, hasVideo': bool, strays': seq<Stray>)
    requires i < |ops| && Reached(ops[..i], outputs, taken, headerFlags, hasAudio, hasVideo, strays)
    requires handed == if ops[i].Take? then output else []
    requires taken == [] && output != [] ==> headerFlags == Flags(hasAudio, hasVideo)
    requires ops[i].Take? || taken != [] ==> headerFlags' == headerFlags
    requires hasAudio' <==> hasAudio || KindOf(ops[i]) == Some(M.AudioTrack)
    requires hasVideo' <==> hasVideo || KindOf(ops[i]) == Some(M.VideoTrack)
    requires strays' == strays + StraysBy(ops[i], taken, output, hasAudio, hasVideo)
    ensures Reached(ops[..i + 1], outputs + [output], taken + handed, headerFlags', hasAudio', hasVideo', strays')
  {
    hide Reached, M.StrayOf, Flags;
    if ops[i].Take? {
      AfterTake(ops, outputs, taken, headerFlags, hasAudio, hasVideo, strays, i, output);
      assert strays + [] == strays;
    } else {
      AfterKind(ops, outputs, taken, headerFlags, hasAudio, hasVideo, strays, i, output, KindOf(ops[i]).value,
                headerFlags');
      assert taken + [] == taken;
    }
  }

  lemma Stepped<T, P>(ops: seq<Op<T, P>>, outputs: seq<bytes>, i: nat, output: bytes)
    requires i < |ops| && |outputs| == i
    ensures var now, seen := ops[..i + 1], outputs + [output];
            && TakenBy(now, seen) == TakenBy(ops[..i], outputs) + (if ops[i].Take? then output else [])
            && StraysOf(now, seen) == StraysOf(ops[..i], outputs) +
                 (match KindOf(ops[i])
                  case None => []
                  case Some(kind) =>
                    M.StrayOf(|TakenBy(ops[..i], outputs)|, output, Seen(ops[..i], M.AudioTrack),
                              Seen(ops[..i], M.VideoTrack), kind))
            && now[..FirstTake(now, seen)] ==
                 (if FirstTake(ops[..i], outputs) < i then ops[..i][..FirstTake(ops[..i], outputs)]
                  else if ops[i].Take? && output != [] then ops[..i] else now)
  {
    hide Seen, M.StrayOf, KindOf;
    var now, seen := ops[..i + 1], outputs + [output];
    assert now[..i] == ops[..i] && seen[..i] == outputs && now[i] == ops[i] && seen[i] == output;
    assert ops[..i][..i] == ops[..i] && now[..i + 1] == now;
  }

  // ---- Tracks, configurations and the queue ----

  /** The first track of the kind, whether added or brought by a packet. */
  function KnownTrack<T, P>(ops: seq<Op<T, P>>, kind: M.TrackKind): Option<M.Track<T>>
    decreases |ops|
  {
    if ops == [] then None else KnownNext(KnownTrack(ops[..|ops| - 1], kind), ops[|ops| - 1], kind)
  }

  function KnownNext<T, P>(before: Option<M.Track<T>>, op: Op<T, P>, kind: M.TrackKind): Option<M.Track<T>>
  {
    if before.None? && KindOf(op) == Some(kind) then TrackOf(op) else before
  }

  /** The track that announces its kind: that of the first packet of the kind, or else the first known. */
  function Announcer<T, P>(ops: seq<Op<T, P>>, kind: M.TrackKind): Option<M.Track<T>>
  {
    var first := M.FirstOf(PacketsOf(ops), kind);
    if first.Some? then first else KnownTrack(ops, kind)
  }

  /** Every packet has its tag, and every kind's announcing track can be announced. */
  predicate Writable<T, P>(builder: M.Builder<T, P>, ops: seq<Op<T, P>>)
  {
    && M.AllTagged(builder, PacketsOf(ops)) && M.Announceable(builder, None, Announcer(ops, M.AudioTrack))
    && M.Announceable(builder, None, Announcer(ops, M.VideoTrack))
  }

  /** How many of `n` packets have been written by a queue of the given depth. */
  function Done(n: nat, depth: nat): nat
  {
    if n > depth then n - depth else 0
  }

  /** What of a muxer's state decides how it answers. */
  datatype View<T, P> = View(pushed: seq<M.Packet<T, P>>, queue: seq<M.Packet<T, P>>, audio: Option<M.Track<T>>,
                             video: Option<M.Track<T>>, audioBy: Option<M.Track<T>>, videoBy: Option<M.Track<T>>)

  ghost function ViewOf<T, P>(mux: M.FlvMuxer<T, P>): View<T, P>
    reads mux
  {
    View(mux.pushed, mux.queue, mux.audio, mux.video, mux.audioBy, mux.videoBy)
  }

  /** One operation, which succeeded if `ok`. */
  ghost predicate Moves<T, P>(builder: M.Builder<T, P>, depth: nat, op: Op<T, P>, before: View<T, P>, after: View<T, P>,
                              ok: bool)
  {
    && after.audio == KnownNext(before.audio, op, M.AudioTrack)
    && after.video == KnownNext(before.video, op, M.VideoTrack)
    && match op
       case Push(p) =>
         && after.audioBy == M.AnnouncedBy(builder, before.audioBy, M.AudioTrack, p.track)
         && after.videoBy == M.AnnouncedBy(builder, before.videoBy, M.VideoTrack, p.track)
         && (M.Accepts(builder, before.queue, p, before.audioBy.Some?, before.videoBy.Some?) ==>
               ok && M.AllTagged(builder, after.queue))
         && (ok ==>
               && after.pushed == before.pushed + [p]
               && |after.queue| == (if |before.queue| < depth then |before.queue| + 1 else depth)
               && !M.Pending(p.track.kind, after.audioBy.Some?, after.videoBy.Some?))
       case _ =>
         && ok && after.queue == before.queue && after.pushed == before.pushed && after.audioBy == before.audioBy
         && after.videoBy == before.videoBy
  }

  /**
   * The muxer's state behind the first `i` operations, all of them accepted, or one refused that makes the run
   * unwritable.
   */
  ghost predicate Going<T, P>(builder: M.Builder<T, P>, depth: nat, ops: seq<Op<T, P>>, i: nat, accepted: bool,
                              view: View<T, P>)
    requires i <= |ops|
  {
    && view.audio == KnownTrack(ops[..i], M.AudioTrack) && view.video == KnownTrack(ops[..i], M.VideoTrack)
    && if accepted then
         var packets := PacketsOf(ops[..i]);
         && view.pushed == packets && view.audioBy == M.FirstOf(packets, M.AudioTrack)
         && view.videoBy == M.FirstOf(packets, M.VideoTrack) && |view.queue| == |packets| - Done(|packets|, depth)
         && (M.AllTagged(builder, PacketsOf(ops)) ==> M.AllTagged(builder, view.queue))
       else !Writable(builder, ops)
  }

  lemma NothingGoing<T, P>(builder: M.Builder<T, P>, depth: nat, ops: seq<Op<T, P>>)
    ensures Going(builder, depth, ops, 0, true, View([], [], None, None, None, None))
  {
    assert ops[..0] == [];
  }

  lemma KnownSnoc<T, P>(ops: seq<Op<T, P>>, i: nat, kind: M.TrackKind)
    requires i < |ops|
    ensures KnownTrack(ops[..i + 1], kind) == KnownNext(KnownTrack(ops[..i], kind), ops[i], kind)
  {
    hide KnownNext;
    assert ops[..i + 1][..i] == ops[..i];
  }

  lemma {:induction false} PacketsPrefix<T, P>(ops: seq<Op<T, P>>, i: nat)
    requires i <= |ops|
    ensures PacketsOf(ops[..i]) <= PacketsOf(ops)
    decreases |ops|
  {
    if i == |ops| {
      assert ops[..i] == ops;
    } else {
      var n := |ops| - 1;
      assert ops[..n][..i] == ops[..i];
      PacketsPrefix(ops[..n], i);
    }
  }

  lemma GoingNext<T, P>(builder: M.Builder<T, P>, depth: nat, ops: seq<Op<T, P>>, i: nat, accepted: bool,
                        before: View<T, P>, after: View<T, P>, ok: bool)
    requires i < |ops| && Going(builder, depth, ops, i, accepted, before)
             && Moves(builder, depth, ops[i], before, after, ok)
    ensures Going(builder, depth, ops, i + 1, accepted && ok, after)
  {
    hide KnownTrack, KnownNext, M.AllTagged, PacketsOf, Writable, M.FirstOf, M.Accepts, M.AnnouncedBy, M.Pending;
    KnownSnoc(ops, i, M.AudioTrack);
    KnownSnoc(ops, i, M.VideoTrack);
    PacketsSnoc(ops, i);
    if accepted {
      var packets := PacketsOf(ops[..i]);
      if ops[i].Push? {
        if ok {
          GoingPush(builder, ops, i, before, after);
        } else {
          PushRefused(builder, ops, i, before.queue);
        }
      } else {
        assert packets + [] == packets;
      }
    }
  }

  /** A packet that is taken is the first of its kind or comes behind it. */
  lemma GoingPush<T, P>(builder: M.Builder<T, P>, ops: seq<Op<T, P>>, i: nat, before: View<T, P>, after: View<T, P>)
    requires i < |ops| && ops[i].Push?
    requires var packets, p := PacketsOf(ops[..i]), ops[i].packet;
             && before.audioBy == M.FirstOf(packets, M.AudioTrack) && before.videoBy == M.FirstOf(packets, M.VideoTrack)
             && after.audioBy == M.AnnouncedBy(builder, before.audioBy, M.AudioTrack, p.track)
             && after.videoBy == M.AnnouncedBy(builder, before.videoBy, M.VideoTrack, p.track)
             && !M.Pending(p.track.kind, after.audioBy.Some?, after.videoBy.Some?)
             && (M.Accepts(builder, before.queue, p, before.audioBy.Some?, before.videoBy.Some?) ==>
                   M.AllTagged(builder, after.queue))
             && (M.AllTagged(builder, PacketsOf(ops)) ==> M.AllTagged(builder, before.queue))
    ensures after.audioBy == M.FirstOf(PacketsOf(ops[..i + 1]), M.AudioTrack)
    ensures after.videoBy == M.FirstOf(PacketsOf(ops[..i + 1]), M.VideoTrack)
    ensures M.AllTagged(builder, PacketsOf(ops)) ==> M.AllTagged(builder, after.queue)
  {
    hide M.ConfigOk, M.TagOf, PacketsOf, M.FirstOf, M.AllTagged;
    var packets, p := PacketsOf(ops[..i]), ops[i].packet;
    PacketsSnoc(ops, i);
    PacketsPrefix(ops, i + 1);
    assert (packets + [p])[..|packets|] == packets && (packets + [p])[..|packets| + 1] == packets + [p];
    M.FirstSnoc(packets + [p], |packets|, M.AudioTrack);
    M.FirstSnoc(packets + [p], |packets|, M.VideoTrack);
    assert PacketsOf(ops)[|packets|] == p;
    M.MoreTagged(builder, PacketsOf(ops), before.queue, |packets|);
  }

  lemma PushRefused<T, P>(builder: M.Builder<T, P>, ops: seq<Op<T, P>>, i: nat, queue: seq<M.Packet<T, P>>)
    requires i < |ops| && ops[i].Push?
    requires M.AllTagged(builder, PacketsOf(ops)) ==> M.AllTagged(builder, queue)
    requires var packets := PacketsOf(ops[..i]);
             !M.Accepts(builder, queue, ops[i].packet, M.FirstOf(packets, M.AudioTrack).Some?,
                        M.FirstOf(packets, M.VideoTrack).Some?)
    ensures !Writable(builder, ops)
  {
    hide M.Accepts, M.AllTagged, M.ConfigOk, PacketsOf, KnownTrack, M.FirstOf;
    var packets := PacketsOf(ops[..i]);
    PacketsSnoc(ops, i);
    PacketsPrefix(ops, i);
    PacketsPrefix(ops, i + 1);
    assert PacketsOf(ops)[|packets|] == ops[i].packet && PacketsOf(ops)[..|packets|] == packets;
    M.Refused(builder, PacketsOf(ops), queue, |packets|);
  }

  // ---- The bytes waiting ----

  /**
   * Before an operation: what has been taken and what is waiting are the file so far, and if no packet has been
   * refused, the tags are those of all packets but the `depth` last ones in the order of writing, each kind
   * announced.
   */
  ghost predicate Snapshot<T, P>(builder: M.Builder<T, P>, fileMode: bool, depth: nat, ops: seq<Op<T, P>>,
                                 outputs: seq<bytes>, waiting: bytes, accepted: bool, order: seq<nat>,
                                 log: seq<M.Entry>)
    requires |ops| == |outputs|
  {
    && AllFit(M.TagsOf(log))
    && (if PacketsOf(ops) == [] then TakenBy(ops, outputs) == waiting == [] && log == []
        else TakenBy(ops, outputs) + waiting ==
             Patched(M.PlainFile(FlagsOf(ops[..FirstTake(ops, outputs)]), fileMode, log), StraysOf(ops, outputs)))
    && (accepted ==> WrittenSoFar(builder, PacketsOf(ops), Done(|PacketsOf(ops)|, depth), order, log))
  }

  ghost predicate WrittenSoFar<T, P>(builder: M.Builder<T, P>, packets: seq<M.Packet<T, P>>, done: nat, order: seq<nat>,
                                     log: seq<M.Entry>)
  {
    && done <= |order| && FlvReorder.Below(|packets|, order[..done])
    && M.MediaOf(log) == M.Written(builder, packets, order[..done]) && M.AnnouncesEach(builder, packets, log)
  }

  /** The snapshots before the operations, whose logs are the parts of `log` up to the cuts. */
  ghost predicate Snapshots<T, P>(builder: M.Builder<T, P>, fileMode: bool, depth: nat, ops: seq<Op<T, P>>,
                                  outputs: seq<bytes>, accepted: bool, order: seq<nat>, log: seq<M.Entry>,
                                  cuts: seq<nat>)
  {
    && |cuts| == |outputs| <= |ops|
    && (forall j, k | 0 <= j < k < |cuts| :: cuts[j] <= cuts[k])
    && forall j | 0 <= j < |cuts| ::
         cuts[j] <= |log|
         && Snapshot(builder, fileMode, depth, ops[..j], outputs[..j], outputs[j], accepted, order, log[..cuts[j]])
  }

  lemma SnapshotsGrow<T, P>(builder: M.Builder<T, P>, fileMode: bool, depth: nat, ops: seq<Op<T, P>>,
                            outputs: seq<bytes>, accepted: bool, order: seq<nat>, log: seq<M.Entry>, cuts: seq<nat>,
                            accepted': bool, order': seq<nat>, log': seq<M.Entry>)
    requires Snapshots(builder, fileMode, depth, ops, outputs, accepted, order, log, cuts)
    requires order <= order' && log <= log' && (accepted' ==> accepted)
    ensures Snapshots(builder, fileMode, depth, ops, outputs, accepted', order', log', cuts)
  {
    hide Snapshot;
    forall j | 0 <= j < |cuts|
      ensures cuts[j] <= |log'| &&
              Snapshot(builder, fileMode, depth, ops[..j], outputs[..j], outputs[j], accepted', order', log'[..cuts[j]])
    {
      assert log'[..cuts[j]] == log[..cuts[j]];
      SnapshotGrows(builder, fileMode, depth, ops[..j], outputs[..j], outputs[j], accepted, order, log[..cuts[j]],
                    accepted', order');
    }
  }

  lemma SnapshotGrows<T, P>(builder: M.Builder<T, P>, fileMode: bool, depth: nat, ops: seq<Op<T, P>>,
                            outputs: seq<bytes>, waiting: bytes, accepted: bool, order: seq<nat>, log: seq<M.Entry>,
                            accepted': bool, order': seq<nat>)
    requires |ops| == |outputs| && Snapshot(builder, fileMode, depth, ops, outputs, waiting, accepted, order, log)
    requires order <= order' && (accepted' ==> accepted)
    ensures Snapshot(builder, fileMode, depth, ops, outputs, waiting, accepted', order', log)
  {
    hide AllFit, PacketsOf, TakenBy, M.PlainFile, StraysOf, M.Written, M.MediaOf, M.AnnouncesEach, Done, FlagsOf,
         Patched;
    var done := Done(|PacketsOf(ops)|, depth);
    if accepted {
      assert order'[..done] == order[..done];
    }
  }

  lemma SnapshotsNext<T, P>(builder: M.Builder<T, P>, fileMode: bool, depth: nat, ops: seq<Op<T, P>>,
                            outputs: seq<bytes>, accepted: bool, order: seq<nat>, log: seq<M.Entry>, cuts: seq<nat>,
                            waiting: bytes)
    requires Snapshots(builder, fileMode, depth, ops, outputs, accepted, order, log, cuts) && |outputs| < |ops|
    requires Snapshot(builder, fileMode, depth, ops[..|outputs|], outputs, waiting, accepted, order, log)
    ensures Snapshots(builder, fileMode, depth, ops, outputs + [waiting], accepted, order, log, cuts + [|log|])
  {
    hide Snapshot;
    var more, all, n := outputs + [waiting], cuts + [|log|], |outputs|;
    forall j | 0 <= j <= n
      ensures Snapshot(builder, fileMode, depth, ops[..j], more[..j], more[j], accepted, order, log[..all[j]])
    {
      if j < n {
        assert more[..j] == outputs[..j];
      } else {
        assert more[..n] == outputs && log[..|log|] == log;
      }
    }
  }

  /** The state of the muxer gives the snapshot. */
  lemma SnapshotNow<T, P>(builder: M.Builder<T, P>, fileMode: bool, depth: nat, ops: seq<Op<T, P>>, outputs: seq<bytes>,
                          taken: bytes, waiting: bytes, headerWritten: bool, flags: byte, hasAudio: bool,
                          hasVideo: bool, strays: seq<Stray>, accepted: bool, queue: seq<M.Packet<T, P>>,
                          queued: seq<nat>, order: seq<nat>, when: seq<nat>, log: seq<M.Entry>)
    requires M.BytesOk(headerWritten, taken, waiting, log, fileMode, flags, hasAudio, hasVideo, strays)
    requires Reached(ops, outputs, taken, flags, hasAudio, hasVideo, strays)
             && (headerWritten <==> PacketsOf(ops) != [])
    requires accepted ==>
               && M.FlowOk(builder, PacketsOf(ops), queue, queued, order, when, depth, false, log)
               && |queue| == |PacketsOf(ops)| - Done(|PacketsOf(ops)|, depth)
               && M.AnnouncesEach(builder, PacketsOf(ops), log)
    ensures Snapshot(builder, fileMode, depth, ops, outputs, waiting, accepted, order, log)
  {
    hide AllFit, PacketsOf, TakenBy, M.PlainFile, StraysOf, M.Written, M.MediaOf, M.AnnouncesEach, Patched, Seen,
         Observed, FlvReorder.QueueOk, M.TagOf;
    if taken == [] && headerWritten {
      assert ops[..|ops|] == ops;
    }
    if accepted {
      assert order[..|order|] == order;
    }
  }

  // ---- The outcome ----

  /** What a run leaves: the stream, what is wrong in it, and, if no packet was refused, its tags in their order. */
  ghost predicate Outcome<T, P>(builder: M.Builder<T, P>, fileMode: bool, depth: nat, ops: seq<Op<T, P>>,
                                outputs: seq<bytes>, stream: bytes, accepted: bool, order: seq<nat>, log: seq<M.Entry>,
                                cuts: seq<nat>)
  {
    && AllFit(M.TagsOf(log)) && |ops| == |outputs|
    && var plain, strays := M.PlainFile(FlagsOf(ops[..FirstTake(ops, outputs)]), fileMode, log), StraysOf(ops, outputs);
    && Observed(plain, strays) && stream == Patched(plain, strays)
    && (stream == plain <==> Harmless(strays))
    && (KindsFirst(ops) ==> stream == M.PlainFile(FlagsOf(ops), fileMode, log))
    && TakenBy(ops, outputs) <= stream
    && Snapshots(builder, fileMode, depth, ops, outputs, accepted, order, log, cuts)
    && (accepted ==>
          && M.EachOnce(builder, PacketsOf(ops), order, log) && M.SortedIfMendable(PacketsOf(ops), order, depth)
          && M.Announced(builder, log, Audio, Announcer(ops, M.AudioTrack))
          && M.Announced(builder, log, Video, Announcer(ops, M.VideoTrack)))
  }

  /** The muxer takes operations. */
  ghost predicate Ready<T, P>(mux: M.FlvMuxer<T, P>)
    reads mux
  {
    mux.Bytes() && mux.Flow() && mux.Configs() && mux.Kinds() && !mux.closed && |mux.queue| <= mux.maxQueueDepth
  }

  method Deliver<T, P>(mux: M.FlvMuxer<T, P>, packet: M.Packet<T, P>) returns (ok: bool)
    requires Ready(mux)
    modifies mux
    ensures Ready(mux) && mux.taken == old(mux.taken)
    ensures old(mux.log) <= mux.log && old(mux.order) <= mux.order && mux.headerWritten
    ensures Moves(mux.builder, mux.maxQueueDepth, Push(packet), old(ViewOf(mux)), ViewOf(mux), ok)
    ensures ok ==> mux.failed == old(mux.failed)
    ensures old(mux.taken) != [] ==> mux.flags == old(mux.flags)
    ensures mux.strays == old(mux.strays) +
              M.StrayOf(|old(mux.taken)|, old(mux.output), old(mux.audio.Some?), old(mux.video.Some?),
                        packet.track.kind)
  {
    hide M.FlvMuxer.Bytes, M.FlvMuxer.Flow, M.ConfigsOk, M.StrayOf, M.AnnouncedBy, M.Accepts, M.AllTagged, M.Appended,
         M.TagOf, Flags;
    var done := mux.PushPacket(packet);
    ok := done.Ok?;
  }

  /** The operation on the muxer, and the bytes it hands out. */
  method Apply<T, P>(mux: M.FlvMuxer<T, P>, op: Op<T, P>) returns (bytes: bytes, ok: bool)
    requires Ready(mux)
    modifies mux
    ensures Ready(mux)
    ensures mux.taken == old(mux.taken) + bytes && (op.Take? ==> bytes == old(mux.output))
            && (!op.Take? ==> bytes == [])
    ensures old(mux.log) <= mux.log && old(mux.order) <= mux.order
            && (mux.headerWritten <==> old(mux.headerWritten) || op.Push?)
    ensures Moves(mux.builder, mux.maxQueueDepth, op, old(ViewOf(mux)), ViewOf(mux), ok)
    ensures ok ==> mux.failed == old(mux.failed)
    ensures op.Take? || old(mux.taken) != [] ==> mux.flags == old(mux.flags)
    ensures mux.strays ==
            old(mux.strays) + StraysBy(op, old(mux.taken), old(mux.output), old(mux.audio.Some?), old(mux.video.Some?))
  {
    hide M.FlvMuxer.Bytes, M.FlvMuxer.Flow, M.ConfigsOk, M.StrayOf, M.AnnouncedBy, M.Accepts, M.AllTagged, M.Appended,
         M.TagOf, Flags;
    bytes, ok := [], true;
    assert mux.taken + [] == mux.taken && mux.strays + [] == mux.strays;
    match op {
      case Add(track) =>
        mux.AddTrack(track);
      case Push(packet) =>
        ok := Deliver(mux, packet);
      case Take =>
        bytes := mux.TakeOutput();
    }
  }

  function StraysBy<T, P>(op: Op<T, P>, taken: bytes, output: bytes, hasAudio: bool, hasVideo: bool): seq<Stray>
  {
    match KindOf(op)
    case None => []
    case Some(kind) => M.StrayOf(|taken|, output, hasAudio, hasVideo, kind)
  }

  /** The state of a run behind its first `i` operations. */
  ghost predicate Upto<T, P>(ops: seq<Op<T, P>>, i: nat, mux: M.FlvMuxer<T, P>, outputs: seq<bytes>, accepted: bool,
                             cuts: seq<nat>)
    requires i <= |ops|
    reads mux
  {
    && |outputs| == i && (accepted ==> !mux.failed) && (mux.headerWritten <==> PacketsOf(ops[..i]) != [])
    && Reached(ops[..i], outputs, mux.taken, mux.flags, mux.audio.Some?, mux.video.Some?, mux.strays)
    && Going(mux.builder, mux.maxQueueDepth, ops, i, accepted, ViewOf(mux))
    && Snapshots(mux.builder, mux.fileMode, mux.maxQueueDepth, ops, outputs, accepted, mux.order, mux.log, cuts)
  }

  method Step<T, P>(mux: M.FlvMuxer<T, P>, ops: seq<Op<T, P>>, i: nat, ghost outputs: seq<bytes>, ghost accepted: bool,
                    ghost cuts: seq<nat>) returns (before: bytes, bytes: bytes, ok: bool, ghost cut: nat)
    requires i < |ops| && Ready(mux) && Upto(ops, i, mux, outputs, accepted, cuts)
    modifies mux
    ensures Ready(mux) && mux.taken == old(mux.taken) + bytes
    ensures Upto(ops, i + 1, mux, outputs + [before], accepted && ok, cuts + [cut])
  {
    hide Ready, M.StrayOf, Reached, Seen, PacketsOf, Snapshot, Snapshots, Going, Moves, Flags;
    ghost var audio, video, strays := mux.audio.Some?, mux.video.Some?, mux.strays;
    ghost var taken, flags, view, order, log := mux.taken, mux.flags, ViewOf(mux), mux.order, mux.log;
    HeaderFlags(mux);
    PacketsSnoc(ops, i);
    before := mux.output;
    TakeSnapshot(mux, ops, i, outputs, accepted, cuts);
    bytes, ok := Apply(mux, ops[i]);
    cut := |log|;
    KindsNext(mux.builder, mux.maxQueueDepth, ops[i], view, ViewOf(mux), ok);
    AfterOp(ops, outputs, taken, flags, audio, video, strays, i, before, bytes, mux.flags, mux.audio.Some?,
            mux.video.Some?, mux.strays);
    GoingNext(mux.builder, mux.maxQueueDepth, ops, i, accepted, view, ViewOf(mux), ok);
    SnapshotsGrow(mux.builder, mux.fileMode, mux.maxQueueDepth, ops, outputs + [before], accepted, order, log,
                  cuts + [cut], accepted && ok, mux.order, mux.log);
  }

  lemma HeaderFlags<T, P>(mux: M.FlvMuxer<T, P>)
    requires Ready(mux)
    ensures mux.taken == [] && mux.output != [] ==> mux.flags == Flags(mux.audio.Some?, mux.video.Some?)
  {
  }

  lemma KindsNext<T, P>(builder: M.Builder<T, P>, depth: nat, op: Op<T, P>, before: View<T, P>, after: View<T, P>,
                        ok: bool)
    requires Moves(builder, depth, op, before, after, ok)
    ensures after.audio.Some? <==> before.audio.Some? || KindOf(op) == Some(M.AudioTrack)
    ensures after.video.Some? <==> before.video.Some? || KindOf(op) == Some(M.VideoTrack)
  {
    hide M.Accepts, M.AllTagged, M.AnnouncedBy;
  }

  /**
   * Any run, in which output is taken at any time: what has been taken and what the end returns is the file with the
   * tags written, its header as it was when bytes were first taken, exactly when the flags put elsewhere are
   * harmless. A caller sees that in the bytes waiting, which are at any time the rest of the file so far, and it
   * always holds when every kind of track is there before anything is taken. The run succeeds if and only if every
   * packet and every configuration announced can be written.
   */
  method RunTaking<T, P>(builder: M.Builder<T, P>, fileMode: bool, depth: nat, ops: seq<Op<T, P>>)
    returns (r: Result<bytes, FlvError>, outputs: seq<bytes>, accepted: bool)
    ensures r.Ok? && accepted <==> Writable(builder, ops)
    ensures r.Ok? ==> exists order, log, cuts ::
                        Outcome(builder, fileMode, depth, ops, outputs, r.value, accepted, order, log, cuts)
  {
    hide Ready, Upto, Outcome, Writable;
    var mux := Start(builder, fileMode, depth, ops);
    var taken: bytes := [];
    ghost var cuts: seq<nat> := [];
    outputs, accepted := [], true;
    for i := 0 to |ops|
      invariant Ready(mux) && fresh(mux) && Upto(ops, i, mux, outputs, accepted, cuts) && taken == mux.taken
      invariant mux.builder == builder && mux.fileMode == fileMode && mux.maxQueueDepth == depth
    {
      var before, bytes, ok;
      ghost var cut;
      before, bytes, ok, cut := Step(mux, ops, i, outputs, accepted, cuts);
      taken, outputs, accepted, cuts := taken + bytes, outputs + [before], accepted && ok, cuts + [cut];
    }
    ghost var order, log;
    r, order, log := End(mux, ops, outputs, accepted, cuts);
    if r.Ok? {
      r := Ok(taken + r.value);
    }
  }

  method Start<T, P>(builder: M.Builder<T, P>, fileMode: bool, depth: nat, ops: seq<Op<T, P>>)
    returns (mux: M.FlvMuxer<T, P>)
    ensures fresh(mux) && Ready(mux) && Upto(ops, 0, mux, [], true, []) && mux.taken == []
    ensures mux.builder == builder && mux.fileMode == fileMode && mux.maxQueueDepth == depth
  {
    hide M.BytesOk, M.FlowOk, M.ConfigsOk, Reached, PacketsOf, Snapshots, Going;
    mux := new M.FlvMuxer(builder, fileMode, depth);
    ReachedNothing<T, P>(mux.flags);
    assert ops[..0] == [];
    NoPackets<T, P>();
    NothingGoing(builder, depth, ops);
    NoSnapshots(builder, fileMode, depth, ops);
  }

  /** The end of the run: the rest of the stream. */
  method End<T, P>(mux: M.FlvMuxer<T, P>, ops: seq<Op<T, P>>, ghost outputs: seq<bytes>, ghost accepted: bool,
                   ghost cuts: seq<nat>)
    returns (r: Result<bytes, FlvError>, ghost order: seq<nat>, ghost log: seq<M.Entry>)
    requires Ready(mux) && Upto(ops, |ops|, mux, outputs, accepted, cuts)
    modifies mux
    ensures r.Ok? && accepted <==> Writable(mux.builder, ops)
    ensures r.Ok? ==>
              Outcome(mux.builder, mux.fileMode, mux.maxQueueDepth, ops, outputs, old(mux.taken) + r.value, accepted,
                              order, log, cuts)
  {
    hide M.BytesOk, M.FlowOk, M.ConfigsOk, M.Announceable, M.AllTagged, Reached, PacketsOf, Outcome, Snapshots, Going,
         Writable, Announcer;
    assert ops[..|ops|] == ops;
    ghost var flags, view, before, logged := mux.flags, ViewOf(mux), mux.order, mux.log;
    RunEnds(mux.builder, mux.maxQueueDepth, ops, accepted, view);
    r := mux.Finish();
    order, log := mux.order, mux.log;
    if r.Ok? {
      ReachedFlags(ops, outputs, mux.taken, flags, mux.audio.Some?, mux.video.Some?, mux.strays, mux.flags);
      SnapshotsGrow(mux.builder, mux.fileMode, mux.maxQueueDepth, ops, outputs, accepted, before, logged, cuts,
                    accepted, order, log);
      RunOutcome(mux.builder, mux.fileMode, mux.maxQueueDepth, ops, outputs, accepted, mux.taken, mux.output, log,
                 mux.flags, mux.audio.Some?, mux.video.Some?, mux.strays, view, mux.queued, order, mux.when, cuts,
                 mux.audioBy, mux.videoBy);
    }
  }

  lemma NoSnapshots<T, P>(builder: M.Builder<T, P>, fileMode: bool, depth: nat, ops: seq<Op<T, P>>)
    ensures Snapshots(builder, fileMode, depth, ops, [], true, [], [], [])
  {
  }

  /** The snapshot before operation `i`. */
  lemma TakeSnapshot<T, P>(mux: M.FlvMuxer<T, P>, ops: seq<Op<T, P>>, i: nat, outputs: seq<bytes>, accepted: bool,
                           cuts: seq<nat>)
    requires i < |ops| && Ready(mux) && Upto(ops, i, mux, outputs, accepted, cuts)
    ensures Snapshots(mux.builder, mux.fileMode, mux.maxQueueDepth, ops, outputs + [mux.output], accepted, mux.order,
                      mux.log, cuts + [|mux.log|])
  {
    hide M.BytesOk, M.FlowOk, M.Announced, Reached, PacketsOf, Snapshot, Snapshots, M.AllTagged, M.FirstOf, KnownTrack,
         Writable;
    SnapshotNow(mux.builder, mux.fileMode, mux.maxQueueDepth, ops[..i], outputs, mux.taken, mux.output,
                mux.headerWritten, mux.flags, mux.audio.Some?, mux.video.Some?, mux.strays, accepted, mux.queue,
                mux.queued, mux.order, mux.when, mux.log);
    SnapshotsNext(mux.builder, mux.fileMode, mux.maxQueueDepth, ops, outputs, accepted, mux.order, mux.log, cuts,
                  mux.output);
  }

  /** At the end of a run without refusals the muxer's state says whether it can be written. */
  lemma RunEnds<T, P>(builder: M.Builder<T, P>, depth: nat, ops: seq<Op<T, P>>, accepted: bool, view: View<T, P>)
    requires Going(builder, depth, ops, |ops|, accepted, view)
    ensures if accepted then
              && view.pushed == PacketsOf(ops)
              && (if view.audioBy.Some? then view.audioBy else view.audio) == Announcer(ops, M.AudioTrack)
              && (if view.videoBy.Some? then view.videoBy else view.video) == Announcer(ops, M.VideoTrack)
              && (Writable(builder, ops) ==>
                    && M.AllTagged(builder, view.queue) && M.Announceable(builder, view.audioBy, view.audio)
                    && M.Announceable(builder, view.videoBy, view.video))
            else !Writable(builder, ops)
  {
    hide M.AllTagged, PacketsOf, M.FirstOf, KnownTrack, M.ConfigOk;
    assert ops[..|ops|] == ops;
  }

  lemma NoPackets<T, P>()
    ensures PacketsOf<T, P>([]) == []
  {
  }

  lemma PacketsSnoc<T, P>(ops: seq<Op<T, P>>, i: nat)
    requires i < |ops|
    ensures PacketsOf(ops[..i + 1]) == PacketsOf(ops[..i]) + if ops[i].Push? then [ops[i].packet] else []
  {
    assert ops[..i + 1][..i] == ops[..i] && ops[..i + 1][i] == ops[i];
  }

  lemma RunOutcome<T, P>(builder: M.Builder<T, P>, fileMode: bool, depth: nat, ops: seq<Op<T, P>>, outputs: seq<bytes>,
                         accepted: bool, taken: bytes, output: bytes, log: seq<M.Entry>, flags: byte, hasAudio: bool,
                         hasVideo: bool, strays: seq<Stray>, view: View<T, P>, queued: seq<nat>, order: seq<nat>,
                         when: seq<nat>, cuts: seq<nat>, audioBy: Option<M.Track<T>>, videoBy: Option<M.Track<T>>)
    requires M.BytesOk(true, taken, output, log, fileMode, flags, hasAudio, hasVideo, strays)
    requires Reached(ops, outputs, taken, flags, hasAudio, hasVideo, strays)
    requires Snapshots(builder, fileMode, depth, ops, outputs, accepted, order, log, cuts)
    requires accepted ==>
               && view.pushed == PacketsOf(ops)
               && M.FlowOk(builder, view.pushed, [], queued, order, when, depth, true, log)
               && M.ConfigsOk(builder, log, [], audioBy, videoBy) && audioBy == Announcer(ops, M.AudioTrack)
               && videoBy == Announcer(ops, M.VideoTrack)
    ensures Outcome(builder, fileMode, depth, ops, outputs, taken + output, accepted, order, log, cuts)
    ensures accepted ==> Writable(builder, ops)
  {
    hide M.PlainFile, Patched, Observed, Harmless, Seen, M.FlowOk, PacketsOf, M.EachOnce, M.SortedIfMendable,
         KindsFirst, StraysOf, FirstTake, TakenBy, Snapshots, Announcer, M.ConfigOk, M.AllTagged, M.ConfigsIn,
         M.ConfigTags, M.ConfigAhead, M.HasMedia;
    assert flags == FlagsOf(ops[..FirstTake(ops, outputs)]) by {
      if taken == [] {
        assert ops[..|ops|] == ops;
      }
    }
    HarmlessExactly(M.PlainFile(flags, fileMode, log), strays);
    if KindsFirst(ops) {
      KindsFirstIsSafe(ops, outputs);
      NoStrays();
    }
    if accepted {
      FlowEnds(builder, view.pushed, queued, order, when, depth, log);
      M.AllWritten(builder, view.pushed, queued, order, when, depth, log);
    }
  }

  lemma NoStrays()
    ensures Harmless([])
  {
  }

  lemma FlowEnds<T, P>(builder: M.Builder<T, P>, packets: seq<M.Packet<T, P>>, queued: seq<nat>, order: seq<nat>,
                       when: seq<nat>, depth: nat, log: seq<M.Entry>)
    requires M.FlowOk(builder, packets, [], queued, order, when, depth, true, log)
    ensures M.EachOnce(builder, packets, order, log) && M.SortedIfMendable(packets, order, depth)
  {
    hide FlvReorder.Sorted, FlvReorder.Late, FlvReorder.LeastFirst, FlvReorder.TooLate, M.Written, M.MediaOf;
    assert queued == [];
    FlvReorder.SortedExactly(M.Keys(packets), order, when, depth);
  }

  // ---- A header taken away too early ----

  /**
   * An audio packet is written and taken away, and written again; then a video track is added. The flags land in the
   * second tag, whose timestamp survives if and only if it holds the byte already.
   */
  method TakenHeaderIsPatched<T, P>(builder: M.Builder<T, P>, audio: M.Track<T>, video: M.Track<T>, p: M.Packet<T, P>,
                                    tag: Tag)
    returns (header: bytes, after: bytes)
    requires audio.kind.AudioTrack? && video.kind.VideoTrack? && p.track == audio
    requires M.TagOf(builder, p) == Ok(Some(tag)) && M.ConfigOk(builder, audio) && M.ConfigOk(builder, video)
    ensures ParseTagHeader(after).Ok?
    ensures ParseTagHeader(after).value.timestampMs == tag.timestampMs <==> tag.timestampMs / 0x1_0000 % 0x100 == 5
  {
    hide M.BytesOk, M.FlowOk, M.ConfigsOk, M.TagOf, M.StrayOf, M.ConfigOk, M.AllTagged, ParseTagHeader, Flags, TagBytes;
    TagFits(builder, p, tag);
    var mux;
    mux, header := TakeHeader(builder, audio, p, tag);
    mux.AddTrack(video);
    ghost var patched := mux.output;
    M.NoneTagged(builder);
    var rest := mux.Finish();
    after := rest.value;
    PatchedTimestamp(tag, after[|patched|..]);
    assert after == patched + after[|patched|..];
  }

  /** A muxer whose header has been taken away and whose output is one tag. */
  method TakeHeader<T, P>(builder: M.Builder<T, P>, audio: M.Track<T>, p: M.Packet<T, P>, tag: Tag)
    returns (mux: M.FlvMuxer<T, P>, header: bytes)
    requires audio.kind.AudioTrack? && p.track == audio
    requires M.TagOf(builder, p) == Ok(Some(tag)) && M.ConfigOk(builder, audio)
    ensures tag.Fits() && fresh(mux) && mux.builder == builder && Ready(mux) && mux.queue == []
    ensures mux.headerWritten && mux.output == TagBytes(tag) && mux.audio == Some(audio) && mux.video == None
  {
    hide M.FlvMuxer.Bytes, M.FlvMuxer.Flow, M.ConfigsOk, M.TagOf, M.StrayOf, M.ConfigOk, M.Appended, M.AllTagged,
         TagBytes, Flags;
    TagFits(builder, p, tag);
    AppendedTag(tag);
    mux := new M.FlvMuxer(builder, false, 0);
    mux.AddTrack(audio);
    assert mux.queue + [p] == [p];
    var done := mux.PushPacket(p);
    header := mux.TakeOutput();
    assert mux.queue + [p] == [p];
    done := mux.PushPacket(p);
  }

  lemma TagFits<T, P>(builder: M.Builder<T, P>, p: M.Packet<T, P>, tag: Tag)
    requires M.TagOf(builder, p) == Ok(Some(tag))
    ensures tag.Fits() && M.AllTagged(builder, [p]) && |TagBytes(tag)| > 4
  {
  }

  lemma AppendedTag(tag: Tag)
    requires tag.Fits()
    ensures [] + M.Appended(false, Some(tag)) == TagBytes(tag)
  {
    assert TagBytes(tag) + [] == TagBytes(tag);
  }

  lemma PatchedTimestamp(tag: Tag, rest: bytes)
    requires tag.Fits()
    ensures var s := TagBytes(tag)[4 := Flags(true, true)] + rest;
            && ParseTagHeader(s).Ok?
            && (ParseTagHeader(s).value.timestampMs == tag.timestampMs <==> tag.timestampMs / 0x1_0000 % 0x100 == 5)
  {
    hide HeaderBytes, FromBE24, BE24;
    var header := HeaderBytes(tag.tagType, |tag.body|, tag.timestampMs);
    var s := TagBytes(tag)[4 := 5] + rest;
    HeaderRoundTrip(tag.tagType, |tag.body|, tag.timestampMs);
    TimestampByte(tag.tagType, |tag.body|, tag.timestampMs);
    PatchedLower(header[4..7], 5);
    assert s[4..7] == header[4..7][0 := 5] && s[1..4] == header[1..4] && s[8..11] == header[8..11];
    assert s[0] == header[0] && s[7] == header[7] && header[4..7][0] == header[4];
  }

  lemma TimestampByte(t: TagType, size: u24, timestamp: u32)
    ensures HeaderBytes(t, size, timestamp)[4] == timestamp / 0x1_0000 % 0x100
  {
    assert timestamp % 0x100_0000 / 0x1_0000 == timestamp / 0x1_0000 % 0x100;
  }

  lemma PatchedLower(d: bytes, b: byte)
    requires |d| == 3
    ensures FromBE24(d[0 := b]) == FromBE24(d) <==> d[0] == b
  {
    assert d[0 := b][1..] == d[1..];
  }
}

/** MPEG-PS audio assembler: PES payloads with times in, ADTS frames with running times out. */
module PsAudio {
  import opened Bytes
  import opened PsPayloads
  import opened Adts

  /** Presentation and decode time in 90 kHz ticks. */
  datatype Time = Time(pts: Option<int>, dts: Option<int>)

  /** Timestamp arithmetic saturates at the largest 64-bit tick. */
  function Plus(t: Option<int>, ticks: nat): Option<int>
  {
    match t
    case None => None
    case Some(v) => Some(if v + ticks > I64_MAX then I64_MAX else v + ticks)
  }

  function Advance(t: Time, ticks: nat): Time
  {
    Time(Plus(t.pts, ticks), Plus(t.dts, ticks))
  }

  datatype Event = Track(header: AdtsHeader) | Packet(frame: bytes, sequence: u64, time: Time, duration: nat)

  datatype AudioError = InvalidInput | BufferExceeded(max: nat)

  function DurationOf(frame: bytes): nat
    requires Parse(frame).Ok?
  {
    Parse(frame).value.DurationTicks()
  }

  // ---- Which time a frame gets ----

  /** The index of the payload that holds stream byte `at`. */
  function Holder<T>(payloads: seq<Payload<T>>, at: nat): (i: nat)
    requires at < |Stream(payloads)|
    ensures i < |payloads| && Holds(payloads, i, at)
    decreases |payloads|
  {
    var n := |payloads|;
    var before := payloads[..n - 1];
    if at >= |Stream(before)| then
      assert payloads[..n] == payloads;
      n - 1
    else
      var i := Holder(before, at);
      assert before[..i] == payloads[..i] && before[..i + 1] == payloads[..i + 1];
      i
  }

  lemma HolderStable<T>(payloads: seq<Payload<T>>, p: Payload<T>, at: nat)
    requires at < |Stream(payloads + [p])|
    ensures Holder(payloads + [p], at) == if at < |Stream(payloads)| then Holder(payloads, at) else |payloads|
  {
    assert (payloads + [p])[..|payloads|] == payloads;
  }

  /** Where frame `k` begins. */
  function Begin(frames: seq<bytes>, k: nat): nat
    requires k <= |frames|
  {
    |Concat(frames[..k])|
  }

  /**
   * The time of the frame that begins behind the first `k` frames: the time of the payload it begins in if it is the
   * first to begin there, otherwise the time of the frame before plus that frame's duration.
   */
  function TimeOf(frames: seq<bytes>, k: nat, payloads: seq<Payload<Time>>): Time
    requires AreFrames(frames) && k <= |frames| && Begin(frames, k) < |Stream(payloads)|
  {
    var holder := Holder(payloads, Begin(frames, k));
    if k == 0 then payloads[holder].time
    else
      BeginGrows(frames, k);
      if Holder(payloads, Begin(frames, k - 1)) != holder then payloads[holder].time
      else Advance(TimeOf(frames, k - 1, payloads), DurationOf(frames[k - 1]))
  }

  lemma BeginGrows(frames: seq<bytes>, k: nat)
    requires AreFrames(frames) && 0 < k <= |frames|
    ensures Begin(frames, k) == Begin(frames, k - 1) + |frames[k - 1]|
    ensures Parse(frames[k - 1]).Ok? && |frames[k - 1]| >= 7
  {
    assert frames[..k] == frames[..k - 1] + [frames[k - 1]];
    ConcatSnoc(frames[..k - 1], frames[k - 1]);
    assert IsFrame(frames[k - 1]);
  }

  lemma {:induction false} TimeStable(frames: seq<bytes>, k: nat, payloads: seq<Payload<Time>>, p: Payload<Time>)
    requires AreFrames(frames) && k <= |frames| && Begin(frames, k) < |Stream(payloads)|
    ensures Begin(frames, k) < |Stream(payloads + [p])|
    ensures TimeOf(frames, k, payloads + [p]) == TimeOf(frames, k, payloads)
    decreases k
  {
    hide Parse, Stream, Concat, Holder, Holds, Advance, AdtsHeader.DurationTicks;
    StreamSnoc(payloads, p);
    HolderStable(payloads, p, Begin(frames, k));
    if k > 0 {
      BeginGrows(frames, k);
      HolderStable(payloads, p, Begin(frames, k - 1));
      TimeStable(frames, k - 1, payloads, p);
    }
  }

  // ---- Following a valid stream ----

  /** What a stream cut short shows of frame `k`: its header once seven bytes are there, the frame once all are. */
  lemma FrontParse(all: seq<bytes>, k: nat, stream: bytes)
    requires AreFrames(all) && k < |all| && stream <= Concat(all) && Begin(all, k) <= |stream|
    ensures var rest := stream[Begin(all, k)..];
            && (|rest| >= 7 ==> Parse(rest) == Parse(all[k]))
            && (|rest| >= |all[k]| ==> rest[..|all[k]|] == all[k])
  {
    hide Parse;
    var tail := Concat(all[k + 1..]);
    ConcatAround(all, k);
    assert IsFrame(all[k]);
    PrefixOfSuffix(stream, Concat(all[..k]), all[k] + tail);
    var rest := stream[Begin(all, k)..];
    if |rest| >= 7 {
      HeaderAgrees(rest, all[k] + tail);
      assert |all[k]| >= 7 by { FrameIsLong(all[k]); }
      ParsePrefix(all[k], tail);
    }
    if |rest| >= |all[k]| {
      assert (all[k] + tail)[..|all[k]|] == all[k];
    }
  }

  lemma FrameIsLong(f: bytes)
    requires IsFrame(f)
    ensures 7 <= |f| < 8192
  {
  }

  lemma ConcatAround(all: seq<bytes>, k: nat)
    requires k < |all|
    ensures Concat(all) == Concat(all[..k]) + (all[k] + Concat(all[k + 1..]))
  {
    assert all == all[..k] + all[k..];
    ConcatAppend(all[..k], all[k..]);
    assert all[k..][1..] == all[k + 1..];
  }

  lemma PrefixOfSuffix(s: bytes, a: bytes, b: bytes)
    requires s <= a + b && |a| <= |s|
    ensures s[|a|..] <= b
  {
    assert s[|a|..] == b[..|s| - |a|];
  }

  lemma ParseBounds(d: bytes)
    ensures |d| < 7 <==> Parse(d) == Err(TooShort)
    ensures Parse(d).Ok? ==> 7 <= Parse(d).value.frameLength < 8192 && Parse(d).value.rateIndex < |SAMPLE_RATES|
  {
  }

  lemma HeaderAgrees(a: bytes, b: bytes)
    requires 7 <= |a| && a <= b
    ensures Parse(a) == Parse(b)
  {
  }

  /**
   * The running time of the loop about to look at frame `k`: before the switch to the new payload's time it belongs
   * to the one frame that began earlier, after it to a frame that begins in the new payload.
   */
  ghost predicate TimeOk(all: seq<bytes>, k: nat, now: seq<Payload<Time>>, before: nat, time: Time, switched: bool)
  {
    AreFrames(all) && k <= |all| && (Begin(all, k) < |Stream(now)| ==>
      if switched then Begin(all, k) >= before && time == TimeOf(all, k, now)
      else if Begin(all, k) < before then
        k < |all| && Begin(all, k) + |all[k]| > before && time == TimeOf(all, k, now)
      else k > 0 && Begin(all, k - 1) < before)
  }

  /** Switching to the new payload's time gives the first frame that begins in it its time. */
  lemma SwitchGivesTime(all: seq<bytes>, k: nat, before: seq<Payload<Time>>, p: Payload<Time>, time: Time,
                        switched: bool)
    requires var now := before + [p];
             && TimeOk(all, k, now, |Stream(before)|, time, switched)
             && k < |all| && Begin(all, k) < |Stream(now)|
    ensures TimeOf(all, k, before + [p]) ==
            if !switched && Begin(all, k) >= |Stream(before)| then p.time else time
  {
    if !switched && Begin(all, k) >= |Stream(before)| {
      FirstInPayload(all, k, before, p);
    }
  }

  lemma FirstInPayload(all: seq<bytes>, k: nat, before: seq<Payload<Time>>, p: Payload<Time>)
    requires AreFrames(all) && k <= |all|
    requires |Stream(before)| <= Begin(all, k) < |Stream(before + [p])|
    requires k == 0 || Begin(all, k - 1) < |Stream(before)|
    ensures TimeOf(all, k, before + [p]) == p.time
  {
    HolderStable(before, p, Begin(all, k));
    if k > 0 {
      BeginGrows(all, k);
      HolderStable(before, p, Begin(all, k - 1));
    }
  }

  /** Adding the frame's duration keeps the running time right for the next frame. */
  lemma NextTimeOk(all: seq<bytes>, k: nat, before: seq<Payload<Time>>, p: Payload<Time>, time: Time, switched: bool)
    requires AreFrames(all) && k < |all|
    requires var now := before + [p];
             && Begin(all, k) < |Stream(now)| && time == TimeOf(all, k, now)
             && (if switched then Begin(all, k) >= |Stream(before)|
                 else Begin(all, k) < |Stream(before)| < Begin(all, k) + |all[k]|)
    ensures Parse(all[k]).Ok?
    ensures TimeOk(all, k + 1, before + [p], |Stream(before)|, Advance(time, DurationOf(all[k])), switched)
  {
    var now := before + [p];
    BeginGrows(all, k + 1);
    if switched && Begin(all, k + 1) < |Stream(now)| {
      HolderStable(before, p, Begin(all, k));
      HolderStable(before, p, Begin(all, k + 1));
    }
  }

  /** The packets of frames `i` up to `j`. */
  function Packets(all: seq<bytes>, i: nat, j: nat, payloads: seq<Payload<Time>>): (e: seq<Event>)
    requires AreFrames(all) && i <= j <= |all| && (i < j ==> Begin(all, j - 1) < |Stream(payloads)|)
    ensures |e| == j - i
    decreases j
  {
    if i == j then []
    else
      assert IsFrame(all[j - 1]);
      (if j - 1 > i then BeginGrows(all, j - 1); Packets(all, i, j - 1, payloads) else []) +
      [Packet(all[j - 1], Wrap64(j - 1), TimeOf(all, j - 1, payloads), DurationOf(all[j - 1]))]
  }

  /** `events` announce the track, if it is new, and the frames from `i` up to `j`. */
  ghost predicate Emitted(all: seq<bytes>, i: nat, j: nat, payloads: seq<Payload<Time>>, wasReady: bool,
                          events: seq<Event>)
  {
    && AreFrames(all) && i <= j <= |all| && (i < j ==> Begin(all, j - 1) < |Stream(payloads)|)
    && events == (if !wasReady && i < j then assert IsFrame(all[i]); [Track(Parse(all[i]).value)] else [])
                 + Packets(all, i, j, payloads)
  }

  lemma EmittedNone(all: seq<bytes>, i: nat, payloads: seq<Payload<Time>>, wasReady: bool)
    requires AreFrames(all) && i <= |all|
    ensures Emitted(all, i, i, payloads, wasReady, [])
  {
  }

  lemma EmittedNext(all: seq<bytes>, i: nat, j: nat, payloads: seq<Payload<Time>>, wasReady: bool, events: seq<Event>)
    requires Emitted(all, i, j, payloads, wasReady, events)
    requires j < |all| && Begin(all, j) < |Stream(payloads)| && Parse(all[j]).Ok?
    ensures var track := if !wasReady && i == j then [Track(Parse(all[j]).value)] else [];
            Emitted(all, i, j + 1, payloads, wasReady,
                    events + (track + [Packet(all[j], Wrap64(j), TimeOf(all, j, payloads), DurationOf(all[j]))]))
  {
    hide Parse, TimeOf, AdtsHeader.DurationTicks, Wrap64, Stream, Begin, Packets;
    var packet := Packet(all[j], Wrap64(j), TimeOf(all, j, payloads), DurationOf(all[j]));
    PacketsNext(all, i, j, payloads);
    if i == j {
      NoPackets(all, i, payloads);
    } else {
      var track := if wasReady then [] else [Track(Parse(all[i]).value)];
      Assoc(track, Packets(all, i, j, payloads), [packet]);
    }
  }

  lemma NoPackets(all: seq<bytes>, i: nat, payloads: seq<Payload<Time>>)
    requires AreFrames(all) && i <= |all|
    ensures Packets(all, i, i, payloads) == []
  {
  }

  lemma PacketsNext(all: seq<bytes>, i: nat, j: nat, payloads: seq<Payload<Time>>)
    requires AreFrames(all) && i <= j < |all| && Begin(all, j) < |Stream(payloads)|
    requires i < j ==> Begin(all, j - 1) < |Stream(payloads)|
    ensures Packets(all, i, j + 1, payloads) ==
            Packets(all, i, j, payloads) + [Packet(all[j], Wrap64(j), TimeOf(all, j, payloads), DurationOf(all[j]))]
  {
    hide Parse, TimeOf, AdtsHeader.DurationTicks, Wrap64, Stream, Begin;
  }

  /** Where the loop stands when it follows the valid stream `all`: `rest` is what is left of it, from frame `k` on. */
  ghost predicate Loop(all: seq<bytes>, before: seq<Payload<Time>>, p: Payload<Time>, k: nat, rest: bytes,
                       time: Time, switched: bool)
  {
    var stream := Stream(before + [p]);
    && AreFrames(all) && k <= |all| && stream <= Concat(all)
    && Begin(all, k) <= |stream| && rest == stream[Begin(all, k)..]
    && TimeOk(all, k, before + [p], |Stream(before)|, time, switched)
  }

  /** Whether a frame that begins at the front of `rest` begins in the new payload. */
  ghost predicate InNew(rest: bytes, p: Payload<Time>, switched: bool)
  {
    switched || |rest| <= |p.data|
  }

  /** What the loop finds at its head, and the time it uses there. */
  lemma LoopHead(all: seq<bytes>, before: seq<Payload<Time>>, p: Payload<Time>, k: nat, rest: bytes,
                 time: Time, switched: bool)
    requires Loop(all, before, p, k, rest, time, switched) && rest != []
    ensures k < |all| && Begin(all, k) < |Stream(before + [p])| && IsFrame(all[k])
    ensures |rest| >= 7 ==> Parse(rest) == Parse(all[k])
    ensures |rest| >= |all[k]| ==> rest[..|all[k]|] == all[k]
    ensures TimeOf(all, k, before + [p]) == if InNew(rest, p, switched) && !switched then p.time else time
  {
    assert all[..|all|] == all;
    StreamSnoc(before, p);
    FrontParse(all, k, Stream(before + [p]));
    SwitchGivesTime(all, k, before, p, time, switched);
  }

  lemma LoopNext(all: seq<bytes>, before: seq<Payload<Time>>, p: Payload<Time>, k: nat, rest: bytes,
                 time: Time, switched: bool)
    requires Loop(all, before, p, k, rest, time, switched) && rest != []
    requires k < |all| && |rest| >= |all[k]| && Begin(all, k) < |Stream(before + [p])|
    ensures Parse(all[k]).Ok?
    ensures Loop(all, before, p, k + 1, rest[|all[k]|..],
                 Advance(TimeOf(all, k, before + [p]), DurationOf(all[k])), InNew(rest, p, switched))
  {
    hide Parse, Concat, TimeOf, Stream, Begin;
    LoopHead(all, before, p, k, rest, time, switched);
    StreamSnoc(before, p);
    NextTimeOk(all, k, before, p, TimeOf(all, k, before + [p]), InNew(rest, p, switched));
    BeginGrows(all, k + 1);
    hide TimeOk, TimeOf, Parse, Concat, AreFrames;
    SuffixOfSuffix(Stream(before + [p]), Begin(all, k), |all[k]|);
  }

  lemma SuffixOfSuffix(s: bytes, i: nat, n: nat)
    requires i + n <= |s|
    ensures s[i..][n..] == s[i + n..]
  {
  }

  /** One turn of the loop on a valid stream: frame `k` is emitted if it is all there, and nothing else happens. */
  lemma FollowTurn(all: seq<bytes>, before: seq<Payload<Time>>, p: Payload<Time>, k: nat, rest: bytes,
                   time: Time, switched: bool, i: nat, wasReady: bool, events: seq<Event>)
    requires Loop(all, before, p, k, rest, time, switched) && rest != []
    requires Emitted(all, i, k, before + [p], wasReady, events)
    ensures k < |all| && (if Parse(rest).Err? then Parse(rest) == Err(TooShort) else Parse(rest) == Parse(all[k]))
    ensures var used := if InNew(rest, p, switched) && !switched then p.time else time;
            if Parse(rest).Err? || |rest| < Parse(rest).value.frameLength then
              |rest| < |all[k]| && Leftover(all, k, rest, Some(used), before + [p])
            else
              var h := Parse(rest).value;
              var track := if !wasReady && i == k then [Track(h)] else [];
              var packet := Packet(rest[..h.frameLength], Wrap64(k), used, h.DurationTicks());
              && Loop(all, before, p, k + 1, rest[h.frameLength..], Advance(used, h.DurationTicks()),
                      InNew(rest, p, switched))
              && Emitted(all, i, k + 1, before + [p], wasReady, events + (track + [packet]))
  {
    LoopHead(all, before, p, k, rest, time, switched);
    ParseBounds(rest);
    FrameIsLong(all[k]);
    if |rest| >= |all[k]| {
      LoopNext(all, before, p, k, rest, time, switched);
      EmittedNext(all, i, k, before + [p], wasReady, events);
    }
  }

  /** What is left over is the beginning of frame `k`, and `time` is the time that frame will get. */
  ghost predicate Leftover(all: seq<bytes>, k: nat, leftover: bytes, time: Option<Time>, payloads: seq<Payload<Time>>)
  {
    && AreFrames(all) && k <= |all| && Stream(payloads) <= Concat(all)
    && Begin(all, k) <= |Stream(payloads)| && leftover == Stream(payloads)[Begin(all, k)..]
    && (leftover != [] ==> k < |all| && |leftover| < |all[k]| && time == Some(TimeOf(all, k, payloads)))
  }

  lemma LoopEnds(all: seq<bytes>, before: seq<Payload<Time>>, p: Payload<Time>, k: nat, time: Time, switched: bool)
    requires Loop(all, before, p, k, [], time, switched)
    ensures Leftover(all, k, [], None, before + [p])
  {
  }

  lemma SuffixOfAppend(s: bytes, t: bytes, i: nat)
    requires i <= |s|
    ensures (s + t)[i..] == s[i..] + t
  {
  }

  /** The loop's starting point: a frame left over with its time, or a new payload right at a frame's beginning. */
  lemma LoopStart(all: seq<bytes>, before: seq<Payload<Time>>, p: Payload<Time>, k: nat, leftover: bytes, time: Time)
    requires AreFrames(all) && k <= |all| && Stream(before) + p.data <= Concat(all)
    requires Begin(all, k) <= |Stream(before)| && leftover == Stream(before)[Begin(all, k)..]
    requires if leftover == [] then time == p.time
             else k < |all| && |leftover| < |all[k]| && time == TimeOf(all, k, before)
    ensures Loop(all, before, p, k, leftover + p.data, time, leftover == [])
  {
    hide Begin, Stream, TimeOf, Parse;
    StreamSnoc(before, p);
    SuffixOfAppend(Stream(before), p.data, Begin(all, k));
    if leftover != [] {
      TimeStable(all, k, before, p);
    } else if Begin(all, k) < |Stream(before + [p])| {
      if k > 0 {
        BeginGrows(all, k);
      }
      FirstInPayload(all, k, before, p);
    }
  }

  /** One turn of the loop: the frame is not all there, is no frame, is refused, or has been emitted. */
  datatype Turn = Partial | Garbage | Refused | Taken(len: nat, duration: nat)

  class AudioAssembler {
    const acceptTrack: AdtsHeader -> bool
    const maxBuffer: nat

    var trackReady: bool
    var sequence: u64
    var leftover: bytes
    var leftoverTime: Option<Time>

    ghost var payloads: seq<Payload<Time>>
    /** The number of frames emitted. */
    ghost var count: nat

    ghost predicate Valid()
      reads this
    {
      |leftover| < 8192 && (leftoverTime == None <==> leftover == []) && (trackReady <==> count > 0)
      && sequence == Wrap64(count)
    }

    /** The payloads so far are the beginning of the valid stream `all`, and the frames completed have been emitted. */
    ghost predicate Follows(all: seq<bytes>)
      reads this
    {
      Leftover(all, count, leftover, leftoverTime, payloads)
    }

    constructor (acceptTrack: AdtsHeader -> bool, maxBuffer: nat)
      ensures Valid() && payloads == [] && leftover == [] && count == 0 && !trackReady
      ensures this.acceptTrack == acceptTrack && this.maxBuffer == maxBuffer
    {
      this.acceptTrack, this.maxBuffer := acceptTrack, maxBuffer;
      trackReady, sequence, leftover, leftoverTime := false, 0, [], None;
      payloads, count := [], 0;
    }

    /** Announces the track before the first frame. */
    method EnsureTrack(header: AdtsHeader) returns (events: seq<Event>, r: Result<(), AudioError>)
      modifies this`trackReady
      ensures r == if !old(trackReady) && !acceptTrack(header) then Err(InvalidInput) else Ok(())
      ensures events == if old(trackReady) || r.Err? then [] else [Track(header)]
      ensures trackReady == (old(trackReady) || r.Ok?)
    {
      if trackReady {
        return [], Ok(());
      }
      if !acceptTrack(header) {
        return [], Err(InvalidInput);
      }
      trackReady := true;
      return [Track(header)], Ok(());
    }

    method TakeFrame(rest: bytes, time: Time) returns (turn: Turn, events: seq<Event>)
      requires sequence == Wrap64(count)
      modifies this`trackReady, this`sequence, this`count
      ensures turn == match Parse(rest)
                      case Err(e) => if e == TooShort then Partial else Garbage
                      case Ok(h) =>
                        if |rest| < h.frameLength then Partial
                        else if !old(trackReady) && !acceptTrack(h) then Refused
                        else Taken(h.frameLength, h.DurationTicks())
      ensures !turn.Taken? ==> events == [] && unchanged(this)
      ensures turn.Partial? ==> |rest| <= 8190
      ensures turn.Taken? ==>
                && 7 <= turn.len <= |rest| && count == old(count) + 1 && trackReady
                && events == (if old(trackReady) then [] else [Track(Parse(rest).value)])
                             + [Packet(rest[..turn.len], old(sequence), time, turn.duration)]
                && sequence == Wrap64(count)
    {
      var header := Parse(rest);
      if header.Err? {
        return if header.error == TooShort then Partial else Garbage, [];
      }
      var frameLen := header.value.frameLength;
      if |rest| < frameLen {
        return Partial, [];
      }
      var track, ready := EnsureTrack(header.value);
      if ready.Err? {
        return Refused, [];
      }
      var duration := header.value.DurationTicks();
      events := track + [Packet(rest[..frameLen], sequence, time, duration)];
      WrapNext(count);
      sequence := if sequence == U64_MAX then 0 else sequence + 1;
      count := count + 1;
      return Taken(frameLen, duration), events;
    }

    lemma Enter(all: seq<bytes>, p: Payload<Time>)
      requires Valid() && Follows(all) && Stream(payloads) + p.data <= Concat(all)
      ensures Loop(all, payloads, p, count, leftover + p.data,
                   if leftoverTime.Some? then leftoverTime.value else p.time, leftoverTime.None?)
      ensures Emitted(all, count, count, payloads + [p], trackReady, [])
    {
      hide Loop, Emitted, TimeOf, Stream, Concat;
      LoopStart(all, payloads, p, count, leftover, if leftoverTime.Some? then leftoverTime.value else p.time);
      EmittedNone(all, count, payloads + [p], trackReady);
    }

    /**
     * Whatever the bytes, less than one ADTS frame is carried over. On a valid stream, exactly the frames completed by
     * this payload are emitted, each with its time.
     */
    method ProcessPayload(payload: bytes, mediaTime: Time, ghost all: seq<bytes>)
      returns (events: seq<Event>, r: Result<(), AudioError>)
      requires Valid()
      modifies this
      ensures Valid() && payloads == old(payloads) + [Payload(payload, mediaTime)]
      ensures old(Follows(all)) && old(Stream(payloads)) + payload <= Concat(all) && r.Ok? ==>
                && Follows(all)
                && Emitted(all, old(count), count, payloads, old(trackReady), events)
                && trackReady == (old(trackReady) || old(count) < count)
      ensures r.Err? ==> (r.error.InvalidInput? && !trackReady) || (r.error.BufferExceeded? && maxBuffer < 8190)
      ensures old(Follows(all)) && old(Stream(payloads)) + payload <= Concat(all) && r.Err? && r.error.InvalidInput? ==>
                all != [] && Parse(all[0]).Ok? && !acceptTrack(Parse(all[0]).value)
    {
      hide Parse, Loop, Emitted, Leftover, AdtsHeader.DurationTicks;
      ghost var p := Payload(payload, mediaTime);
      ghost var follows := Follows(all) && Stream(payloads) + payload <= Concat(all);
      if follows {
        Enter(all, p);
      }
      payloads := payloads + [p];
      var data := leftover + payload;
      var time := if leftoverTime.Some? then leftoverTime.value else mediaTime;
      var rest;
      rest, time, events, r :=
        EmitFrames(data, |leftover|, time, leftoverTime.None?, mediaTime, all, old(payloads), p, follows);
      leftover, leftoverTime := [], None;
      if r.Err? {
        return;
      }
      if rest != [] {
        if |rest| > maxBuffer {
          return events, Err(BufferExceeded(maxBuffer));
        }
        leftover := rest;
        leftoverTime := Some(time);
      }
    }

    /**
     * The frames of `data`; `rest` is the partial frame at its end, if there is one, and `next` the time it will get.
     */
    method EmitFrames(data: bytes, leftoverLen: nat, start: Time, timed: bool, mediaTime: Time,
                      ghost all: seq<bytes>, ghost before: seq<Payload<Time>>, ghost p: Payload<Time>,
                      ghost follows: bool)
      returns (rest: bytes, next: Time, events: seq<Event>, r: Result<(), AudioError>)
      requires p.time == mediaTime && |data| == leftoverLen + |p.data|
      requires (trackReady <==> count > 0) && sequence == Wrap64(count)
      requires follows ==> Loop(all, before, p, count, data, start, timed)
      requires follows ==> Emitted(all, count, count, before + [p], trackReady, [])
      modifies this`trackReady, this`sequence, this`count
      ensures |rest| <= 8190
      ensures r.Err? ==> r.error.InvalidInput? && !trackReady && count == 0
      ensures (trackReady <==> count > 0) && sequence == Wrap64(count)
      ensures follows && r.Err? ==> all != [] && Parse(all[0]).Ok? && !acceptTrack(Parse(all[0]).value)
      ensures follows && r.Ok? ==>
                && old(count) <= count
                && Leftover(all, count, rest, if rest == [] then None else Some(next), before + [p])
                && Emitted(all, old(count), count, before + [p], old(trackReady), events)
                && trackReady == (old(trackReady) || old(count) < count)
    {
      hide Parse, Loop, Emitted, Leftover, AdtsHeader.DurationTicks, Advance, Stream, TimeOf, Fields;
      var offset := 0;
      var switched := timed;
      next, events, rest := start, [], [];
      assert data[0..] == data;
      while offset < |data|
        invariant offset <= |data| && rest == [] && old(count) <= count
        invariant trackReady == (old(trackReady) || old(count) < count) && (trackReady <==> count > 0)
                  && sequence == Wrap64(count)
        invariant follows ==> Loop(all, before, p, count, data[offset..], next, switched)
        invariant follows ==> Emitted(all, old(count), count, before + [p], old(trackReady), events)
        decreases |data| - offset
      {
        var left := data[offset..];
        if follows {
          FollowTurn(all, before, p, count, left, next, switched, old(count), old(trackReady), events);
        }
        if !switched && offset >= leftoverLen {
          next := mediaTime;
          switched := true;
        }
        var turn, more := TakeFrame(left, next);
        match turn {
          case Partial =>
            return left, next, events, Ok(());
          case Garbage =>
            return [], next, events, Ok(());
          case Refused =>
            return [], next, events, Err(InvalidInput);
          case Taken(len, duration) =>
            SuffixOfSuffix(data, offset, len);
            events := events + more;
            offset := offset + len;
            next := Advance(next, duration);
        }
      }
      if follows {
        assert data[offset..] == [];
        LoopEnds(all, before, p, count, next, switched);
      }
      return [], next, events, Ok(());
    }
  }

  // ---- Whole sessions ----

  lemma {:induction false} PacketsStable(all: seq<bytes>, i: nat, j: nat, payloads: seq<Payload<Time>>,
                                         p: Payload<Time>)
    requires AreFrames(all) && i <= j <= |all| && (i < j ==> Begin(all, j - 1) < |Stream(payloads)|)
    ensures i < j ==> Begin(all, j - 1) < |Stream(payloads + [p])|
    ensures Packets(all, i, j, payloads + [p]) == Packets(all, i, j, payloads)
    decreases j
  {
    hide TimeOf, Stream, Begin, Parse, AdtsHeader.DurationTicks, Wrap64, Packets;
    if i == j {
      NoPackets(all, i, payloads);
      NoPackets(all, i, payloads + [p]);
    } else {
      TimeStable(all, j - 1, payloads, p);
      if i < j - 1 {
        BeginGrows(all, j - 1);
      }
      PacketsStable(all, i, j - 1, payloads, p);
      PacketsNext(all, i, j - 1, payloads);
      PacketsNext(all, i, j - 1, payloads + [p]);
    }
  }

  lemma {:induction false} PacketsAppend(all: seq<bytes>, i: nat, j: nat, k: nat, payloads: seq<Payload<Time>>)
    requires AreFrames(all) && i <= j < k <= |all| && Begin(all, k - 1) < |Stream(payloads)|
    ensures i < j ==> Begin(all, j - 1) < |Stream(payloads)|
    ensures Packets(all, i, k, payloads) ==
            (if i < j then Packets(all, i, j, payloads) else []) + Packets(all, j, k, payloads)
    decreases k
  {
    hide TimeOf, Stream, Begin, Parse, AdtsHeader.DurationTicks, Wrap64;
    if 0 < k - 1 {
      BeginGrows(all, k - 1);
    }
    if j < k - 1 {
      PacketsAppend(all, i, j, k - 1, payloads);
    }
  }

  lemma EmittedStable(all: seq<bytes>, j: nat, payloads: seq<Payload<Time>>, p: Payload<Time>, events: seq<Event>)
    requires Emitted(all, 0, j, payloads, false, events)
    ensures Emitted(all, 0, j, payloads + [p], false, events)
  {
    hide Begin, Parse, Stream, Packets, Wrap64;
    PacketsStable(all, 0, j, payloads, p);
  }

  lemma EmittedAppend(all: seq<bytes>, j: nat, k: nat, payloads: seq<Payload<Time>>, a: seq<Event>, b: seq<Event>)
    requires Emitted(all, 0, j, payloads, false, a) && Emitted(all, j, k, payloads, j > 0, b)
    ensures Emitted(all, 0, k, payloads, false, a + b)
  {
    hide Begin, Parse, Stream, Packets, AreFrames, Wrap64;
    if j < k {
      PacketsAppend(all, 0, j, k, payloads);
    }
  }

  /** When the whole stream is there, nothing is left over: every frame has been emitted. */
  lemma NothingLeft(all: seq<bytes>, k: nat, leftover: bytes, time: Option<Time>, payloads: seq<Payload<Time>>)
    requires Leftover(all, k, leftover, time, payloads) && Stream(payloads) == Concat(all)
    ensures k == |all| && leftover == []
  {
    hide Parse, TimeOf, Stream;
    assert all[..|all|] == all;
    if k < |all| {
      assert IsFrame(all[k]);
      FrameIsLong(all[k]);
      ConcatAround(all, k);
    }
  }

  /**
   * A whole session on a valid ADTS stream cut into any payloads: the track is announced once, before the frames, and
   * the frames are those of the stream, in order, each with its time.
   */
  method AssembleAudio(acceptTrack: AdtsHeader -> bool, maxBuffer: nat, payloads: seq<Payload<Time>>,
                       ghost all: seq<bytes>) returns (events: seq<Event>)
    requires AreFrames(all) && Stream(payloads) == Concat(all)
    requires all != [] ==> Parse(all[0]).Ok? && acceptTrack(Parse(all[0]).value)
    requires maxBuffer >= 8190
    ensures Emitted(all, 0, |all|, payloads, false, events)
  {
    hide Parse, Stream, Leftover, Emitted, Concat, AreFrames;
    var a := new AudioAssembler(acceptTrack, maxBuffer);
    NothingYet(all);
    events := [];
    var i := 0;
    while i < |payloads|
      invariant i <= |payloads| && a.Valid() && a.payloads == payloads[..i]
      invariant a.acceptTrack == acceptTrack && a.maxBuffer == maxBuffer
      invariant a.Follows(all) && Emitted(all, 0, a.count, payloads[..i], false, events)
    {
      ghost var done, k := payloads[..i], a.count;
      ghost var p := payloads[i];
      assert payloads[..i + 1] == done + [p] && payloads[i] == Payload(p.data, p.time);
      StreamSnoc(done, p);
      StreamPrefix(payloads, i + 1);
      EmittedStable(all, k, done, p, events);
      var more, _ := a.ProcessPayload(payloads[i].data, payloads[i].time, all);
      EmittedAppend(all, k, a.count, done + [p], events, more);
      events := events + more;
      i := i + 1;
    }
    assert payloads[..|payloads|] == payloads;
    NothingLeft(all, a.count, a.leftover, a.leftoverTime, payloads);
  }

  lemma NothingYet(all: seq<bytes>)
    requires AreFrames(all)
    ensures Leftover(all, 0, [], None, []) && Emitted(all, 0, 0, [], false, [])
  {
  }
}

/** The incremental fMP4 demuxer: boxes out of chunks, tracks and packets out of boxes. */
module IsobmffDemuxer {
  import opened Bytes
  import opened Boxes
  import opened FragmentReader

  /** What is known about a track besides its defaults is opaque. */
  datatype TrackData<I> = TrackData(id: u32, info: I, trex: Trex)

  datatype Event<I> = Track(id: u32, info: I) | Packet(packet: MediaPacket) | Discontinuity(trackId: u32)

  /** Reading a `moov` body at its stream offset is opaque; it gives the tracks in ascending order of their ids. */
  type MoovParser<!I> = (bytes, nat) -> Result<seq<TrackData<I>>, Mp4Error>

  const MAX_BUFFER: nat := 64 * 1024 * 1024
  const BACKWARDS_TOLERANCE: nat := 10_000_000

  /** All of the demuxer's state but its buffers. */
  datatype State<I> = State(fragments: seq<TrackFragment>, tracks: map<u32, TrackData<I>>, epoch: nat, sequence: u64,
                            moovSeen: bool, lastDts: map<u32, u64>)

  /** A new state, events, and the error that stopped the work, if one did. */
  datatype Outcome<I> = Outcome(state: State<I>, events: seq<Event<I>>, error: Option<Mp4Error>)

  function Trexes<I>(tracks: map<u32, TrackData<I>>): map<u32, Trex>
  {
    map id: u32 | id in tracks :: tracks[id].trex
  }

  // ---- moov ----

  function AddTracks<I>(tracks: map<u32, TrackData<I>>, found: seq<TrackData<I>>): map<u32, TrackData<I>>
    decreases |found|
  {
    if found == [] then tracks
    else
      var last := found[|found| - 1];
      AddTracks(tracks, found[..|found| - 1])[last.id := last]
  }

  function TrackEvents<I>(found: seq<TrackData<I>>): seq<Event<I>>
    decreases |found|
  {
    if found == [] then []
    else
      var last := found[|found| - 1];
      TrackEvents(found[..|found| - 1]) + [Track(last.id, last.info)]
  }

  /** New tracks; a second `moov` begins a new epoch. */
  function ApplyMoov<I>(state: State<I>, found: seq<TrackData<I>>): Outcome<I>
  {
    if exists k | 0 <= k < |found| :: found[k].id == 0 then Outcome(state, [], Some(InvalidInput(3401)))
    else
      var s := if state.moovSeen then state.(epoch := state.epoch + 1, lastDts := map[]) else state;
      Outcome(s.(moovSeen := true, tracks := AddTracks(state.tracks, found)), TrackEvents(found), None)
  }

  // ---- mdat ----

  /** The duration of the first `n` samples, unless it leaves the 64-bit range. */
  function TotalDuration(samples: seq<FragmentSample>, n: nat): Option<nat>
    requires n <= |samples|
  {
    if n == 0 then Some(0)
    else
      var before := TotalDuration(samples, n - 1);
      if before.None? || before.value + samples[n - 1].duration > U64_MAX then None
      else Some(before.value + samples[n - 1].duration)
  }

  /** A signed time for an unsigned comparison; negative ones count as 0. */
  function Unsigned(t: i64): u64 { if t < 0 then 0 else t }

  function Sub(a: nat, b: nat): nat { if a < b then 0 else a - b }

  /** A fragment that ends before, or begins well before, the last decode time of its track. */
  predicate Backwards(tf: TrackFragment, lastDts: map<u32, u64>)
  {
    tf.trackId in lastDts &&
    var total, previous := TotalDuration(tf.samples, |tf.samples|), lastDts[tf.trackId];
    || total.None? || tf.baseDecodeTime + total.value > U64_MAX || tf.baseDecodeTime + total.value < previous
    || tf.baseDecodeTime < Sub(previous, BACKWARDS_TOLERANCE)
  }

  function AsEvents<I>(packets: seq<MediaPacket>, discontinuity: bool): (e: seq<Event<I>>)
    ensures |e| == |packets|
  {
    seq(|packets|, i requires 0 <= i < |packets| =>
          Packet(if i == 0 && discontinuity then packets[i].(discontinuity := true) else packets[i]))
  }

  /** One fragment's packets; those of tracks that are not known are skipped. */
  function EmitFragment<I>(state: State<I>, tf: TrackFragment, mdat: bytes, mdatOffset: nat): Outcome<I>
  {
    if tf.trackId !in state.tracks then Outcome(state, [], None)
    else
      var back := Backwards(tf, state.lastDts);
      var epoch := if back then state.epoch + 1 else state.epoch;
      var warning: seq<Event<I>> := if back then [Discontinuity(tf.trackId)] else [];
      var emitted := EmitTo(tf, mdat, mdatOffset, state.sequence, epoch, |tf.samples|);
      var sequence := Wrap64(state.sequence + Emitted(tf, mdat, mdatOffset, state.sequence, epoch, |tf.samples|));
      match emitted
      case Err(e) => Outcome(state.(epoch := epoch, sequence := sequence), warning, Some(e))
      case Ok((packets, _)) =>
        var lastDts := if packets == [] then state.lastDts
                       else state.lastDts[tf.trackId := Unsigned(packets[|packets| - 1].dts)];
        Outcome(state.(epoch := epoch, sequence := sequence, lastDts := lastDts), warning + AsEvents(packets, back),
                None)
  }

  function EmitFragments<I>(state: State<I>, fragments: seq<TrackFragment>, mdat: bytes, mdatOffset: nat): Outcome<I>
    decreases |fragments|
  {
    if fragments == [] then Outcome(state, [], None)
    else
      var first := EmitFragment(state, fragments[0], mdat, mdatOffset);
      if first.error.Some? then first
      else
        var rest := EmitFragments(first.state, fragments[1..], mdat, mdatOffset);
        Outcome(rest.state, first.events + rest.events, rest.error)
  }

  // ---- Boxes of the stream ----

  /** What a box at `start` of the stream does. */
  function Process<I>(parse: MoovParser<I>, state: State<I>, boxType: fourcc, body: bytes, start: nat,
                      bodyStart: nat): Outcome<I>
  {
    if boxType == MOOV then
      match parse(body, bodyStart)
      case Err(e) => Outcome(state, [], Some(e))
      case Ok(found) => ApplyMoov(state, found)
    else if boxType == MOOF then
      match ParseMoof(body, 0, start, Trexes(state.tracks))
      case Err(e) => Outcome(state, [], Some(e))
      case Ok(fragments) => Outcome(state.(fragments := fragments), [], None)
    else if boxType == MDAT && state.fragments != [] then
      EmitFragments(state.(fragments := []), state.fragments, body, bodyStart)
    else Outcome(state, [], None)
  }

  /** What running a buffer's boxes gives: the events, the bytes left, and the error met at their front, if any. */
  datatype Ran<I> = Ran(state: State<I>, events: seq<Event<I>>, rest: bytes, error: Option<Mp4Error>)

  /**
   * All that the boxes complete in `data`, which stands at `at` in the stream, give, up to the first one that fails.
   */
  function RunBoxes<I>(parse: MoovParser<I>, state: State<I>, data: bytes, at: nat): Ran<I>
    decreases |data|
  {
    match ParseHeader(data)
    case Err(e) => Ran(state, [], data, if e == NeedMoreData then None else Some(e))
    case Ok(h) =>
      if |data| < h.size then Ran(state, [], data, None)
      else
        var done := Process(parse, state, h.boxType, data[h.headerSize..h.size], at, at + h.headerSize);
        if done.error.Some? then Ran(state, [], data, done.error)
        else Prepend(done.events, RunBoxes(parse, done.state, data[h.size..], at + h.size))
  }

  /** Prefix events. */
  function Prepend<I>(events: seq<Event<I>>, r: Ran<I>): Ran<I>
  {
    r.(events := events + r.events)
  }

  lemma PrependPrepend<I>(a: seq<Event<I>>, b: seq<Event<I>>, r: Ran<I>)
    ensures Prepend(a, Prepend(b, r)) == Prepend(a + b, r)
  {
    Assoc(a, b, r.events);
  }

  lemma PrependNone<I>(r: Ran<I>)
    ensures Prepend([], r) == r
  {
    assert [] + r.events == r.events;
  }

  /** A complete box at the front. */
  lemma RunOne<I>(parse: MoovParser<I>, state: State<I>, data: bytes, at: nat, h: BoxHeader)
    requires ParseHeader(data) == Ok(h) && |data| >= h.size && h.headerSize <= h.size
    ensures var done := Process(parse, state, h.boxType, data[h.headerSize..h.size], at, at + h.headerSize);
            RunBoxes(parse, state, data, at) ==
            if done.error.Some? then Ran(state, [], data, done.error)
            else Prepend(done.events, RunBoxes(parse, done.state, data[h.size..], at + h.size))
  {
    hide Process, ParseHeader;
  }

  lemma BoxInBoth(a: bytes, b: bytes, h: BoxHeader)
    requires ParseHeader(a) == Ok(h) && |a| >= h.size
    ensures ParseHeader(a + b) == Ok(h) && h.headerSize <= h.size && 8 <= h.size
    ensures (a + b)[h.headerSize..h.size] == a[h.headerSize..h.size] && (a + b)[h.size..] == a[h.size..] + b
  {
    HeaderStable(a, b);
  }

  /** The boxes of a stream can be run in two parts, cut anywhere; an error of the first part stays. */
  lemma {:induction false} RunTwice<I>(parse: MoovParser<I>, state: State<I>, a: bytes, b: bytes, at: nat)
    ensures var first := RunBoxes(parse, state, a, at);
            && |first.rest| <= |a|
            && RunBoxes(parse, state, a + b, at) ==
               if first.error.Some? then first.(rest := first.rest + b)
               else Prepend(first.events, RunBoxes(parse, first.state, first.rest + b, at + |a| - |first.rest|))
    decreases |a|
  {
    hide Process, ParseHeader, RunBoxes;
    var h := ParseHeader(a);
    if h.Ok? && |a| >= h.value.size {
      var size := h.value.size;
      BoxInBoth(a, b, h.value);
      RunOne(parse, state, a, at, h.value);
      RunOne(parse, state, a + b, at, h.value);
      var done := Process(parse, state, h.value.boxType, a[h.value.headerSize..size], at, at + h.value.headerSize);
      if done.error.None? {
        RunTwice(parse, done.state, a[size..], b, at + size);
        var first := RunBoxes(parse, done.state, a[size..], at + size);
        PrependPrepend(done.events, first.events,
                       RunBoxes(parse, first.state, first.rest + b, at + |a| - |first.rest|));
      }
    } else {
      RunStops(parse, state, a, at);
      if h.Err? && h.error != NeedMoreData {
        HeaderStable(a, b);
        RunStops(parse, state, a + b, at);
      }
      PrependNone(RunBoxes(parse, state, a + b, at));
    }
  }

  lemma RunStops<I>(parse: MoovParser<I>, state: State<I>, data: bytes, at: nat)
    requires !(ParseHeader(data).Ok? && |data| >= ParseHeader(data).value.size)
    ensures var h := ParseHeader(data);
            RunBoxes(parse, state, data, at) ==
            Ran(state, [], data, if h.Err? && h.error != NeedMoreData then Some(h.error) else None)
  {
    hide Process, ParseHeader;
  }

  lemma HeaderSane(d: bytes)
    ensures ParseHeader(d).Ok? ==> 8 <= ParseHeader(d).value.headerSize <= ParseHeader(d).value.size
  {
  }

  /** No box of the stream is larger than `limit`. */
  ghost predicate BoxesWithin(data: bytes, limit: nat)
    decreases |data|
  {
    match ParseHeader(data)
    case Err(_) => true
    case Ok(h) => h.size <= limit && (|data| >= h.size ==> BoxesWithin(data[h.size..], limit))
  }

  lemma WithinNext(data: bytes, h: BoxHeader, limit: nat)
    requires BoxesWithin(data, limit) && ParseHeader(data) == Ok(h) && |data| >= h.size
    ensures BoxesWithin(data[h.size..], limit)
  {
    hide ParseHeader;
  }

  lemma IncompleteSmall(a: bytes, b: bytes, limit: nat)
    requires BoxesWithin(a + b, limit) && limit >= 16
    requires ParseHeader(a) == Err(NeedMoreData) || (ParseHeader(a).Ok? && |a| < ParseHeader(a).value.size)
    ensures |a| < limit
  {
    if ParseHeader(a).Ok? {
      HeaderStable(a, b);
    }
  }

  /** What is left when no more box is complete is less than a box. */
  lemma {:induction false} RestSmall<I>(parse: MoovParser<I>, state: State<I>, a: bytes, b: bytes, at: nat, limit: nat)
    requires RunBoxes(parse, state, a, at).error.None? && BoxesWithin(a + b, limit) && limit >= 16
    ensures var rest := RunBoxes(parse, state, a, at).rest;
            |rest| < limit && BoxesWithin(rest + b, limit)
    decreases |a|
  {
    hide Process, RunBoxes, BoxesWithin, ParseHeader;
    var h := ParseHeader(a);
    if h.Ok? && |a| >= h.value.size {
      var size := h.value.size;
      BoxInBoth(a, b, h.value);
      RunOne(parse, state, a, at, h.value);
      WithinNext(a + b, h.value, limit);
      var done := Process(parse, state, h.value.boxType, a[h.value.headerSize..size], at, at + h.value.headerSize);
      RestSmall(parse, done.state, a[size..], b, at + size, limit);
    } else {
      RunStops(parse, state, a, at);
      IncompleteSmall(a, b, limit);
    }
  }

  class IsobmffDemuxer<I> {
    const parse: MoovParser<I>

    var buffer: bytes
    var consumed: nat
    var pendingEvents: seq<Event<I>>
    var pendingFragments: seq<TrackFragment>
    var tracks: map<u32, TrackData<I>>
    var epoch: nat
    var sequence: u64
    var moovSeen: bool
    var lastDts: map<u32, u64>
    var error: Option<Mp4Error>

    ghost function Now(): State<I>
      reads this`pendingFragments, this`tracks, this`epoch, this`sequence, this`moovSeen, this`lastDts
    {
      State(pendingFragments, tracks, epoch, sequence, moovSeen, lastDts)
    }

    /** What the buffered bytes still give. */
    ghost function Ahead(): Ran<I>
      reads this`pendingFragments, this`tracks, this`epoch, this`sequence, this`moovSeen, this`lastDts, this`buffer,
            this`consumed
    {
      RunBoxes(parse, Now(), buffer, consumed)
    }

    constructor (parse: MoovParser<I>)
      ensures this.parse == parse && buffer == [] && consumed == 0 && pendingEvents == [] && error == None
      ensures Now() == State([], map[], 0, 0, false, map[])
    {
      this.parse := parse;
      buffer, consumed, pendingEvents, pendingFragments, tracks := [], 0, [], [], map[];
      epoch, sequence, moovSeen, lastDts, error := 0, 0, false, map[], None;
    }

    method Push(data: bytes)
      modifies this`buffer, this`error
      ensures data == [] || old(error).Some? ==> unchanged(this)
      ensures data != [] && old(error).None? ==>
                if |old(buffer)| + |data| > MAX_BUFFER then
                  error == Some(LimitExceeded("demuxer buffer")) && buffer == old(buffer)
                else error == None && buffer == old(buffer) + data
    {
      if data == [] || error.Some? {
        return;
      }
      if |buffer| + |data| > MAX_BUFFER {
        error := Some(LimitExceeded("demuxer buffer"));
        return;
      }
      buffer := buffer + data;
    }

    method ApplyMoovTracks(found: seq<TrackData<I>>) returns (r: Option<Mp4Error>)
      modifies this`tracks, this`epoch, this`moovSeen, this`lastDts, this`pendingEvents
      ensures var done := ApplyMoov(old(Now()), found);
              Now() == done.state && pendingEvents == old(pendingEvents) + done.events && r == done.error
    {
      for k := 0 to |found|
        invariant forall j | 0 <= j < k :: found[j].id != 0
      {
        if found[k].id == 0 {
          assert pendingEvents + [] == pendingEvents;
          return Some(InvalidInput(3401));
        }
      }
      if moovSeen {
        epoch := epoch + 1;
        lastDts := map[];
      }
      moovSeen := true;
      ghost var start := Now();
      assert pendingEvents + [] == pendingEvents;
      for k := 0 to |found|
        invariant Now() == start.(tracks := AddTracks(old(tracks), found[..k]))
        invariant pendingEvents == old(pendingEvents) + TrackEvents(found[..k])
      {
        assert found[..k + 1][..k] == found[..k];
        Assoc(old(pendingEvents), TrackEvents(found[..k]), [Track(found[k].id, found[k].info)]);
        tracks := tracks[found[k].id := found[k]];
        pendingEvents := pendingEvents + [Track(found[k].id, found[k].info)];
      }
      assert found[..|found|] == found;
      return None;
    }

    /** The packets of one fragment, unless its track is unknown. */
    method EmitOneFragment(tf: TrackFragment, mdat: bytes, mdatOffset: nat) returns (r: Option<Mp4Error>)
      modifies this`epoch, this`sequence, this`lastDts, this`pendingEvents
      ensures var done := EmitFragment(old(Now()), tf, mdat, mdatOffset);
              Now() == done.state && pendingEvents == old(pendingEvents) + done.events && r == done.error
    {
      hide EmitTo, Emitted, Wrap64, Backwards;
      if tf.trackId !in tracks {
        assert pendingEvents + [] == pendingEvents;
        return None;
      }
      var discontinuity := IsBackwards(tf, lastDts);
      ghost var warning: seq<Event<I>> := if discontinuity then [Discontinuity(tf.trackId)] else [];
      ghost var before := pendingEvents;
      assert before + [] == before;
      if discontinuity {
        epoch := epoch + 1;
        pendingEvents := pendingEvents + [Discontinuity(tf.trackId)];
      }
      var packets, next := EmitPackets(tf, mdat, mdatOffset, sequence, epoch);
      sequence := next;
      if packets.Err? {
        return Some(packets.error);
      }
      var ps := packets.value;
      if ps != [] {
        lastDts := lastDts[tf.trackId := Unsigned(ps[|ps| - 1].dts)];
      }
      Assoc(before, warning, AsEvents(ps, discontinuity));
      pendingEvents := pendingEvents + AsEvents(ps, discontinuity);
      return None;
    }

    static method IsBackwards(tf: TrackFragment, lastDts: map<u32, u64>) returns (back: bool)
      ensures back == Backwards(tf, lastDts)
    {
      var total: Option<nat> := Some(0);
      for i := 0 to |tf.samples|
        invariant total == TotalDuration(tf.samples, i)
      {
        if total.Some? {
          var sum := total.value + tf.samples[i].duration;
          total := if sum > U64_MAX then None else Some(sum);
        }
      }
      if tf.trackId !in lastDts {
        return false;
      }
      var previous := lastDts[tf.trackId];
      var overflow := total.None? || tf.baseDecodeTime + total.value > U64_MAX;
      return overflow || tf.baseDecodeTime + total.value < previous
             || tf.baseDecodeTime < Sub(previous, BACKWARDS_TOLERANCE);
    }

    /** The packets of all pending fragments, up to an error; the fragments are used up either way. */
    method EmitMdatPackets(mdat: bytes, mdatOffset: nat) returns (r: Option<Mp4Error>)
      modifies this`pendingFragments, this`epoch, this`sequence, this`lastDts, this`pendingEvents
      ensures var done := EmitFragments(old(Now()).(fragments := []), old(pendingFragments), mdat, mdatOffset);
              Now() == done.state && pendingEvents == old(pendingEvents) + done.events && r == done.error
    {
      hide EmitFragment;
      var fragments := pendingFragments;
      pendingFragments := [];
      ghost var start, before := Now(), pendingEvents;
      ghost var given: seq<Event<I>> := [];
      assert fragments[0..] == fragments && before + [] == before;
      assert [] + EmitFragments(start, fragments, mdat, mdatOffset).events ==
             EmitFragments(start, fragments, mdat, mdatOffset).events;
      for i := 0 to |fragments|
        invariant pendingFragments == [] && pendingEvents == before + given
        invariant var rest := EmitFragments(Now(), fragments[i..], mdat, mdatOffset);
                  EmitFragments(start, fragments, mdat, mdatOffset) ==
                  Outcome(rest.state, given + rest.events, rest.error)
      {
        assert fragments[i..][0] == fragments[i] && fragments[i..][1..] == fragments[i + 1..];
        ghost var one := EmitFragment(Now(), fragments[i], mdat, mdatOffset);
        ghost var rest := EmitFragments(one.state, fragments[i + 1..], mdat, mdatOffset);
        Assoc(given, one.events, rest.events);
        Assoc(before, given, one.events);
        FragmentsKept(Now(), fragments[i], mdat, mdatOffset);
        r := EmitOneFragment(fragments[i], mdat, mdatOffset);
        given := given + one.events;
        if r.Some? {
          return;
        }
      }
      assert given + [] == given && fragments[|fragments|..] == [];
      return None;
    }

    method ProcessBox(h: BoxHeader) returns (r: Option<Mp4Error>)
      requires h.headerSize <= h.size <= |buffer| && pendingEvents == []
      modifies this`pendingFragments, this`tracks, this`epoch, this`sequence, this`moovSeen, this`lastDts,
               this`pendingEvents
      ensures var done := Process(parse, old(Now()), h.boxType, buffer[h.headerSize..h.size], consumed,
                                  consumed + h.headerSize);
              Now() == done.state && pendingEvents == done.events && r == done.error
    {
      hide EmitFragments, ParseMoof, ApplyMoov;
      var body := buffer[h.headerSize..h.size];
      if h.boxType == MOOV {
        var found := parse(body, consumed + h.headerSize);
        if found.Err? {
          return Some(found.error);
        }
        r := ApplyMoovTracks(found.value);
        assert [] + ApplyMoov(old(Now()), found.value).events == ApplyMoov(old(Now()), found.value).events;
      } else if h.boxType == MOOF {
        var fragments := ParseMoofBox(body, consumed, Trexes(tracks));
        if fragments.Err? {
          return Some(fragments.error);
        }
        pendingFragments := fragments.value;
        return None;
      } else if h.boxType == MDAT && pendingFragments != [] {
        ghost var done := EmitFragments(Now().(fragments := []), pendingFragments, body, consumed + h.headerSize);
        r := EmitMdatPackets(body, consumed + h.headerSize);
        assert [] + done.events == done.events;
      } else {
        return None;
      }
    }

    /** The box at the front, which is complete, is processed and dropped. */
    method TakeBox(h: BoxHeader) returns (r: Option<Mp4Error>)
      requires ParseHeader(buffer) == Ok(h) && 8 <= h.headerSize <= h.size <= |buffer| && pendingEvents == []
      modifies this`buffer, this`consumed, this`pendingFragments, this`tracks, this`epoch, this`sequence, this`moovSeen,
               this`lastDts, this`pendingEvents
      ensures consumed + |buffer| == old(consumed) + |old(buffer)|
      ensures r.None? ==> |buffer| < |old(buffer)| && old(Ahead()) == Prepend(pendingEvents, Ahead())
      ensures r.Some? ==> old(Ahead()) == Ran(old(Now()), [], buffer, r) && unchanged(this`buffer, this`consumed)
    {
      hide Process, ParseHeader, Prepend, RunBoxes;
      RunOne(parse, Now(), buffer, consumed, h);
      r := ProcessBox(h);
      if r.Some? {
        return;
      }
      consumed := consumed + h.size;
      buffer := buffer[h.size..];
    }

    /**
     * The next event of the boxes that are complete, or none when they give no more, or the error of the box that fails
     * once the events before it have been handed out; what the rest of the buffered bytes give stays the same.
     */
    method NextEvent() returns (r: Result<Option<Event<I>>, Mp4Error>)
      modifies this`buffer, this`consumed, this`pendingFragments, this`tracks, this`epoch, this`sequence, this`moovSeen,
               this`lastDts, this`pendingEvents
      ensures old(pendingEvents) != [] ==>
                && r == Ok(Some(old(pendingEvents)[0])) && pendingEvents == old(pendingEvents)[1..]
                && unchanged(this`buffer, this`consumed) && Now() == old(Now())
      ensures old(pendingEvents) == [] && error.Some? ==> r == Err(error.value) && unchanged(this)
      ensures old(pendingEvents) == [] && error.None? && |old(buffer)| > MAX_BUFFER ==>
                r == Err(LimitExceeded("demuxer buffer")) && unchanged(this)
      ensures old(pendingEvents) == [] && error.None? && |old(buffer)| <= MAX_BUFFER ==>
                && |buffer| <= |old(buffer)|
                && (r.Err? ==> old(Ahead()).events == [] && old(Ahead()).error == Some(r.error))
                && (r == Ok(None) ==>
                      pendingEvents == [] && old(Ahead()) == Ran(Now(), [], buffer, None) && Ahead() == old(Ahead()))
                && (r.Ok? && r.value.Some? ==> old(Ahead()) == Prepend([r.value.value] + pendingEvents, Ahead()))
                && (|buffer| == |old(buffer)| ==> r.Err? || r == Ok(None))
      ensures consumed + |buffer| == old(consumed) + |old(buffer)|
    {
      hide Process, ParseHeader;
      if pendingEvents != [] {
        r := Ok(Some(pendingEvents[0]));
        pendingEvents := pendingEvents[1..];
        return;
      }
      if error.Some? {
        return Err(error.value);
      }
      while true
        invariant pendingEvents == [] && |buffer| <= |old(buffer)|
                  && consumed + |buffer| == old(consumed) + |old(buffer)|
        invariant Ahead() == old(Ahead()) && (|old(buffer)| > MAX_BUFFER ==> unchanged(this))
        decreases |buffer|
      {
        if |buffer| > MAX_BUFFER {
          return Err(LimitExceeded("demuxer buffer"));
        }
        var header := ParseHeader(buffer);
        if header.Err? {
          if header.error == NeedMoreData {
            return Ok(None);
          }
          return Err(header.error);
        }
        var h := header.value;
        if |buffer| < h.size {
          return Ok(None);
        }
        HeaderSane(buffer);
        var failed := TakeBox(h);
        if failed.Some? {
          return Err(failed.value);
        }
        PrependNone(Ahead());
        if pendingEvents != [] {
          r := Ok(Some(pendingEvents[0]));
          assert [pendingEvents[0]] + pendingEvents[1..] == pendingEvents;
          pendingEvents := pendingEvents[1..];
          return;
        }
      }
    }
  }

  lemma FragmentsKept<I>(state: State<I>, tf: TrackFragment, mdat: bytes, mdatOffset: nat)
    ensures EmitFragment(state, tf, mdat, mdatOffset).state.fragments == state.fragments
  {
    hide EmitTo, Emitted, Backwards, Wrap64;
  }

  // ---- Whole streams ----

  const START_EPOCH: nat := 0

  function Start<I>(): State<I>
  {
    State([], map[], START_EPOCH, 0, false, map[])
  }

  lemma PrependBoth<I>(a: seq<Event<I>>, e: Event<I>, pending: seq<Event<I>>, r: Ran<I>)
    ensures Prepend(a + [], Prepend([e] + pending, r)) == Prepend((a + [e]) + pending, r)
  {
    PrependPrepend(a, [e] + pending, r);
    Assoc(a, [e], pending);
    assert a + [] == a;
  }

  /** All the events of the boxes complete in the buffer, up to an error. */
  method Drain<I>(d: IsobmffDemuxer<I>) returns (events: seq<Event<I>>, error: Option<Mp4Error>)
    requires d.pendingEvents == [] && d.error == None && |d.buffer| <= MAX_BUFFER
    modifies d`buffer, d`consumed, d`pendingFragments, d`tracks, d`epoch, d`sequence, d`moovSeen, d`lastDts,
             d`pendingEvents
    ensures old(d.Ahead()).events == events && old(d.Ahead()).error == error
    ensures error.None? ==> old(d.Ahead()) == Ran(d.Now(), events, d.buffer, None) && d.pendingEvents == []
    ensures |d.buffer| <= |old(d.buffer)|
    ensures d.consumed + |d.buffer| == old(d.consumed) + |old(d.buffer)|
  {
    hide RunBoxes;
    events, error := [], None;
    PrependNone(d.Ahead());
    assert events + d.pendingEvents == [];
    while true
      invariant |d.buffer| <= |old(d.buffer)| && d.error == None && error == None
      invariant Prepend(events + d.pendingEvents, d.Ahead()) == old(d.Ahead())
      invariant d.consumed + |d.buffer| == old(d.consumed) + |old(d.buffer)|
      decreases |d.buffer|, |d.pendingEvents|
    {
      ghost var pending, ahead := d.pendingEvents, d.Ahead();
      var next := d.NextEvent();
      assert pending == [] ==> events + pending == events && events + [] == events;
      if next.Err? {
        return events, Some(next.error);
      }
      if next == Ok(None) {
        return;
      }
      if pending != [] {
        assert pending == [pending[0]] + pending[1..];
        Assoc(events, [pending[0]], pending[1..]);
      } else {
        PrependBoth(events, next.value.value, d.pendingEvents, d.Ahead());
      }
      events := events + [next.value.value];
    }
  }

  /** The stream's boxes are no larger than `limit`, and any chunk fits the buffer behind an incomplete box. */
  ghost predicate Chunked(chunks: seq<bytes>, limit: nat)
  {
    && limit >= 16 && BoxesWithin(Concat(chunks), limit)
    && forall k | 0 <= k < |chunks| ::
         |chunks[k]| + limit <= MAX_BUFFER
  }

  /**
   * Any chunking of a stream whose chunks are all accepted gives the events of the stream as a whole, up to the first
   * box that fails and its error, or leaves the same bytes over. Chunks are always accepted when each fits the buffer
   * behind an incomplete box.
   */
  method DemuxChunks<I>(parse: MoovParser<I>, chunks: seq<bytes>, ghost limit: nat)
    returns (events: seq<Event<I>>, rest: bytes, error: Option<Mp4Error>, accepted: bool)
    ensures accepted ==> var whole := RunBoxes(parse, Start(), Concat(chunks), 0);
                         events == whole.events && error == whole.error && (error.None? ==> rest == whole.rest)
    ensures Chunked(chunks, limit) ==> accepted
  {
    hide RunBoxes, BoxesWithin;
    ghost var fits := Chunked(chunks, limit);
    var d := new IsobmffDemuxer<I>(parse);
    events, accepted := [], true;
    RunNothing(parse);
    assert chunks[..0] == [] && chunks[0..] == chunks && [] + Concat(chunks) == Concat(chunks);
    for i := 0 to |chunks|
      invariant d.parse == parse && d.pendingEvents == [] && d.error == None && (i == 0 ==> d.buffer == [])
      invariant |d.buffer| <= MAX_BUFFER && (fits ==> |d.buffer| < limit)
      invariant RunBoxes(parse, Start(), Concat(chunks[..i]), 0) == Ran(d.Now(), events, d.buffer, None)
      invariant d.consumed + |d.buffer| == |Concat(chunks[..i])|
      invariant Concat(chunks[..i]) + Concat(chunks[i..]) == Concat(chunks)
    {
      ghost var fed, chunk, future := Concat(chunks[..i]), chunks[i], Concat(chunks[i + 1..]);
      assert chunks[..i + 1] == chunks[..i] + [chunk] && chunks[i..][0] == chunk && chunks[i..][1..] == chunks[i + 1..];
      ConcatSnoc(chunks[..i], chunk);
      Assoc(fed, chunk, future);
      RunTwice(parse, Start(), fed, chunk, 0);
      RunTwice(parse, Start(), fed + chunk, future, 0);
      if fits && RunBoxes(parse, Start(), fed + chunk, 0).error.None? {
        RestSmall(parse, Start(), fed + chunk, future, 0, limit);
      }
      ghost var before := events;
      assert d.buffer + [] == d.buffer;
      d.Push(chunks[i]);
      if d.error.Some? {
        return events, d.buffer, d.error, false;
      }
      var more, failed := Drain(d);
      events := events + more;
      if failed.Some? {
        return events, d.buffer, failed, true;
      }
    }
    assert chunks[..|chunks|] == chunks;
    return events, d.buffer, None, true;
  }

  lemma RunNothing<I>(parse: MoovParser<I>)
    ensures RunBoxes(parse, Start(), [], 0) == Ran(Start(), [], [], None)
    ensures Concat<byte>([]) == []
  {
  }
}

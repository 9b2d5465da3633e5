/** Incremental Annex-B demuxer: byte chunks in, NAL events out. */
module AnnexB {
  import opened Bytes
  import opened StartCode
  import H264
  import Rbsp
  import Sei

  // ---- Cutting a byte stream into NAL units ----

  /** The complete NAL `buf[from..to]` at the front of the buffer, if the code behind it has arrived. */
  datatype Cut = Incomplete | Cut(from: nat, to: nat)

  function FirstCut(buf: bytes): (c: Cut)
    ensures c.Cut? ==> 0 < c.from <= c.to <= |buf|
  {
    match Find(buf, 0)
    case None => Incomplete
    case Some(code) =>
      if code.End() >= |buf| then Incomplete
      else
        match Find(buf, code.End())
        case None => Incomplete
        case Some(next) => Cut(code.End(), next.pos)
  }

  /** All complete NAL units at the front of a buffer. */
  function Complete(buf: bytes): seq<bytes>
    decreases |buf|
  {
    match FirstCut(buf)
    case Incomplete => []
    case Cut(from, to) => [buf[from..to]] + Complete(buf[to..])
  }

  /** What stays in the buffer once its complete NAL units are taken out. */
  function Remainder(buf: bytes): bytes
    decreases |buf|
  {
    match FirstCut(buf)
    case Incomplete => buf
    case Cut(_, to) => Remainder(buf[to..])
  }

  /** The NAL that the end of the stream completes, if any. */
  function Tail(buf: bytes): seq<bytes>
  {
    match Find(buf, 0)
    case None => []
    case Some(code) => if code.End() < |buf| then [buf[code.End()..]] else []
  }

  /** One-shot splitting: every NAL unit of a whole stream. */
  function AllNals(stream: bytes): seq<bytes>
  {
    Complete(stream) + Tail(Remainder(stream))
  }

  /** A complete NAL at the front of a buffer stays where it is when more bytes arrive. */
  lemma FirstCutStable(buf: bytes, more: bytes)
    requires FirstCut(buf).Cut?
    ensures FirstCut(buf + more) == FirstCut(buf)
  {
    FindPrefixStable(buf, more, 0);
    FindPrefixStable(buf, more, Find(buf, 0).value.End());
  }

  lemma RemainderIsIncomplete(buf: bytes)
    ensures FirstCut(Remainder(buf)) == Incomplete
    decreases |buf|
  {
    if FirstCut(buf).Cut? {
      RemainderIsIncomplete(buf[FirstCut(buf).to..]);
    }
  }

  /** Cutting early and then going on with what is left gives the same NAL units as cutting everything at once. */
  lemma {:induction false} CutEarly(buf: bytes, more: bytes)
    ensures Complete(buf + more) == Complete(buf) + Complete(Remainder(buf) + more)
    ensures Remainder(buf + more) == Remainder(Remainder(buf) + more)
    decreases |buf|
  {
    hide FirstCut;
    match FirstCut(buf)
    case Incomplete =>
      assert [] + Complete(buf + more) == Complete(buf + more);
    case Cut(from, to) =>
      FirstCutStable(buf, more);
      assert (buf + more)[from..to] == buf[from..to];
      assert (buf + more)[to..] == buf[to..] + more;
      CutEarly(buf[to..], more);
      Assoc([buf[from..to]], Complete(buf[to..]), Complete(Remainder(buf) + more));
  }

  /** The first unit of a stream with a start code at its front, and the stream behind it. */
  lemma FirstOfAll(s: bytes, h: nat)
    requires Find(s, 0) == Some(Code(0, h)) && h < |s|
    ensures var to := H264.NalEnd(s, h);
            h <= to <= |s| && AllNals(s) == [s[h..to]] + if to < |s| then AllNals(s[to..]) else []
  {
    hide Find, Complete, Remainder, Tail, IsCodeAt;
    var to := H264.NalEnd(s, h);
    CutAndTail(s, h);
    if Find(s, h).Some? {
      Assoc([s[h..to]], Complete(s[to..]), Tail(Remainder(s[to..])));
    } else {
      assert [] + [s[h..to]] == [s[h..to]] == [s[h..to]] + [];
    }
  }

  lemma CutAndTail(s: bytes, h: nat)
    requires Find(s, 0) == Some(Code(0, h)) && h < |s|
    ensures var to := H264.NalEnd(s, h);
            h <= to <= |s| &&
            if Find(s, h).Some? then
              to < |s| && Complete(s) == [s[h..to]] + Complete(s[to..]) && Remainder(s) == Remainder(s[to..])
            else to == |s| && Complete(s) == [] && Tail(Remainder(s)) == [s[h..to]]
  {
    hide Find, FirstCut;
    CutHere(s, h);
    assert s[h..|s|] == s[h..];
  }

  lemma CutHere(s: bytes, h: nat)
    requires Find(s, 0) == Some(Code(0, h)) && h < |s|
    ensures FirstCut(s) == if Find(s, h).Some? then Cut(h, Find(s, h).value.pos) else Incomplete
    ensures Find(s, h).Some? ==> Find(s, h).value.pos < |s|
  {
    hide Find;
  }

  lemma FirstAndRest(x: bytes, rest: seq<bytes>, nals: seq<bytes>)
    requires nals != []
    ensures [x] + rest == nals <==> x == nals[0] && rest == nals[1..]
  {
    assert ([x] + rest)[0] == x && ([x] + rest)[1..] == rest;
    assert [nals[0]] + nals[1..] == nals;
  }

  /**
   * The demuxer's units of a joined list are that list exactly when the scan of each unit but the last, begun at its
   * first byte, neither stands on a final 00 in front of a 3-byte code nor on a final 00 00 03.
   */
  lemma {:induction false} AllNalsOfJoinExactly(nals: seq<bytes>, codes: seq<bytes>)
    requires |nals| == |codes| && H264.Written(nals) && H264.Codes(codes)
    ensures AllNals(H264.Join(nals, codes)) == nals <==> H264.Delimited(nals, codes, 0)
    decreases |nals|
  {
    if nals == [] {
      assert Find([], 0) == None;
    } else {
      hide *;
      var s, h := H264.Join(nals, codes), |codes[0]|;
      H264.WrittenSplit(nals, codes);
      H264.EndOfFirstInStream(nals, codes, 0);
      var to := H264.NalEnd(s, h);
      FirstOfAll(s, h);
      FirstAndRest(s[h..to], if to < |s| then AllNals(s[to..]) else [], nals);
      H264.DelimitedSplit(nals, codes, 0);
      if to == h + |nals[0]| {
        AllNalsOfJoinExactly(nals[1..], codes[1..]);
        NoBytesNoUnits(nals[1..], codes[1..]);
      }
    }
  }

  lemma NoBytesNoUnits(nals: seq<bytes>, codes: seq<bytes>)
    requires |nals| == |codes| && H264.Codes(codes)
    ensures H264.Join(nals, codes) == [] <==> nals == []
    ensures AllNals([]) == []
  {
    assert Find([], 0) == None;
    if nals != [] {
      assert codes[0] in codes;
      H264.JoinParts(nals, codes);
    }
  }

  /** Clean lists come back from the demuxer whatever mix of start codes is used. */
  lemma AllNalsOfJoin(nals: seq<bytes>, codes: seq<bytes>)
    requires |nals| == |codes| && H264.CleanList(nals) && H264.Codes(codes)
    ensures AllNals(H264.Join(nals, codes)) == nals
  {
    H264.CleanIsDelimited(nals, codes, 0);
    AllNalsOfJoinExactly(nals, codes);
  }

  // ---- What is done with a NAL unit ----

  datatype Codec = H264Codec | H265Codec | OtherCodec

  datatype AnnexBError = UnsupportedCodec | BufferExceeded(max: nat) | NalTooLarge(size: nat, max: nat)

  datatype Event<T> =
    | Track(track: T)
    | Packet(nal: bytes, sequence: u64, keyframe: bool)
    | Metadata(items: seq<Sei.SeiMessage>)
    | Eof

  /** What the parameter-set cache does with a NAL; the cache and the track description are left opaque. */
  datatype Absorbed<P, T> = NotParameterSet | Stored(cache: P) | Changed(cache: P, track: T)

  type Cache<!P, !T> = (P, bytes) -> Absorbed<P, T>

  predicate IsSei(codec: Codec, nal: bytes)
  {
    match codec
    case H264Codec => nal != [] && nal[0] % 32 == 6
    case H265Codec => |nal| >= 2 && (nal[0] / 2 % 64 == 39 || nal[0] / 2 % 64 == 40)
    case OtherCodec => false
  }

  predicate IsKeyframe(codec: Codec, nal: bytes)
  {
    match codec
    case H264Codec => nal != [] && nal[0] % 32 == 5
    case H265Codec => |nal| >= 2 && 16 <= nal[0] / 2 % 64 <= 23
    case OtherCodec => false
  }

  const MAX_SEI_MESSAGES: nat := 256
  const MAX_SEI_PAYLOAD: nat := 64 * 1024

  /** The SEI messages of an SEI NAL; malformed lists count as none. */
  function SeiItems(codec: Codec, nal: bytes): seq<Sei.SeiMessage>
  {
    var header := if codec == H264Codec then 1 else 2;
    if codec == OtherCodec || |nal| <= header then []
    else
      match Sei.ParseFrom(Rbsp.Unescape(nal[header..]), 0, 0, MAX_SEI_MESSAGES, MAX_SEI_PAYLOAD)
      case Ok(items) => items
      case Err(_) => []
  }

  /** The part of the demuxer that NAL handling reads and changes, and the events raised so far. */
  datatype Handling<P, T> = Handling(cache: P, sequence: u64, events: seq<Event<T>>)

  function HandleNal<P, T>(codec: Codec, absorb: Cache<P, T>, h: Handling<P, T>, nal: bytes): Handling<P, T>
  {
    if nal == [] then h
    else if IsSei(codec, nal) then
      var items := SeiItems(codec, nal);
      if items == [] then h else h.(events := h.events + [Metadata(items)])
    else
      match absorb(h.cache, nal)
      case Stored(c) => h.(cache := c)
      case Changed(c, t) => h.(cache := c, events := h.events + [Track(t)])
      case NotParameterSet =>
        h.(sequence := Wrap64(h.sequence + 1), events := h.events + [Packet(nal, h.sequence, IsKeyframe(codec, nal))])
  }

  /** Handling a list of NAL units one after the other. */
  function HandleAll<P, T>(codec: Codec, absorb: Cache<P, T>, h: Handling<P, T>, nals: seq<bytes>): Handling<P, T>
    decreases |nals|
  {
    if nals == [] then h
    else HandleNal(codec, absorb, HandleAll(codec, absorb, h, nals[..|nals| - 1]), nals[|nals| - 1])
  }

  lemma HandleSnoc<P, T>(codec: Codec, absorb: Cache<P, T>, h: Handling<P, T>, nals: seq<bytes>, nal: bytes)
    ensures HandleAll(codec, absorb, h, nals + [nal]) ==
            HandleNal(codec, absorb, HandleAll(codec, absorb, h, nals), nal)
  {
    assert (nals + [nal])[..|nals|] == nals;
  }

  /** Earlier events do not change what a NAL does. */
  lemma HandleAfter<P, T>(codec: Codec, absorb: Cache<P, T>, h: Handling<P, T>, nal: bytes)
    ensures var one := HandleNal(codec, absorb, h.(events := []), nal);
            HandleNal(codec, absorb, h, nal) == one.(events := h.events + one.events)
  {
    hide SeiItems, IsSei, IsKeyframe;
    assert h.events + [] == h.events;
  }

  /** An H.264 SEI NAL carrying `ms`: stop byte appended, emulation prevention inserted, header byte in front. */
  function SeiNal(header: byte, ms: seq<Sei.SeiMessage>): bytes
  {
    [header] + Rbsp.Escape(Sei.Serialise(ms) + [0x80], 0)
  }

  /** SEI messages survive the whole way: the NAL can be delimited by start codes, and its metadata is the list. */
  lemma SeiSurvives(header: byte, ms: seq<Sei.SeiMessage>)
    requires header % 32 == 6 && Sei.WithinLimits(ms, MAX_SEI_MESSAGES, MAX_SEI_PAYLOAD)
    ensures CleanNal(SeiNal(header, ms)) && IsSei(H264Codec, SeiNal(header, ms))
    ensures SeiItems(H264Codec, SeiNal(header, ms)) == ms
  {
    hide Sei.ParseFrom, Sei.Serialise, Sei.WithinLimits, Rbsp.Unescape, CleanNal;
    var rbsp := Sei.Serialise(ms) + [0x80];
    Rbsp.EscapedNalIsClean(header, rbsp);
    Rbsp.RoundTrip(rbsp);
    Sei.ParseInvertsSerialise([], ms, 0, 0, MAX_SEI_MESSAGES, MAX_SEI_PAYLOAD);
    assert Sei.Trailer(0) == [0x80];
    assert [] + (Sei.Serialise(ms) + Sei.Trailer(0)) == rbsp;
    assert SeiNal(header, ms)[1..] == Rbsp.Escape(rbsp, 0);
  }

  /** The sequence numbers of the packets among `events`, in order. */
  function Sequences<T>(events: seq<Event<T>>): seq<u64>
  {
    if events == [] then []
    else Sequences(events[..|events| - 1]) +
         (if events[|events| - 1].Packet? then [events[|events| - 1].sequence] else [])
  }

  lemma SequencesSnoc<T>(events: seq<Event<T>>, e: Event<T>)
    ensures Sequences(events + [e]) == Sequences(events) + (if e.Packet? then [e.sequence] else [])
  {
    assert (events + [e])[..|events|] == events;
  }

  ghost predicate Numbered<P, T>(h: Handling<P, T>)
  {
    && h.sequence == Wrap64(|Sequences(h.events)|)
    && (forall k | 0 <= k < |Sequences(h.events)| :: Sequences(h.events)[k] == Wrap64(k))
    && Event<T>.Eof !in h.events
  }

  lemma NumberingStep<P, T>(codec: Codec, absorb: Cache<P, T>, h: Handling<P, T>, nal: bytes)
    requires Numbered(h)
    ensures Numbered(HandleNal(codec, absorb, h, nal))
  {
    hide Wrap64, IsSei, SeiItems, IsKeyframe, Sequences;
    var after := HandleNal(codec, absorb, h, nal);
    if after.events != h.events {
      SequencesSnoc(h.events, after.events[|h.events|]);
      WrapNext(|Sequences(h.events)|);
    }
  }

  /** Packets are numbered 0, 1, 2, ... modulo 2^64 and no NAL raises Eof. */
  lemma {:induction false} PacketsAreNumbered<P, T>(codec: Codec, absorb: Cache<P, T>, cache: P, nals: seq<bytes>)
    ensures Numbered(HandleAll(codec, absorb, Handling(cache, 0, []), nals))
    decreases |nals|
  {
    if nals != [] {
      PacketsAreNumbered(codec, absorb, cache, nals[..|nals| - 1]);
      NumberingStep(codec, absorb, HandleAll(codec, absorb, Handling(cache, 0, []), nals[..|nals| - 1]),
                    nals[|nals| - 1]);
    }
  }

  // ---- The demuxer ----

  ghost predicate NalsWithin(nals: seq<bytes>, maxNal: nat)
  {
    forall k | 0 <= k < |nals| :: |nals[k]| <= maxNal
  }

  class AnnexBDemuxer<!P(==), !T(==)> {
    const codec: Codec
    const absorb: Cache<P, T>
    const initial: P
    const maxNal: nat
    const maxBuffer: nat

    var buffer: bytes
    var pending: seq<Event<T>>
    var cache: P
    var sequence: u64
    var ended: bool
    var eofEmitted: bool
    var codecError: Option<AnnexBError>

    /** Bytes accepted since the last reset and before Eof. */
    ghost var fed: bytes
    /** NAL units handled since the last reset. */
    ghost var handled: seq<bytes>
    /** Events handed out since the last reset. */
    ghost var delivered: seq<Event<T>>

    /** The cache, packet counter and events after handling `nals` from a clean state. */
    ghost function After(nals: seq<bytes>): Handling<P, T>
    {
      HandleAll(codec, absorb, Handling(initial, 0, []), nals)
    }

    /** Events handed out or waiting are those of the NAL units handled. */
    ghost predicate EventsMatch()
      reads this`cache, this`sequence, this`pending, this`delivered, this`handled, this`eofEmitted
    {
      var h := After(handled);
      && cache == h.cache && sequence == h.sequence
      && delivered + pending == h.events + (if eofEmitted then [Event<T>.Eof] else [])
    }

    /** NAL units handled and still to be handled are those of the bytes fed; bytes behind Eof may lie in the buffer. */
    ghost predicate BytesMatch()
      reads this`buffer, this`ended, this`eofEmitted, this`fed, this`handled
    {
      if eofEmitted then ended && handled == AllNals(fed)
      else Complete(fed) == handled + Complete(buffer) && Remainder(fed) == Remainder(buffer)
    }

    ghost predicate Valid()
      reads this
    {
      EventsMatch() && BytesMatch()
    }

    /**
     * Every NAL that can be cut from the bytes fed so far keeps the size limit; the tail counts once the stream ends.
     */
    ghost predicate NalsFit()
      reads this`ended, this`fed
    {
      NalsWithin(if ended then AllNals(fed) else Complete(fed), maxNal)
    }

    constructor (codec: Codec, absorb: Cache<P, T>, initial: P, maxNal: nat, maxBuffer: nat)
      ensures Valid()
      ensures this.codec == codec && this.absorb == absorb && this.initial == initial
      ensures this.maxNal == maxNal && this.maxBuffer == maxBuffer
      ensures fed == [] && buffer == [] && delivered == [] && pending == [] && !ended && !eofEmitted
              && codecError == None
    {
      this.codec, this.absorb, this.initial := codec, absorb, initial;
      this.maxNal, this.maxBuffer := maxNal, maxBuffer;
      buffer, pending, cache, sequence := [], [], initial, 0;
      ended, eofEmitted, codecError := false, false, None;
      fed, handled, delivered := [], [], [];
    }

    /** Bytes that would overflow the buffer put the demuxer in error; bytes behind Eof are never looked at. */
    method Push(data: bytes)
      requires Valid()
      modifies this`buffer, this`codecError, this`fed
      ensures Valid()
      ensures var rejected := old(codecError).Some? || |old(buffer)| + |data| > maxBuffer;
              && |buffer| <= |old(buffer)| + |data|
              && buffer == (if data == [] || rejected then old(buffer) else old(buffer) + data)
              && fed == if data == [] || rejected || eofEmitted then old(fed) else old(fed) + data
      ensures codecError ==
              if data != [] && old(codecError).None? && |old(buffer)| + |data| > maxBuffer
              then Some(BufferExceeded(maxBuffer)) else old(codecError)
    {
      if data == [] || codecError.Some? {
        return;
      }
      if |buffer| + |data| > maxBuffer {
        codecError := Some(BufferExceeded(maxBuffer));
        return;
      }
      if !eofEmitted {
        CutEarly(fed, data);
        CutEarly(buffer, data);
        Assoc(handled, Complete(buffer), Complete(Remainder(buffer) + data));
        fed := fed + data;
      }
      buffer := buffer + data;
    }

    method Raise(e: Event<T>)
      modifies this`pending
      ensures delivered + pending == old(delivered + pending) + [e]
    {
      Assoc(delivered, pending, [e]);
      pending := pending + [e];
    }

    method Handle(nal: bytes)
      requires EventsMatch() && !eofEmitted
      modifies this`cache, this`sequence, this`pending, this`handled
      ensures EventsMatch() && handled == old(handled) + [nal]
    {
      HandleSnoc(codec, absorb, Handling(initial, 0, []), handled, nal);
      HandleAfter(codec, absorb, After(handled), nal);
      hide HandleAll, HandleNal;
      assert delivered + pending == After(handled).events by {
        assert After(handled).events + [] == After(handled).events;
      }
      AbsorbNal(nal);
      handled := handled + [nal];
      ghost var events := After(handled).events;
      assert events + [] == events;
    }

    /** The events and the state change of one NAL. */
    method AbsorbNal(nal: bytes)
      modifies this`cache, this`sequence, this`pending
      ensures var h := HandleNal(codec, absorb, Handling(old(cache), old(sequence), []), nal);
              cache == h.cache && sequence == h.sequence && delivered + pending == old(delivered + pending) + h.events
    {
      hide SeiItems, IsSei, IsKeyframe;
      ghost var before := delivered + pending;
      assert before + [] == before;
      if nal == [] {
        return;
      }
      if IsSei(codec, nal) {
        var items := SeiItems(codec, nal);
        if items != [] {
          Raise(Metadata(items));
        }
        return;
      }
      match absorb(cache, nal) {
        case Stored(c) =>
          cache := c;
        case Changed(c, t) =>
          cache := c;
          Raise(Track(t));
        case NotParameterSet =>
          Raise(Packet(nal, sequence, IsKeyframe(codec, nal)));
          sequence := if sequence == U64_MAX then 0 else sequence + 1;
      }
    }

    /** Takes one complete NAL out of the buffer, if there is one. */
    method ProcessOne() returns (r: Result<bool, AnnexBError>)
      requires Valid() && !eofEmitted
      modifies this`buffer, this`cache, this`sequence, this`pending, this`handled
      ensures Valid()
      ensures r.Err? ==> !NalsFit() && unchanged(this)
      ensures r == Ok(false) ==> Complete(buffer) == [] && unchanged(this)
      ensures r == Ok(true) ==> |buffer| < |old(buffer)|
    {
      hide EventsMatch, Find;
      var code := FindStartCode(buffer, 0);
      if code.None? {
        return Ok(false);
      }
      var headerPos := code.value.End();
      if headerPos >= |buffer| {
        return Ok(false);
      }
      var next := FindStartCode(buffer, headerPos);
      if next.None? {
        return Ok(false);
      }
      var nal := buffer[headerPos..next.value.pos];
      assert FirstCut(buffer) == Cut(headerPos, next.value.pos);
      if |nal| > maxNal {
        assert Complete(fed)[|handled|] == nal && AllNals(fed)[|handled|] == nal;
        return Err(NalTooLarge(|nal|, maxNal));
      }
      Assoc(handled, [nal], Complete(buffer[next.value.pos..]));
      buffer := buffer[next.value.pos..];
      Handle(nal);
      return Ok(true);
    }

    /** Handles everything left in the buffer and raises Eof, once. */
    method ProcessEof() returns (r: Result<bool, AnnexBError>)
      requires Valid() && ended
      modifies this`buffer, this`cache, this`sequence, this`pending, this`handled, this`eofEmitted
      ensures Valid()
      ensures old(eofEmitted) ==> r == Ok(false) && pending == old(pending)
      ensures r.Ok? ==> eofEmitted
      ensures r.Err? ==> !NalsFit()
      ensures |buffer| <= |old(buffer)|
    {
      hide EventsMatch, Find;
      if eofEmitted {
        return Ok(false);
      }
      var more := true;
      while more
        invariant Valid() && !eofEmitted && |buffer| <= |old(buffer)|
        invariant !more ==> Complete(buffer) == []
        decreases more, |buffer|
      {
        var step := ProcessOne();
        if step.Err? {
          return Err(step.error);
        }
        more := step.value;
      }
      CompleteNone(buffer);
      assert handled + [] == handled;
      var code := FindStartCode(buffer, 0);
      if code.Some? && code.value.End() < |buffer| {
        var nal := buffer[code.value.End()..];
        assert AllNals(fed) == handled + [nal];
        if |nal| > maxNal {
          assert AllNals(fed)[|handled|] == nal;
          return Err(NalTooLarge(|nal|, maxNal));
        }
        Handle(nal);
      }
      RaiseEof();
      return Ok(true);
    }

    method RaiseEof()
      requires EventsMatch() && !eofEmitted && ended && handled == AllNals(fed)
      modifies this`buffer, this`pending, this`eofEmitted
      ensures Valid() && eofEmitted && buffer == []
    {
      hide HandleAll;
      assert After(handled).events + [] == After(handled).events;
      buffer := [];
      eofEmitted := true;
      Raise(Eof);
    }

    /** Hands out the oldest waiting event. */
    method PopFront() returns (r: Option<Event<T>>)
      requires Valid()
      modifies this`pending, this`delivered
      ensures Valid()
      ensures r == if old(pending) == [] then None else Some(old(pending)[0])
      ensures old(pending) == [] ==> pending == [] && delivered == old(delivered)
      ensures old(pending) != [] ==> pending == old(pending)[1..] && delivered == old(delivered) + [old(pending)[0]]
    {
      hide HandleAll, Complete, Remainder, AllNals;
      if pending == [] {
        return None;
      }
      r := Some(pending[0]);
      assert pending == [pending[0]] + pending[1..];
      Assoc(delivered, [pending[0]], pending[1..]);
      delivered := delivered + [pending[0]];
      pending := pending[1..];
    }

    /** Handles complete NAL units until one of them raises an event. */
    method ProcessUntilEvent() returns (r: Result<(), AnnexBError>)
      requires Valid() && !eofEmitted
      modifies this`buffer, this`cache, this`sequence, this`pending, this`handled
      ensures Valid()
      ensures r.Ok? && pending == [] ==> Complete(buffer) == []
      ensures r.Err? ==> !NalsFit()
      ensures |buffer| <= |old(buffer)| && (pending == old(pending) || |buffer| < |old(buffer)|)
    {
      hide EventsMatch, BytesMatch;
      var processed := true;
      while processed && pending == []
        invariant Valid() && |buffer| <= |old(buffer)| && (pending == old(pending) || |buffer| < |old(buffer)|)
        invariant !processed ==> Complete(buffer) == []
        decreases processed, |buffer|
      {
        var step := ProcessOne();
        if step.Err? {
          return Err(step.error);
        }
        processed := step.value;
      }
      return Ok(());
    }

    method NextEvent() returns (r: Result<Option<Event<T>>, AnnexBError>)
      requires Valid()
      modifies this`buffer, this`cache, this`sequence, this`pending, this`handled, this`eofEmitted,
               this`codecError, this`delivered
      ensures Valid()
      ensures delivered == old(delivered) + (if r.Ok? && r.value.Some? then [r.value.value] else [])
      ensures r == Ok(None) ==> pending == [] && (if ended then eofEmitted else Complete(buffer) == [])
      ensures r.Err? ==> codec == OtherCodec || old(codecError).Some? || |old(buffer)| > maxBuffer || !NalsFit()
      ensures codec != OtherCodec ==> codecError == old(codecError)
      ensures |buffer| <= |old(buffer)| && (!ended ==> eofEmitted == old(eofEmitted))
      ensures !ended && r.Ok? && r.value.Some? ==> |buffer| < |old(buffer)| || |pending| < |old(pending)|
      ensures old(eofEmitted) ==> eofEmitted && (r.Ok? && r.value.Some? ==> |pending| < |old(pending)|)
      ensures !old(eofEmitted) && !eofEmitted && ended && r.Ok? ==> r.value.Some? && |pending| < |old(pending)|
    {
      hide EventsMatch, BytesMatch;
      var waiting := PopFront();
      if waiting.Some? {
        return Ok(waiting);
      }
      if codecError.Some? {
        return Err(codecError.value);
      }
      if codec == OtherCodec {
        codecError := Some(UnsupportedCodec);
        return Err(UnsupportedCodec);
      }
      if ended {
        var eof := ProcessEof();
        if eof.Err? {
          return Err(eof.error);
        }
      } else {
        if |buffer| > maxBuffer {
          return Err(BufferExceeded(maxBuffer));
        }
        EofNeedsEnd();
        var step := ProcessUntilEvent();
        if step.Err? {
          return Err(step.error);
        }
      }
      var event := PopFront();
      return Ok(event);
    }

    lemma Drained()
      requires Valid() && !eofEmitted && Complete(buffer) == []
      ensures buffer == Remainder(fed)
    {
      CompleteNone(buffer);
    }

    lemma EofNeedsEnd()
      requires Valid()
      ensures eofEmitted ==> ended
    {
    }

    method End() returns (r: Result<(), AnnexBError>)
      requires Valid()
      modifies this`ended
      ensures Valid() && ended
      ensures r.Err? <==> !old(ended) && codec == OtherCodec
    {
      if ended {
        return Ok(());
      }
      ended := true;
      return if codec == OtherCodec then Err(UnsupportedCodec) else Ok(());
    }

    method Reset()
      modifies this`buffer, this`pending, this`cache, this`sequence, this`ended, this`eofEmitted, this`codecError,
               this`fed, this`handled, this`delivered
      ensures Valid()
      ensures fed == [] && buffer == [] && delivered == [] && pending == [] && !ended && !eofEmitted
              && codecError == None
    {
      buffer, pending, cache, sequence := [], [], initial, 0;
      ended, eofEmitted, codecError := false, false, None;
      fed, handled, delivered := [], [], [];
    }
  }

  lemma CompleteNone(buf: bytes)
    requires Complete(buf) == []
    ensures Remainder(buf) == buf
  {
  }

  /** The events of a whole stream, as if all of its bytes arrived at once. */
  ghost function StreamEvents<P, T>(codec: Codec, absorb: Cache<P, T>, initial: P, stream: bytes): seq<Event<T>>
  {
    HandleAll(codec, absorb, Handling(initial, 0, []), AllNals(stream)).events + [Eof]
  }

  /** When everything is pulled between pushes, chunk `i` meets just what the bytes before leave uncut. */
  predicate Accepts(chunks: seq<bytes>, i: nat, maxBuffer: nat)
    requires i < |chunks|
  {
    chunks[i] == [] || |Remainder(Concat(chunks[..i]))| + |chunks[i]| <= maxBuffer
  }

  /** A caller pulls after each push until nothing more comes. */
  predicate AllPulled(pulls: seq<Option<nat>>)
  {
    forall i | 0 <= i < |pulls| :: pulls[i].None?
  }

  /**
   * Any cutting of a stream into pushes, with any number of events pulled after each push or all there are, delivers
   * exactly the events of the stream taken at once, provided every push is accepted; Eof comes once, at the very end.
   * A stream that fits the buffer is always accepted; a caller that pulls all there are is accepted exactly when each
   * chunk fits behind what the bytes before it leave uncut.
   */
  method DemuxChunks<P(==), T(==)>(codec: Codec, absorb: Cache<P, T>, initial: P, maxNal: nat, maxBuffer: nat,
                                   chunks: seq<bytes>, pulls: seq<Option<nat>>)
    returns (events: seq<Event<T>>, accepted: bool)
    requires codec != OtherCodec && |pulls| == |chunks|
    requires NalsWithin(AllNals(Concat(chunks)), maxNal)
    ensures accepted ==> events == StreamEvents(codec, absorb, initial, Concat(chunks))
    ensures |Concat(chunks)| <= maxBuffer ==> accepted
    ensures AllPulled(pulls) ==> (accepted <==> forall i | 0 <= i < |chunks| :: Accepts(chunks, i, maxBuffer))
  {
    hide AnnexBDemuxer.Valid, AnnexBDemuxer.NalsFit, NalsWithin, Remainder, AllPulled, StreamEvents, Concat, Complete,
         AllNals;
    assert chunks[..0] == [];
    var d := new AnnexBDemuxer(codec, absorb, initial, maxNal, maxBuffer);
    NothingUncut();
    events, accepted := [], false;
    var i := 0;
    while i < |chunks|
      invariant i <= |chunks| && d.Valid() && d.codec == codec && d.absorb == absorb && d.initial == initial
      invariant d.maxNal == maxNal && d.maxBuffer == maxBuffer
      invariant d.fed == Concat(chunks[..i]) && |d.buffer| <= |d.fed| && |d.buffer| <= maxBuffer
                && d.delivered == events
      invariant !d.ended && !d.eofEmitted && d.codecError == None
      invariant AllPulled(pulls) ==> d.buffer == Remainder(d.fed)
      invariant AllPulled(pulls) ==> forall k | 0 <= k < i :: Accepts(chunks, k, maxBuffer)
    {
      PrefixFits(chunks, i, maxNal);
      assert AllPulled(pulls) ==>
               (Accepts(chunks, i, maxBuffer) <==> chunks[i] == [] || |d.buffer| + |chunks[i]| <= maxBuffer);
      d.Push(chunks[i]);
      if d.codecError.Some? {
        return;
      }
      assert d.fed == Concat(chunks[..i + 1]);
      FitsNow(d);
      PulledAt(pulls, i);
      var some := Pull(d, pulls[i]);
      events := events + some;
      i := i + 1;
    }
    accepted := true;
    assert chunks[..|chunks|] == chunks;
    var _ := d.End();
    FitsAll(d);
    var rest := PullAll(d);
    events := events + rest;
  }

  lemma FitsNow<P, T>(d: AnnexBDemuxer<P, T>)
    requires !d.ended && NalsWithin(Complete(d.fed), d.maxNal)
    ensures d.NalsFit()
  {
  }

  lemma FitsAll<P, T>(d: AnnexBDemuxer<P, T>)
    requires NalsWithin(AllNals(d.fed), d.maxNal) && d.ended
    ensures d.NalsFit()
  {
  }

  lemma NothingUncut()
    ensures Remainder([]) == [] && Concat<byte>([]) == []
  {
    assert Find([], 0) == None;
  }

  lemma PulledAt(pulls: seq<Option<nat>>, i: nat)
    requires i < |pulls|
    ensures AllPulled(pulls) ==> pulls[i].None?
  {
  }

  /** Up to `n` events, or all there are. */
  method Pull<P(==), T(==)>(d: AnnexBDemuxer<P, T>, n: Option<nat>) returns (events: seq<Event<T>>)
    requires d.Valid() && !d.ended && !d.eofEmitted && d.codec != OtherCodec && d.codecError == None
    requires |d.buffer| <= d.maxBuffer && d.NalsFit()
    modifies d
    ensures d.Valid() && !d.ended && !d.eofEmitted && d.codecError == None
    ensures d.fed == old(d.fed) && |d.buffer| <= |old(d.buffer)|
    ensures d.delivered == old(d.delivered) + events
    ensures n.None? ==> d.buffer == Remainder(d.fed)
  {
    hide AnnexBDemuxer.Valid, Remainder, Complete, AllNals;
    events := [];
    var k, drained := 0, false;
    while !drained && (n.None? || k < n.value)
      invariant d.Valid() && !d.ended && !d.eofEmitted && d.codecError == None
      invariant d.fed == old(d.fed) && |d.buffer| <= |old(d.buffer)|
      invariant d.delivered == old(d.delivered) + events
      invariant drained ==> d.buffer == Remainder(d.fed)
      decreases !drained, |d.buffer|, |d.pending|
    {
      var e := d.NextEvent();
      if e.value.Some? {
        Assoc(old(d.delivered), events, [e.value.value]);
        events := events + [e.value.value];
      } else {
        drained := true;
        d.Drained();
      }
      k := k + 1;
    }
  }

  /** Pulls until there is nothing more, once the stream has ended. */
  method PullAll<P(==), T(==)>(d: AnnexBDemuxer<P, T>) returns (events: seq<Event<T>>)
    requires d.Valid() && d.ended && d.codec != OtherCodec && d.codecError == None
    requires |d.buffer| <= d.maxBuffer && d.NalsFit()
    modifies d
    ensures d.delivered == old(d.delivered) + events
    ensures d.delivered == StreamEvents(d.codec, d.absorb, d.initial, old(d.fed))
  {
    events := [];
    var done := false;
    while !done
      invariant d.Valid() && d.ended && d.codecError == None && |d.buffer| <= d.maxBuffer && d.fed == old(d.fed)
      invariant d.delivered == old(d.delivered) + events
      invariant done ==> d.pending == [] && d.eofEmitted
      decreases !done, !d.eofEmitted, |d.pending|
    {
      hide AnnexBDemuxer.Valid;
      var e := d.NextEvent();
      if e.Ok? && e.value.Some? {
        Assoc(old(d.delivered), events, [e.value.value]);
        events := events + [e.value.value];
      } else {
        done := true;
      }
    }
    assert d.delivered + d.pending == d.delivered;
  }

  /** A prefix of the chunks stays within the buffer, and its complete NAL units within the NAL limit. */
  lemma PrefixFits(chunks: seq<bytes>, i: nat, maxNal: nat)
    requires i < |chunks| && NalsWithin(AllNals(Concat(chunks)), maxNal)
    ensures Concat(chunks[..i + 1]) == Concat(chunks[..i]) + chunks[i]
    ensures |Concat(chunks[..i + 1])| <= |Concat(chunks)|
    ensures NalsWithin(Complete(Concat(chunks[..i + 1])), maxNal)
  {
    assert chunks[..i + 1] == chunks[..i] + [chunks[i]];
    ConcatSnoc(chunks[..i], chunks[i]);
    assert chunks == chunks[..i + 1] + chunks[i + 1..];
    ConcatAppend(chunks[..i + 1], chunks[i + 1..]);
    CompleteOfPrefixFits(Concat(chunks[..i + 1]), Concat(chunks[i + 1..]), maxNal);
  }

  lemma CompleteOfPrefixFits(stream: bytes, more: bytes, maxNal: nat)
    requires NalsWithin(AllNals(stream + more), maxNal)
    ensures NalsWithin(Complete(stream), maxNal)
  {
    CutEarly(stream, more);
    hide Complete, Remainder, Tail;
    forall k | 0 <= k < |Complete(stream)|
      ensures |Complete(stream)[k]| <= maxNal
    {
      assert AllNals(stream + more)[k] == Complete(stream)[k];
    }
  }
}

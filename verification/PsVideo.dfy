/** MPEG-PS video assembler: PES payloads with times in, NAL units with the time of their first byte out. */
module PsVideo {
  import opened Bytes
  import opened StartCode
  import opened PsPayloads
  import AnnexB

  /** A NAL unit, the stream offset of its first byte, and the time it is given. */
  datatype Timed<T> = Timed(at: nat, nal: bytes, time: Option<T>)

  /** Where a payload starts in the elementary stream, and its time. */
  datatype Chunk<T> = Chunk(offset: nat, time: T)

  // ---- The chunk-time index ----

  /** The time of the last chunk that starts at or before `offset`. */
  function Lookup<T>(chunks: seq<Chunk<T>>, offset: nat): Option<T>
    decreases |chunks|
  {
    if chunks == [] then None
    else if chunks[|chunks| - 1].offset <= offset then Some(chunks[|chunks| - 1].time)
    else Lookup(chunks[..|chunks| - 1], offset)
  }

  method MediaTimeFor<T>(chunks: seq<Chunk<T>>, offset: nat) returns (r: Option<T>)
    ensures r == Lookup(chunks, offset)
  {
    var i := |chunks|;
    assert chunks[..i] == chunks;
    while i > 0
      invariant 0 <= i <= |chunks|
      invariant Lookup(chunks[..i], offset) == Lookup(chunks, offset)
    {
      i := i - 1;
      assert chunks[..i + 1][..i] == chunks[..i];
      if chunks[i].offset <= offset {
        return Some(chunks[i].time);
      }
    }
    return None;
  }

  ghost predicate Ascending<T>(chunks: seq<Chunk<T>>)
  {
    forall i, j | 0 <= i < j < |chunks| :: chunks[i].offset < chunks[j].offset
  }

  /** Chunks that no lookup at or behind `base` can reach are dropped. */
  method Prune<T>(chunks: seq<Chunk<T>>, base: nat) returns (kept: seq<Chunk<T>>)
    ensures exists k | 0 <= k <= |chunks| :: kept == chunks[k..]
    ensures forall x: nat | base <= x :: Lookup(kept, x) == Lookup(chunks, x)
    ensures Ascending(chunks) ==> forall k | 1 <= k < |kept| :: base < kept[k].offset
  {
    var i := |chunks|;
    while i > 0
      invariant 0 <= i <= |chunks|
      invariant forall k | i <= k < |chunks| :: base < chunks[k].offset
    {
      i := i - 1;
      if chunks[i].offset <= base {
        forall x: nat | base <= x
          ensures Lookup(chunks[i..], x) == Lookup(chunks, x)
        {
          DropUnreachable(chunks, i, x);
        }
        return chunks[i..];
      }
    }
    assert chunks[0..] == chunks;
    return chunks;
  }

  /** A chunk that starts at or before the offset hides every chunk in front of it. */
  lemma {:induction false} DropUnreachable<T>(chunks: seq<Chunk<T>>, i: nat, offset: nat)
    requires i < |chunks| && chunks[i].offset <= offset
    ensures Lookup(chunks[i..], offset) == Lookup(chunks, offset)
    decreases |chunks|
  {
    var n := |chunks|;
    if offset < chunks[n - 1].offset {
      assert chunks[..n - 1][i..] == chunks[i..][..n - 1 - i];
      DropUnreachable(chunks[..n - 1], i, offset);
    }
  }

  /** The index that is never pruned: one chunk for each payload. */
  function AllChunks<T>(payloads: seq<Payload<T>>): (c: seq<Chunk<T>>)
    ensures |c| == |payloads|
    decreases |payloads|
  {
    if payloads == [] then []
    else
      var before := payloads[..|payloads| - 1];
      AllChunks(before) + [Chunk(|Stream(before)|, payloads[|payloads| - 1].time)]
  }

  lemma AllChunksSnoc<T>(payloads: seq<Payload<T>>, p: Payload<T>)
    ensures AllChunks(payloads + [p]) == AllChunks(payloads) + [Chunk(|Stream(payloads)|, p.time)]
  {
    assert (payloads + [p])[..|payloads|] == payloads;
  }

  /** The unpruned index gives every stream byte the time of the payload that holds it. */
  lemma {:induction false} LookupFindsHolder<T>(payloads: seq<Payload<T>>, i: nat, at: nat)
    requires i < |payloads| && Holds(payloads, i, at)
    ensures Lookup(AllChunks(payloads), at) == Some(payloads[i].time)
    decreases |payloads|
  {
    var n := |payloads|;
    var before := payloads[..n - 1];
    assert AllChunks(payloads)[..n - 1] == AllChunks(before);
    if i < n - 1 {
      assert before[..i] == payloads[..i] && before[..i + 1] == payloads[..i + 1];
      StreamGrows(payloads, i + 1, n - 1);
      LookupFindsHolder(before, i, at);
    }
  }

  // ---- NAL units with their positions ----

  datatype Located = Located(at: nat, nal: bytes)

  /** The complete NAL units of a buffer that starts at stream offset `base`. */
  function CompleteAt(buf: bytes, base: nat): seq<Located>
    decreases |buf|
  {
    match AnnexB.FirstCut(buf)
    case Incomplete => []
    case Cut(from, to) => [Located(base + from, buf[from..to])] + CompleteAt(buf[to..], base + to)
  }

  /** The NAL that the end of the stream completes. */
  function TailAt(buf: bytes, base: nat): seq<Located>
  {
    match Find(buf, 0)
    case None => []
    case Some(code) => if code.End() < |buf| then [Located(base + code.End(), buf[code.End()..])] else []
  }

  lemma {:induction false} RemainderIsSuffix(buf: bytes)
    ensures |AnnexB.Remainder(buf)| <= |buf|
    ensures AnnexB.Remainder(buf) == buf[|buf| - |AnnexB.Remainder(buf)|..]
    decreases |buf|
  {
    match AnnexB.FirstCut(buf)
    case Incomplete =>
    case Cut(_, to) => RemainderIsSuffix(buf[to..]);
  }

  /** All NAL units of a whole stream and where they are; this is what one payload holding everything gives. */
  function AllAt(stream: bytes): seq<Located>
  {
    var rest := AnnexB.Remainder(stream);
    RemainderIsSuffix(stream);
    CompleteAt(stream, 0) + TailAt(rest, |stream| - |rest|)
  }

  function NalsOf(l: seq<Located>): (n: seq<bytes>)
    ensures |n| == |l|
  {
    if l == [] then [] else [l[0].nal] + NalsOf(l[1..])
  }

  lemma {:induction false} CompleteAtNals(buf: bytes, base: nat)
    ensures NalsOf(CompleteAt(buf, base)) == AnnexB.Complete(buf)
    decreases |buf|
  {
    hide AnnexB.FirstCut, NalsOf;
    match AnnexB.FirstCut(buf)
    case Incomplete =>
      NoNals();
    case Cut(from, to) =>
      CompleteAtNals(buf[to..], base + to);
      NalsOfFirst(Located(base + from, buf[from..to]), CompleteAt(buf[to..], base + to));
  }

  lemma NoNals()
    ensures NalsOf([]) == []
  {
  }

  lemma NalsOfFirst(l: Located, more: seq<Located>)
    ensures NalsOf([l] + more) == [l.nal] + NalsOf(more)
  {
    assert ([l] + more)[1..] == more;
  }

  /** What is left behind the first NAL unit. */
  lemma AfterCut(buf: bytes, base: nat)
    requires AnnexB.FirstCut(buf).Cut?
    ensures var c := AnnexB.FirstCut(buf);
            && AnnexB.Remainder(buf) == AnnexB.Remainder(buf[c.to..])
            && CompleteAt(buf, base) ==
            [Located(base + c.from, buf[c.from..c.to])] + CompleteAt(buf[c.to..], base + c.to)
  {
    hide AnnexB.FirstCut;
  }

  lemma NoCut(buf: bytes, base: nat)
    requires AnnexB.FirstCut(buf) == AnnexB.Incomplete
    ensures AnnexB.Remainder(buf) == buf && CompleteAt(buf, base) == []
  {
    hide AnnexB.FirstCut;
  }

  lemma {:induction false} CutEarlyAt(buf: bytes, more: bytes, base: nat)
    ensures |AnnexB.Remainder(buf)| <= |buf|
    ensures CompleteAt(buf + more, base) ==
            CompleteAt(buf, base) + CompleteAt(AnnexB.Remainder(buf) + more, base + |buf| - |AnnexB.Remainder(buf)|)
    decreases |buf|
  {
    hide *;
    RemainderIsSuffix(buf);
    match AnnexB.FirstCut(buf)
    case Incomplete =>
      NoCut(buf, base);
      assert [] + CompleteAt(buf + more, base) == CompleteAt(buf + more, base);
    case Cut(from, to) =>
      AnnexB.FirstCutStable(buf, more);
      AfterCut(buf, base);
      AfterCut(buf + more, base);
      assert (buf + more)[from..to] == buf[from..to];
      assert (buf + more)[to..] == buf[to..] + more;
      CutEarlyAt(buf[to..], more, base + to);
      Assoc([Located(base + from, buf[from..to])], CompleteAt(buf[to..], base + to),
            CompleteAt(AnnexB.Remainder(buf) + more, base + |buf| - |AnnexB.Remainder(buf)|));
  }

  ghost predicate AllWithin(l: seq<Located>, maxNal: nat)
  {
    forall k | 0 <= k < |l| :: |l[k].nal| <= maxNal
  }

  /** Whether the bytes begin with a start code, as far as they go. */
  ghost predicate StartsAtCode(buf: bytes)
  {
    |buf| >= 4 ==> buf[..3] == CODE3 || buf[..4] == CODE4
  }

  ghost predicate HasCode(buf: bytes)
  {
    |buf| >= 3 && (buf[..3] == CODE3 || (|buf| >= 4 && buf[..4] == CODE4))
  }

  lemma HasCodeGrows(buf: bytes, more: bytes)
    requires HasCode(buf)
    ensures HasCode(buf + more) && StartsAtCode(buf)
  {
    assert (buf + more)[..3] == buf[..3];
    if |buf| >= 4 {
      assert (buf + more)[..4] == buf[..4];
    }
  }

  lemma StartsAtCodePrefix(buf: bytes, more: bytes)
    requires StartsAtCode(buf + more)
    ensures StartsAtCode(buf)
  {
    if |buf| >= 4 {
      assert (buf + more)[..3] == buf[..3] && (buf + more)[..4] == buf[..4];
    }
  }

  lemma StartsAtCodeFound(buf: bytes)
    requires StartsAtCode(buf) && |buf| >= 4
    ensures Find(buf, 0).Some? && Find(buf, 0).value.pos == 0
  {
    assert buf[0] == buf[..3][0] == buf[..4][0] && buf[1] == buf[..3][1] == buf[..4][1];
    assert buf[2] == buf[..3][2] == buf[..4][2] && buf[3] == buf[..4][3];
  }

  // ---- The assembler ----

  datatype VideoError = UnsupportedVideoCodec | PacketTooLarge(size: nat, max: nat) | BufferExceeded(max: nat)

  datatype VideoEvent<C, T> = Track(track: C) | Packet(nal: bytes, sequence: u64, time: Option<T>, keyframe: bool)

  datatype Emission<P, C, T> = Emission(cache: P, sequence: u64, events: seq<VideoEvent<C, T>>)

  /** What emitting one timed NAL does: parameter sets go to the cache, everything else becomes a packet. */
  function EmitOne<P, C, T>(codec: AnnexB.Codec, absorb: AnnexB.Cache<P, C>, e: Emission<P, C, T>, t: Timed<T>)
    : Emission<P, C, T>
  {
    if t.nal == [] then e
    else
      match absorb(e.cache, t.nal)
      case Stored(c) => e.(cache := c)
      case Changed(c, track) => e.(cache := c, events := e.events + [Track(track)])
      case NotParameterSet =>
        e.(sequence := Wrap64(e.sequence + 1),
           events := e.events + [Packet(t.nal, e.sequence, t.time, AnnexB.IsKeyframe(codec, t.nal))])
  }

  function EmitAll<P, C, T>(codec: AnnexB.Codec, absorb: AnnexB.Cache<P, C>, e: Emission<P, C, T>, ts: seq<Timed<T>>)
    : Emission<P, C, T>
    decreases |ts|
  {
    if ts == [] then e
    else EmitOne(codec, absorb, EmitAll(codec, absorb, e, ts[..|ts| - 1]), ts[|ts| - 1])
  }

  lemma EmitSnoc<P, C, T>(codec: AnnexB.Codec, absorb: AnnexB.Cache<P, C>, e: Emission<P, C, T>,
                          ts: seq<Timed<T>>, t: Timed<T>)
    ensures EmitAll(codec, absorb, e, ts + [t]) == EmitOne(codec, absorb, EmitAll(codec, absorb, e, ts), t)
  {
    assert (ts + [t])[..|ts|] == ts;
  }

  function Locations<T>(ts: seq<Timed<T>>): (l: seq<Located>)
    ensures |l| == |ts|
    decreases |ts|
  {
    if ts == [] then [] else Locations(ts[..|ts| - 1]) + [Located(ts[|ts| - 1].at, ts[|ts| - 1].nal)]
  }

  lemma LocationsSnoc<T>(ts: seq<Timed<T>>, t: Timed<T>)
    ensures Locations(ts + [t]) == Locations(ts) + [Located(t.at, t.nal)]
  {
    assert (ts + [t])[..|ts|] == ts;
  }

  /** The NAL is a piece of the stream and carries the time of the payload that holds its first byte. */
  ghost predicate Genuine<T>(t: Timed<T>, payloads: seq<Payload<T>>)
  {
    && t.at + |t.nal| <= |Stream(payloads)| && t.at < |Stream(payloads)|
    && Stream(payloads)[t.at..t.at + |t.nal|] == t.nal
    && t.time == Lookup(AllChunks(payloads), t.at)
  }

  lemma GenuineStays<T>(t: Timed<T>, payloads: seq<Payload<T>>, p: Payload<T>)
    requires Genuine(t, payloads)
    ensures Genuine(t, payloads + [p])
  {
    StreamSnoc(payloads, p);
    AllChunksSnoc(payloads, p);
    assert AllChunks(payloads + [p])[..|payloads|] == AllChunks(payloads);
  }

  ghost predicate AllGenuine<T>(ts: seq<Timed<T>>, payloads: seq<Payload<T>>)
  {
    forall k | 0 <= k < |ts| :: Genuine(ts[k], payloads)
  }

  /** The index kept so far answers every lookup at or behind `base` as the unpruned index would. */
  ghost predicate IndexAgrees<T>(chunks: seq<Chunk<T>>, base: nat, payloads: seq<Payload<T>>)
  {
    forall x: nat | base <= x :: Lookup(chunks, x) == Lookup(AllChunks(payloads), x)
  }

  lemma IndexGrows<T>(chunks: seq<Chunk<T>>, base: nat, payloads: seq<Payload<T>>, p: Payload<T>)
    requires IndexAgrees(chunks, base, payloads)
    ensures IndexAgrees(chunks + [Chunk(|Stream(payloads)|, p.time)], base, payloads + [p])
  {
    AllChunksSnoc(payloads, p);
    var c := Chunk(|Stream(payloads)|, p.time);
    assert (chunks + [c])[..|chunks|] == chunks;
    assert (AllChunks(payloads) + [c])[..|payloads|] == AllChunks(payloads);
  }

  /** How far the cutting of a stream that begins with a start code has got. */
  ghost predicate CutSoFar<T>(ts: seq<Timed<T>>, buffer: bytes, base: nat, stream: bytes)
  {
    && (if base == 0 then buffer == stream else HasCode(buffer))
    && CompleteAt(stream, 0) == Locations(ts) + CompleteAt(buffer, base)
    && AnnexB.Remainder(stream) == AnnexB.Remainder(buffer)
  }

  /** The buffer is the stream from `base` on, and the index kept is good for it. */
  ghost predicate StreamOk<T>(buffer: bytes, chunks: seq<Chunk<T>>, base: nat, payloads: seq<Payload<T>>)
  {
    && base <= |Stream(payloads)| && buffer == Stream(payloads)[base..]
    && IndexAgrees(chunks, base, payloads)
  }

  /** Every NAL cut is genuine, and none is missing if the stream begins with a start code. */
  ghost predicate CutOk<T>(cut: seq<Timed<T>>, buffer: bytes, base: nat, payloads: seq<Payload<T>>)
  {
    && AllGenuine(cut, payloads)
    && (StartsAtCode(Stream(payloads)) ==> CutSoFar(cut, buffer, base, Stream(payloads)))
  }

  lemma StreamOkGrows<T>(buffer: bytes, chunks: seq<Chunk<T>>, base: nat, payloads: seq<Payload<T>>, p: Payload<T>)
    requires StreamOk(buffer, chunks, base, payloads)
    ensures StreamOk(buffer + p.data, chunks + [Chunk(base + |buffer|, p.time)], base, payloads + [p])
  {
    StreamSnoc(payloads, p);
    IndexGrows(chunks, base, payloads, p);
  }

  lemma CutOkGrows<T>(cut: seq<Timed<T>>, buffer: bytes, chunks: seq<Chunk<T>>, base: nat,
                      payloads: seq<Payload<T>>, p: Payload<T>)
    requires StreamOk(buffer, chunks, base, payloads) && CutOk(cut, buffer, base, payloads)
    ensures CutOk(cut, buffer + p.data, base, payloads + [p])
  {
    forall k | 0 <= k < |cut|
      ensures Genuine(cut[k], payloads + [p])
    {
      GenuineStays(cut[k], payloads, p);
    }
    StreamSnoc(payloads, p);
    if StartsAtCode(Stream(payloads) + p.data) {
      StartsAtCodePrefix(Stream(payloads), p.data);
      CutSoFarGrows(cut, buffer, base, Stream(payloads), p.data);
    }
  }

  lemma CutSoFarGrows<T>(ts: seq<Timed<T>>, buffer: bytes, base: nat, stream: bytes, more: bytes)
    requires CutSoFar(ts, buffer, base, stream)
    requires base <= |stream| && buffer == stream[base..]
    ensures CutSoFar(ts, buffer + more, base, stream + more)
  {
    AnnexB.CutEarly(stream, more);
    AnnexB.CutEarly(buffer, more);
    CompleteAtGrows(ts, buffer, base, stream, more);
    if base > 0 {
      HasCodeGrows(buffer, more);
    }
    hide AnnexB.Remainder, AnnexB.Complete, CompleteAt, HasCode, Locations;
  }

  lemma CompleteAtGrows<T>(ts: seq<Timed<T>>, buffer: bytes, base: nat, stream: bytes, more: bytes)
    requires CompleteAt(stream, 0) == Locations(ts) + CompleteAt(buffer, base)
    requires AnnexB.Remainder(stream) == AnnexB.Remainder(buffer)
    requires base <= |stream| && buffer == stream[base..]
    ensures CompleteAt(stream + more, 0) == Locations(ts) + CompleteAt(buffer + more, base)
  {
    hide *;
    CutEarlyAt(stream, more, 0);
    CutEarlyAt(buffer, more, base);
    var rest := AnnexB.Remainder(stream);
    var at := |stream| - |rest|;
    assert base + |buffer| - |rest| == at;
    var cut, kept, later := Locations(ts), CompleteAt(buffer, base), CompleteAt(rest + more, at);
    assert CompleteAt(stream + more, 0) == (cut + kept) + later;
    Assoc(cut, kept, later);
  }

  /** Taking the first complete NAL out of the buffer keeps the account of what has been cut. */
  lemma CutOkTakes<T>(cut: seq<Timed<T>>, buffer: bytes, chunks: seq<Chunk<T>>, base: nat,
                      payloads: seq<Payload<T>>, from: nat, to: nat, time: Option<T>)
    requires StreamOk(buffer, chunks, base, payloads) && CutOk(cut, buffer, base, payloads)
    requires AnnexB.FirstCut(buffer) == AnnexB.Cut(from, to) && time == Lookup(chunks, base + from)
    ensures from <= to <= |buffer|
    ensures CutOk(cut + [Timed(base + from, buffer[from..to], time)], buffer[to..], base + to, payloads)
  {
    hide AnnexB.FirstCut, HasCode, StartsAtCode, Locations, Stream, Lookup, AllChunks;
    CodeBehindCut(buffer, from, to);
    var t := Timed(base + from, buffer[from..to], time);
    SliceOfSuffix(Stream(payloads), base, from, to);
    assert Genuine(t, payloads);
    if StartsAtCode(Stream(payloads)) {
      LocationsSnoc(cut, t);
      Assoc(Locations(cut), [Located(t.at, t.nal)], CompleteAt(buffer[to..], base + to));
    }
  }

  lemma SliceOfSuffix(s: bytes, base: nat, from: nat, to: nat)
    requires base <= |s| && from <= to <= |s| - base
    ensures s[base..][from..to] == s[base + from..base + to]
  {
  }

  /** Behind a complete NAL the buffer begins with a start code. */
  lemma CodeBehindCut(buffer: bytes, from: nat, to: nat)
    requires AnnexB.FirstCut(buffer) == AnnexB.Cut(from, to)
    ensures from <= to && to + 3 <= |buffer| && HasCode(buffer[to..])
  {
    hide Find;
    var code := Find(buffer, Find(buffer, 0).value.End()).value;
    assert buffer[to..][..code.len] == buffer[code.pos..code.End()];
  }

  /** In a stream that begins with a start code, so does every buffer of four bytes or more. */
  lemma CodeAtFront<T>(cut: seq<Timed<T>>, buffer: bytes, chunks: seq<Chunk<T>>, base: nat, payloads: seq<Payload<T>>)
    requires StreamOk(buffer, chunks, base, payloads) && CutOk(cut, buffer, base, payloads)
    requires |buffer| >= 4 && StartsAtCode(Stream(payloads))
    ensures Find(buffer, 0).Some? && Find(buffer, 0).value.pos == 0
  {
    if base > 0 {
      HasCodeGrows(buffer, []);
    }
    StartsAtCodeFound(buffer);
  }

  /** When nothing complete is left, what has been cut and the tail are all NAL units of the stream. */
  lemma CutOkEnds<T>(cut: seq<Timed<T>>, buffer: bytes, chunks: seq<Chunk<T>>, base: nat, payloads: seq<Payload<T>>)
    requires StreamOk(buffer, chunks, base, payloads) && CutOk(cut, buffer, base, payloads)
    requires StartsAtCode(Stream(payloads)) && CompleteAt(buffer, base) == []
    ensures AllAt(Stream(payloads)) == Locations(cut) + TailAt(buffer, base)
  {
    hide Stream, HasCode, StartsAtCode, Locations, Find, AllGenuine, IndexAgrees;
    CompleteAtNals(buffer, base);
    AnnexB.CompleteNone(buffer);
    assert Locations(cut) + [] == Locations(cut);
  }

  class VideoEsAssembler<!P(==), !C, !T> {
    const codec: AnnexB.Codec
    const absorb: AnnexB.Cache<P, C>
    const maxNal: nat
    const maxBuffer: nat

    var cache: P
    var trackReady: bool
    var buffer: bytes
    var chunks: seq<Chunk<T>>
    var base: nat
    var sequence: u64

    /** The non-empty payloads since the last flush, the NAL units cut from them, and the emissions before and since. */
    ghost var payloads: seq<Payload<T>>
    ghost var cut: seq<Timed<T>>
    ghost var start: Emission<P, C, T>
    ghost var raised: seq<VideoEvent<C, T>>

    ghost predicate EmitOk()
      reads this`cache, this`sequence, this`raised, this`cut, this`start
    {
      EmitAll(codec, absorb, start, cut) == Emission(cache, sequence, raised)
    }

    ghost predicate Valid()
      reads this
    {
      StreamOk(buffer, chunks, base, payloads) && EmitOk() && CutOk(cut, buffer, base, payloads)
    }

    constructor (codec: AnnexB.Codec, absorb: AnnexB.Cache<P, C>, cache: P, maxNal: nat, maxBuffer: nat)
      ensures Valid() && payloads == [] && cut == [] && raised == [] && start == Emission(cache, 0, [])
      ensures this.codec == codec && this.absorb == absorb && this.maxNal == maxNal && this.maxBuffer == maxBuffer
    {
      this.codec, this.absorb, this.maxNal, this.maxBuffer := codec, absorb, maxNal, maxBuffer;
      this.cache, trackReady, buffer, chunks, base, sequence := cache, false, [], [], 0, 0;
      payloads, cut, raised := [], [], [];
      start := Emission(cache, 0, []);
    }

    /** Removes `n` bytes from the front of the buffer and the chunks no longer needed. */
    method Drop(n: nat)
      requires StreamOk(buffer, chunks, base, payloads) && n <= |buffer|
      modifies this`buffer, this`base, this`chunks
      ensures base == old(base) + n && buffer == old(buffer)[n..]
      ensures StreamOk(buffer, chunks, base, payloads)
    {
      hide Stream, Lookup, AllChunks;
      base := base + n;
      buffer := buffer[n..];
      chunks := Prune(chunks, base);
    }

    method EmitNal(at: nat, nal: bytes, time: Option<T>) returns (events: seq<VideoEvent<C, T>>)
      requires EmitOk()
      modifies this`cache, this`sequence, this`raised, this`cut
      ensures EmitOk() && cut == old(cut) + [Timed(at, nal, time)]
      ensures raised == old(raised) + events
    {
      hide EmitAll;
      EmitSnoc(codec, absorb, start, cut, Timed(at, nal, time));
      cut := cut + [Timed(at, nal, time)];
      events := [];
      if nal != [] {
        match absorb(cache, nal) {
          case Stored(c) =>
            cache := c;
          case Changed(c, track) =>
            cache := c;
            events := [Track(track)];
          case NotParameterSet =>
            events := [Packet(nal, sequence, time, AnnexB.IsKeyframe(codec, nal))];
            WrapNext(sequence);
            WrapNone(sequence);
            sequence := if sequence == U64_MAX then 0 else sequence + 1;
        }
      }
      raised := raised + events;
    }

    /** Some NAL at the front of the buffer is over the limit. */
    ghost predicate Oversized()
      reads this`buffer, this`base
    {
      !AllWithin(CompleteAt(buffer, base), maxNal)
    }

    /** What keeps a flush of a stream that begins with a start code from succeeding. */
    ghost predicate Stopped()
      reads this`buffer, this`base
    {
      || Oversized()
      || (CompleteAt(buffer, base) == [] && |buffer| > maxBuffer)
      || (CompleteAt(buffer, base) == [] && !AllWithin(TailAt(buffer, base), maxNal))
    }

    /** Emits the complete NAL at the front of the buffer. */
    method TakeNal(from: nat, to: nat) returns (r: Result<seq<VideoEvent<C, T>>, VideoError>)
      requires Valid() && AnnexB.FirstCut(buffer) == AnnexB.Cut(from, to)
      modifies this`buffer, this`base, this`chunks, this`cache, this`sequence, this`raised, this`cut
      ensures Valid()
      ensures raised == old(raised) + (if r.Ok? then r.value else [])
      ensures r.Err? ==> r.error.PacketTooLarge? && Oversized()
      ensures r.Ok? ==> |buffer| < |old(buffer)|
    {
      hide EmitOk, StreamOk, CutOk, AnnexB.FirstCut;
      var nal := buffer[from..to];
      if |nal| > maxNal {
        assert CompleteAt(buffer, base)[0] == Located(base + from, nal);
        return Err(PacketTooLarge(|nal|, maxNal));
      }
      var time := MediaTimeFor(chunks, base + from);
      CutOkTakes(cut, buffer, chunks, base, payloads, from, to, time);
      var events := EmitNal(base + from, nal, time);
      Drop(to);
      return Ok(events);
    }

    /** One turn of the slicing loop; `done` means that nothing more can be cut. */
    method SliceOne() returns (done: bool, r: Result<seq<VideoEvent<C, T>>, VideoError>)
      requires Valid()
      modifies this`buffer, this`base, this`chunks, this`cache, this`sequence, this`raised, this`cut
      ensures Valid()
      ensures raised == old(raised) + (if r.Ok? then r.value else [])
      ensures r.Err? ==> r.error.PacketTooLarge? && Oversized()
      ensures !done && r.Ok? ==> |buffer| < |old(buffer)|
      ensures done && r.Ok? && StartsAtCode(Stream(payloads)) ==> CompleteAt(buffer, base) == []
    {
      hide EmitOk, StreamOk, AllGenuine, Stream, StartsAtCode, CutSoFar, Find;
      if |buffer| < 4 {
        return true, Ok([]);
      }
      if StartsAtCode(Stream(payloads)) {
        CodeAtFront(cut, buffer, chunks, base, payloads);
      }
      var code := FindStartCode(buffer, 0);
      if code.None? {
        Drop(|buffer| - 2);
        return true, Ok([]);
      }
      if code.value.pos > 0 {
        Drop(code.value.pos);
        return false, Ok([]);
      }
      var headerPos := code.value.End();
      if headerPos >= |buffer| {
        return true, Ok([]);
      }
      var next := FindStartCode(buffer, headerPos);
      if next.None? {
        return true, Ok([]);
      }
      r := TakeNal(headerPos, next.value.pos);
      return r.Err?, r;
    }

    /** Cuts all it can; events of NAL units cut before an error are raised all the same. */
    method SliceEs() returns (events: seq<VideoEvent<C, T>>, r: Result<(), VideoError>)
      requires Valid()
      modifies this`buffer, this`base, this`chunks, this`cache, this`sequence, this`raised, this`cut
      ensures Valid() && raised == old(raised) + events
      ensures r.Err? ==> (r.error.PacketTooLarge? && Oversized()) || (r.error.BufferExceeded? && |buffer| > maxBuffer)
      ensures (r.Ok? || r.error.BufferExceeded?) && StartsAtCode(Stream(payloads)) ==> CompleteAt(buffer, base) == []
      ensures r.Ok? ==> |buffer| <= maxBuffer
    {
      hide StreamOk, EmitOk, CutOk, Oversized;
      events := [];
      var done := false;
      while !done
        invariant Valid() && raised == old(raised) + events
        invariant done && StartsAtCode(Stream(payloads)) ==> CompleteAt(buffer, base) == []
        decreases !done, |buffer|
      {
        var turn;
        done, turn := SliceOne();
        if turn.Err? {
          return events, Err(turn.error);
        }
        Assoc(old(raised), events, turn.value);
        events := events + turn.value;
      }
      if |buffer| > maxBuffer {
        return events, Err(BufferExceeded(maxBuffer));
      }
      return events, Ok(());
    }

    method ProcessPayload(data: bytes, time: T) returns (events: seq<VideoEvent<C, T>>, r: Result<(), VideoError>)
      requires Valid()
      modifies this
      ensures Valid() && raised == old(raised) + events && start == old(start)
      ensures payloads == if data == [] || r == Err(UnsupportedVideoCodec) then old(payloads)
                          else old(payloads) + [Payload(data, time)]
      ensures r == Err(UnsupportedVideoCodec) ==> codec == AnnexB.OtherCodec && events == []
      ensures r.Err? ==> r.error.UnsupportedVideoCodec? || (r.error.PacketTooLarge? && Oversized()) ||
                         (r.error.BufferExceeded? && |buffer| > maxBuffer)
      ensures (r.Ok? || r.error.BufferExceeded?) && StartsAtCode(Stream(payloads)) ==> CompleteAt(buffer, base) == []
      ensures r.Ok? ==> |buffer| <= maxBuffer
    {
      hide StreamOk, EmitOk, CutOk, Oversized;
      if !trackReady {
        if codec == AnnexB.OtherCodec {
          return [], Err(UnsupportedVideoCodec);
        }
        trackReady := true;
      }
      if data != [] {
        StreamOkGrows(buffer, chunks, base, payloads, Payload(data, time));
        CutOkGrows(cut, buffer, chunks, base, payloads, Payload(data, time));
        var offset := base + |buffer|;
        buffer := buffer + data;
        chunks := chunks + [Chunk(offset, time)];
        payloads := payloads + [Payload(data, time)];
      }
      events, r := SliceEs();
    }

    /**
     * Ends the stream: the last NAL is emitted and the buffer emptied. On success `nals` are all the NAL units of the
     * stream, each with the time of the payload that holds its first byte, and their events have been raised in order.
     */
    method Flush() returns (events: seq<VideoEvent<C, T>>, r: Result<(), VideoError>, ghost nals: seq<Timed<T>>)
      requires Valid()
      modifies this
      ensures Valid() && raised == old(raised) + events
      ensures r.Err? ==> payloads == old(payloads) && (StartsAtCode(Stream(payloads)) ==> Stopped())
      ensures r.Ok? ==> payloads == [] && buffer == [] && cut == [] && AllGenuine(nals, old(payloads))
      ensures r.Ok? ==> start == EmitAll(codec, absorb, old(start), nals) && start.events == raised
      ensures r.Ok? && StartsAtCode(Stream(old(payloads))) ==> Locations(nals) == AllAt(Stream(old(payloads)))
    {
      hide StreamOk, EmitOk, CutOk, Oversized, AllGenuine, AllAt, StartsAtCode, CompleteAt, Stream, EmitAll, Locations;
      var sliced;
      events, sliced := SliceEs();
      if sliced.Err? {
        return events, sliced, cut;
      }
      var last;
      last, r := EmitTail();
      Assoc(old(raised), events, last);
      events := events + last;
      nals := cut;
      if r.Ok? {
        BeginStream();
      }
    }

    /** Forgets the stream; the cache and the packet counter go on. */
    method BeginStream()
      requires EmitOk()
      modifies this`buffer, this`chunks, this`base, this`payloads, this`cut, this`start
      ensures Valid() && payloads == [] && buffer == [] && cut == []
      ensures start == EmitAll(codec, absorb, old(start), old(cut)) && start.events == raised
    {
      buffer, chunks, base := [], [], 0;
      payloads, cut := [], [];
      start := Emission(cache, sequence, raised);
    }

    method EmitTail() returns (events: seq<VideoEvent<C, T>>, r: Result<(), VideoError>)
      requires Valid()
      modifies this`cache, this`sequence, this`raised, this`cut
      ensures r.Err? ==> unchanged(this) && events == [] && !AllWithin(TailAt(buffer, base), maxNal)
      ensures raised == old(raised) + events && EmitOk() && AllGenuine(cut, payloads)
      ensures r.Ok? && StartsAtCode(Stream(payloads)) && CompleteAt(buffer, base) == [] ==>
                Locations(cut) == AllAt(Stream(payloads))
    {
      hide EmitOk, Stream, AllChunks, Lookup, CutSoFar, AllAt, CompleteAt, StartsAtCode, Find, Locations;
      if StartsAtCode(Stream(payloads)) && CompleteAt(buffer, base) == [] {
        CutOkEnds(cut, buffer, chunks, base, payloads);
      }
      assert Locations(cut) + [] == Locations(cut);
      if |buffer| >= 4 {
        var code := FindStartCode(buffer, 0);
        if code.Some? && code.value.End() < |buffer| {
          var headerPos := code.value.End();
          var nal := buffer[headerPos..];
          if |nal| > maxNal {
            assert TailAt(buffer, base)[0].nal == nal;
            return [], Err(PacketTooLarge(|nal|, maxNal));
          }
          var time := MediaTimeFor(chunks, base + headerPos);
          LocationsSnoc(cut, Timed(base + headerPos, nal, time));
          SliceOfSuffix(Stream(payloads), base, headerPos, |buffer|);
          assert Genuine(Timed(base + headerPos, nal, time), payloads);
          events := EmitNal(base + headerPos, nal, time);
          return events, Ok(());
        }
      }
      return [], Ok(());
    }
  }

  // ---- Whole sessions ----

  /** All NAL units of the payloads' stream, each with the time the unpruned index gives its first byte. */
  ghost function TimedNals<T>(l: seq<Located>, payloads: seq<Payload<T>>): (ts: seq<Timed<T>>)
    ensures |ts| == |l|
    decreases |l|
  {
    if l == [] then []
    else
      var last := l[|l| - 1];
      TimedNals(l[..|l| - 1], payloads) + [Timed(last.at, last.nal, Lookup(AllChunks(payloads), last.at))]
  }

  lemma {:induction false} GenuineIsTimed<T>(ts: seq<Timed<T>>, payloads: seq<Payload<T>>)
    requires AllGenuine(ts, payloads)
    ensures ts == TimedNals(Locations(ts), payloads)
    decreases |ts|
  {
    if ts != [] {
      var before := ts[..|ts| - 1];
      GenuineIsTimed(before, payloads);
      assert Genuine(ts[|ts| - 1], payloads);
      assert Locations(ts)[..|ts| - 1] == Locations(before);
    }
  }

  /** The time of a NAL is that of the one payload that holds its first byte. */
  lemma TimeIsHolders<T>(t: Timed<T>, payloads: seq<Payload<T>>)
    requires Genuine(t, payloads)
    ensures exists i | 0 <= i < |payloads| :: Holds(payloads, i, t.at)
    ensures forall i | 0 <= i < |payloads| && Holds(payloads, i, t.at) :: t.time == Some(payloads[i].time)
  {
    var i := SomePayloadHolds(payloads, t.at);
    forall i | 0 <= i < |payloads| && Holds(payloads, i, t.at)
      ensures t.time == Some(payloads[i].time)
    {
      LookupFindsHolder(payloads, i, t.at);
    }
  }

  /** The NAL list is that of the stream, wherever its payloads are cut. */
  lemma AllAtNals(stream: bytes)
    ensures NalsOf(AllAt(stream)) == AnnexB.AllNals(stream)
  {
    hide CompleteAt, TailAt, NalsOf, AnnexB.Remainder, AnnexB.Complete, AnnexB.Tail;
    var rest := AnnexB.Remainder(stream);
    RemainderIsSuffix(stream);
    CompleteAtNals(stream, 0);
    NalsOfAppend(CompleteAt(stream, 0), TailAt(rest, |stream| - |rest|));
    TailAtNal(rest, |stream| - |rest|);
  }

  lemma TailAtNal(buf: bytes, base: nat)
    ensures NalsOf(TailAt(buf, base)) == AnnexB.Tail(buf)
  {
    hide Find;
  }

  lemma {:induction false} NalsOfAppend(a: seq<Located>, b: seq<Located>)
    ensures NalsOf(a + b) == NalsOf(a) + NalsOf(b)
    decreases |a|
  {
    if a == [] {
      assert a + b == b;
    } else {
      assert (a + b)[1..] == a[1..] + b;
      NalsOfAppend(a[1..], b);
    }
  }

  lemma CutMeans<T>(cut: seq<Timed<T>>, buffer: bytes, base: nat, payloads: seq<Payload<T>>)
    requires CutOk(cut, buffer, base, payloads) && StartsAtCode(Stream(payloads))
    ensures CompleteAt(Stream(payloads), 0) == Locations(cut) + CompleteAt(buffer, base)
  {
    hide CompleteAt, Stream, StartsAtCode, Locations, AllGenuine;
  }

  /** Within the limits, no NAL seen on the way is over the limit either. */
  lemma NeverOversized<T>(cut: seq<Timed<T>>, buffer: bytes, base: nat, payloads: seq<Payload<T>>, i: nat, maxNal: nat)
    requires i <= |payloads| && CutOk(cut, buffer, base, payloads[..i])
    requires StartsAtCode(Stream(payloads)) && AllWithin(AllAt(Stream(payloads)), maxNal)
    ensures AllWithin(CompleteAt(buffer, base), maxNal)
  {
    hide *;
    var stream := Stream(payloads[..i]);
    StreamPrefix(payloads, i);
    var more := Stream(payloads)[|stream|..];
    StartsAtCodePrefix(stream, more);
    CutMeans(cut, buffer, base, payloads[..i]);
    CutEarlyAt(stream, more, 0);
    WithinAll(stream + more, maxNal);
    var rest := AnnexB.Remainder(stream);
    WithinSplit(CompleteAt(stream, 0), CompleteAt(rest + more, |stream| - |rest|), maxNal);
    WithinSplit(Locations(cut), CompleteAt(buffer, base), maxNal);
  }

  lemma WithinSplit(a: seq<Located>, b: seq<Located>, maxNal: nat)
    requires AllWithin(a + b, maxNal)
    ensures AllWithin(a, maxNal) && AllWithin(b, maxNal)
  {
    forall k | 0 <= k < |a| ensures |a[k].nal| <= maxNal {
      assert (a + b)[k] == a[k];
    }
    forall k | 0 <= k < |b| ensures |b[k].nal| <= maxNal {
      assert (a + b)[|a| + k] == b[k];
    }
  }

  lemma WithinAll(stream: bytes, maxNal: nat)
    requires AllWithin(AllAt(stream), maxNal)
    ensures AllWithin(CompleteAt(stream, 0), maxNal)
  {
    hide CompleteAt, TailAt, AllWithin, AnnexB.Remainder;
    var rest := AnnexB.Remainder(stream);
    RemainderIsSuffix(stream);
    WithinSplit(CompleteAt(stream, 0), TailAt(rest, |stream| - |rest|), maxNal);
  }

  /** Once nothing complete is left, the buffer holds what the demuxer of the whole stream would keep. */
  lemma RestIsBuffered<T>(cut: seq<Timed<T>>, buffer: bytes, base: nat, payloads: seq<Payload<T>>)
    requires CutOk(cut, buffer, base, payloads)
    requires StartsAtCode(Stream(payloads)) && CompleteAt(buffer, base) == []
    ensures buffer == AnnexB.Remainder(Stream(payloads))
  {
    hide Find, HasCode, Stream, StartsAtCode, Locations, AllGenuine, AnnexB.Remainder, AnnexB.Complete;
    CompleteAtNals(buffer, base);
    AnnexB.CompleteNone(buffer);
  }

  /** Neither a NAL over the limit nor a full buffer can stop a session that keeps the limits. */
  lemma NeverStopped<T>(cut: seq<Timed<T>>, buffer: bytes, chunks: seq<Chunk<T>>, base: nat, payloads: seq<Payload<T>>,
                        maxNal: nat)
    requires StreamOk(buffer, chunks, base, payloads) && CutOk(cut, buffer, base, payloads)
    requires StartsAtCode(Stream(payloads)) && AllWithin(AllAt(Stream(payloads)), maxNal)
    ensures AllWithin(CompleteAt(buffer, base), maxNal)
    ensures CompleteAt(buffer, base) == [] ==> buffer == AnnexB.Remainder(Stream(payloads))
    ensures CompleteAt(buffer, base) == [] ==> AllWithin(TailAt(buffer, base), maxNal)
  {
    hide Find, HasCode, Stream, StartsAtCode, AllWithin, Locations, AllGenuine, AnnexB.Remainder, AnnexB.Complete;
    assert payloads[..|payloads|] == payloads;
    NeverOversized(cut, buffer, base, payloads, |payloads|, maxNal);
    if CompleteAt(buffer, base) == [] {
      RestIsBuffered(cut, buffer, base, payloads);
      CutOkEnds(cut, buffer, chunks, base, payloads);
      WithinSplit(Locations(cut), TailAt(buffer, base), maxNal);
    }
  }

  /** What the first `n` payloads leave uncut is more than the buffer may hold. */
  ghost predicate Overfills<T>(payloads: seq<Payload<T>>, n: nat, maxBuffer: nat)
    requires n <= |payloads|
  {
    |AnnexB.Remainder(Stream(payloads[..n]))| > maxBuffer
  }

  lemma OverfillsMeans<T>(payloads: seq<Payload<T>>, n: nat, maxBuffer: nat)
    requires n <= |payloads|
    ensures Overfills(payloads, n, maxBuffer) <==> |AnnexB.Remainder(Stream(payloads[..n]))| > maxBuffer
  {
    hide Stream, AnnexB.Remainder;
  }

  ghost predicate SomeOverfills<T>(payloads: seq<Payload<T>>, upTo: nat, maxBuffer: nat)
    requires upTo <= |payloads|
    ensures SomeOverfills(payloads, upTo, maxBuffer) <==>
            exists n | 0 < n <= upTo :: Overfills(payloads, n, maxBuffer)
  {
    hide Overfills;
    upTo > 0 && (SomeOverfills(payloads, upTo - 1, maxBuffer) || Overfills(payloads, upTo, maxBuffer))
  }

  /** On the way through a session that keeps the limits, only a full buffer can be reported. */
  lemma PrefixBuffered<T>(cut: seq<Timed<T>>, buffer: bytes, base: nat, payloads: seq<Payload<T>>, n: nat, maxNal: nat,
                          maxBuffer: nat)
    requires n <= |payloads| && CutOk(cut, buffer, base, payloads[..n])
    requires StartsAtCode(Stream(payloads)) && AllWithin(AllAt(Stream(payloads)), maxNal)
    ensures AllWithin(CompleteAt(buffer, base), maxNal) && StartsAtCode(Stream(payloads[..n]))
    ensures CompleteAt(buffer, base) == [] ==> (|buffer| > maxBuffer <==> Overfills(payloads, n, maxBuffer))
  {
    hide *;
    NeverOversized(cut, buffer, base, payloads, n, maxNal);
    StreamPrefix(payloads, n);
    StartsAtCodePrefix(Stream(payloads[..n]), Stream(payloads)[|Stream(payloads[..n])|..]);
    if CompleteAt(buffer, base) == [] {
      RestIsBuffered(cut, buffer, base, payloads[..n]);
      OverfillsMeans(payloads, n, maxBuffer);
    }
  }

  /**
   * A whole session of any length on payloads whose stream begins with a start code, whose NAL units keep the limit
   * and whose last NAL fits the buffer: the events are those of the stream's NAL units in order, each with the time of
   * the payload that holds its first byte. A payload is reported as overfilling the buffer exactly when what is left
   * of the stream up to it is over the limit; what it completes is raised all the same.
   */
  method AssembleAll<P(==), C, T>(codec: AnnexB.Codec, absorb: AnnexB.Cache<P, C>, cache: P, maxNal: nat,
                                  maxBuffer: nat, payloads: seq<Payload<T>>)
    returns (events: seq<VideoEvent<C, T>>, full: bool)
    requires codec != AnnexB.OtherCodec
    requires forall k | 0 <= k < |payloads| :: payloads[k].data != []
    requires StartsAtCode(Stream(payloads)) && |AnnexB.Remainder(Stream(payloads))| <= maxBuffer
    requires AllWithin(AllAt(Stream(payloads)), maxNal)
    ensures events ==
            EmitAll(codec, absorb, Emission(cache, 0, []), TimedNals(AllAt(Stream(payloads)), payloads)).events
    ensures full <==> exists n | 0 < n <= |payloads| :: Overfills(payloads, n, maxBuffer)
  {
    hide Overfills, AnnexB.Remainder;
    hide AllAt, Stream, StartsAtCode, AllWithin, EmitAll, TimedNals, CompleteAt, Locations;
    var a := new VideoEsAssembler(codec, absorb, cache, maxNal, maxBuffer);
    events, full := [], false;
    var i := 0;
    while i < |payloads|
      invariant i <= |payloads| && a.Valid() && a.payloads == payloads[..i]
      invariant a.raised == events && a.start == Emission(cache, 0, [])
      invariant full <==> SomeOverfills(payloads, i, maxBuffer)
    {
      var more, r := a.ProcessPayload(payloads[i].data, payloads[i].time);
      assert payloads[..i + 1] == payloads[..i] + [payloads[i]];
      PrefixBuffered(a.cut, a.buffer, a.base, payloads, i + 1, maxNal, maxBuffer);
      full := full || r.Err?;
      events := events + more;
      i := i + 1;
    }
    assert payloads[..|payloads|] == payloads;
    var last, r, nals := a.Flush();
    if r.Err? {
      NeverStopped(a.cut, a.buffer, a.chunks, a.base, payloads, maxNal);
      assert false;
    }
    events := events + last;
    GenuineIsTimed(nals, payloads);
  }
}

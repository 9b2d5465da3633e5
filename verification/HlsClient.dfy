/** The HLS client: playlist, segment and part requests driven by events, with in-flight tracking and live reload. */
module HlsClient {
  import opened Bytes
  import opened Ordered

  type Uri = string
  type ByteRange = Option<(nat, nat)>

  datatype Part = Part(uri: Uri, byteRange: ByteRange, independent: bool, gap: bool)

  datatype Segment = Segment(mediaSequence: nat, uri: Uri, byteRange: ByteRange, discontinuity: bool, parts: seq<Part>)

  /** `partTargetMs` is the part target when it can be represented in milliseconds. */
  datatype MediaPlaylist = MediaPlaylist(mediaSequence: nat, segments: seq<Segment>, vod: bool,
                                         partTargetMs: Option<nat>, canBlockReload: bool)

  datatype HlsError =
    | BadPlaylist
    | NonRetryable(uri: Uri)
    | RetriesExhausted(uri: Uri)
    | SeekBeforePlaylist
    | SeekLive
    | SeekOutOfRange

  /** What decoding, parsing and variant selection make of a playlist body. */
  datatype Playlist = Master(selected: Uri) | Media(media: MediaPlaylist) | Unusable(error: HlsError)

  datatype Kind =
    | LoadPlaylist(url: Uri, isMaster: bool, blocking: bool)
    | LoadSegment(uri: Uri, byteRange: ByteRange, discontinuity: bool)
    | LoadPart(uri: Uri, byteRange: ByteRange)
    | CancelEpoch(cancelled: nat)
    | ReportError(error: HlsError)
  {
    predicate IsRequest() { LoadPlaylist? || LoadSegment? || LoadPart? }
  }

  datatype Action = Action(epoch: nat, kind: Kind)

  /** A seek carries the segment index its time falls in, or none when it is out of range. */
  datatype Event =
    | PlaylistLoaded(url: Uri, playlist: Playlist)
    | ResourceLoaded(uri: Uri, epoch: nat)
    | RequestFailed(uri: Uri, retryable: bool, epoch: nat)
    | Tick(nowMs: nat)
    | Seek(target: Option<nat>)
    | Stop

  datatype Config = Config(maxRetryCount: nat, reloadIntervalMs: nat, blockReload: bool)

  type Inflight = map<nat, Kind>

  function Sat(n: nat): nat { if n > U64_MAX then U64_MAX else n }

  function ActionUri(kind: Kind): Option<Uri>
  {
    match kind
    case LoadPlaylist(url, _, _) => Some(url)
    case LoadSegment(uri, _, _) => Some(uri)
    case LoadPart(uri, _) => Some(uri)
    case _ => None
  }

  predicate IsInflight(inflight: Inflight, uri: Uri)
  {
    exists e | e in inflight :: ActionUri(inflight[e]) == Some(uri)
  }

  /** The first segment with the URI. */
  function FindSegment(segments: seq<Segment>, uri: Uri): (r: Option<nat>)
    ensures r.Some? ==> r.value < |segments| && segments[r.value].uri == uri
    ensures r.None? ==> forall i | 0 <= i < |segments| :: segments[i].uri != uri
  {
    if segments == [] then None
    else if segments[0].uri == uri then Some(0)
    else
      match FindSegment(segments[1..], uri)
      case None =>
        assert forall i | 1 <= i < |segments| :: segments[i] == segments[1..][i - 1];
        None
      case Some(i) => Some(i + 1)
  }

  function FindPartOf(parts: seq<Part>, uri: Uri): (r: Option<nat>)
    ensures r.Some? ==> r.value < |parts| && parts[r.value].uri == uri
  {
    if parts == [] then None
    else if parts[0].uri == uri then Some(0)
    else match FindPartOf(parts[1..], uri) case None => None case Some(i) => Some(i + 1)
  }

  /** The first part with the URI, as segment index and part index. */
  function FindPart(segments: seq<Segment>, uri: Uri): (r: Option<(nat, nat)>)
    ensures r.Some? ==> r.value.0 < |segments| && r.value.1 < |segments[r.value.0].parts|
  {
    if segments == [] then None
    else
      match FindPartOf(segments[0].parts, uri)
      case Some(j) => Some((0, j))
      case None => match FindPart(segments[1..], uri) case None => None case Some((i, j)) => Some((i + 1, j))
  }

  function PositionOf(segments: seq<Segment>, msn: nat): (r: Option<nat>)
    ensures r.Some? ==> r.value < |segments|
  {
    if segments == [] then None
    else if segments[0].mediaSequence == msn then Some(0)
    else match PositionOf(segments[1..], msn) case None => None case Some(i) => Some(i + 1)
  }

  /** The first segment numbered above `msn`, or the end. */
  function FirstAbove(segments: seq<Segment>, msn: nat): (i: nat)
    ensures i <= |segments| && (i < |segments| ==> segments[i].mediaSequence > msn)
    ensures forall j | 0 <= j < i :: segments[j].mediaSequence <= msn
  {
    if segments == [] || segments[0].mediaSequence > msn then 0
    else
      assert forall j | 1 <= j < |segments| :: segments[j] == segments[1..][j - 1];
      1 + FirstAbove(segments[1..], msn)
  }

  function ResumePosition(media: MediaPlaylist, lastMsn: Option<nat>, lastPartMsn: Option<nat>,
                          lastPartIndex: Option<nat>)
    : (nat, nat)
  {
    var part := if lastPartMsn.Some? then PositionOf(media.segments, lastPartMsn.value) else None;
    if part.Some? then
      var nextPart := if lastPartIndex.Some? then lastPartIndex.value + 1 else 0;
      if nextPart < |media.segments[part.value].parts| then (part.value, nextPart)
      else if part.value + 1 < |media.segments| then (part.value + 1, 0)
      else (|media.segments|, 0)
    else if lastMsn.Some? then (FirstAbove(media.segments, lastMsn.value), 0)
    else (0, 0)
  }

  /** Only independent parts are preloaded, and none twice. */
  predicate Eligible(part: Part, inflight: Inflight)
  {
    part.independent && !part.gap && !IsInflight(inflight, part.uri)
  }

  /** No part of the segment from `from` up to `to` is to be loaded. */
  ghost predicate PartsDone(segment: Segment, from: nat, to: nat, inflight: Inflight)
  {
    forall j | from <= j < to <= |segment.parts| :: !Eligible(segment.parts[j], inflight)
  }

  /** Nothing is to be loaded from part `p` of segment `n` up to the beginning of segment `k`. */
  ghost predicate Exhausted(segments: seq<Segment>, n: nat, p: nat, k: nat, inflight: Inflight)
  {
    forall i | n <= i < k <= |segments| ::
      PartsDone(segments[i], if i == n then p else 0, |segments[i].parts|, inflight)
      && IsInflight(inflight, segments[i].uri)
  }

  /** The cancellations of the epochs below `below`, in ascending order. */
  ghost predicate Cancels(actions: seq<Action>, inflight: Inflight, below: nat)
  {
    && (forall i | 0 <= i < |actions| :: actions[i].kind == CancelEpoch(actions[i].epoch)
                                         && actions[i].epoch in inflight && actions[i].epoch < below)
    && (forall i, j | 0 <= i < j < |actions| :: actions[i].epoch < actions[j].epoch)
    && (forall e | e in inflight && e < below :: Action(e, CancelEpoch(e)) in actions)
  }

  method Cancellations(epochs: set<nat>) returns (actions: seq<Action>)
    ensures forall i | 0 <= i < |actions| ::
              actions[i].kind == CancelEpoch(actions[i].epoch) && actions[i].epoch in epochs
    ensures forall i, j | 0 <= i < j < |actions| :: actions[i].epoch < actions[j].epoch
    ensures forall e | e in epochs :: Action(e, CancelEpoch(e)) in actions
  {
    var ordered := Ascending(epochs);
    actions := [];
    for i := 0 to |ordered|
      invariant |actions| == i && forall k | 0 <= k < i :: actions[k] == Action(ordered[k], CancelEpoch(ordered[k]))
    {
      actions := actions + [Action(ordered[i], CancelEpoch(ordered[i]))];
    }
    forall e | e in epochs ensures Action(e, CancelEpoch(e)) in actions {
      var k :| 0 <= k < |ordered| && ordered[k] == e;
      assert actions[k] == Action(e, CancelEpoch(e));
    }
  }

  // ---- The live walk ----

  /**
   * The names a server gives: each media sequence number has one URI and each URI at most one number. Playlists have
   * no number. `master` and `media` may be the same URL.
   */
  datatype Server = Server(master: Uri, media: Uri, names: nat -> Uri, number: Uri -> Option<nat>)
  {
    ghost predicate Ok()
    {
      && number(master) == None && number(media) == None
      && (forall m: nat :: number(names(m)) == Some(m))
    }
  }

  function End(p: MediaPlaylist): nat { p.mediaSequence + |p.segments| }

  /** A playlist without parts that lists the segments from its media sequence number on. */
  ghost predicate Window(p: MediaPlaylist, server: Server)
  {
    forall i | 0 <= i < |p.segments| ::
      var s := p.segments[i];
      s.mediaSequence == p.mediaSequence + i && s.parts == [] && s.uri == server.names(s.mediaSequence)
  }

  /** Every request in flight is for a playlist or for a segment numbered at most `highest`. */
  ghost predicate Tracked(inflight: Inflight, server: Server, highest: int)
  {
    forall e | e in inflight ::
      match inflight[e]
      case LoadPlaylist(url, _, _) => server.number(url) == None
      case LoadSegment(uri, _, _) =>
        var m := server.number(uri);
        m.Some? && m.value <= highest && uri == server.names(m.value)
      case _ => false
  }

  /** Segments numbered up to `highest` and still listed are in flight, except those up to the last one completed. */
  ghost predicate Accounted(inflight: Inflight, server: Server, start: nat, lastMsn: Option<nat>, highest: int)
  {
    && (lastMsn.Some? ==> lastMsn.value <= highest)
    && (forall m: nat | start <= m <= highest && (lastMsn.None? || m > lastMsn.value) ::
          IsInflight(inflight, server.names(m)))
  }

  /** The segments from position `n` on are all above `highest` or in flight. */
  ghost predicate Ahead(media: MediaPlaylist, n: nat, inflight: Inflight, highest: int)
  {
    && n <= |media.segments| && (media.mediaSequence + n <= highest + 1 || n == 0)
    && (forall i | n <= i < |media.segments| ::
          media.segments[i].mediaSequence <= highest ==> IsInflight(inflight, media.segments[i].uri))
  }

  /** The number the walk asks for next: the one after the highest so far, unless the window has moved beyond it. */
  function NextMsn(media: MediaPlaylist, highest: int): nat
    requires highest >= -1
  {
    if highest + 1 > media.mediaSequence then highest + 1 else media.mediaSequence
  }

  /** What is in flight are requests, none of an epoch still to come. */
  ghost predicate InOrder(inflight: Inflight, epoch: nat)
  {
    epoch <= U64_MAX && forall e | e in inflight :: e <= epoch && inflight[e].IsRequest()
  }

  // ---- What scheduling does ----

  /** The part of the client's state that scheduling changes; `highest` is the highest number requested so far. */
  datatype Position = Position(epoch: nat, inflight: Inflight, segment: nat, part: nat, highest: int)

  /** The one request a scheduling turn makes: everything before it is done or in flight, and it is not. */
  ghost predicate Requested(segments: seq<Segment>, was: Position, action: Action, now: Position)
  {
    && action.epoch == now.epoch == Sat(was.epoch + 1) && now.inflight == was.inflight[now.epoch := action.kind]
    && match action.kind
       case LoadSegment(uri, byteRange, discontinuity) =>
         && was.segment < now.segment <= |segments| && now.part == 0
         && var k := now.segment - 1;
            && Exhausted(segments, was.segment, was.part, k, was.inflight)
            && PartsDone(segments[k], if k == was.segment then was.part else 0, |segments[k].parts|, was.inflight)
            && uri == segments[k].uri && byteRange == segments[k].byteRange
            && discontinuity == segments[k].discontinuity
            && !IsInflight(was.inflight, uri) && now.highest == segments[k].mediaSequence
       case LoadPart(uri, byteRange) =>
         && was.segment <= now.segment < |segments| && now.highest == was.highest
         && var k, from := now.segment, if now.segment == was.segment then was.part else 0;
            && Exhausted(segments, was.segment, was.part, k, was.inflight)
            && from < now.part <= |segments[k].parts|
            && var part := segments[k].parts[now.part - 1];
               && PartsDone(segments[k], from, now.part - 1, was.inflight) && Eligible(part, was.inflight)
               && uri == part.uri && byteRange == part.byteRange
       case _ => false
  }

  /** At most one request; none only when all is done or in flight. */
  ghost predicate Scheduled(segments: seq<Segment>, was: Position, actions: seq<Action>, now: Position)
  {
    if actions == [] then
      && now.(segment := was.segment, part := was.part) == was
      && now.segment == (if was.segment < |segments| then |segments| else was.segment)
      && (was.part == 0 ==> now.part == 0)
      && Exhausted(segments, was.segment, was.part, |segments|, was.inflight)
    else |actions| == 1 && Requested(segments, was, actions[0], now)
  }

  /** Scheduling on a window: what the first segment that is not in flight must be. */
  lemma WalkPicks(media: MediaPlaylist, server: Server, inflight: Inflight, n: nat, k: nat, highest: int)
    requires server.Ok() && Window(media, server) && Tracked(inflight, server, highest) && highest >= -1
    requires Ahead(media, n, inflight, highest) && highest < End(media)
    requires n <= k <= |media.segments| && Exhausted(media.segments, n, 0, k, inflight)
    requires k < |media.segments| ==> !IsInflight(inflight, media.segments[k].uri)
    ensures k == |media.segments| ==> NextMsn(media, highest) >= End(media)
    ensures k < |media.segments| ==> media.segments[k].mediaSequence == NextMsn(media, highest)
  {
    if k > n {
      var last := media.segments[k - 1];
      assert IsInflight(inflight, last.uri);
      var e :| e in inflight && ActionUri(inflight[e]) == Some(last.uri);
      assert server.number(last.uri) == Some(last.mediaSequence);
      assert last.mediaSequence <= highest;
    }
  }

  /** The state of the walk between events. */
  ghost predicate WalkOk(server: Server, media: MediaPlaylist, at: Position, lastMsn: Option<nat>)
  {
    && Window(media, server) && Tracked(at.inflight, server, at.highest) && -1 <= at.highest < End(media)
    && Accounted(at.inflight, server, media.mediaSequence, lastMsn, at.highest)
    && at.part == 0 && media.mediaSequence + at.segment == NextMsn(media, at.highest) && at.segment <= |media.segments|
  }

  /** The one new segment a turn asks for, if any. */
  ghost predicate Asks(server: Server, actions: seq<Action>, number: Option<nat>)
  {
    && (forall i | 0 <= i < |actions| :: actions[i].kind.LoadSegment? ==> i == |actions| - 1)
    && (number.None? ==> forall i | 0 <= i < |actions| :: !actions[i].kind.LoadSegment?)
    && (number.Some? ==> && actions != [] && actions[|actions| - 1].kind.LoadSegment?
                         && actions[|actions| - 1].kind.uri == server.names(number.value))
  }

  /** What a scheduling turn asks for on a window. */
  function Due(media: MediaPlaylist, highest: int): Option<nat>
    requires highest >= -1
  {
    if NextMsn(media, highest) < End(media) then Some(NextMsn(media, highest)) else None
  }

  lemma WalkSchedules(server: Server, media: MediaPlaylist, was: Position, actions: seq<Action>, now: Position,
                      lastMsn: Option<nat>)
    requires server.Ok() && Window(media, server) && Tracked(was.inflight, server, was.highest)
    requires -1 <= was.highest < End(media) && was.part == 0 && was.epoch < U64_MAX
    requires InOrder(was.inflight, was.epoch)
    requires Accounted(was.inflight, server, media.mediaSequence, lastMsn, was.highest)
    requires Ahead(media, was.segment, was.inflight, was.highest)
    requires Scheduled(media.segments, was, actions, now)
    ensures WalkOk(server, media, now, lastMsn)
    ensures Asks(server, actions, Due(media, was.highest))
    ensures now.highest == if Due(media, was.highest).Some? then Due(media, was.highest).value else was.highest
  {
    if actions == [] {
      WalkPicks(media, server, was.inflight, was.segment, |media.segments|, was.highest);
    } else if actions[0].kind.LoadSegment? {
      var k := now.segment - 1;
      WalkPicks(media, server, was.inflight, was.segment, k, was.highest);
      var m := media.segments[k].mediaSequence;
      assert now.inflight[now.epoch] == actions[0].kind;
      StillInflight(was.inflight, now.epoch, actions[0].kind);
    }
  }

  lemma StillInflight(inflight: Inflight, epoch: nat, kind: Kind)
    requires epoch !in inflight
    ensures forall uri :: IsInflight(inflight, uri) ==> IsInflight(inflight[epoch := kind], uri)
    ensures ActionUri(kind).Some? ==> IsInflight(inflight[epoch := kind], ActionUri(kind).value)
  {
    var now := inflight[epoch := kind];
    assert forall e | e in inflight :: now[e] == inflight[e];
    assert now[epoch] == kind;
    forall uri | IsInflight(inflight, uri)
      ensures IsInflight(now, uri)
    {
      var e :| e in inflight && ActionUri(inflight[e]) == Some(uri);
      assert now[e] == inflight[e];
    }
  }

  function WithoutPlaylist(inflight: Inflight, url: Uri, isMaster: bool): Inflight
  {
    map e | e in inflight && !(inflight[e].LoadPlaylist? && inflight[e].url == url && inflight[e].isMaster == isMaster)
      :: inflight[e]
  }

  /** A request for a playlist that is not taken for the master's. */
  predicate Reloads(kind: Kind)
  {
    kind.LoadPlaylist? && !kind.isMaster
  }

  /** A reload is under way. */
  predicate Reloading(inflight: Inflight)
  {
    exists e | e in inflight :: Reloads(inflight[e])
  }

  /** The playlist requests among those in flight. */
  function Playlists(inflight: Inflight): Inflight
  {
    map e | e in inflight && inflight[e].LoadPlaylist? :: inflight[e]
  }

  /**
   * An answer ends the reload it answers unless its URL is the master's: the reload is then taken for a request for the
   * master playlist, which it is not, and stays.
   */
  lemma AnsweredReload(inflight: Inflight, left: Inflight, url: Uri, masterUrl: Uri)
    requires Playlists(inflight) == Playlists(WithoutPlaylist(left, url, masterUrl == url))
    ensures Reloading(inflight) <==>
              exists e | e in left :: Reloads(left[e]) && (left[e].url != url || masterUrl == url)
  {
    if Reloading(inflight) {
      var e :| e in inflight && Reloads(inflight[e]);
      assert e in Playlists(inflight);
      assert e in left && left[e] == inflight[e];
    }
    if exists e | e in left :: Reloads(left[e]) && (left[e].url != url || masterUrl == url) {
      var e :| e in left && Reloads(left[e]) && (left[e].url != url || masterUrl == url);
      assert e in Playlists(WithoutPlaylist(left, url, masterUrl == url));
      assert e in Playlists(inflight);
    }
  }

  lemma SegmentsStay(inflight: Inflight, server: Server, url: Uri, isMaster: bool, m: nat)
    requires server.Ok() && server.number(url) == None && IsInflight(inflight, server.names(m))
    ensures IsInflight(WithoutPlaylist(inflight, url, isMaster), server.names(m))
  {
    var e :| e in inflight && ActionUri(inflight[e]) == Some(server.names(m));
    assert server.number(server.names(m)) == Some(m);
    assert WithoutPlaylist(inflight, url, isMaster)[e] == inflight[e];
  }

  function Next(p: MediaPlaylist, lastMsn: Option<nat>): nat
  {
    if lastMsn.Some? then FirstAbove(p.segments, lastMsn.value) else 0
  }

  /** A reload puts the walk at a position with nothing to be requested again. */
  lemma WalkResumes(server: Server, media: MediaPlaylist, at: Position, lastMsn: Option<nat>, p: MediaPlaylist,
                    isMaster: bool)
    requires server.Ok() && WalkOk(server, media, at, lastMsn) && Window(p, server)
    requires media.mediaSequence <= p.mediaSequence && End(media) <= End(p)
    ensures var left := WithoutPlaylist(at.inflight, server.media, isMaster);
            && Tracked(left, server, at.highest) && Accounted(left, server, p.mediaSequence, lastMsn, at.highest)
            && Ahead(p, Next(p, lastMsn), left, at.highest)
  {
    var left := WithoutPlaylist(at.inflight, server.media, isMaster);
    forall m: nat | p.mediaSequence <= m <= at.highest && (lastMsn.None? || m > lastMsn.value)
      ensures IsInflight(left, server.names(m))
    {
      SegmentsStay(at.inflight, server, server.media, isMaster, m);
    }
    var n := Next(p, lastMsn);
    if n > 0 {
      assert p.segments[n - 1].mediaSequence <= lastMsn.value;
    }
  }

  /** What a completed request does to the last number and to the walk; a segment no longer listed changes neither. */
  function LastAfter(media: MediaPlaylist, kind: Kind, lastMsn: Option<nat>): Option<nat>
  {
    if kind.LoadSegment? && FindSegment(media.segments, kind.uri).Some? then
      var m := media.segments[FindSegment(media.segments, kind.uri).value].mediaSequence;
      if lastMsn.None? || m >= lastMsn.value then Some(m) else lastMsn
    else lastMsn
  }

  lemma WalkCompletes(server: Server, media: MediaPlaylist, at: Position, lastMsn: Option<nat>, e: nat)
    requires server.Ok() && WalkOk(server, media, at, lastMsn) && e in at.inflight
    ensures var kind := at.inflight[e];
            && Ready(server, media, at.(inflight := at.inflight - {e}), LastAfter(media, kind, lastMsn))
            && (kind.LoadSegment? && FindSegment(media.segments, kind.uri).Some? ==>
                  FindSegment(media.segments, kind.uri).value != at.segment)
            && !kind.LoadPart?
  {
    var kind := at.inflight[e];
    var left, last := at.inflight - {e}, LastAfter(media, kind, lastMsn);
    if kind.LoadSegment? && FindSegment(media.segments, kind.uri).Some? {
      var i := FindSegment(media.segments, kind.uri).value;
      assert server.number(media.segments[i].uri) == Some(media.mediaSequence + i);
    }
    forall m: nat | media.mediaSequence <= m <= at.highest && (last.None? || m > last.value)
      ensures IsInflight(left, server.names(m))
    {
      StillAskedFor(server, media, at, lastMsn, e, m);
    }
  }

  /** What is left to wait for behind the last completed segment is still waited for. */
  lemma StillAskedFor(server: Server, media: MediaPlaylist, at: Position, lastMsn: Option<nat>, e: nat, m: nat)
    requires server.Ok() && WalkOk(server, media, at, lastMsn) && e in at.inflight
    requires var last := LastAfter(media, at.inflight[e], lastMsn);
             media.mediaSequence <= m <= at.highest && (last.None? || m > last.value)
    ensures IsInflight(at.inflight - {e}, server.names(m))
  {
    assert IsInflight(at.inflight, server.names(m));
    assert media.segments[m - media.mediaSequence].uri == server.names(m);
    var f :| f in at.inflight && ActionUri(at.inflight[f]) == Some(server.names(m));
    assert server.number(server.names(m)) == Some(m);
    assert (at.inflight - {e})[f] == at.inflight[f];
  }

  /** A retry or a reload request leaves the walk where it is. */
  lemma WalkRequests(server: Server, media: MediaPlaylist, at: Position, lastMsn: Option<nat>, done: set<nat>,
                     kind: Kind)
    requires server.Ok() && WalkOk(server, media, at, lastMsn) && at.epoch < U64_MAX
    requires InOrder(at.inflight, at.epoch)
    requires (exists e :: e in at.inflight && done == {e} && kind == at.inflight[e]) ||
             (done == {} && kind.LoadPlaylist? && kind.url == server.media)
    ensures WalkOk(server, media, at.(epoch := at.epoch + 1, inflight := (at.inflight - done)[at.epoch + 1 := kind]),
                   lastMsn)
  {
    var now := (at.inflight - done)[at.epoch + 1 := kind];
    assert now[at.epoch + 1] == kind;
    forall m: nat | IsInflight(at.inflight, server.names(m))
      ensures IsInflight(now, server.names(m))
    {
      var f :| f in at.inflight && ActionUri(at.inflight[f]) == Some(server.names(m));
      if f !in done {
        assert now[f] == at.inflight[f];
      }
    }
    assert Tracked(now, server, at.highest) by {
      assert forall f | f in now :: f == at.epoch + 1 || (f in at.inflight && now[f] == at.inflight[f]);
    }
  }

  /** The events of a live walk: the master at most before the first media playlist, windows that only move forward. */
  ghost predicate EventOk(server: Server, media: Option<MediaPlaylist>, event: Event)
  {
    match event
    case PlaylistLoaded(url, Master(selected)) => media.None? && selected == server.media
    case PlaylistLoaded(url, Media(p)) =>
      && url == server.media && Window(p, server)
      && (media.Some? ==> media.value.mediaSequence <= p.mediaSequence && End(media.value) <= End(p))
    case Seek(_) => false
    case _ => true
  }

  /** What may stop a running client: a failure that is retryable only when it has used up its retries. */
  predicate MayStop(config: Config, counts: map<Uri, nat>, event: Event)
  {
    Halts(event) ||
    (event.RequestFailed? && (!event.retryable || CountOf(counts, event.uri) >= config.maxRetryCount))
  }

  /** The playlist after an event. */
  function MediaAfter(media: Option<MediaPlaylist>, event: Event): Option<MediaPlaylist>
  {
    if event.PlaylistLoaded? && event.playlist.Media? then Some(event.playlist.media) else media
  }

  /** The number a turn must ask for: only a loaded playlist or resource lets the client ask for a new segment. */
  function Wanted(media: Option<MediaPlaylist>, highest: int, event: Event): Option<nat>
    requires highest >= -1
  {
    var now := MediaAfter(media, event);
    if now.Some? && ((event.PlaylistLoaded? && event.playlist.Media?) || event.ResourceLoaded?) then
      Due(now.value, highest)
    else None
  }

  /**
   * A turn asks for the wanted number and nothing else new, and `highest` follows; a client that stops asks for
   * nothing.
   */
  ghost predicate Paced(server: Server, wanted: Option<nat>, was: int, stopped: bool, actions: seq<Action>, now: int)
  {
    var asked := if stopped then None else wanted;
    Asks(server, actions, asked) && now == if asked.Some? then asked.value else was
  }

  lemma AsksBehind(server: Server, cancels: seq<Action>, actions: seq<Action>, number: Option<nat>)
    requires forall i | 0 <= i < |cancels| :: cancels[i].kind.CancelEpoch?
    requires Asks(server, actions, number)
    ensures Asks(server, cancels + actions, number)
  {
  }

  lemma WalkBegins(server: Server, p: MediaPlaylist, from: Position, cancels: seq<Action>, requests: seq<Action>,
                   now: Position)
    requires server.Ok() && Window(p, server) && from.epoch < U64_MAX
    requires from.inflight == map[] && from.segment == 0 && from.part == 0 && from.highest == -1
    requires Scheduled(p.segments, from, requests, now)
    requires forall i | 0 <= i < |cancels| :: cancels[i].kind.CancelEpoch?
    ensures WalkOk(server, p, now, None) && Paced(server, Due(p, -1), -1, false, cancels + requests, now.highest)
  {
    WalkSchedules(server, p, from, requests, now, None);
    AsksBehind(server, cancels, requests, Due(p, -1));
  }

  lemma WalkReloads(server: Server, before: MediaPlaylist, was: Position, lastMsn: Option<nat>, p: MediaPlaylist,
                    isMaster: bool, from: Position, actions: seq<Action>, now: Position)
    requires server.Ok() && WalkOk(server, before, was, lastMsn) && Window(p, server) && was.epoch < U64_MAX
    requires InOrder(was.inflight, was.epoch)
    requires before.mediaSequence <= p.mediaSequence && End(before) <= End(p)
    requires from ==
             was.(inflight := WithoutPlaylist(was.inflight, server.media, isMaster), segment := Next(p, lastMsn))
    requires Scheduled(p.segments, from, actions, now)
    ensures WalkOk(server, p, now, lastMsn)
            && Paced(server, Due(p, was.highest), was.highest, false, actions, now.highest)
  {
    WalkResumes(server, before, was, lastMsn, p, isMaster);
    WalkSchedules(server, p, from, actions, now, lastMsn);
  }

  lemma WalkBasics(server: Server, media: MediaPlaylist, at: Position, lastMsn: Option<nat>)
    requires WalkOk(server, media, at, lastMsn)
    ensures at.part == 0
  {
  }

  /** The walk is ready to be scheduled. */
  ghost predicate Ready(server: Server, media: MediaPlaylist, at: Position, lastMsn: Option<nat>)
  {
    && Window(media, server) && Tracked(at.inflight, server, at.highest)
    && -1 <= at.highest < End(media) && at.part == 0
    && Accounted(at.inflight, server, media.mediaSequence, lastMsn, at.highest)
    && Ahead(media, at.segment, at.inflight, at.highest)
  }

  lemma WalkIsReady(server: Server, media: MediaPlaylist, at: Position, lastMsn: Option<nat>)
    requires WalkOk(server, media, at, lastMsn)
    ensures Ready(server, media, at, lastMsn)
  {
  }

  lemma WalkAfter(server: Server, media: MediaPlaylist, from: Position, actions: seq<Action>, now: Position,
                  lastMsn: Option<nat>)
    requires server.Ok() && Ready(server, media, from, lastMsn) && Scheduled(media.segments, from, actions, now)
    requires from.epoch < U64_MAX && InOrder(from.inflight, from.epoch)
    ensures WalkOk(server, media, now, lastMsn)
    ensures Paced(server, Due(media, from.highest), from.highest, false, actions, now.highest)
  {
    WalkSchedules(server, media, from, actions, now, lastMsn);
  }

  class HlsClient {
    const config: Config
    const masterUrl: Uri
    var mediaUrl: Option<Uri>
    var media: Option<MediaPlaylist>
    var epoch: nat
    var inflight: Inflight
    var nextSegmentIndex: nat
    var nextPartIndex: nat
    var stopped: bool
    var lastReloadMs: Option<nat>
    var retryCounts: map<Uri, nat>
    var lastMsn: Option<nat>
    var lastPartMsn: Option<nat>
    var lastPartIndex: Option<nat>

    /** The number of the latest new segment requested since the media playlist was chosen; -1 before. */
    ghost var highest: int

    ghost predicate Valid()
      reads this
    {
      && InOrder(inflight, epoch) && highest >= -1
      && (stopped ==> inflight == map[]) && (media.Some? <==> mediaUrl.Some?)
    }

    ghost function At(): Position
      reads this`epoch, this`inflight, this`nextSegmentIndex, this`nextPartIndex, this`highest
    {
      Position(epoch, inflight, nextSegmentIndex, nextPartIndex, highest)
    }

    /** The client is walking the server's media playlist, or has not got it yet. */
    ghost predicate Walking(server: Server)
      reads this
    {
      && server.Ok() && masterUrl == server.master
      && if stopped then true
         else if media.None? then
           Tracked(inflight, server, highest) && highest == -1
         else
           && mediaUrl == Some(server.media) && lastPartMsn == None
           && WalkOk(server, media.value, At(), lastMsn)
    }

    constructor (masterUrl: Uri, config: Config)
      ensures Valid() && !stopped && media == None && inflight == map[] && epoch == 0 && highest == -1
              && lastReloadMs == None
      ensures this.masterUrl == masterUrl && this.config == config && retryCounts == map[]
    {
      this.masterUrl, this.config := masterUrl, config;
      mediaUrl, media, epoch, inflight := None, None, 0, map[];
      nextSegmentIndex, nextPartIndex, stopped, lastReloadMs, retryCounts := 0, 0, false, None, map[];
      lastMsn, lastPartMsn, lastPartIndex := None, None, None;
      highest := -1;
    }

    /** Every request gets an epoch above all earlier ones, until epochs saturate. */
    method RequestEpoch(kind: Kind) returns (actions: seq<Action>)
      modifies this`epoch, this`inflight
      ensures epoch == Sat(old(epoch) + 1) && inflight == old(inflight)[epoch := kind]
      ensures actions == [Action(epoch, kind)]
    {
      epoch := Sat(epoch + 1);
      inflight := inflight[epoch := kind];
      return [Action(epoch, kind)];
    }

    method BumpEpoch() returns (actions: seq<Action>)
      requires InOrder(inflight, epoch)
      ensures InOrder(inflight, epoch) && epoch >= old(epoch) && (old(epoch) < U64_MAX ==> inflight == map[])
      modifies this`epoch, this`inflight, this`retryCounts
      ensures epoch == Sat(old(epoch) + 1) && Cancels(actions, old(inflight), epoch) && retryCounts == map[]
      ensures inflight == map e | e in old(inflight) && e >= epoch :: old(inflight)[e]
    {
      epoch := Sat(epoch + 1);
      actions := Cancellations(set e | e in inflight && e < epoch);
      inflight := map e | e in inflight && e >= epoch :: inflight[e];
      retryCounts := map[];
    }

    method RemoveInflightPlaylist(url: Uri, isMaster: bool)
      modifies this`inflight
      ensures inflight == WithoutPlaylist(old(inflight), url, isMaster)
    {
      inflight := WithoutPlaylist(inflight, url, isMaster);
    }

    method StopWithError(error: HlsError) returns (actions: seq<Action>)
      requires InOrder(inflight, epoch)
      modifies this`stopped, this`inflight
      ensures InOrder(inflight, epoch)
      ensures stopped && inflight == map[] && actions == [Action(0, ReportError(error))]
    {
      stopped := true;
      inflight := map[];
      return [Action(0, ReportError(error))];
    }

    method ScheduleDownloads() returns (actions: seq<Action>)
      modifies this`epoch, this`inflight, this`nextSegmentIndex, this`nextPartIndex, this`highest
      ensures media.None? ==> actions == [] && At() == old(At())
      ensures media.Some? ==> Scheduled(media.value.segments, old(At()), actions, At())
    {
      hide IsInflight;
      if media.None? {
        return [];
      }
      var segments := media.value.segments;
      while nextSegmentIndex < |segments|
        invariant epoch == old(epoch) && inflight == old(inflight) && highest == old(highest)
        invariant old(nextSegmentIndex) <= nextSegmentIndex
        invariant nextSegmentIndex <= |segments| || nextSegmentIndex == old(nextSegmentIndex)
        invariant nextPartIndex == if nextSegmentIndex == old(nextSegmentIndex) then old(nextPartIndex) else 0
        invariant Exhausted(segments, old(nextSegmentIndex), old(nextPartIndex), nextSegmentIndex, inflight)
      {
        var seg := segments[nextSegmentIndex];
        ghost var from, n := nextPartIndex, nextSegmentIndex;
        while nextPartIndex < |seg.parts|
          invariant epoch == old(epoch) && inflight == old(inflight) && highest == old(highest) && nextSegmentIndex == n
          invariant from <= nextPartIndex && (from <= |seg.parts| ==> nextPartIndex <= |seg.parts|)
          invariant PartsDone(seg, from, if nextPartIndex <= |seg.parts| then nextPartIndex else 0, inflight)
        {
          var part := seg.parts[nextPartIndex];
          nextPartIndex := nextPartIndex + 1;
          if !part.independent || part.gap {
            continue;
          }
          if IsInflight(inflight, part.uri) {
            continue;
          }
          actions := RequestEpoch(LoadPart(part.uri, part.byteRange));
          return;
        }
        assert PartsDone(seg, from, |seg.parts|, inflight);
        if IsInflight(inflight, seg.uri) {
          nextSegmentIndex := nextSegmentIndex + 1;
          nextPartIndex := 0;
          continue;
        }
        nextSegmentIndex := nextSegmentIndex + 1;
        nextPartIndex := 0;
        highest := seg.mediaSequence;
        actions := RequestEpoch(LoadSegment(seg.uri, seg.byteRange, seg.discontinuity));
        return;
      }
      return [];
    }

    method Start() returns (actions: seq<Action>)
      requires Valid()
      modifies this`epoch, this`inflight
      ensures Valid() && old(epoch) <= epoch
      ensures stopped ==> actions == [] && unchanged(this)
      ensures !stopped ==> && actions == [Action(epoch, LoadPlaylist(masterUrl, true, false))]
                           && epoch == Sat(old(epoch) + 1) && inflight == old(inflight)[epoch := actions[0].kind]
    {
      if stopped {
        return [];
      }
      actions := RequestEpoch(LoadPlaylist(masterUrl, true, false));
    }

    /** A playlist whose URL is that of the current one is a reload and resumes behind what was completed. */
    method Resume(url: Uri, p: MediaPlaylist)
      requires InOrder(inflight, epoch)
      modifies this`inflight, this`nextSegmentIndex, this`nextPartIndex, this`media
      ensures InOrder(inflight, epoch) && media == Some(p)
      ensures inflight == WithoutPlaylist(old(inflight), url, masterUrl == url)
      ensures (nextSegmentIndex, nextPartIndex) == ResumePosition(p, lastMsn, lastPartMsn, lastPartIndex)
    {
      hide WithoutPlaylist, InOrder, ResumePosition;
      WithoutKeeps(inflight, url, masterUrl == url, epoch);
      RemoveInflightPlaylist(url, masterUrl == url);
      var (n, part) := ResumePosition(p, lastMsn, lastPartMsn, lastPartIndex);
      nextSegmentIndex, nextPartIndex := n, part;
      media := Some(p);
    }

    method Reload(url: Uri, p: MediaPlaylist, ghost server: Server) returns (actions: seq<Action>)
      requires Valid() && !stopped && mediaUrl == Some(url)
      modifies this`epoch, this`inflight, this`nextSegmentIndex, this`nextPartIndex, this`highest, this`media
      ensures Valid() && media == Some(p) && old(epoch) <= epoch <= old(epoch) + 1
      ensures var (n, part) := ResumePosition(p, lastMsn, lastPartMsn, lastPartIndex);
              Scheduled(p.segments,
                        Position(old(epoch), WithoutPlaylist(old(inflight), url, masterUrl == url), n, part,
                                 old(highest)),
                        actions, At())
      ensures old(epoch) < U64_MAX ==>
                Playlists(inflight) == Playlists(WithoutPlaylist(old(inflight), url, masterUrl == url))
      ensures old(Walking(server)) && old(EventOk(server, media, PlaylistLoaded(url, Media(p))))
              && old(epoch) < U64_MAX ==>
                Walking(server) && Paced(server, Due(p, old(highest)), old(highest), false, actions, highest)
    {
      hide WithoutPlaylist, Scheduled, Window, IsInflight, FirstAbove, Asks, WalkOk, Paced, Server.Ok, Due, InOrder,
           Playlists;
      ghost var was, before := At(), media;
      Resume(url, p);
      ghost var from := At();
      actions := ScheduleDownloads();
      ScheduledKeeps(p.segments, from, actions, At());
      if old(epoch) < U64_MAX {
        ScheduledPlaylists(p.segments, from, actions, At());
      }
      if old(Walking(server)) && old(EventOk(server, media, PlaylistLoaded(url, Media(p)))) && old(epoch) < U64_MAX {
        WalkBasics(server, before.value, was, lastMsn);
        WalkReloads(server, before.value, was, lastMsn, p, masterUrl == url, from, actions, At());
      }
    }

    /** Any other playlist cancels what is in flight and goes back to the start. */
    method Rewind(url: Uri, p: MediaPlaylist) returns (cancels: seq<Action>)
      requires InOrder(inflight, epoch)
      modifies this`epoch, this`inflight, this`nextSegmentIndex, this`nextPartIndex, this`highest, this`media,
               this`mediaUrl, this`lastMsn, this`lastPartMsn, this`lastPartIndex, this`retryCounts
      ensures InOrder(inflight, epoch) && media == Some(p) && mediaUrl == Some(url)
      ensures lastMsn == None && lastPartMsn == None && lastPartIndex == None && retryCounts == map[]
      ensures nextSegmentIndex == 0 && nextPartIndex == 0 && highest == -1
      ensures epoch == Sat(old(epoch) + 1) >= old(epoch) && (old(epoch) < U64_MAX ==> inflight == map[])
      ensures Cancels(cancels, WithoutPlaylist(old(inflight), url, masterUrl == url), epoch)
    {
      hide WithoutPlaylist, Cancels, InOrder;
      WithoutKeeps(inflight, url, masterUrl == url, epoch);
      RemoveInflightPlaylist(url, masterUrl == url);
      cancels := BumpEpoch();
      nextSegmentIndex, nextPartIndex, highest := 0, 0, -1;
      lastMsn, lastPartMsn, lastPartIndex := None, None, None;
      media, mediaUrl := Some(p), Some(url);
    }

    method Restart(url: Uri, p: MediaPlaylist, ghost server: Server) returns (actions: seq<Action>)
      requires Valid() && !stopped
      modifies this`epoch, this`inflight, this`nextSegmentIndex, this`nextPartIndex, this`highest, this`media,
               this`mediaUrl, this`lastMsn, this`lastPartMsn, this`lastPartIndex, this`retryCounts
      ensures Valid() && media == Some(p) && mediaUrl == Some(url) && old(epoch) <= epoch <= old(epoch) + 2
      ensures lastMsn == None && lastPartMsn == None && lastPartIndex == None && retryCounts == map[]
      ensures old(epoch) < U64_MAX ==> Playlists(inflight) == map[]
      ensures server.Ok() && Window(p, server) && server.media == url && server.master == masterUrl
              && old(epoch) + 2 <= U64_MAX ==>
                Walking(server) && Paced(server, Due(p, -1), -1, false, actions, highest)
    {
      hide WithoutPlaylist, Scheduled, Window, IsInflight, Asks, Cancels, Tracked, WalkOk, Paced, Server.Ok, Due,
           InOrder;
      ghost var left := WithoutPlaylist(inflight, url, masterUrl == url);
      var cancels := Rewind(url, p);
      OnlyCancels(cancels, left, epoch);
      ghost var from := At();
      var requests := ScheduleDownloads();
      ScheduledKeeps(p.segments, from, requests, At());
      if old(epoch) < U64_MAX {
        ScheduledPlaylists(p.segments, from, requests, At());
      }
      if server.Ok() && Window(p, server) && server.media == url && server.master == masterUrl &&
         old(epoch) + 2 <= U64_MAX {
        WalkBegins(server, p, from, cancels, requests, At());
      }
      actions := cancels + requests;
    }

    /** A master playlist cancels what is in flight and asks for the selected variant. */
    method Select(url: Uri, selected: Uri, ghost server: Server) returns (actions: seq<Action>)
      requires Valid() && !stopped
      modifies this`epoch, this`inflight, this`retryCounts
      ensures Valid() && retryCounts == map[]
      ensures actions != [] && actions[|actions| - 1] == Action(epoch, LoadPlaylist(selected, false, false))
      ensures Cancels(actions[..|actions| - 1], WithoutPlaylist(old(inflight), url, masterUrl == url),
                      Sat(old(epoch) + 1))
      ensures epoch == Sat(Sat(old(epoch) + 1) + 1) >= old(epoch) && epoch in inflight
              && inflight[epoch] == LoadPlaylist(selected, false, false)
      ensures old(Walking(server)) && media.None? && selected == server.media && old(epoch) + 2 <= U64_MAX ==>
                Walking(server) && Asks(server, actions, None)
    {
      hide WithoutPlaylist, Window, IsInflight, WalkOk, Cancels;
      WithoutKeeps(inflight, url, masterUrl == url, epoch);
      RemoveInflightPlaylist(url, masterUrl == url);
      ghost var left := inflight;
      var cancels := BumpEpoch();
      OnlyCancels(cancels, left, epoch);
      var request := RequestEpoch(LoadPlaylist(selected, false, false));
      actions := cancels + request;
      assert actions[..|actions| - 1] == cancels;
      assert Asks(server, request, None);
      AsksBehind(server, cancels, request, None);
    }

    method OnPlaylistLoaded(url: Uri, playlist: Playlist, ghost server: Server) returns (actions: seq<Action>)
      requires Valid() && !stopped
      modifies this
      ensures Valid() && lastReloadMs == old(lastReloadMs) && old(epoch) <= epoch <= old(epoch) + 2
      ensures retryCounts == old(retryCounts) || retryCounts == map[]
      ensures playlist.Unusable? ==> stopped && actions == [Action(0, ReportError(playlist.error))]
      ensures !playlist.Unusable? ==> !stopped
      ensures playlist.Master? ==> media == old(media) && mediaUrl == old(mediaUrl)
      ensures playlist.Media? ==> media == Some(playlist.media) && mediaUrl == Some(url)
      ensures old(epoch) < U64_MAX ==>
                && (playlist.Media? && old(mediaUrl) != Some(url) ==> Playlists(inflight) == map[])
                && (playlist.Media? && old(mediaUrl) == Some(url) ==>
                      Playlists(inflight) == Playlists(WithoutPlaylist(old(inflight), url, masterUrl == url)))
      ensures playlist.Media? && old(mediaUrl) == Some(url) && old(epoch) < U64_MAX ==>
                (Reloading(inflight) <==>
                 exists e | e in old(inflight) ::
                   Reloads(old(inflight)[e]) && (old(inflight)[e].url != url || masterUrl == url))
      ensures old(Walking(server)) && old(EventOk(server, media, PlaylistLoaded(url, playlist)))
              && old(epoch) + 2 <= U64_MAX ==>
                && Walking(server)
                && Paced(server, Wanted(old(media), old(highest), PlaylistLoaded(url, playlist)), old(highest), stopped,
                         actions, highest)
    {
      hide WithoutPlaylist, Scheduled, Window, WalkOk, IsInflight, Tracked, Cancels, Playlists, Reloading, Reloads;
      match playlist {
        case Unusable(error) =>
          actions := StopWithError(error);
        case Master(selected) =>
          actions := Select(url, selected, server);
        case Media(p) =>
          if mediaUrl == Some(url) {
            ghost var left, early := inflight, epoch < U64_MAX;
            actions := Reload(url, p, server);
            if early {
              AnsweredReload(inflight, left, url, masterUrl);
            }
          } else {
            actions := Restart(url, p, server);
          }
      }
    }

    /** The bookkeeping for a completed request: the last number or part completed, and the walk position. */
    method Complete(kind: Kind)
      modifies this`lastMsn, this`lastPartMsn, this`lastPartIndex, this`nextSegmentIndex, this`nextPartIndex
      ensures media.Some? ==> lastMsn == LastAfter(media.value, kind, old(lastMsn))
      ensures media.None? ==> unchanged(this)
      ensures kind.LoadSegment? && media.Some? ==>
                match FindSegment(media.value.segments, kind.uri)
                case None => unchanged(this)
                case Some(i) =>
                  && lastPartMsn == None && lastPartIndex == None
                  && (if i == old(nextSegmentIndex) then nextSegmentIndex == i + 1 && nextPartIndex == 0
                      else nextSegmentIndex == old(nextSegmentIndex) && nextPartIndex == old(nextPartIndex))
      ensures kind.LoadPart? && media.Some? ==>
                match FindPart(media.value.segments, kind.uri)
                case None => unchanged(this)
                case Some((i, j)) =>
                  && lastPartMsn == Some(media.value.segments[i].mediaSequence) && lastPartIndex == Some(j)
                  && nextSegmentIndex == old(nextSegmentIndex)
                  && nextPartIndex == if i == nextSegmentIndex && j >= old(nextPartIndex) then j + 1
                  else old(nextPartIndex)
      ensures !kind.LoadSegment? && !kind.LoadPart? ==> unchanged(this)
    {
      if media.None? {
        return;
      }
      var segments := media.value.segments;
      if kind.LoadSegment? {
        var found := FindSegment(segments, kind.uri);
        if found.Some? {
          var msn := segments[found.value].mediaSequence;
          if lastMsn.None? || msn >= lastMsn.value {
            lastMsn := Some(msn);
          }
          lastPartMsn, lastPartIndex := None, None;
          if found.value == nextSegmentIndex {
            nextSegmentIndex, nextPartIndex := found.value + 1, 0;
          }
        }
      } else if kind.LoadPart? {
        var found := FindPart(segments, kind.uri);
        if found.Some? {
          var (i, j) := found.value;
          lastPartMsn, lastPartIndex := Some(segments[i].mediaSequence), Some(j);
          if i == nextSegmentIndex && j >= nextPartIndex {
            nextPartIndex := j + 1;
          }
        }
      }
    }

    method TakeCompleted(uri: Uri, completed: nat, ghost server: Server)
      requires InOrder(inflight, epoch)
      modifies this`inflight, this`retryCounts, this`lastMsn, this`lastPartMsn, this`lastPartIndex,
               this`nextSegmentIndex, this`nextPartIndex
      ensures InOrder(inflight, epoch) && inflight == old(inflight) - {completed}
      ensures retryCounts == if completed in old(inflight) then old(retryCounts) - {uri} else old(retryCounts)
      ensures server.Ok() && media.Some? && old(WalkOk(server, media.value, At(), lastMsn))
              && old(lastPartMsn) == None ==>
                Ready(server, media.value, At(), lastMsn) && lastPartMsn == None
    {
      hide WalkOk, InOrder, FindSegment, FindPart, LastAfter, Ready, Server.Ok;
      ghost var was, last := At(), lastMsn;
      ghost var walks := server.Ok() && media.Some? && WalkOk(server, media.value, was, last);
      InOrderLess(inflight, epoch, completed);
      if completed in inflight {
        var kind := inflight[completed];
        if walks {
          WalkCompletes(server, media.value, was, last, completed);
        }
        inflight := inflight - {completed};
        Complete(kind);
        retryCounts := retryCounts - {uri};
      } else {
        assert inflight - {completed} == inflight;
        if walks {
          WalkIsReady(server, media.value, was, last);
        }
      }
    }

    method OnResourceLoaded(uri: Uri, completed: nat, ghost server: Server) returns (actions: seq<Action>)
      requires Valid() && !stopped
      modifies this
      ensures Valid() && !stopped && media == old(media) && mediaUrl == old(mediaUrl)
              && lastReloadMs == old(lastReloadMs)
      ensures old(epoch) <= epoch <= old(epoch) + 1
      ensures retryCounts == if completed in old(inflight) then old(retryCounts) - {uri} else old(retryCounts)
      ensures media.None? ==> actions == [] && inflight == old(inflight) - {completed}
      ensures old(Walking(server)) && old(epoch) + 2 <= U64_MAX ==>
                && Walking(server)
                && Paced(server, Wanted(old(media), old(highest), ResourceLoaded(uri, completed)), old(highest), false,
                         actions, highest)
    {
      hide Scheduled, WalkOk, Paced, Server.Ok, Due, InOrder, Tracked, Ready;
      TakeCompleted(uri, completed, server);
      TrackedLess(old(inflight), server, highest, completed);
      ghost var from := At();
      actions := ScheduleDownloads();
      if media.Some? {
        ScheduledKeeps(media.value.segments, from, actions, At());
        if old(Walking(server)) && old(epoch) + 2 <= U64_MAX {
          WalkAfter(server, media.value, from, actions, At(), lastMsn);
        }
      } else {
        PacedNothing(server, highest);
      }
    }

    /** A failed request that may be retried is issued again, unchanged, in a new epoch; nothing else is asked for. */
    method OnRequestFailed(uri: Uri, retryable: bool, failed: nat, ghost server: Server) returns (actions: seq<Action>)
      requires Valid() && !stopped
      modifies this`epoch, this`inflight, this`retryCounts, this`stopped
      ensures Valid() && old(epoch) <= epoch <= old(epoch) + 1
      ensures failed !in old(inflight) ==> actions == [] && unchanged(this)
      ensures failed in old(inflight) ==>
                var count := if uri in old(retryCounts) then old(retryCounts)[uri] else 0;
                if !retryable then
                  stopped && retryCounts == old(retryCounts) && actions == [Action(0, ReportError(NonRetryable(uri)))]
                else if count >= config.maxRetryCount then
                  stopped && retryCounts == old(retryCounts)
                  && actions == [Action(0, ReportError(RetriesExhausted(uri)))]
                else
                  && !stopped && epoch == Sat(old(epoch) + 1) && actions == [Action(epoch, old(inflight)[failed])]
                  && inflight == (old(inflight) - {failed})[epoch := old(inflight)[failed]]
                  && retryCounts == old(retryCounts)[uri := count + 1]
      ensures old(Walking(server)) && old(epoch) < U64_MAX ==> Walking(server)
    {
      hide WalkOk, Server.Ok, InOrder, Tracked;
      if failed !in inflight {
        return [];
      }
      var kind := inflight[failed];
      InOrderRetry(inflight, epoch, failed);
      if !retryable {
        actions := StopWithError(NonRetryable(uri));
        return;
      }
      var count := if uri in retryCounts then retryCounts[uri] else 0;
      if count >= config.maxRetryCount {
        actions := StopWithError(RetriesExhausted(uri));
        return;
      }
      if Walking(server) && epoch < U64_MAX {
        if media.Some? {
          WalkRequests(server, media.value, At(), lastMsn, {failed}, kind);
        }
        TrackedRetry(inflight, server, highest, failed, epoch + 1);
      }
      inflight := inflight - {failed};
      retryCounts := retryCounts[uri := count + 1];
      actions := RequestEpoch(kind);
    }

    /** A live playlist is reloaded when the interval has passed and no reload is under way. */
    method OnTick(nowMs: nat, ghost server: Server) returns (actions: seq<Action>)
      requires Valid() && !stopped
      modifies this`epoch, this`inflight, this`lastReloadMs
      ensures Valid() && old(epoch) <= epoch <= old(epoch) + 1
      ensures actions == [] ==> unchanged(this)
      ensures actions != [] <==>
                && media.Some? && !media.value.vod
                && (forall e | e in old(inflight) :: old(inflight)[e].LoadPlaylist? ==> old(inflight)[e].isMaster)
                && (old(lastReloadMs).None? ||
                    nowMs >= Sat(old(lastReloadMs).value +
                                 if media.value.partTargetMs.Some? then media.value.partTargetMs.value
                                 else config.reloadIntervalMs))
      ensures actions != [] ==>
                && actions ==
                [Action(epoch, LoadPlaylist(mediaUrl.value, false, config.blockReload && media.value.canBlockReload))]
                && epoch == Sat(old(epoch) + 1) && inflight == old(inflight)[epoch := actions[0].kind]
                && lastReloadMs == Some(nowMs)
      ensures old(Walking(server)) && old(epoch) < U64_MAX ==> Walking(server)
    {
      hide WalkOk, Server.Ok, Tracked;
      if media.None? || media.value.vod {
        return [];
      }
      if exists e | e in inflight :: inflight[e].LoadPlaylist? && !inflight[e].isMaster {
        return [];
      }
      var target := media.value.partTargetMs;
      var interval := if target.Some? then target.value else config.reloadIntervalMs;
      if !(lastReloadMs.None? || nowMs >= Sat(lastReloadMs.value + interval)) {
        return [];
      }
      var kind := LoadPlaylist(mediaUrl.value, false, config.blockReload && media.value.canBlockReload);
      if Walking(server) && epoch < U64_MAX {
        assert inflight - {} == inflight;
        WalkRequests(server, media.value, At(), lastMsn, {}, kind);
      }
      lastReloadMs := Some(nowMs);
      actions := RequestEpoch(kind);
    }

    /** A jump cancels what is in flight and forgets what was completed. */
    method Jump(target: nat) returns (cancels: seq<Action>)
      requires InOrder(inflight, epoch)
      modifies this`epoch, this`inflight, this`nextSegmentIndex, this`nextPartIndex, this`lastMsn, this`lastPartMsn,
               this`lastPartIndex, this`retryCounts
      ensures InOrder(inflight, epoch) && epoch == Sat(old(epoch) + 1) >= old(epoch)
      ensures (old(epoch) < U64_MAX ==> inflight == map[]) && Cancels(cancels, old(inflight), epoch)
      ensures nextSegmentIndex == target && nextPartIndex == 0
      ensures lastMsn == None && lastPartMsn == None && lastPartIndex == None && retryCounts == map[]
    {
      hide Cancels, InOrder;
      cancels := BumpEpoch();
      nextSegmentIndex, nextPartIndex := target, 0;
      lastMsn, lastPartMsn, lastPartIndex := None, None, None;
    }

    method OnSeek(target: Option<nat>) returns (actions: seq<Action>)
      requires Valid() && !stopped
      modifies this
      ensures Valid() && media == old(media) && mediaUrl == old(mediaUrl) && old(epoch) <= epoch <= old(epoch) + 2
      ensures retryCounts == if stopped then old(retryCounts) else map[]
      ensures stopped <==> media.None? || !media.value.vod || target.None?
      ensures stopped ==>
                actions == [Action(0, ReportError(if media.None? then SeekBeforePlaylist
                                                  else if !media.value.vod then SeekLive else SeekOutOfRange))]
      ensures !stopped ==>
                && lastMsn == None && lastPartMsn == None && lastPartIndex == None
                && (old(epoch) < U64_MAX ==>
                      exists i | 0 <= i <= |actions| ::
                        && Cancels(actions[..i], old(inflight), old(epoch) + 1)
                        && Scheduled(media.value.segments,
                                     Position(old(epoch) + 1, map[], target.value, 0, old(highest)), actions[i..],
                                     At()))
    {
      hide Scheduled, Cancels, InOrder;
      if media.None? {
        actions := StopWithError(SeekBeforePlaylist);
        return;
      }
      if !media.value.vod {
        actions := StopWithError(SeekLive);
        return;
      }
      if target.None? {
        actions := StopWithError(SeekOutOfRange);
        return;
      }
      var cancels := Jump(target.value);
      ghost var from := At();
      var requests := ScheduleDownloads();
      ScheduledKeeps(media.value.segments, from, requests, At());
      actions := cancels + requests;
      assert actions[..|cancels|] == cancels && actions[|cancels|..] == requests;
    }

    /**
     * Any event. On a live walk a new segment is asked for only when a playlist or a resource has been loaded, and then
     * exactly the next number, if the window has it.
     */
    method HandleEvent(event: Event, ghost server: Server) returns (actions: seq<Action>)
      requires Valid()
      modifies this
      ensures Valid()
      ensures old(stopped) ==> actions == [] && stopped && unchanged(this)
      ensures event.Stop? ==> stopped && actions == []
      ensures old(epoch) <= epoch <= old(epoch) + 2
      ensures old(Walking(server)) && old(EventOk(server, media, event)) && old(epoch) + 2 <= U64_MAX ==>
                && Walking(server)
                && (!stopped ==> media == MediaAfter(old(media), event))
                && (!old(stopped) && !event.RequestFailed? ==>
                      Paced(server, Wanted(old(media), old(highest), event), old(highest), stopped, actions, highest))
                && (event.RequestFailed? ==> highest == old(highest))
                && (stopped && !old(stopped) ==> MayStop(config, old(retryCounts), event))
      ensures Halts(event) ==> stopped
      ensures CountsBy(old(retryCounts), event, retryCounts)
    {
      hide WalkOk, Server.Ok, InOrder, Tracked, Scheduled, Due, Cancels;
      if stopped {
        return [];
      }
      match event {
        case PlaylistLoaded(url, playlist) => actions := OnPlaylistLoaded(url, playlist, server);
        case ResourceLoaded(uri, completed) => actions := OnResourceLoaded(uri, completed, server);
        case RequestFailed(uri, retryable, failed) => actions := OnRequestFailed(uri, retryable, failed, server);
        case Tick(nowMs) => actions := OnTick(nowMs, server);
        case Seek(target) => actions := OnSeek(target);
        case Stop =>
          InOrderNone(inflight, epoch);
          stopped := true;
          inflight := map[];
          actions := [];
      }
    }

    /** A turn of a live session, in numbers. */
    method Step(event: Event, ghost server: Server) returns (actions: seq<Action>)
      requires Valid() && Walking(server) && (!stopped ==> EventOk(server, media, event)) && epoch + 2 <= U64_MAX
      modifies this
      ensures Valid() && Walking(server) && epoch <= old(epoch) + 2
      ensures old(stopped) ==> stopped && actions == []
      ensures Halts(event) ==> stopped
      ensures CountsBy(old(retryCounts), event, retryCounts)
      ensures !stopped ==> media == MediaAfter(old(media), event)
      ensures event.RequestFailed? ==> highest == old(highest)
      ensures stopped && !old(stopped) ==> MayStop(config, old(retryCounts), event)
      ensures !old(stopped) && !event.RequestFailed? ==>
                var asked := if stopped then None else Wanted(old(media), old(highest), event);
                && Numbers(server, actions) == (if asked.Some? then [asked.value] else [])
                && highest == if asked.Some? then asked.value else old(highest)
    {
      hide WalkOk, InOrder, Tracked, Due, Asks, Wanted, EventOk, CountsBy, MayStop, Halts;
      assert server.Ok();
      ghost var wanted := Wanted(media, highest, event);
      if stopped {
        actions := HandleEvent(event, server);
      } else {
        actions := HandleEvent(event, server);
        if !event.RequestFailed? {
          AsksNumbers(server, actions, if stopped then None else wanted);
        }
      }
    }
  }

  lemma WithoutKeeps(inflight: Inflight, url: Uri, isMaster: bool, epoch: nat)
    requires InOrder(inflight, epoch)
    ensures InOrder(WithoutPlaylist(inflight, url, isMaster), epoch)
  {
  }

  lemma OnlyCancels(actions: seq<Action>, inflight: Inflight, below: nat)
    requires Cancels(actions, inflight, below)
    ensures forall i | 0 <= i < |actions| :: actions[i].kind.CancelEpoch?
  {
  }

  lemma ScheduledKeeps(segments: seq<Segment>, was: Position, actions: seq<Action>, now: Position)
    requires Scheduled(segments, was, actions, now)
    requires InOrder(was.inflight, was.epoch)
    ensures InOrder(now.inflight, now.epoch) && was.epoch <= now.epoch <= was.epoch + 1
    ensures now.highest >= was.highest || now.highest >= 0
  {
  }

  lemma InOrderLess(inflight: Inflight, epoch: nat, e: nat)
    requires InOrder(inflight, epoch)
    ensures InOrder(inflight - {e}, epoch)
  {
  }

  lemma TrackedLess(inflight: Inflight, server: Server, highest: int, e: nat)
    ensures Tracked(inflight, server, highest) ==> Tracked(inflight - {e}, server, highest)
  {
  }

  lemma PacedNothing(server: Server, highest: int)
    ensures Paced(server, None, highest, false, [], highest)
  {
  }

  lemma InOrderRetry(inflight: Inflight, epoch: nat, e: nat)
    requires InOrder(inflight, epoch) && e in inflight
    ensures InOrder((inflight - {e})[Sat(epoch + 1) := inflight[e]], Sat(epoch + 1)) && epoch <= Sat(epoch + 1)
  {
  }

  lemma TrackedRetry(inflight: Inflight, server: Server, highest: int, e: nat, epoch: nat)
    requires e in inflight
    ensures Tracked(inflight, server, highest) ==> Tracked((inflight - {e})[epoch := inflight[e]], server, highest)
  {
  }

  lemma InOrderNone(inflight: Inflight, epoch: nat)
    requires InOrder(inflight, epoch)
    ensures InOrder(map[], epoch)
  {
  }

  // ---- Whole live sessions ----

  ghost predicate RunOk(server: Server, media: Option<MediaPlaylist>, events: seq<Event>)
    decreases |events|
  {
    events != [] ==> EventOk(server, media, events[0]) && RunOk(server, MediaAfter(media, events[0]), events[1..])
  }

  /** The playlist and the highest number asked for. */
  datatype Progress = Progress(media: Option<MediaPlaylist>, highest: int)

  function ProgressAfter(media: Option<MediaPlaylist>, highest: int, events: seq<Event>): (p: Progress)
    requires highest >= -1
    ensures p.highest >= -1
    decreases |events|
  {
    if events == [] then Progress(media, highest)
    else
      var n := |events| - 1;
      var p := ProgressAfter(media, highest, events[..n]);
      var wanted := Wanted(p.media, p.highest, events[n]);
      Progress(MediaAfter(p.media, events[n]), if wanted.Some? then wanted.value else p.highest)
  }

  /**
   * The numbers a session asks for: those its playlists and completions call for, whatever completes first or is
   * retried.
   */
  function Pace(media: Option<MediaPlaylist>, highest: int, events: seq<Event>): seq<nat>
    requires highest >= -1
    decreases |events|
  {
    if events == [] then []
    else
      var n := |events| - 1;
      var p := ProgressAfter(media, highest, events[..n]);
      var wanted := Wanted(p.media, p.highest, events[n]);
      Pace(media, highest, events[..n]) + if wanted.Some? then [wanted.value] else []
  }

  ghost predicate Rising(numbers: seq<nat>)
  {
    forall i, j | 0 <= i < j < |numbers| :: numbers[i] < numbers[j]
  }

  lemma {:induction false} PaceRises(media: Option<MediaPlaylist>, highest: int, events: seq<Event>)
    requires highest >= -1
    ensures Rising(Pace(media, highest, events)) && ProgressAfter(media, highest, events).highest >= highest
    ensures forall i | 0 <= i < |Pace(media, highest, events)| ::
              highest < Pace(media, highest, events)[i] <= ProgressAfter(media, highest, events).highest
    decreases |events|
  {
    if events != [] {
      hide MediaAfter;
      PaceRises(media, highest, events[..|events| - 1]);
    }
  }

  lemma {:induction false} PacePrefix(media: Option<MediaPlaylist>, highest: int, events: seq<Event>, k: nat)
    requires highest >= -1 && k <= |events|
    ensures Pace(media, highest, events[..k]) <= Pace(media, highest, events)
    decreases |events|
  {
    hide MediaAfter, Wanted;
    if k == |events| {
      assert events[..k] == events;
    } else {
      var n := |events| - 1;
      assert events[..n][..k] == events[..k];
      PacePrefix(media, highest, events[..n], k);
    }
  }

  lemma PaceSnoc(media: Option<MediaPlaylist>, highest: int, events: seq<Event>, i: nat)
    requires highest >= -1 && i < |events|
    ensures var p := ProgressAfter(media, highest, events[..i]);
            var wanted := Wanted(p.media, p.highest, events[i]);
            && (events[i].RequestFailed? ==> wanted.None?)
            && Pace(media, highest, events[..i + 1]) ==
               Pace(media, highest, events[..i]) + (if wanted.Some? then [wanted.value] else [])
            && ProgressAfter(media, highest, events[..i + 1]) ==
               Progress(MediaAfter(p.media, events[i]), if wanted.Some? then wanted.value else p.highest)
  {
    hide MediaAfter;
    assert events[..i + 1][..i] == events[..i] && events[..i + 1][i] == events[i];
  }

  // ---- What stops a session ----

  /** A stop or an unusable playlist. */
  predicate Halts(event: Event)
  {
    event.Stop? || (event.PlaylistLoaded? && event.playlist.Unusable?)
  }

  function CountOf(counts: map<Uri, nat>, uri: Uri): nat
  {
    if uri in counts then counts[uri] else 0
  }

  predicate Retried(event: Event, uri: Uri)
  {
    event.RequestFailed? && event.retryable && event.uri == uri
  }

  /** The retryable failures reported for a resource. */
  function Failures(events: seq<Event>, uri: Uri): nat
    decreases |events|
  {
    if events == [] then 0
    else Failures(events[..|events| - 1], uri) + if Retried(events[|events| - 1], uri) then 1 else 0
  }

  /** An event raises no count but that of the resource whose request failed, and that by one. */
  ghost predicate CountsBy(before: map<Uri, nat>, event: Event, after: map<Uri, nat>)
  {
    forall uri | uri in after :: after[uri] <= CountOf(before, uri) + if Retried(event, uri) then 1 else 0
  }

  ghost predicate Counted(counts: map<Uri, nat>, events: seq<Event>)
  {
    forall uri | uri in counts :: counts[uri] <= Failures(events, uri)
  }

  lemma CountedNext(before: map<Uri, nat>, events: seq<Event>, i: nat, after: map<Uri, nat>)
    requires i < |events| && Counted(before, events[..i]) && CountsBy(before, events[i], after)
    ensures Counted(after, events[..i + 1])
  {
    assert events[..i + 1][..i] == events[..i];
  }

  /**
   * Event `k` may stop a session: a stop, an unusable playlist, a failure that is not retryable, or one of a resource
   * for which as many retryable failures have been reported before as there may be retries.
   */
  predicate StopsAt(config: Config, events: seq<Event>, k: nat)
    requires k < |events|
  {
    Halts(events[k]) ||
    (events[k].RequestFailed? && (!events[k].retryable || Failures(events[..k], events[k].uri) >= config.maxRetryCount))
  }

  lemma StopsNow(config: Config, events: seq<Event>, k: nat, counts: map<Uri, nat>)
    requires k < |events| && Counted(counts, events[..k]) && MayStop(config, counts, events[k])
    ensures StopsAt(config, events, k)
  {
  }

  /** The numbers of the segments a turn asks for. */
  function Numbers(server: Server, actions: seq<Action>): seq<nat>
  {
    if actions == [] then []
    else
      var kind := actions[0].kind;
      (if kind.LoadSegment? && server.number(kind.uri).Some? then [server.number(kind.uri).value] else [])
      + Numbers(server, actions[1..])
  }

  lemma {:induction false} AsksNumbers(server: Server, actions: seq<Action>, number: Option<nat>)
    requires server.Ok() && Asks(server, actions, number)
    ensures Numbers(server, actions) == if number.Some? then [number.value] else []
    decreases |actions|
  {
    if |actions| > 1 {
      assert forall i | 0 <= i < |actions| - 1 :: actions[1..][i] == actions[i + 1];
      assert Asks(server, actions[1..], number);
      AsksNumbers(server, actions[1..], number);
    } else if number.Some? {
      assert server.number(server.names(number.value)) == number;
    }
  }

  /** The numbers newly asked for over a session: those in the answers to anything but a failure. */
  function NewNumbers(server: Server, events: seq<Event>, trace: seq<seq<Action>>): seq<nat>
    requires |trace| <= |events|
    decreases |trace|
  {
    if trace == [] then []
    else
      var i := |trace| - 1;
      NewNumbers(server, events, trace[..i]) + Answered(server, events[i], trace[i])
  }

  function Answered(server: Server, event: Event, actions: seq<Action>): seq<nat>
  {
    if event.RequestFailed? then [] else Numbers(server, actions)
  }

  lemma RunStep(server: Server, media: Option<MediaPlaylist>, events: seq<Event>, i: nat)
    requires i < |events| && RunOk(server, media, events[i..])
    ensures EventOk(server, media, events[i]) && RunOk(server, MediaAfter(media, events[i]), events[i + 1..])
  {
    assert events[i..][0] == events[i] && events[i..][1..] == events[i + 1..];
  }

  lemma TrackedFirst(server: Server, epoch: nat)
    requires server.Ok()
    ensures Tracked(map[epoch := LoadPlaylist(server.master, true, false)], server, -1)
  {
  }

  /**
   * A whole live session: the segments newly asked for are those the session's pace calls for, in order, up to the
   * event that stopped the client, behind which it asks for nothing; their numbers rise strictly, so only a retry
   * asks for a segment again. A stop or an unusable playlist always stops it, and a retryable failure only when it
   * has used up its retries.
   */
  method WalkLive(masterUrl: Uri, config: Config, server: Server, events: seq<Event>)
    returns (trace: seq<seq<Action>>, stopped: bool)
    requires server.Ok() && server.master == masterUrl && RunOk(server, None, events)
    requires 2 * |events| < U64_MAX
    ensures |trace| == |events|
    ensures NewNumbers(server, events, trace) <= Pace(None, -1, events)
    ensures !stopped ==>
              && NewNumbers(server, events, trace) == Pace(None, -1, events)
              && forall k | 0 <= k < |events| ::
                   !Halts(events[k])
    ensures stopped ==> exists k | 0 <= k < |events| :: StopsAt(config, events, k) && EndsAt(server, events, trace, k)
    ensures Rising(NewNumbers(server, events, trace))
  {
    hide Server.Ok, EventOk, Wanted, Asks, WalkOk, Tracked, RunOk, Pace, ProgressAfter, Numbers, MediaAfter, InOrder,
         MayStop, StopsAt, Halts, Counted, CountsBy;
    var client := new HlsClient(masterUrl, config);
    var start := client.Start();
    TrackedFirst(server, client.epoch);
    trace := [];
    var i := 0;
    ghost var at: nat := 0;
    PaceBegins(events, client.retryCounts);
    assert events[0..] == events;
    while i < |events|
      invariant i <= |events| && |trace| == i && client.Valid() && client.Walking(server) && client.config == config
      invariant client.epoch <= 2 * i + 1
      invariant client.stopped ==> at < i && StopsAt(config, events, at) && EndsAt(server, events, trace, at)
      invariant !client.stopped ==> RunOk(server, client.media, events[i..]) && Counted(client.retryCounts, events[..i])
      invariant !client.stopped ==> ProgressAfter(None, -1, events[..i]) == Progress(client.media, client.highest)
      invariant !client.stopped ==> NewNumbers(server, events, trace) == Pace(None, -1, events[..i])
      invariant !client.stopped ==> forall j | 0 <= j < i :: !Halts(events[j])
    {
      ghost var counts, was := client.retryCounts, client.stopped;
      if !was {
        RunStep(server, client.media, events, i);
        PaceSnoc(None, -1, events, i);
      }
      var actions := client.Step(events[i], server);
      NewNumbersSnoc(server, events, trace, actions);
      if !client.stopped {
        CountedNext(counts, events, i, client.retryCounts);
      } else if !was {
        at := i;
        StopsNow(config, events, i, counts);
      }
      ghost var before := trace;
      trace := trace + [actions];
      if was {
        EndedStays(server, events, before, at);
      }
      i := i + 1;
    }
    stopped := client.stopped;
    assert events[..i] == events;
    PaceRises(None, -1, events);
    if stopped {
      PacePrefix(None, -1, events, at);
    }
  }

  /** The session asks for what the events before `k` call for, and for nothing at all behind `k`. */
  ghost predicate EndsAt(server: Server, events: seq<Event>, trace: seq<seq<Action>>, k: nat)
    requires k < |trace| <= |events|
  {
    && NewNumbers(server, events, trace) == Pace(None, -1, events[..k])
    && (forall j | 0 <= j < k :: !Halts(events[j]))
    && forall j | k < j < |trace| :: trace[j] == []
  }

  lemma EndedStays(server: Server, events: seq<Event>, trace: seq<seq<Action>>, k: nat)
    requires k < |trace| < |events| && EndsAt(server, events, trace, k)
    ensures EndsAt(server, events, trace + [[]], k)
  {
    hide Pace, Halts;
    NewNumbersSnoc(server, events, trace, []);
  }

  lemma PaceBegins(events: seq<Event>, counts: map<Uri, nat>)
    ensures Pace(None, -1, events[..0]) == [] && ProgressAfter(None, -1, events[..0]) == Progress(None, -1)
    ensures counts == map[] ==> Counted(counts, events[..0])
  {
  }

  lemma NewNumbersSnoc(server: Server, events: seq<Event>, trace: seq<seq<Action>>, actions: seq<Action>)
    requires |trace| < |events|
    ensures NewNumbers(server, events, trace + [actions]) ==
            NewNumbers(server, events, trace) + Answered(server, events[|trace|], actions)
  {
    assert (trace + [actions])[..|trace|] == trace;
  }

  // ---- Live reloads ----

  /** What a reload that is asked for and answered leaves: the media playlist, whether one is under way, and when. */
  datatype ReloadState = ReloadState(media: MediaPlaylist, waiting: bool, last: Option<nat>)

  /** The clock ticks, or a media playlist arrives under the URL of the current one. */
  datatype Beat = Clock(nowMs: nat) | Reply(playlist: MediaPlaylist)

  function Interval(media: MediaPlaylist, config: Config): nat
  {
    if media.partTargetMs.Some? then media.partTargetMs.value else config.reloadIntervalMs
  }

  /** A live playlist whose interval has passed. */
  predicate Outdated(s: ReloadState, config: Config, nowMs: nat)
  {
    !s.media.vod && (s.last.None? || nowMs >= Sat(s.last.value + Interval(s.media, config)))
  }

  /** A tick asks for a reload of an outdated playlist; a reply ends the wait unless the URL is the master's `own`. */
  function AfterBeat(own: bool, config: Config, s: ReloadState, beat: Beat): ReloadState
  {
    match beat
    case Clock(nowMs) =>
      if Outdated(s, config, nowMs) && !s.waiting then s.(waiting := true, last := Some(nowMs)) else s
    case Reply(p) => s.(media := p, waiting := s.waiting && own)
  }

  function AfterBeats(own: bool, config: Config, first: MediaPlaylist, beats: seq<Beat>): ReloadState
    decreases |beats|
  {
    if beats == [] then ReloadState(first, false, None)
    else AfterBeat(own, config, AfterBeats(own, config, first, beats[..|beats| - 1]), beats[|beats| - 1])
  }

  /** The beat asks for a reload. */
  predicate Asked(own: bool, config: Config, first: MediaPlaylist, beats: seq<Beat>, i: nat)
    requires i < |beats|
  {
    var s := AfterBeats(own, config, first, beats[..i]);
    beats[i].Clock? && Outdated(s, config, beats[i].nowMs) && !s.waiting
  }

  lemma BeatSnoc(own: bool, config: Config, first: MediaPlaylist, beats: seq<Beat>, i: nat)
    requires i < |beats|
    ensures AfterBeats(own, config, first, beats[..i + 1]) ==
            AfterBeat(own, config, AfterBeats(own, config, first, beats[..i]), beats[i])
  {
    assert beats[..i + 1][..i] == beats[..i];
  }

  /** No reload is asked for from beat `from` up to beat `to`. */
  predicate Quiet(own: bool, config: Config, first: MediaPlaylist, beats: seq<Beat>, from: nat, to: nat)
    requires to <= |beats|
  {
    forall k | from <= k < to :: !Asked(own, config, first, beats, k)
  }

  /** A reload is under way exactly when one has been asked for that no reply has ended. */
  lemma {:induction false} WaitingExactly(own: bool, config: Config, first: MediaPlaylist, beats: seq<Beat>, n: nat)
    requires n <= |beats|
    ensures AfterBeats(own, config, first, beats[..n]).waiting <==>
            exists i | 0 <= i < n ::
              Asked(own, config, first, beats, i) && (own || forall k | i < k < n :: beats[k].Clock?)
    decreases n
  {
    hide Outdated;
    if n > 0 {
      WaitingExactly(own, config, first, beats, n - 1);
      BeatSnoc(own, config, first, beats, n - 1);
      if AfterBeats(own, config, first, beats[..n]).waiting && !Asked(own, config, first, beats, n - 1) {
        var i :| 0 <= i < n - 1 && Asked(own, config, first, beats, i) &&
                 (own || forall k | i < k < n - 1 :: beats[k].Clock?);
        assert own || forall k | i < k < n :: beats[k].Clock?;
      }
    }
  }

  /**
   * A client whose master URL is the media playlist's reloads it at most once, whatever the clock and the server do.
   */
  lemma DirectReloads(config: Config, first: MediaPlaylist, beats: seq<Beat>, i: nat, j: nat)
    requires i < j < |beats| && Asked(true, config, first, beats, i)
    ensures !Asked(true, config, first, beats, j)
  {
    hide Outdated;
    WaitingExactly(true, config, first, beats, j);
  }

  /** Any other client asks again at the first tick past the interval, once a reply has come and if it is still live. */
  lemma RepliesFreeReloads(config: Config, first: MediaPlaylist, beats: seq<Beat>, i: nat, j: nat)
    requires i < j < |beats| && beats[i].Reply? && beats[j].Clock? && Quiet(false, config, first, beats, i, j)
    ensures Asked(false, config, first, beats, j) <==>
            Outdated(AfterBeats(false, config, first, beats[..j]), config, beats[j].nowMs)
  {
    hide Outdated;
    WaitingExactly(false, config, first, beats, j);
  }

  /** Up to saturation of the epochs: the playlist requests in flight after a scheduling turn are those before. */
  lemma ScheduledPlaylists(segments: seq<Segment>, was: Position, actions: seq<Action>, now: Position)
    requires Scheduled(segments, was, actions, now)
    requires was.inflight == map[] || (InOrder(was.inflight, was.epoch) && was.epoch < U64_MAX)
    ensures Playlists(now.inflight) == Playlists(was.inflight)
  {
    hide Exhausted, PartsDone, Eligible, IsInflight;
  }

  /** A client in a live session, as far as its reloads are concerned. */
  ghost predicate InSession(client: HlsClient, url: Uri, s: ReloadState)
    reads client
  {
    && client.Valid() && !client.stopped && client.mediaUrl == Some(url) && client.media == Some(s.media)
    && client.lastReloadMs == s.last && (Reloading(client.inflight) <==> s.waiting)
    && OwnReloads(client.inflight, url)
  }

  /** Every reload in flight is for the URL. */
  predicate OwnReloads(inflight: Inflight, url: Uri)
  {
    forall e | e in inflight && Reloads(inflight[e]) :: inflight[e].url == url
  }

  lemma OnlyPlaylists(inflight: Inflight, url: Uri, left: Inflight, own: bool)
    requires Playlists(inflight) == Playlists(WithoutPlaylist(left, url, own))
    requires OwnReloads(left, url)
    ensures OwnReloads(inflight, url) && (Reloading(inflight) <==> Reloading(left) && own)
  {
    forall e | e in inflight && Reloads(inflight[e])
      ensures inflight[e].url == url && e in left && left[e] == inflight[e] && own
    {
      assert e in Playlists(inflight);
    }
    if Reloading(left) && own {
      var e :| e in left && Reloads(left[e]);
      assert e in Playlists(WithoutPlaylist(left, url, own));
      assert e in Playlists(inflight) && inflight[e] == left[e];
    }
  }

  lemma NoPlaylists(inflight: Inflight)
    requires Playlists(inflight) == map[]
    ensures !Reloading(inflight)
  {
    assert forall e | e in inflight && Reloads(inflight[e]) :: e in Playlists(inflight);
  }

  lemma NoReloads(inflight: Inflight, url: Uri)
    requires !Reloading(inflight)
    ensures OwnReloads(inflight, url)
  {
  }

  lemma RequestAdded(before: Inflight, e: nat, kind: Kind, url: Uri)
    requires kind.LoadPlaylist? && !kind.isMaster && kind.url == url && OwnReloads(before, url)
    ensures Reloading(before[e := kind]) && OwnReloads(before[e := kind], url)
  {
    assert e in before[e := kind] && Reloads(before[e := kind][e]);
  }

  /** One beat: a tick may ask for a reload, a reply is loaded as the media playlist. */
  method OnBeat(client: HlsClient, url: Uri, beat: Beat, ghost server: Server, ghost s: ReloadState)
    returns (asked: bool)
    requires InSession(client, url, s) && client.epoch < U64_MAX
    modifies client
    ensures InSession(client, url, AfterBeat(client.masterUrl == url, client.config, s, beat))
    ensures asked <==> beat.Clock? && Outdated(s, client.config, beat.nowMs) && !s.waiting
    ensures client.epoch <= old(client.epoch) + 2
  {
    hide EventOk, Wanted, Paced, WithoutPlaylist, Playlists, InOrder, WalkOk;
    ghost var inflight := client.inflight;
    match beat {
      case Clock(nowMs) =>
        var actions := client.OnTick(nowMs, server);
        asked := actions != [];
        if asked {
          RequestAdded(inflight, client.epoch, actions[0].kind, url);
        }
      case Reply(p) =>
        var _ := client.OnPlaylistLoaded(url, Media(p), server);
        OnlyPlaylists(client.inflight, url, inflight, client.masterUrl == url);
        asked := false;
    }
  }

  method BeginSession(masterUrl: Uri, url: Uri, config: Config, first: MediaPlaylist, ghost server: Server)
    returns (client: HlsClient)
    ensures fresh(client) && client.masterUrl == masterUrl && client.config == config && client.epoch <= 5
    ensures InSession(client, url, ReloadState(first, false, None))
  {
    hide EventOk, Wanted, Paced, WithoutPlaylist, Playlists, WalkOk, InOrder;
    client := new HlsClient(masterUrl, config);
    var _ := client.Start();
    if masterUrl != url {
      var _ := client.OnPlaylistLoaded(masterUrl, Master(url), server);
    }
    var _ := client.OnPlaylistLoaded(url, Media(first), server);
    NoPlaylists(client.inflight);
    NoReloads(client.inflight, url);
  }

  /**
   * A whole live session: the client is given its media playlist, straight away if the URL is its own and behind a
   * master playlist otherwise; it then asks for reloads at exactly the beats that are due.
   */
  method FollowReloads(masterUrl: Uri, url: Uri, config: Config, first: MediaPlaylist, beats: seq<Beat>)
    returns (asked: seq<bool>)
    requires 2 * |beats| + 6 < U64_MAX
    ensures |asked| == |beats|
    ensures forall i | 0 <= i < |beats| :: asked[i] <==> Asked(masterUrl == url, config, first, beats, i)
  {
    hide Outdated, InSession;
    ghost var nobody := Server(url, url, _ => url, _ => None);
    var client := BeginSession(masterUrl, url, config, first, nobody);
    asked := [];
    assert beats[..0] == [];
    for i := 0 to |beats|
      invariant |asked| == i && forall k | 0 <= k < i :: asked[k] <==> Asked(masterUrl == url, config, first, beats, k)
      invariant client.masterUrl == masterUrl && client.config == config && client.epoch <= 2 * i + 5
      invariant InSession(client, url, AfterBeats(masterUrl == url, config, first, beats[..i]))
    {
      ghost var s := AfterBeats(masterUrl == url, config, first, beats[..i]);
      BeatSnoc(masterUrl == url, config, first, beats, i);
      var now := OnBeat(client, url, beats[i], nobody, s);
      asked := asked + [now];
    }
  }
}

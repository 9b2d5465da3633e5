/** The FLV muxer: packets pass a bounded reorder queue and are written as tags. */
module FlvMuxer {
  import opened Bytes
  import opened FlvPatch
  import opened FlvReorder
  import opened FlvTag

  datatype TrackKind = AudioTrack | VideoTrack | DataTrack

  /** What the codec layer knows about a track or a packet is opaque. */
  datatype Track<T> = Track(kind: TrackKind, info: T)

  datatype Packet<T, P> = Packet(track: Track<T>, dts: Option<int>, pts: Option<int>, content: P)

  /** The codec layer: configuration bodies, if the codec has one, and packet bodies with a composition time. */
  datatype Builder<!T, !P> = Builder(config: T -> Result<Option<bytes>, FlvError>,
                                     body: (Packet<T, P>, int) -> Result<bytes, FlvError>)

  function KeyOf<T, P>(p: Packet<T, P>): Key
  {
    if p.dts.Some? then p.dts else p.pts
  }

  function Keys<T, P>(packets: seq<Packet<T, P>>): (k: seq<Key>)
    ensures |k| == |packets| && forall i | 0 <= i < |k| :: k[i] == KeyOf(packets[i])
  {
    seq(|packets|, i requires 0 <= i < |packets| => KeyOf(packets[i]))
  }

  /** 64-bit saturating subtraction. */
  function SatSub(a: int, b: int): int
  {
    if a - b > I64_MAX then I64_MAX else if a - b < -I64_MAX - 1 then -I64_MAX - 1 else a - b
  }

  function Timestamp(dts: int): Result<u32, FlvError>
  {
    if dts < 0 then Err(InvalidTimestamp) else Ok(dts % (U32_MAX + 1))
  }

  function Sized(t: TagType, timestamp: u32, body: bytes): Result<Option<Tag>, FlvError>
  {
    if |body| > MAX_BODY then Err(LimitExceeded) else Ok(Some(Tag(t, timestamp, body)))
  }

  /** The tag a packet becomes; data packets become none. */
  function TagOf<T, P>(builder: Builder<T, P>, p: Packet<T, P>): (r: Result<Option<Tag>, FlvError>)
    ensures r.Ok? && r.value.Some? ==> r.value.value.Fits()
  {
    var dts := if KeyOf(p).Some? then KeyOf(p).value else 0;
    var pts := if p.pts.Some? then p.pts.value else dts;
    match p.track.kind
    case DataTrack => Ok(None)
    case AudioTrack =>
      var body := builder.body(p, 0);
      if body.Err? then Err(body.error)
      else
        var timestamp := Timestamp(dts);
        if timestamp.Err? then Err(timestamp.error) else Sized(Audio, timestamp.value, body.value)
    case VideoTrack =>
      var cts := SatSub(pts, dts);
      if !(-I32_MAX - 1 <= cts <= I32_MAX) then Err(InvalidTimestamp)
      else
        var timestamp := Timestamp(dts);
        if timestamp.Err? then Err(timestamp.error)
        else
          var body := builder.body(p, cts);
          if body.Err? then Err(body.error) else Sized(Video, timestamp.value, body.value)
  }

  /** The track's configuration can be written. */
  predicate ConfigOk<T, P>(builder: Builder<T, P>, track: Track<T>)
  {
    track.kind.DataTrack? ||
    (builder.config(track.info).Ok? &&
     (builder.config(track.info).value.Some? ==> |builder.config(track.info).value.value| <= MAX_BODY))
  }

  /** Unless its kind has been announced, the track can be. */
  predicate Announceable<T, P>(builder: Builder<T, P>, announced: Option<Track<T>>, track: Option<Track<T>>)
  {
    announced.None? && track.Some? ==> ConfigOk(builder, track.value)
  }

  /** The track announced for a kind once a track has come: the first of the kind whose configuration can be written. */
  function AnnouncedBy<T, P>(builder: Builder<T, P>, before: Option<Track<T>>, kind: TrackKind,
                             track: Track<T>): Option<Track<T>>
  {
    if before.None? && track.kind == kind && ConfigOk(builder, track) then Some(track) else before
  }

  predicate AllTagged<T, P>(builder: Builder<T, P>, packets: seq<Packet<T, P>>)
  {
    forall i | 0 <= i < |packets| :: TagOf(builder, packets[i]).Ok?
  }

  // ---- What has been written ----

  datatype Entry = Config(tag: Tag) | Media(tag: Tag)

  function TagsOf(log: seq<Entry>): (tags: seq<Tag>)
    ensures |tags| == |log|
  {
    seq(|log|, i requires 0 <= i < |log| => log[i].tag)
  }

  function MediaOf(log: seq<Entry>): seq<Tag>
    decreases |log|
  {
    if log == [] then []
    else
      var last := log[|log| - 1];
      MediaOf(log[..|log| - 1]) + if last.Media? then [last.tag] else []
  }

  function AsTags(r: Result<Option<Tag>, FlvError>): seq<Tag>
  {
    if r.Ok? && r.value.Some? then [r.value.value] else []
  }

  /** The tags of the packets in the order they were written. */
  function Written<T, P>(builder: Builder<T, P>, pushed: seq<Packet<T, P>>, order: seq<nat>): seq<Tag>
    requires Below(|pushed|, order)
    decreases |order|
  {
    if order == [] then []
    else
      var n := |order| - 1;
      Written(builder, pushed, order[..n]) + AsTags(TagOf(builder, pushed[order[n]]))
  }

  lemma {:induction false} WrittenPush<T, P>(builder: Builder<T, P>, pushed: seq<Packet<T, P>>, p: Packet<T, P>,
                                             order: seq<nat>)
    requires Below(|pushed|, order)
    ensures Below(|pushed| + 1, order) && Written(builder, pushed + [p], order) == Written(builder, pushed, order)
    decreases |order|
  {
    if order != [] {
      WrittenPush(builder, pushed, p, order[..|order| - 1]);
    }
  }

  lemma MediaSnoc(log: seq<Entry>, e: Entry)
    ensures MediaOf(log + [e]) == MediaOf(log) + if e.Media? then [e.tag] else []
    ensures TagsOf(log + [e]) == TagsOf(log) + [e.tag]
  {
    assert (log + [e])[..|log|] == log;
  }

  lemma {:induction false} BodySnoc(tags: seq<Tag>, tag: Tag, sized: bool)
    requires AllFit(tags) && tag.Fits()
    ensures AllFit(tags + [tag])
    ensures Body(tags + [tag], sized) == Body(tags, sized) + (TagBytes(tag) + SizeField(sized, 11 + |tag.body|))
    decreases |tags|
  {
    hide TagBytes, SizeField;
    var all := tags + [tag];
    assert forall k | 0 <= k < |tags| :: all[k] == tags[k];
    var size := SizeField(sized, 11 + |tag.body|);
    if tags == [] {
      assert all[1..] == [];
      Assoc(TagBytes(tag), size, []);
      assert TagBytes(tag) + size + [] == TagBytes(tag) + size;
    } else {
      assert forall k | 0 <= k < |tags[1..]| :: tags[1..][k] == tags[k + 1];
      assert all[1..] == tags[1..] + [tag] && all[0] == tags[0];
      BodySnoc(tags[1..], tag, sized);
      var first := TagBytes(tags[0]) ;
      var firstSize := SizeField(sized, 11 + |tags[0].body|);
      Assoc(firstSize, Body(tags[1..], sized), TagBytes(tag) + size);
      Assoc(first, firstSize + Body(tags[1..], sized), TagBytes(tag) + size);
    }
  }

  /** The file with these flags and tags. */
  function PlainFile(flags: byte, fileMode: bool, log: seq<Entry>): bytes
    requires AllFit(TagsOf(log))
  {
    FileBytes(flags, fileMode) + Body(TagsOf(log), fileMode)
  }

  /** The bytes taken and still there are a file with the tags written so far, but for the bytes the strays hit. */
  ghost predicate BytesOk(headerWritten: bool, taken: bytes, output: bytes, log: seq<Entry>, fileMode: bool,
                          flags: byte, hasAudio: bool, hasVideo: bool, strays: seq<Stray>)
  {
    && AllFit(TagsOf(log))
    && (!headerWritten ==> taken == [] && output == [] && log == [])
    && (taken == [] ==> strays == [] && (headerWritten ==> flags == Flags(hasAudio, hasVideo)))
    && (headerWritten ==>
          && Observed(PlainFile(flags, fileMode, log), strays)
          && taken + output == Patched(PlainFile(flags, fileMode, log), strays))
  }

  /** The stray that a track of the kind causes: the flags are put at byte 4 of the output, wherever the header is. */
  function StrayOf(taken: nat, output: bytes, hasAudio: bool, hasVideo: bool, kind: TrackKind): (s: seq<Stray>)
    ensures |s| <= 1
  {
    var nowAudio, nowVideo := hasAudio || kind.AudioTrack?, hasVideo || kind.VideoTrack?;
    if taken == 0 || |output| <= 4 || (nowAudio == hasAudio && nowVideo == hasVideo) then []
    else [Stray(taken + 4, output[4], Flags(nowAudio, nowVideo))]
  }

  lemma BytesEmpty(fileMode: bool)
    ensures BytesOk(false, [], [], [], fileMode, 0, false, false, [])
  {
  }

  lemma WriteTagKeeps(taken: bytes, output: bytes, log: seq<Entry>, fileMode: bool, flags: byte, hasAudio: bool,
                      hasVideo: bool, strays: seq<Stray>, e: Entry)
    requires BytesOk(true, taken, output, log, fileMode, flags, hasAudio, hasVideo, strays) && e.tag.Fits()
    ensures BytesOk(true, taken, output + (TagBytes(e.tag) + SizeField(fileMode, 11 + |e.tag.body|)), log + [e],
                    fileMode, flags, hasAudio, hasVideo, strays)
  {
    hide TagBytes, SizeField, Body, FileBytes, TagsOf, Observed, Patched;
    var more := TagBytes(e.tag) + SizeField(fileMode, 11 + |e.tag.body|);
    MediaSnoc(log, e);
    BodySnoc(TagsOf(log), e.tag, fileMode);
    Assoc(taken, output, more);
    Assoc(FileBytes(flags, fileMode), Body(TagsOf(log), fileMode), more);
    PatchedAppend(PlainFile(flags, fileMode, log), more, strays);
  }

  lemma HeaderKeeps(header: bytes, fileMode: bool, flags: byte, hasAudio: bool, hasVideo: bool)
    requires flags == Flags(hasAudio, hasVideo) && header == FileBytes(flags, fileMode)
    ensures BytesOk(true, [], header, [], fileMode, flags, hasAudio, hasVideo, [])
  {
    hide FileBytes;
    assert [] + header == header && header + [] == header;
  }

  /** Patching the flags where the header still is changes just them. */
  lemma PatchKeeps(output: bytes, log: seq<Entry>, fileMode: bool, flags: byte, hasAudio: bool, hasVideo: bool,
                   nowAudio: bool, nowVideo: bool)
    requires BytesOk(true, [], output, log, fileMode, flags, hasAudio, hasVideo, [])
    ensures |output| > 4
    ensures BytesOk(true, [], output[4 := Flags(nowAudio, nowVideo)], log, fileMode, Flags(nowAudio, nowVideo),
                    nowAudio, nowVideo, [])
  {
    hide Body, TagsOf, Flags;
    var now := Flags(nowAudio, nowVideo);
    var body := Body(TagsOf(log), fileMode);
    assert [] + output == output;
    assert [] + output[4 := now] == output[4 := now];
    assert FileBytes(now, fileMode) == FileBytes(flags, fileMode)[4 := now];
    assert (FileBytes(flags, fileMode) + body)[4 := now] == FileBytes(now, fileMode) + body;
  }

  /** Patching behind a header that has been taken away is a stray. */
  lemma StrayKeeps(taken: bytes, output: bytes, log: seq<Entry>, fileMode: bool, flags: byte, hasAudio: bool,
                   hasVideo: bool, strays: seq<Stray>, now: byte, nowAudio: bool, nowVideo: bool)
    requires BytesOk(true, taken, output, log, fileMode, flags, hasAudio, hasVideo, strays) && taken != []
    requires |output| > 4
    ensures BytesOk(true, taken, output[4 := now], log, fileMode, flags, nowAudio, nowVideo,
                    strays + [Stray(|taken| + 4, output[4], now)])
  {
    hide Body, TagsOf, FileBytes, PlainFile, Patched, Observed;
    var plain := PlainFile(flags, fileMode, log);
    PatchedSnoc(plain, strays, |taken| + 4, now);
    assert (taken + output)[|taken| + 4] == output[4];
    assert (taken + output)[|taken| + 4 := now] == taken + output[4 := now];
  }

  /** With the header taken away, a change of the tracks alone leaves the bytes as they are. */
  lemma TracksKeep(headerWritten: bool, taken: bytes, output: bytes, log: seq<Entry>, fileMode: bool, flags: byte,
                   hasAudio: bool, hasVideo: bool, strays: seq<Stray>, nowAudio: bool, nowVideo: bool)
    requires BytesOk(headerWritten, taken, output, log, fileMode, flags, hasAudio, hasVideo, strays)
    requires taken != [] || !headerWritten
    ensures BytesOk(headerWritten, taken, output, log, fileMode, flags, nowAudio, nowVideo, strays)
  {
  }

  /** The queue holds what it should, and the media tags written are those of the packets taken from it, in order. */
  ghost predicate FlowOk<T, P>(builder: Builder<T, P>, pushed: seq<Packet<T, P>>, queue: seq<Packet<T, P>>,
                               queued: seq<nat>, order: seq<nat>, when: seq<nat>, depth: nat, closed: bool,
                               log: seq<Entry>)
  {
    && QueueOk(Keys(pushed), order, queued, when, depth, closed)
    && |queued| == |queue| && Below(|pushed|, queued) && Below(|pushed|, order)
    && (forall c | 0 <= c < |queue| :: queue[c] == pushed[queued[c]])
    && MediaOf(log) == Written(builder, pushed, order)
    && |order| + |queued| == |pushed| && forall p | 0 <= p < |order| :: TagOf(builder, pushed[order[p]]).Ok?
  }

  lemma FlowEmpty<T, P>(builder: Builder<T, P>, depth: nat)
    ensures FlowOk(builder, [], [], [], [], [], depth, false, [])
  {
  }

  lemma FlowPush<T, P>(builder: Builder<T, P>, pushed: seq<Packet<T, P>>, queue: seq<Packet<T, P>>, queued: seq<nat>,
                       order: seq<nat>, when: seq<nat>, depth: nat, log: seq<Entry>, p: Packet<T, P>)
    requires FlowOk(builder, pushed, queue, queued, order, when, depth, false, log) && |queue| <= depth
    ensures FlowOk(builder, pushed + [p], queue + [p], queued + [|pushed|], order, when, depth, false, log)
  {
    hide QueueOk, TagOf;
    assert Keys(pushed + [p]) == Keys(pushed) + [KeyOf(p)];
    PushKeeps(Keys(pushed), KeyOf(p), order, queued, when, depth);
    WrittenPush(builder, pushed, p, order);
  }

  /** Writing a configuration leaves the packets alone. */
  lemma FlowConfig<T, P>(builder: Builder<T, P>, pushed: seq<Packet<T, P>>, queue: seq<Packet<T, P>>, queued: seq<nat>,
                         order: seq<nat>, when: seq<nat>, depth: nat, closed: bool, log: seq<Entry>, tag: Tag)
    requires FlowOk(builder, pushed, queue, queued, order, when, depth, closed, log)
    ensures FlowOk(builder, pushed, queue, queued, order, when, depth, closed, log + [Config(tag)])
  {
    hide MediaOf, Written, QueueOk, TagOf;
    MediaSnoc(log, Config(tag));
    assert MediaOf(log) + [] == MediaOf(log);
  }

  /** No packet in the queue belongs before the one at `c`. */
  predicate LeastKey<T, P>(queue: seq<Packet<T, P>>, c: nat)
    requires c < |queue|
  {
    forall d | 0 <= d < |queue| :: !Above(KeyOf(queue[c]), KeyOf(queue[d]))
  }

  lemma {:induction false} SomeLeast<T, P>(queue: seq<Packet<T, P>>) returns (c: nat)
    requires queue != []
    ensures c < |queue| && LeastKey(queue, c)
    decreases |queue|
  {
    var n := |queue| - 1;
    if n == 0 {
      c := 0;
    } else {
      c := SomeLeast(queue[..n]);
      assert forall d | 0 <= d < n :: !Above(KeyOf(queue[c]), KeyOf(queue[d])) by {
        assert forall d | 0 <= d < n :: queue[..n][d] == queue[d];
      }
      if Above(KeyOf(queue[c]), KeyOf(queue[n])) {
        c := n;
      }
    }
  }

  lemma FlowPop<T, P>(builder: Builder<T, P>, pushed: seq<Packet<T, P>>, queue: seq<Packet<T, P>>, queued: seq<nat>,
                      order: seq<nat>, when: seq<nat>, depth: nat, closed: bool, log: seq<Entry>, c: nat,
                      log': seq<Entry>)
    requires FlowOk(builder, pushed, queue, queued, order, when, depth, closed, log)
    requires c < |queue| && LeastKey(queue, c) && (closed || |queue| > depth)
    requires TagOf(builder, queue[c]).Ok? && MediaOf(log') == MediaOf(log) + AsTags(TagOf(builder, queue[c]))
    ensures FlowOk(builder, pushed, queue[..c] + queue[c + 1..], Without(queued, c), order + [queued[c]],
                   when + [|pushed|], depth, closed, log')
  {
    hide QueueOk, TagOf, AsTags, MediaOf;
    LeastInKeys(Keys(pushed), pushed, queue, queued, c);
    PopKeeps(Keys(pushed), order, queued, when, depth, closed, c);
    assert (order + [queued[c]])[..|order|] == order;
  }

  lemma LeastInKeys<T, P>(keys: seq<Key>, pushed: seq<Packet<T, P>>, queue: seq<Packet<T, P>>, queued: seq<nat>, c: nat)
    requires keys == Keys(pushed) && |queued| == |queue| && Below(|pushed|, queued) && c < |queue| && LeastKey(queue, c)
    requires forall d | 0 <= d < |queue| :: queue[d] == pushed[queued[d]]
    ensures Below(|keys|, queued) && Least(keys, queued, c)
  {
    forall d | 0 <= d < |queued| ensures !Above(keys[queued[c]], keys[queued[d]]) {
      assert queue[d] == pushed[queued[d]];
    }
  }

  /** A packet with a least key, which of them is left open, and the queue without it. */
  method PopLeast<T, P>(queue: seq<Packet<T, P>>) returns (p: Packet<T, P>, rest: seq<Packet<T, P>>, ghost c: nat)
    requires queue != []
    ensures c < |queue| && LeastKey(queue, c) && p == queue[c] && rest == queue[..c] + queue[c + 1..]
  {
    ghost var least := SomeLeast(queue);
    var i: nat :| i < |queue| && LeastKey(queue, i);
    p, rest, c := queue[i], queue[..i] + queue[i + 1..], i;
  }

  /** A configuration is still to be announced for tracks of the kind. */
  predicate Pending(kind: TrackKind, audioEmitted: bool, videoEmitted: bool)
  {
    (kind.AudioTrack? && !audioEmitted) || (kind.VideoTrack? && !videoEmitted)
  }

  // ---- The configurations in what has been written ----

  /** The configurations of a type, in order. */
  function ConfigsIn(log: seq<Entry>, t: TagType): seq<Tag>
    decreases |log|
  {
    if log == [] then []
    else
      var last := log[|log| - 1];
      ConfigsIn(log[..|log| - 1], t) + if last.Config? && last.tag.tagType == t then [last.tag] else []
  }

  /** The tag that announces a track: none when the codec has no configuration. */
  function ConfigTags<T, P>(builder: Builder<T, P>, track: Option<Track<T>>, t: TagType): seq<Tag>
  {
    if track.None? then []
    else
      match builder.config(track.value.info)
      case Ok(Some(body)) => [Tag(t, 0, body)]
      case _ => []
  }

  /** No configuration comes behind a media tag of its type. */
  ghost predicate ConfigAhead(log: seq<Entry>, t: TagType)
  {
    forall i, j | 0 <= i < j < |log| && log[i].Media? && log[i].tag.tagType == t ::
      !(log[j].Config? && log[j].tag.tagType == t)
  }

  ghost predicate HasMedia(log: seq<Entry>, t: TagType)
  {
    exists i | 0 <= i < |log| :: log[i].Media? && log[i].tag.tagType == t
  }

  /**
   * The one track announced in the tags of a type, if there is one yet; until then there are no media tags of the
   * type.
   */
  ghost predicate Announced<T, P>(builder: Builder<T, P>, log: seq<Entry>, t: TagType, who: Option<Track<T>>)
  {
    && ConfigsIn(log, t) == ConfigTags(builder, who, t) && ConfigAhead(log, t)
    && (who.None? ==> !HasMedia(log, t)) && (who.Some? ==> ConfigOk(builder, who.value))
  }

  /** The tracks announced; packets are queued only of kinds that have been. */
  ghost predicate ConfigsOk<T, P>(builder: Builder<T, P>, log: seq<Entry>, queue: seq<Packet<T, P>>,
                                  audioBy: Option<Track<T>>, videoBy: Option<Track<T>>)
  {
    && Announced(builder, log, Audio, audioBy) && Announced(builder, log, Video, videoBy)
    && forall c | 0 <= c < |queue| :: !Pending(queue[c].track.kind, audioBy.Some?, videoBy.Some?)
  }

  lemma ConfigsEmpty<T, P>(builder: Builder<T, P>)
    ensures ConfigsOk(builder, [], [], None, None)
  {
  }

  lemma ConfigsSnoc(log: seq<Entry>, e: Entry, t: TagType)
    ensures ConfigsIn(log + [e], t) == ConfigsIn(log, t) + if e.Config? && e.tag.tagType == t then [e.tag] else []
  {
    assert (log + [e])[..|log|] == log;
  }

  lemma AnnouncedMedia<T, P>(builder: Builder<T, P>, log: seq<Entry>, t: TagType, who: Option<Track<T>>, tag: Tag)
    requires Announced(builder, log, t, who) && (tag.tagType == t ==> who.Some?)
    ensures Announced(builder, log + [Media(tag)], t, who)
  {
    hide ConfigsIn, ConfigTags, ConfigOk;
    ConfigsSnoc(log, Media(tag), t);
    assert ConfigsIn(log, t) + [] == ConfigsIn(log, t);
  }

  lemma AnnouncedOther<T, P>(builder: Builder<T, P>, log: seq<Entry>, t: TagType, who: Option<Track<T>>, tag: Tag)
    requires Announced(builder, log, t, who) && tag.tagType != t
    ensures Announced(builder, log + [Config(tag)], t, who)
  {
    hide ConfigsIn, ConfigTags, ConfigOk;
    ConfigsSnoc(log, Config(tag), t);
    assert ConfigsIn(log, t) + [] == ConfigsIn(log, t);
  }

  lemma AnnouncedNow<T, P>(builder: Builder<T, P>, log: seq<Entry>, t: TagType, track: Track<T>, log': seq<Entry>)
    requires Announced(builder, log, t, None) && ConfigOk(builder, track) && !track.kind.DataTrack?
    requires log' == log + match builder.config(track.info).value
                           case None => []
                           case Some(body) => [Config(Tag(t, 0, body))]
    ensures Announced(builder, log', t, Some(track))
  {
    hide ConfigsIn;
    assert [] + ConfigTags(builder, Some(track), t) == ConfigTags(builder, Some(track), t);
    match builder.config(track.info).value {
      case None =>
        assert log' == log;
      case Some(body) =>
        ConfigsSnoc(log, Config(Tag(t, 0, body)), t);
    }
  }

  /** Announcing the track of a kind not announced yet. */
  lemma ConfigsNow<T, P>(builder: Builder<T, P>, log: seq<Entry>, queue: seq<Packet<T, P>>, audioBy: Option<Track<T>>,
                         videoBy: Option<Track<T>>, track: Track<T>, log': seq<Entry>)
    requires ConfigsOk(builder, log, queue, audioBy, videoBy) && ConfigOk(builder, track)
    requires Pending(track.kind, audioBy.Some?, videoBy.Some?)
    requires var t := if track.kind.AudioTrack? then Audio else Video;
             log' == log + match builder.config(track.info).value
                           case None => []
                           case Some(body) => [Config(Tag(t, 0, body))]
    ensures ConfigsOk(builder, log', queue, if track.kind.AudioTrack? then Some(track) else audioBy,
                      if track.kind.AudioTrack? then videoBy else Some(track))
  {
    hide Announced;
    var (t, other, who) := if track.kind.AudioTrack? then (Audio, Video, videoBy) else (Video, Audio, audioBy);
    AnnouncedNow(builder, log, t, track, log');
    match builder.config(track.info).value {
      case None =>
        assert log' == log;
      case Some(body) =>
        AnnouncedOther(builder, log, other, who, Tag(t, 0, body));
    }
  }

  /** Writing a queued packet. */
  lemma ConfigsPop<T, P>(builder: Builder<T, P>, log: seq<Entry>, queue: seq<Packet<T, P>>, audioBy: Option<Track<T>>,
                         videoBy: Option<Track<T>>, c: nat, log': seq<Entry>)
    requires ConfigsOk(builder, log, queue, audioBy, videoBy) && c < |queue| && TagOf(builder, queue[c]).Ok?
    requires log' == if TagOf(builder, queue[c]).value.Some? then log + [Media(TagOf(builder, queue[c]).value.value)]
             else log
    ensures ConfigsOk(builder, log', queue[..c] + queue[c + 1..], audioBy, videoBy)
  {
    hide Announced;
    var tag := TagOf(builder, queue[c]).value;
    if tag.Some? {
      TagKind(builder, queue[c]);
      AnnouncedMedia(builder, log, Audio, audioBy, tag.value);
      AnnouncedMedia(builder, log, Video, videoBy, tag.value);
    }
  }

  lemma ConfigsLess<T, P>(builder: Builder<T, P>, log: seq<Entry>, queue: seq<Packet<T, P>>, audioBy: Option<Track<T>>,
                          videoBy: Option<Track<T>>, c: nat)
    requires ConfigsOk(builder, log, queue, audioBy, videoBy) && c < |queue|
    ensures ConfigsOk(builder, log, queue[..c] + queue[c + 1..], audioBy, videoBy)
  {
    hide Announced;
  }

  lemma TagKind<T, P>(builder: Builder<T, P>, p: Packet<T, P>)
    requires TagOf(builder, p).Ok? && TagOf(builder, p).value.Some?
    ensures !p.track.kind.DataTrack?
    ensures TagOf(builder, p).value.value.tagType == if p.track.kind.AudioTrack? then Audio else Video
  {
  }

  /** The packet and those queued have tags, and the packet's kind has been announced or can be. */
  predicate Accepts<T, P>(builder: Builder<T, P>, queue: seq<Packet<T, P>>, p: Packet<T, P>, hasAudio: bool,
                          hasVideo: bool)
  {
    AllTagged(builder, queue + [p]) && (Pending(p.track.kind, hasAudio, hasVideo) ==> ConfigOk(builder, p.track))
  }

  class FlvMuxer<T, P> {
    const builder: Builder<T, P>
    const fileMode: bool
    const maxQueueDepth: nat

    var output: bytes
    var audio: Option<Track<T>>
    var video: Option<Track<T>>
    var audioConfigEmitted: bool
    var videoConfigEmitted: bool
    var queue: seq<Packet<T, P>>
    var headerWritten: bool
    var previousTagSize: nat

    /** The bytes taken away before, and all the tags in the order they were written. */
    ghost var taken: bytes
    ghost var log: seq<Entry>
    /** The tracks whose configurations were announced. */
    ghost var audioBy: Option<Track<T>>
    ghost var videoBy: Option<Track<T>>
    /** The flags in the header, and the flags put elsewhere. */
    ghost var flags: byte
    ghost var strays: seq<Stray>

    /** The packets pushed; which of them are queued and written; how many had arrived when each was written. */
    ghost var pushed: seq<Packet<T, P>>
    ghost var queued: seq<nat>
    ghost var order: seq<nat>
    ghost var when: seq<nat>
    ghost var closed: bool
    /** A packet was lost to a write error. */
    ghost var failed: bool

    ghost predicate Bytes()
      reads this`headerWritten, this`taken, this`output, this`log, this`flags, this`audio, this`video, this`strays
    {
      BytesOk(headerWritten, taken, output, log, fileMode, flags, audio.Some?, video.Some?, strays)
    }

    ghost predicate Flow()
      reads this`failed, this`pushed, this`queue, this`queued, this`order, this`when, this`closed, this`log
    {
      !failed ==> FlowOk(builder, pushed, queue, queued, order, when, maxQueueDepth, closed, log)
    }

    /** The tracks known are of their kinds. */
    ghost predicate Kinds()
      reads this`audio, this`video
    {
      (audio.Some? ==> audio.value.kind.AudioTrack?) && (video.Some? ==> video.value.kind.VideoTrack?)
    }

    ghost predicate Configs()
      reads this`log, this`queue, this`audioConfigEmitted, this`videoConfigEmitted, this`audioBy, this`videoBy
    {
      && ConfigsOk(builder, log, queue, audioBy, videoBy)
      && (audioConfigEmitted <==> audioBy.Some?) && (videoConfigEmitted <==> videoBy.Some?)
    }

    constructor (builder: Builder<T, P>, fileMode: bool, maxQueueDepth: nat)
      ensures Configs() && audioBy == None && videoBy == None
      ensures this.builder == builder && this.fileMode == fileMode && this.maxQueueDepth == maxQueueDepth
      ensures Bytes() && Flow() && strays == [] && !failed && !closed && !headerWritten && output == [] && taken == []
      ensures queue == [] && pushed == [] && log == [] && order == [] && audio == None && video == None
    {
      this.builder, this.fileMode, this.maxQueueDepth := builder, fileMode, maxQueueDepth;
      output, audio, video, audioConfigEmitted, videoConfigEmitted := [], None, None, false, false;
      queue, headerWritten, previousTagSize := [], false, 0;
      taken, log, flags, strays, audioBy, videoBy := [], [], 0, [], None, None;
      pushed, queued, order, when, closed, failed := [], [], [], [], false, false;
      new;
      hide BytesOk, FlowOk, ConfigsOk;
      ConfigsEmpty(builder);
      BytesEmpty(fileMode);
      FlowEmpty(builder, maxQueueDepth);
    }

    /** The bytes written so far, leaving the muxer without them. */
    method TakeOutput() returns (r: bytes)
      requires Bytes()
      modifies this`output, this`taken
      ensures Bytes() && r == old(output) && output == [] && taken == old(taken) + r
    {
      hide Body, FileBytes, TagsOf;
      r := output;
      taken := taken + output;
      output := [];
      assert taken + [] == taken;
    }

    /**
     * The first track of a kind sets its flag, in the header if that is written. The flags byte is patched at the place
     * the header has as long as nothing has been taken: behind a taken header it hits whatever is there.
     */
    method EnsureTrack(track: Track<T>)
      requires Bytes()
      modifies this`audio, this`video, this`output, this`flags, this`strays
      ensures Bytes()
      ensures audio == if old(audio).None? && track.kind.AudioTrack? then Some(track) else old(audio)
      ensures video == if old(video).None? && track.kind.VideoTrack? then Some(track) else old(video)
      ensures audio == old(audio) && video == old(video) ==> output == old(output)
      ensures (audio != old(audio) || video != old(video)) && headerWritten && |old(output)| > 4 ==>
                output == old(output)[4 := Flags(audio.Some?, video.Some?)]
      ensures !headerWritten || |old(output)| <= 4 ==> output == old(output)
      ensures taken != [] ==> flags == old(flags)
      ensures strays == old(strays) + StrayOf(|taken|, old(output), old(audio).Some?, old(video).Some?, track.kind)
    {
      hide BytesOk, Flags;
      assert old(strays) + [] == old(strays);
      WrittenIfTaken(headerWritten, taken, output, log, fileMode, flags, audio.Some?, video.Some?, strays);
      ghost var hadAudio, hadVideo := audio.Some?, video.Some?;
      if track.kind.AudioTrack? && audio.None? {
        audio := Some(track);
      } else if track.kind.VideoTrack? && video.None? {
        video := Some(track);
      } else {
        return;
      }
      if taken != [] || !headerWritten {
        TracksKeep(headerWritten, taken, output, log, fileMode, flags, hadAudio, hadVideo, strays, audio.Some?,
                   video.Some?);
      }
      if !headerWritten {
        return;
      }
      if taken == [] {
        PatchKeeps(output, log, fileMode, flags, hadAudio, hadVideo, audio.Some?, video.Some?);
      } else if |output| > 4 {
        StrayKeeps(taken, output, log, fileMode, flags, hadAudio, hadVideo, strays, Flags(audio.Some?, video.Some?),
                   audio.Some?, video.Some?);
      }
      if |output| > 4 {
        ghost var was := output[4];
        output := output[4 := Flags(audio.Some?, video.Some?)];
        if taken == [] {
          flags := Flags(audio.Some?, video.Some?);
        } else {
          strays := strays + [Stray(|taken| + 4, was, Flags(audio.Some?, video.Some?))];
        }
      }
    }

    method WriteHeader()
      requires Bytes()
      modifies this`output, this`headerWritten, this`flags
      ensures Bytes() && headerWritten
      ensures old(headerWritten) ==> unchanged(this)
      ensures old(output) <= output
    {
      if headerWritten {
        return;
      }
      hide Flags, BE32;
      var bits := Flags(audio.Some?, video.Some?);
      var header := [0x46, 0x4C, 0x56] + [1] + [bits];
      header := header + BE32(9);
      if fileMode {
        header := header + BE32(0);
      }
      HeaderKeeps(header, fileMode, bits, audio.Some?, video.Some?);
      output := output + header;
      assert output == header;
      headerWritten := true;
      flags := bits;
    }

    /** A body that does not fit the size field is refused; otherwise the tag is appended. */
    method WriteTag(t: TagType, timestamp: u32, data: bytes, ghost media: bool) returns (r: Result<(), FlvError>)
      requires Bytes() && headerWritten
      modifies this`output, this`previousTagSize, this`log
      ensures Bytes()
      ensures |data| > MAX_BODY ==> r == Err(LimitExceeded) && unchanged(this)
      ensures |data| <= MAX_BODY ==>
                && r == Ok(()) && previousTagSize == 11 + |data|
                && output == old(output) + (TagBytes(Tag(t, timestamp, data)) + SizeField(fileMode, 11 + |data|))
                && log == old(log) + [if media then Media(Tag(t, timestamp, data)) else Config(Tag(t, timestamp, data))]
    {
      hide BytesOk, HeaderBytes, BE32, Flags;
      if |data| > MAX_BODY {
        return Err(LimitExceeded);
      }
      ghost var tag := Tag(t, timestamp, data);
      ghost var e := if media then Media(tag) else Config(tag);
      WriteTagKeeps(taken, output, log, fileMode, flags, audio.Some?, video.Some?, strays, e);
      var total := TagTotalSize(|data|);
      var written := HeaderBytes(t, |data|, timestamp);
      written := written + data;
      if fileMode {
        written := written + BE32(total);
      }
      assert written == TagBytes(tag) + SizeField(fileMode, total);
      output := output + written;
      previousTagSize := total;
      log := log + [e];
      return Ok(());
    }

    /** Announces the track's configuration once per kind. */
    method WriteConfigForTrack(track: Track<T>) returns (r: Result<(), FlvError>)
      requires Bytes() && headerWritten && Flow() && Configs()
      modifies this`output, this`previousTagSize, this`log, this`audioConfigEmitted, this`videoConfigEmitted,
               this`audioBy, this`videoBy
      ensures Bytes() && Flow() && Configs() && old(log) <= log && old(output) <= output
      ensures audioBy == AnnouncedBy(builder, old(audioBy), AudioTrack, track)
      ensures videoBy == AnnouncedBy(builder, old(videoBy), VideoTrack, track)
      ensures r.Err? ==> output == old(output) && log == old(log)
      ensures r.Ok? ==>
                (track.kind.AudioTrack? ==> audioConfigEmitted) && (track.kind.VideoTrack? ==> videoConfigEmitted)
      ensures r.Ok? && Pending(track.kind, old(audioConfigEmitted), old(videoConfigEmitted)) ==>
                builder.config(track.info).Ok?
                && log == old(log) + match builder.config(track.info).value
                                     case None => []
                                     case Some(body) =>
                                       [Config(Tag(if track.kind.AudioTrack? then Audio else Video, 0, body))]
      ensures !Pending(track.kind, old(audioConfigEmitted), old(videoConfigEmitted)) ==> r.Ok? && unchanged(this)
      ensures ConfigOk(builder, track) ==> r.Ok?
    {
      hide Bytes, FlowOk, ConfigsOk, TagBytes, SizeField;
      if !Pending(track.kind, audioConfigEmitted, videoConfigEmitted) {
        return Ok(());
      }
      var config := builder.config(track.info);
      if config.Err? {
        return Err(config.error);
      }
      if config.value.Some? {
        var t := if track.kind.AudioTrack? then Audio else Video;
        r := WriteTag(t, 0, config.value.value, false);
        if r.Err? {
          return;
        }
      }
      NoteConfig(track, old(log));
      if track.kind.AudioTrack? {
        audioConfigEmitted := true;
      } else {
        videoConfigEmitted := true;
      }
      return Ok(());
    }

    /** The history of a configuration that has been written. */
    ghost method NoteConfig(track: Track<T>, before: seq<Entry>)
      requires !failed ==> FlowOk(builder, pushed, queue, queued, order, when, maxQueueDepth, closed, before)
      requires ConfigsOk(builder, before, queue, audioBy, videoBy) && ConfigOk(builder, track)
      requires Pending(track.kind, audioBy.Some?, videoBy.Some?)
      requires var t := if track.kind.AudioTrack? then Audio else Video;
               log == before + match builder.config(track.info).value
                               case None => []
                               case Some(body) => [Config(Tag(t, 0, body))]
      modifies this`audioBy, this`videoBy
      ensures Flow() && ConfigsOk(builder, log, queue, audioBy, videoBy)
      ensures audioBy == if track.kind.AudioTrack? then Some(track) else old(audioBy)
      ensures videoBy == if track.kind.AudioTrack? then old(videoBy) else Some(track)
    {
      hide FlowOk, ConfigsOk;
      ConfigsNow(builder, before, queue, audioBy, videoBy, track, log);
      match builder.config(track.info).value {
        case None =>
          assert log == before;
        case Some(body) =>
          if !failed {
            FlowConfig(builder, pushed, queue, queued, order, when, maxQueueDepth, closed, before,
                       Tag(if track.kind.AudioTrack? then Audio else Video, 0, body));
          }
      }
      if track.kind.AudioTrack? {
        audioBy := Some(track);
      } else {
        videoBy := Some(track);
      }
    }

    method WritePacket(p: Packet<T, P>) returns (r: Result<(), FlvError>)
      requires Bytes() && headerWritten
      modifies this`output, this`previousTagSize, this`log
      ensures Bytes()
      ensures match TagOf(builder, p)
              case Err(e) => r == Err(e) && unchanged(this)
              case Ok(None) => r == Ok(()) && unchanged(this)
              case Ok(Some(tag)) => r == Ok(()) && log == old(log) + [Media(tag)]
      ensures r.Ok? ==> TagOf(builder, p).Ok? && output == old(output) + Appended(fileMode, TagOf(builder, p).value)
    {
      hide BytesOk, TagBytes, SizeField;
      var dts := if KeyOf(p).Some? then KeyOf(p).value else 0;
      var pts := if p.pts.Some? then p.pts.value else dts;
      match p.track.kind {
        case AudioTrack =>
          var body := builder.body(p, 0);
          if body.Err? {
            return Err(body.error);
          }
          var timestamp := Timestamp(dts);
          if timestamp.Err? {
            return Err(timestamp.error);
          }
          r := WriteTag(Audio, timestamp.value, body.value, true);
        case VideoTrack =>
          var cts := SatSub(pts, dts);
          if !(-I32_MAX - 1 <= cts <= I32_MAX) {
            return Err(InvalidTimestamp);
          }
          var timestamp := Timestamp(dts);
          if timestamp.Err? {
            return Err(timestamp.error);
          }
          var body := builder.body(p, cts);
          if body.Err? {
            return Err(body.error);
          }
          r := WriteTag(Video, timestamp.value, body.value, true);
        case DataTrack =>
          return Ok(());
      }
    }

    /** A packet with a least DTS leaves the queue and is written; a write error loses it. */
    method FlushOldest() returns (r: Result<(), FlvError>)
      requires Bytes() && Flow() && Configs() && headerWritten
      requires closed || |queue| > maxQueueDepth
      modifies this`output, this`previousTagSize, this`log, this`queue, this`queued, this`order, this`when, this`failed
      ensures Bytes() && Flow() && Configs() && old(log) <= log && old(order) <= order
      ensures old(queue) == [] ==> r == Err(MalformedTag) && unchanged(this)
      ensures old(queue) != [] ==> |queue| == |old(queue)| - 1
      ensures old(queue) != [] ==> failed == (old(failed) || r.Err?)
      ensures old(output) <= output
      ensures |old(queue)| == 1 && r.Ok? ==>
                TagOf(builder, old(queue)[0]).Ok?
                && output == old(output) + Appended(fileMode, TagOf(builder, old(queue)[0]).value)
      ensures AllTagged(builder, old(queue)) ==> AllTagged(builder, queue) && (old(queue) != [] ==> r.Ok?)
    {
      hide Bytes, FlowOk, ConfigsOk, TagOf, AsTags, KeyOf, LeastKey, MediaOf, Appended, AllTagged;
      if queue == [] {
        return Err(MalformedTag);
      }
      ghost var before, waiting := log, queue;
      var p, rest, c := PopLeast(queue);
      TaggedPop(builder, queue, c);
      queue := rest;
      r := WritePacket(p);
      if r.Err? {
        failed := true;
        ConfigsLess(builder, log, waiting, audioBy, videoBy, c);
        return;
      }
      ConfigsPop(builder, before, waiting, audioBy, videoBy, c, log);
      TagOfLog(builder, p, before, log);
      NotePop(c, waiting, before);
    }

    /** The history of a packet that has been written. */
    ghost method NotePop(c: nat, waiting: seq<Packet<T, P>>, before: seq<Entry>)
      requires !failed ==> FlowOk(builder, pushed, waiting, queued, order, when, maxQueueDepth, closed, before)
      requires c < |waiting| && LeastKey(waiting, c) && (closed || |waiting| > maxQueueDepth)
      requires queue == waiting[..c] + waiting[c + 1..] && TagOf(builder, waiting[c]).Ok?
      requires MediaOf(log) == MediaOf(before) + AsTags(TagOf(builder, waiting[c]))
      modifies this`order, this`queued, this`when
      ensures old(order) <= order && Flow()
    {
      hide FlowOk, LeastKey, MediaOf, AsTags, TagOf;
      if failed {
        return;
      }
      FlowPop(builder, pushed, waiting, queued, order, when, maxQueueDepth, closed, before, c, log);
      FlowSizes(builder, pushed, waiting, queued, order, when, maxQueueDepth, closed, before);
      order := order + [queued[c]];
      queued := Without(queued, c);
      when := when + [|pushed|];
    }

    method AddTrack(track: Track<T>)
      requires Bytes() && Flow()
      modifies this`audio, this`video, this`output, this`flags, this`strays
      ensures Bytes() && Flow()
      ensures audio == if old(audio).None? && track.kind.AudioTrack? then Some(track) else old(audio)
      ensures video == if old(video).None? && track.kind.VideoTrack? then Some(track) else old(video)
      ensures output == if (audio != old(audio) || video != old(video)) && headerWritten && |old(output)| > 4
                        then old(output)[4 := Flags(audio.Some?, video.Some?)] else old(output)
      ensures taken != [] ==> flags == old(flags)
      ensures strays == old(strays) + StrayOf(|taken|, old(output), old(audio).Some?, old(video).Some?, track.kind)
    {
      hide BytesOk, FlowOk;
      EnsureTrack(track);
    }

    lemma HeaderWasWritten()
      requires Bytes()
      ensures (taken != [] ==> headerWritten) && (taken == [] ==> strays == [])
    {
    }

    /** The packet's track, the header and the configuration come before the packet. */
    method Prepare(track: Track<T>) returns (r: Result<(), FlvError>)
      requires Bytes() && Flow() && Configs()
      modifies this`output, this`previousTagSize, this`log, this`audioConfigEmitted, this`videoConfigEmitted,
               this`audioBy, this`videoBy, this`audio, this`video, this`flags, this`strays, this`headerWritten
      ensures Bytes() && Flow() && Configs() && headerWritten && old(log) <= log
      ensures audioBy == AnnouncedBy(builder, old(audioBy), AudioTrack, track)
      ensures videoBy == AnnouncedBy(builder, old(videoBy), VideoTrack, track)
      ensures !Pending(track.kind, old(audioConfigEmitted), old(videoConfigEmitted)) ==> r.Ok?
      ensures audio == if old(audio).None? && track.kind.AudioTrack? then Some(track) else old(audio)
      ensures video == if old(video).None? && track.kind.VideoTrack? then Some(track) else old(video)
      ensures ConfigOk(builder, track) ==> r.Ok?
      ensures taken != [] ==> flags == old(flags)
      ensures strays == old(strays) + StrayOf(|taken|, old(output), old(audio).Some?, old(video).Some?, track.kind)
      ensures r.Ok? ==> !Pending(track.kind, audioConfigEmitted, videoConfigEmitted)
      ensures (old(headerWritten) && audio == old(audio) && video == old(video) &&
               !Pending(track.kind, old(audioConfigEmitted), old(videoConfigEmitted))) ==> output == old(output)
    {
      hide Bytes, Flow, Configs, ConfigOk, AnnouncedBy, StrayOf, Flags;
      HeaderWasWritten();
      EnsureTrack(track);
      if !headerWritten {
        WriteHeader();
      }
      r := WriteConfigForTrack(track);
    }

    method Enqueue(p: Packet<T, P>)
      requires Flow() && Configs() && !closed && |queue| <= maxQueueDepth
      requires !Pending(p.track.kind, audioConfigEmitted, videoConfigEmitted)
      modifies this`queue, this`queued, this`pushed
      ensures Flow() && Configs() && queue == old(queue) + [p] && pushed == old(pushed) + [p]
    {
      hide FlowOk, Announced;
      if !failed {
        FlowPush(builder, pushed, queue, queued, order, when, maxQueueDepth, log, p);
      }
      queue := queue + [p];
      queued := queued + [|pushed|];
      pushed := pushed + [p];
    }

    /** Writes the least packets for as long as the queue holds more than `limit`. */
    method FlushTo(limit: nat) returns (r: Result<(), FlvError>)
      requires Bytes() && Flow() && Configs() && headerWritten && (closed || limit == maxQueueDepth)
      modifies this`output, this`previousTagSize, this`log, this`queue, this`queued, this`order, this`when, this`failed
      ensures Bytes() && Flow() && Configs() && old(log) <= log && old(order) <= order
      ensures r.Ok? ==> |queue| == (if |old(queue)| <= limit then |old(queue)| else limit) && failed == old(failed)
      ensures r.Err? ==> failed && |queue| < |old(queue)|
      ensures old(output) <= output
      ensures limit == 0 && |old(queue)| == 1 && r.Ok? ==>
                TagOf(builder, old(queue)[0]).Ok?
                && output == old(output) + Appended(fileMode, TagOf(builder, old(queue)[0]).value)
      ensures AllTagged(builder, old(queue)) ==> AllTagged(builder, queue) && r.Ok?
    {
      hide BytesOk, FlowOk, ConfigsOk, AllTagged;
      while |queue| > limit
        invariant Bytes() && Flow() && Configs() && failed == old(failed) && |queue| <= |old(queue)|
                  && old(output) <= output
        invariant old(log) <= log && old(order) <= order && (|queue| == |old(queue)| || |queue| >= limit)
        invariant |queue| == |old(queue)| ==> queue == old(queue) && output == old(output)
        invariant |queue| < |old(queue)| == 1 ==>
                    TagOf(builder, old(queue)[0]).Ok? &&
                    output == old(output) + Appended(fileMode, TagOf(builder, old(queue)[0]).value)
        invariant AllTagged(builder, old(queue)) ==> AllTagged(builder, queue)
        decreases |queue|
      {
        r := FlushOldest();
        if r.Err? {
          return;
        }
      }
      return Ok(());
    }

    /** Queues a packet and writes the least ones for as long as the queue is over its depth. */
    method PushPacket(p: Packet<T, P>) returns (r: Result<(), FlvError>)
      requires Bytes() && Flow() && Configs() && !closed && |queue| <= maxQueueDepth
      modifies this`output, this`previousTagSize, this`log, this`audioConfigEmitted, this`videoConfigEmitted,
               this`audioBy, this`videoBy, this`audio, this`video, this`flags, this`strays, this`headerWritten,
               this`queue, this`queued, this`pushed, this`order, this`when, this`failed
      ensures Bytes() && Flow() && Configs() && |queue| <= maxQueueDepth && headerWritten
      ensures old(log) <= log && old(order) <= order
      ensures r.Ok? ==> |queue| == if |old(queue)| < maxQueueDepth then |old(queue)| + 1 else maxQueueDepth
      ensures audioBy == AnnouncedBy(builder, old(audioBy), AudioTrack, p.track)
      ensures videoBy == AnnouncedBy(builder, old(videoBy), VideoTrack, p.track)
      ensures taken != [] ==> flags == old(flags)
      ensures strays == old(strays) + StrayOf(|taken|, old(output), old(audio).Some?, old(video).Some?, p.track.kind)
      ensures r.Ok? ==> !Pending(p.track.kind, audioConfigEmitted, videoConfigEmitted)
      ensures (old(headerWritten) && audio == old(audio) && video == old(video) && maxQueueDepth == 0 && r.Ok? &&
               !Pending(p.track.kind, old(audioConfigEmitted), old(videoConfigEmitted))) ==>
                TagOf(builder, p).Ok? && output == old(output) + Appended(fileMode, TagOf(builder, p).value)
      ensures audio == if old(audio).None? && p.track.kind.AudioTrack? then Some(p.track) else old(audio)
      ensures video == if old(video).None? && p.track.kind.VideoTrack? then Some(p.track) else old(video)
      ensures r.Ok? ==> failed == old(failed) && pushed == old(pushed) + [p]
      ensures r.Err? ==> failed || (pushed == old(pushed) && queue == old(queue))
      ensures Accepts(builder, old(queue), p, old(audioBy).Some?, old(videoBy).Some?) ==>
                r.Ok? && AllTagged(builder, queue)
    {
      hide Bytes, Flow, ConfigsOk, AllTagged, ConfigOk, TagOf, Appended, StrayOf, AnnouncedBy, Flags;
      r := Prepare(p.track);
      if r.Err? {
        return;
      }
      Enqueue(p);
      r := FlushTo(maxQueueDepth);
    }

    method WriteMissingConfigs() returns (r: Result<(), FlvError>)
      requires Bytes() && Flow() && Configs() && Kinds()
      modifies this`output, this`previousTagSize, this`log, this`audioConfigEmitted, this`videoConfigEmitted,
               this`audioBy, this`videoBy, this`flags, this`headerWritten
      ensures Bytes() && Flow() && Configs() && headerWritten && old(output) <= output && old(log) <= log
      ensures taken != [] ==> flags == old(flags)
      ensures r.Ok? ==> audioBy == (if old(audioBy).Some? then old(audioBy) else audio)
                        && videoBy == if old(videoBy).Some? then old(videoBy) else video
      ensures Announceable(builder, old(audioBy), audio) && Announceable(builder, old(videoBy), video) ==> r.Ok?
    {
      hide Bytes, Flow, ConfigsOk, ConfigOk, Flags;
      HeaderWasWritten();
      if !headerWritten {
        WriteHeader();
      }
      if audio.Some? {
        r := WriteConfigForTrack(audio.value);
        if r.Err? {
          return;
        }
      }
      if video.Some? {
        r := WriteConfigForTrack(video.value);
        if r.Err? {
          return;
        }
      }
      return Ok(());
    }

    /** Writes what is still missing of header and configurations, then everything in the queue, least first. */
    method Finish() returns (r: Result<bytes, FlvError>)
      requires Bytes() && Flow() && Configs() && Kinds() && !closed
      modifies this`output, this`previousTagSize, this`log, this`audioConfigEmitted, this`videoConfigEmitted,
               this`audioBy, this`videoBy, this`flags, this`headerWritten, this`queue, this`queued, this`order,
               this`when, this`failed, this`closed
      ensures Bytes() && Flow() && Configs() && old(output) <= output && old(log) <= log && old(order) <= order
      ensures r.Ok? ==> audioBy == (if old(audioBy).Some? then old(audioBy) else audio)
                        && videoBy == if old(videoBy).Some? then old(videoBy) else video
      ensures taken != [] ==> flags == old(flags)
      ensures r.Ok? ==> r.value == output && queue == [] && closed && headerWritten && failed == old(failed)
      ensures (&& AllTagged(builder, old(queue)) && Announceable(builder, old(audioBy), audio)
               && Announceable(builder, old(videoBy), video)) ==> r.Ok?
    {
      hide Bytes, Flow, Configs, ConfigOk, AllTagged, TagOf, Flags;
      var configured := WriteMissingConfigs();
      if configured.Err? {
        return Err(configured.error);
      }
      NoteClose();
      var done := FlushTo(0);
      if done.Err? {
        return Err(done.error);
      }
      return Ok(output);
    }

    ghost method NoteClose()
      requires Flow() && !closed
      modifies this`closed
      ensures Flow() && closed
    {
      if !failed {
        Closing(Keys(pushed), order, queued, when, maxQueueDepth);
      }
      closed := true;
    }
  }

  lemma WrittenIfTaken(headerWritten: bool, taken: bytes, output: bytes, log: seq<Entry>, fileMode: bool, flags: byte,
                       hasAudio: bool, hasVideo: bool, strays: seq<Stray>)
    requires BytesOk(headerWritten, taken, output, log, fileMode, flags, hasAudio, hasVideo, strays)
    ensures taken != [] ==> headerWritten
    ensures taken == [] ==> strays == [] && (headerWritten ==> flags == Flags(hasAudio, hasVideo))
  {
  }

  /** What writing a packet's tag adds to the output. */
  function Appended(fileMode: bool, tag: Option<Tag>): bytes
    requires tag.Some? ==> tag.value.Fits()
  {
    if tag.None? then [] else TagBytes(tag.value) + SizeField(fileMode, 11 + |tag.value.body|)
  }

  // ---- Whole runs ----

  predicate HasKind<T, P>(packets: seq<Packet<T, P>>, kind: TrackKind)
  {
    exists i | 0 <= i < |packets| :: packets[i].track.kind == kind
  }

  lemma HasKindSnoc<T, P>(packets: seq<Packet<T, P>>, i: nat, kind: TrackKind)
    requires i < |packets|
    ensures HasKind(packets[..i + 1], kind) <==> HasKind(packets[..i], kind) || packets[i].track.kind == kind
  {
    assert packets[..i + 1] == packets[..i] + [packets[i]];
    if HasKind(packets[..i], kind) {
      var j :| 0 <= j < i && packets[..i][j].track.kind == kind;
      assert packets[..i + 1][j].track.kind == kind;
    }
    if packets[i].track.kind == kind {
      assert packets[..i + 1][i].track.kind == kind;
    }
  }

  /** The track of the first packet of the kind. */
  function FirstOf<T, P>(packets: seq<Packet<T, P>>, kind: TrackKind): Option<Track<T>>
    decreases |packets|
  {
    if packets == [] then None
    else
      var n := |packets| - 1;
      var before := FirstOf(packets[..n], kind);
      if before.None? && packets[n].track.kind == kind then Some(packets[n].track) else before
  }

  lemma FirstSnoc<T, P>(packets: seq<Packet<T, P>>, i: nat, kind: TrackKind)
    requires i < |packets|
    ensures FirstOf(packets[..i + 1], kind) ==
            var before := FirstOf(packets[..i], kind);
            if before.None? && packets[i].track.kind == kind then Some(packets[i].track) else before
  {
    assert packets[..i + 1][..i] == packets[..i];
  }

  /** The first packet of a kind stays the first. */
  lemma {:induction false} FirstStays<T, P>(packets: seq<Packet<T, P>>, i: nat, kind: TrackKind)
    requires i <= |packets| && FirstOf(packets[..i], kind).Some?
    ensures FirstOf(packets, kind) == FirstOf(packets[..i], kind)
    decreases |packets|
  {
    if i == |packets| {
      assert packets[..i] == packets;
    } else {
      var n := |packets| - 1;
      assert packets[..n][..i] == packets[..i];
      FirstStays(packets[..n], i, kind);
    }
  }

  lemma {:induction false} FirstIsKind<T, P>(packets: seq<Packet<T, P>>, kind: TrackKind)
    ensures FirstOf(packets, kind).Some? <==> HasKind(packets, kind)
    ensures FirstOf(packets, kind).Some? ==> FirstOf(packets, kind).value.kind == kind
    decreases |packets|
  {
    if packets == [] {
      NoKinds<T, P>();
    } else {
      hide HasKind;
      var n := |packets| - 1;
      FirstIsKind(packets[..n], kind);
      HasKindSnoc(packets, n, kind);
      assert packets[..n + 1] == packets;
    }
  }

  /**
   * The file a run writes: its media tags are those of the packets, each once, in the order `order`, and each kind is
   * announced once, by the configuration of its first packet's track, ahead of its media tags.
   */
  ghost predicate FileOf<T, P>(builder: Builder<T, P>, fileMode: bool, packets: seq<Packet<T, P>>, file: bytes,
                               order: seq<nat>, log: seq<Entry>)
  {
    && AllFit(TagsOf(log))
    && file == FileBytes(Flags(HasKind(packets, AudioTrack), HasKind(packets, VideoTrack)), fileMode)
    + Body(TagsOf(log), fileMode)
    && EachOnce(builder, packets, order, log)
    && AnnouncesEach(builder, packets, log)
  }

  ghost predicate AnnouncesEach<T, P>(builder: Builder<T, P>, packets: seq<Packet<T, P>>, log: seq<Entry>)
  {
    && Announced(builder, log, Audio, FirstOf(packets, AudioTrack))
    && Announced(builder, log, Video, FirstOf(packets, VideoTrack))
  }

  /** The media tags are those of the packets, each once. */
  ghost predicate EachOnce<T, P>(builder: Builder<T, P>, packets: seq<Packet<T, P>>, order: seq<nat>, log: seq<Entry>)
  {
    Partition(|packets|, order, []) && Below(|packets|, order) && MediaOf(log) == Written(builder, packets, order)
  }

  /** The order is sorted if and only if no packet arrives behind more than `depth` packets that belong behind it. */
  ghost predicate SortedIfMendable<T, P>(packets: seq<Packet<T, P>>, order: seq<nat>, depth: nat)
  {
    && Below(|packets|, order)
    && (Sorted(Keys(packets), order) <==> forall j | 0 <= j < |packets| :: Late(Keys(packets), j) <= depth)
  }

  /** Every packet has its tag, and each kind's first track can be announced. */
  predicate Writable<T, P>(builder: Builder<T, P>, packets: seq<Packet<T, P>>)
  {
    && AllTagged(builder, packets) && Announceable(builder, None, FirstOf(packets, AudioTrack))
    && Announceable(builder, None, FirstOf(packets, VideoTrack))
  }

  /** A packet that is refused shows that the run cannot be written. */
  lemma Refused<T, P>(builder: Builder<T, P>, packets: seq<Packet<T, P>>, queue: seq<Packet<T, P>>, i: nat)
    requires i < |packets| && (AllTagged(builder, packets) ==> AllTagged(builder, queue))
    requires var p := packets[i];
             var audio, video := FirstOf(packets[..i], AudioTrack).Some?, FirstOf(packets[..i], VideoTrack).Some?;
             !Accepts(builder, queue, p, audio, video)
    ensures !Writable(builder, packets)
  {
    hide TagOf, ConfigOk;
    FirstSnoc(packets, i, AudioTrack);
    FirstSnoc(packets, i, VideoTrack);
    if FirstOf(packets[..i + 1], AudioTrack).Some? {
      FirstStays(packets, i + 1, AudioTrack);
    }
    if FirstOf(packets[..i + 1], VideoTrack).Some? {
      FirstStays(packets, i + 1, VideoTrack);
    }
  }

  /** With the queue empty, every packet has been written. */
  lemma AllWritten<T, P>(builder: Builder<T, P>, pushed: seq<Packet<T, P>>, queued: seq<nat>, order: seq<nat>,
                         when: seq<nat>, depth: nat, log: seq<Entry>)
    requires FlowOk(builder, pushed, [], queued, order, when, depth, true, log)
    ensures AllTagged(builder, pushed)
  {
    hide TagOf, LeastFirst, TooLate, Written, MediaOf;
    forall i | 0 <= i < |pushed| ensures TagOf(builder, pushed[i]).Ok? {
      assert i in order;
      var p :| 0 <= p < |order| && order[p] == i;
    }
  }

  lemma RunEnds<T, P>(builder: Builder<T, P>, fileMode: bool, packets: seq<Packet<T, P>>, output: bytes,
                      log: seq<Entry>, flags: byte, queued: seq<nat>, order: seq<nat>, when: seq<nat>, depth: nat)
    requires BytesOk(true, [], output, log, fileMode, flags, FirstOf(packets, AudioTrack).Some?,
                     FirstOf(packets, VideoTrack).Some?, [])
    requires FlowOk(builder, packets, [], queued, order, when, depth, true, log) && AnnouncesEach(builder, packets, log)
    ensures FileOf(builder, fileMode, packets, output, order, log) && SortedIfMendable(packets, order, depth)
    ensures Writable(builder, packets)
  {
    hide Body, FileBytes, Flags, Sorted, Late, LeastFirst, TooLate, Written, MediaOf, TagOf, ConfigsIn, ConfigTags,
         ConfigAhead, HasMedia, ConfigOk, AllTagged;
    assert [] + output == output && queued == [];
    FirstIsKind(packets, AudioTrack);
    FirstIsKind(packets, VideoTrack);
    SortedExactly(Keys(packets), order, when, depth);
    AllWritten(builder, packets, queued, order, when, depth, log);
  }

  /**
   * A whole run: the file holds every packet's tag exactly once, and its media tags are in non-decreasing DTS order if
   * and only if no packet arrives behind more than `depth` packets that belong behind it. The run succeeds if and only
   * if every packet and the configuration of each kind's first track can be written.
   */
  method MuxAll<T, P>(builder: Builder<T, P>, fileMode: bool, depth: nat, packets: seq<Packet<T, P>>)
    returns (r: Result<bytes, FlvError>)
    ensures r.Ok? <==> Writable(builder, packets)
    ensures r.Ok? ==> exists order, log ::
                        FileOf(builder, fileMode, packets, r.value, order, log)
                        && SortedIfMendable(packets, order, depth)
  {
    hide BytesOk, FlowOk, Announced, Late, Sorted, FileOf, HasKind, SortedIfMendable, ConfigOk, AllTagged, TagOf,
         FirstOf, StrayOf, Appended;
    var mux := new FlvMuxer(builder, fileMode, depth);
    NoneTagged(builder);
    NoFirst<T, P>();
    assert packets[..0] == [];
    for i := 0 to |packets|
      invariant mux.Bytes() && mux.Flow() && mux.Configs() && !mux.closed && !mux.failed && |mux.queue| <= depth
                && mux.taken == []
      invariant mux.builder == builder && mux.fileMode == fileMode && mux.maxQueueDepth == depth && fresh(mux)
      invariant mux.pushed == packets[..i] && (AllTagged(builder, packets) ==> AllTagged(builder, mux.queue))
      invariant mux.audio == mux.audioBy == FirstOf(packets[..i], AudioTrack)
      invariant mux.video == mux.videoBy == FirstOf(packets[..i], VideoTrack)
    {
      FirstSnoc(packets, i, AudioTrack);
      FirstSnoc(packets, i, VideoTrack);
      assert packets[..i + 1] == packets[..i] + [packets[i]];
      MoreTagged(builder, packets, mux.queue, i);
      ghost var queue := mux.queue;
      var done := mux.PushPacket(packets[i]);
      if done.Err? {
        Refused(builder, packets, queue, i);
        return Err(done.error);
      }
    }
    assert packets[..|packets|] == packets;
    FirstIsKind(packets, AudioTrack);
    FirstIsKind(packets, VideoTrack);
    r := mux.Finish();
    if r.Ok? {
      mux.HeaderWasWritten();
      RunEnds(builder, fileMode, packets, mux.output, mux.log, mux.flags, mux.queued, mux.order, mux.when, depth);
    }
  }

  lemma NoFirst<T, P>()
    ensures FirstOf<T, P>([], AudioTrack) == None && FirstOf<T, P>([], VideoTrack) == None
  {
  }

  lemma TaggedPop<T, P>(builder: Builder<T, P>, queue: seq<Packet<T, P>>, c: nat)
    requires c < |queue|
    ensures AllTagged(builder, queue) ==>
              TagOf(builder, queue[c]).Ok? && AllTagged(builder, queue[..c] + queue[c + 1..])
  {
  }

  lemma NoneTagged<T, P>(builder: Builder<T, P>)
    ensures AllTagged(builder, [])
  {
  }

  lemma MoreTagged<T, P>(builder: Builder<T, P>, packets: seq<Packet<T, P>>, queue: seq<Packet<T, P>>, i: nat)
    requires i < |packets|
    ensures AllTagged(builder, packets) && AllTagged(builder, queue) ==> AllTagged(builder, queue + [packets[i]])
  {
  }

  lemma NoKinds<T, P>()
    ensures !HasKind<T, P>([], AudioTrack) && !HasKind<T, P>([], VideoTrack)
  {
  }

  lemma FlowSizes<T, P>(builder: Builder<T, P>, pushed: seq<Packet<T, P>>, queue: seq<Packet<T, P>>, queued: seq<nat>,
                        order: seq<nat>, when: seq<nat>, depth: nat, closed: bool, log: seq<Entry>)
    requires FlowOk(builder, pushed, queue, queued, order, when, depth, closed, log)
    ensures |queued| == |queue|
  {
  }

  lemma TagOfLog<T, P>(builder: Builder<T, P>, p: Packet<T, P>, before: seq<Entry>, log: seq<Entry>)
    requires TagOf(builder, p).Ok?
    requires log == if TagOf(builder, p).value.Some? then before + [Media(TagOf(builder, p).value.value)] else before
    ensures MediaOf(log) == MediaOf(before) + AsTags(TagOf(builder, p))
  {
    if TagOf(builder, p).value.Some? {
      MediaSnoc(before, Media(TagOf(builder, p).value.value));
    }
  }
}

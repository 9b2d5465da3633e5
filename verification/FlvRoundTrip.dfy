/** What the FLV muxer writes, the FLV demuxer reads. */
module FlvRoundTrip {
  import opened Bytes
  import opened FlvTag
  import M = FlvMuxer
  import D = FlvDemuxer

  /** What the demuxer is to give back: the header, and the muxer's tags in their order. */
  ghost predicate GivenBack<T, P>(builder: M.Builder<T, P>, depth: nat, packets: seq<M.Packet<T, P>>,
                                  events: seq<D.Event<Tag>>, order: seq<nat>, log: seq<M.Entry>)
  {
    && events == [D.Header(FileHeader(1, M.HasKind(packets, M.AudioTrack), M.HasKind(packets, M.VideoTrack), 9))]
                 + D.AsMedia(M.TagsOf(log))
    && M.EachOnce(builder, packets, order, log) && M.AnnouncesEach(builder, packets, log)
    && M.SortedIfMendable(packets, order, depth)
  }

  /**
   * Any run of the muxer, its file cut into any chunks, gives the demuxer the muxer's tags back: the packets' tags,
   * each once, in DTS order exactly when the queue could mend the disorder, and the configuration of each kind's
   * first track once, ahead of its media tags.
   */
  method MuxThenDemux<T, P>(builder: M.Builder<T, P>, fileMode: bool, depth: nat, packets: seq<M.Packet<T, P>>,
                            sizes: seq<nat>) returns (r: Result<seq<D.Event<Tag>>, FlvError>)
    ensures r.Ok? <==> M.Writable(builder, packets)
    ensures r.Ok? ==> exists order, log :: GivenBack(builder, depth, packets, r.value, order, log)
  {
    hide M.SortedIfMendable, M.EachOnce, M.AnnouncesEach, M.TagsOf, Flags, FileBytes, Body, M.HasKind, D.AsMedia,
         M.Writable;
    var file := M.MuxAll(builder, fileMode, depth, packets);
    if file.Err? {
      return Err(file.error);
    }
    ghost var order, log :| M.FileOf(builder, fileMode, packets, file.value, order, log) &&
                            M.SortedIfMendable(packets, order, depth);
    var chunks := Cut(file.value, sizes, D.MAX_BUFFER - D.MAX_KEPT);
    ghost var audio, video := M.HasKind(packets, M.AudioTrack), M.HasKind(packets, M.VideoTrack);
    ghost var tags := M.TagsOf(log);
    var events := D.RecoverTags(D.Auto, chunks, tags, fileMode, audio, video);
    AsMediaAt(events, tags, FileHeader(1, audio, video, 9));
    assert GivenBack(builder, depth, packets, events, order, log);
    return Ok(events);
  }

  lemma AsMediaAt(events: seq<D.Event<Tag>>, tags: seq<Tag>, h: FileHeader)
    requires |events| == 1 + |tags| && events[0] == D.Header(h)
    requires forall k | 0 <= k < |tags| :: events[1 + k] == D.Media(tags[k])
    ensures events == [D.Header(h)] + D.AsMedia(tags)
  {
    var all := [D.Header(h)] + D.AsMedia(tags);
    forall i | 0 <= i < |events| ensures events[i] == all[i] {
      if i > 0 {
        assert events[1 + (i - 1)] == D.Media(tags[i - 1]);
      }
    }
  }
}

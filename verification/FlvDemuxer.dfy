/** The incremental FLV demuxer: tags out of chunks, with or without PreviousTagSize fields. */
module FlvDemuxer {
  import opened Bytes
  import opened FlvTag

  datatype Mode = Auto | File | Stream

  datatype Event<E> = Header(header: FileHeader) | Media(event: E)

  /** What the codec layer makes of a tag in its state: any number of events, or an error. */
  type Interpreter<!S, E> = (S, Tag) -> (S, Result<seq<E>, FlvError>)

  const MAX_BUFFER: nat := 64 * 1024 * 1024

  // ---- What is still unread ----

  /** The stream from here on, by what the demuxer has read: the file header, a tag, or neither of the sizes yet. */
  ghost predicate Unread(unread: bytes, tags: seq<Tag>, sized: bool, flags: byte, hasHeader: bool, total: nat,
                         pending: bool)
  {
    && AllFit(tags)
    && if !hasHeader then total == 0 && !pending && unread == FileBytes(flags, sized) + Body(tags, sized)
       else if total == 0 then
         !pending && (unread == SizeField(sized, 0) + Body(tags, sized) || unread == Body(tags, sized))
       else total <= 11 + MAX_BODY
            && unread == (if pending then SizeField(sized, total) else []) + Body(tags, sized)
  }

  /** Consumed bytes are dropped: at most about half the buffer is behind the read position. */
  predicate Tight(pos: nat, len: nat, slack: nat)
  {
    pos <= len && (pos <= 4096 + slack || 2 * (pos - slack) <= len)
  }

  /** The read position and the length of the buffer once the consumed prefix has been dropped, if it is. */
  function Shrunk(pos: nat, len: nat): (nat, nat)
    requires pos <= len
  {
    if pos > 4096 && 2 * pos > len then (0, len - pos) else (pos, len)
  }

  /** A tag at the very front of the buffer is dropped as soon as it has been consumed: the read position stays 0. */
  predicate Vanishes(pos: nat, len: nat, total: nat)
  {
    pos == 0 && total > 4096 && 2 * total > len
  }

  /** A size field can only be next where one has not been consumed since the last shrinking. */
  ghost function Slack(sized: bool, unread: bytes, tags: seq<Tag>): nat
    requires AllFit(tags)
  {
    if sized && unread != Body(tags, sized) then 0 else 4
  }

  /** The whole of a demuxer's state on a well-formed stream: its buffer and what it knows about it. */
  ghost predicate Following(buffer: bytes, pos: nat, ahead: bytes, tags: seq<Tag>, sized: bool, flags: byte,
                            hasHeader: bool, total: nat, pending: bool)
  {
    && pos <= |buffer| && Unread(buffer[pos..] + ahead, tags, sized, flags, hasHeader, total, pending)
    && Tight(pos, |buffer|, Slack(sized, buffer[pos..] + ahead, tags))
    && (sized && hasHeader && buffer[pos..] + ahead == Body(tags, sized) ==> pos >= 4)
  }

  /** The most that stays in the buffer when no tag is complete. */
  const MAX_KEPT: nat := 2 * (11 + MAX_BODY) + 16

  lemma TightMore(pos: nat, len: nat)
    requires Tight(pos, len, 0)
    ensures Tight(pos, len, 4) && (pos + 4 <= len ==> Tight(pos + 4, len, 4))
  {
  }

  lemma BodyFirst(tags: seq<Tag>, sized: bool)
    requires AllFit(tags) && tags != []
    ensures tags[0].Fits() && AllFit(tags[1..])
    ensures Body(tags, sized) == TagBytes(tags[0]) + (SizeField(sized, 11 + |tags[0].body|) + Body(tags[1..], sized))
  {
    assert forall k | 0 <= k < |tags[1..]| :: tags[1..][k] == tags[k + 1];
  }

  /** A prefix of the unread stream that holds its front holds the front's bytes. */
  lemma Front(seen: bytes, ahead: bytes, front: bytes, rest: bytes)
    requires seen + ahead == front + rest && |seen| >= |front|
    ensures seen[..|front|] == front && seen[|front|..] + ahead == rest
  {
    assert (seen + ahead)[..|front|] == seen[..|front|];
    assert (seen + ahead)[|front|..] == seen[|front|..] + ahead;
  }

  lemma FrontBytes(seen: bytes, ahead: bytes, front: bytes, rest: bytes, n: nat)
    requires seen + ahead == front + rest && |seen| >= n && n <= |front|
    ensures seen[..n] == front[..n]
  {
    assert (seen + ahead)[..n] == seen[..n];
    assert (front + rest)[..n] == front[..n];
  }

  /** The first four bytes of an unread tag are no size field. */
  lemma BodyIsNoSize(seen: bytes, ahead: bytes, tags: seq<Tag>, sized: bool)
    requires AllFit(tags) && seen + ahead == Body(tags, sized) && |seen| >= 4
    ensures tags != [] && FromBE32(seen[..4]) > 11 + MAX_BODY
  {
    BodyFirst(tags, sized) by { assert tags != []; }
    var rest := SizeField(sized, 11 + |tags[0].body|) + Body(tags[1..], sized);
    TagIsNoSize(tags[0], rest);
    FrontBytes(seen, ahead, TagBytes(tags[0]), rest, 4);
    assert (TagBytes(tags[0]) + rest)[..4] == TagBytes(tags[0])[..4];
  }

  lemma TypeAhead(seen: bytes, ahead: bytes, tags: seq<Tag>, sized: bool)
    requires AllFit(tags) && seen + ahead == Body(tags, sized) && seen != []
    ensures var b: int := seen[0]; TypeFrom(b % 32).Some?
  {
    hide SizeField;
    BodyFirst(tags, sized) by { assert tags != []; }
    assert seen[0] == (seen + ahead)[0] == TypeByte(tags[0].tagType);
  }

  /** What the size check sees where a size field may come: the field itself, or a tag. */
  lemma SizeCheck(seen: bytes, ahead: bytes, tags: seq<Tag>, sized: bool, total: nat)
    requires AllFit(tags) && total <= 11 + MAX_BODY && |seen| >= 4
    requires seen + ahead == SizeField(sized, total) + Body(tags, sized)
    ensures sized ==> FromBE32(seen[..4]) == total && seen[4..] + ahead == Body(tags, sized)
    ensures sized && |seen| > 4 ==> var b: int := seen[4]; TypeFrom(b % 32).Some?
    ensures !sized ==> FromBE32(seen[..4]) != total
  {
    hide Body, BE32, FromBE32, TypeFrom, TagBytes;
    if sized {
      Front(seen, ahead, BE32(total), Body(tags, sized));
      BE32RoundTrip(total);
      if |seen| > 4 {
        TypeAhead(seen[4..], ahead, tags, sized);
      }
    } else {
      assert SizeField(sized, total) + Body(tags, sized) == Body(tags, sized);
      BodyIsNoSize(seen, ahead, tags, sized);
    }
  }

  /** What the tag parser sees at a tag: its header once eleven bytes are there, its body once all are. */
  lemma TagCheck(seen: bytes, ahead: bytes, tags: seq<Tag>, sized: bool)
    requires AllFit(tags) && seen + ahead == Body(tags, sized) && |seen| >= 11
    ensures tags != [] && tags[0].Fits()
    ensures ParseTagHeader(seen[..11]) == Ok(TagHeader(tags[0].tagType, false, |tags[0].body|, tags[0].timestampMs, 0))
    ensures |seen| >= 11 + |tags[0].body| ==>
              && seen[11..11 + |tags[0].body|] == tags[0].body && AllFit(tags[1..])
              && seen[11 + |tags[0].body|..] + ahead == SizeField(sized, 11 + |tags[0].body|) + Body(tags[1..], sized)
  {
    BodyFirst(tags, sized) by { assert tags != []; }
    var tag := tags[0];
    var rest := SizeField(sized, 11 + |tag.body|) + Body(tags[1..], sized);
    HeaderRoundTrip(tag.tagType, |tag.body|, tag.timestampMs);
    FrontBytes(seen, ahead, TagBytes(tag), rest, 11);
    assert TagBytes(tag)[..11] == HeaderBytes(tag.tagType, |tag.body|, tag.timestampMs);
    if |seen| >= 11 + |tag.body| {
      Front(seen, ahead, TagBytes(tag), rest);
      assert seen[11..11 + |tag.body|] == seen[..11 + |tag.body|][11..] == tag.body;
    }
  }

  lemma HeaderCheck(seen: bytes, ahead: bytes, tags: seq<Tag>, sized: bool, hasAudio: bool, hasVideo: bool)
    requires AllFit(tags) && |seen| >= 9
    requires seen + ahead == FileBytes(Flags(hasAudio, hasVideo), sized) + Body(tags, sized)
    ensures ParseFileHeader(seen[..9]) == Ok(FileHeader(1, hasAudio, hasVideo, 9))
    ensures seen[9..] + ahead == SizeField(sized, 0) + Body(tags, sized)
  {
    hide Body, BE32, ParseFileHeader;
    var file := FileBytes(Flags(hasAudio, hasVideo), sized);
    FileHeaderRoundTrip(hasAudio, hasVideo, sized);
    FrontBytes(seen, ahead, file, Body(tags, sized), 9);
    assert file[9..] == SizeField(sized, 0);
    assert (seen + ahead)[9..] == seen[9..] + ahead;
    assert (file + Body(tags, sized))[9..] == file[9..] + Body(tags, sized);
  }

  // ---- What each step keeps ----

  /** Consuming a size field that is there, or leaving the tag that is there. */
  lemma SizeStep(buffer: bytes, pos: nat, ahead: bytes, tags: seq<Tag>, sized: bool, flags: byte, total: nat,
                 pending: bool)
    requires Following(buffer, pos, ahead, tags, sized, flags, true, total, pending) && (pending || total == 0)
    requires |buffer| - pos >= 4
    ensures var seen := buffer[pos..];
            if FromBE32(seen[..4]) == total then
              && (|seen| == 4 || (var b: int := seen[4]; TypeFrom(b % 32).Some?))
              && pos + 4 <= |buffer| && Following(buffer, pos + 4, ahead, tags, sized, flags, true, total, false)
            else
              && Following(buffer, pos, ahead, tags, sized, flags, true, total, false)
              && seen + ahead == Body(tags, sized)
  {
    hide Body, FromBE32, Tight;
    var seen := buffer[pos..];
    assert buffer[pos + 4..] == seen[4..];
    if seen + ahead == Body(tags, sized) {
      BodyIsNoSize(seen, ahead, tags, sized);
    } else {
      assert sized && seen + ahead == SizeField(sized, total) + Body(tags, sized) by {
        assert [] + Body(tags, sized) == Body(tags, sized);
      }
      SizeCheck(seen, ahead, tags, sized, total);
      TightMore(pos, |buffer|);
    }
  }

  /** Where too little is there for the next step, no tag is complete. */
  lemma NothingComplete(buffer: bytes, pos: nat, ahead: bytes, tags: seq<Tag>, sized: bool, flags: byte, total: nat,
                        pending: bool)
    requires Following(buffer, pos, ahead, tags, sized, flags, true, total, pending)
    requires |buffer| - pos < 4 || (buffer[pos..] + ahead == Body(tags, sized) && |buffer| - pos < 11)
             || (tags != [] && tags[0].Fits() && buffer[pos..] + ahead == Body(tags, sized)
                 && |buffer| - pos < 11 + |tags[0].body|)
    ensures |buffer| <= MAX_KEPT && (ahead == [] ==> tags == [])
  {
    if tags != [] {
      BodyFirst(tags, sized);
    }
    assert buffer[pos..] + [] == buffer[pos..];
  }

  /** A complete tag: what is parsed, and how the stream goes on behind it. */
  lemma TagStep(buffer: bytes, pos: nat, ahead: bytes, tags: seq<Tag>, sized: bool, flags: byte, total: nat)
    requires Following(buffer, pos, ahead, tags, sized, flags, true, total, false)
    requires buffer[pos..] + ahead == Body(tags, sized) && |buffer| - pos >= 11
    ensures var seen := buffer[pos..];
            && tags != [] && tags[0].Fits()
            && ParseTagHeader(seen[..11]) ==
            Ok(TagHeader(tags[0].tagType, false, |tags[0].body|, tags[0].timestampMs, 0))
            && (|seen| >= 11 + |tags[0].body| ==>
                  && seen[11..11 + |tags[0].body|] == tags[0].body && AllFit(tags[1..])
                  && Tag(tags[0].tagType, tags[0].timestampMs, seen[11..11 + |tags[0].body|]) == tags[0]
                  && seen[11 + |tags[0].body|..] + ahead ==
                  SizeField(sized, 11 + |tags[0].body|) + Body(tags[1..], sized))
  {
    TagCheck(buffer[pos..], ahead, tags, sized);
  }

  /** Behind a tag, its size field comes next. */
  lemma BehindTag(buffer: bytes, pos: nat, ahead: bytes, tags: seq<Tag>, sized: bool, flags: byte, total: nat)
    requires pos <= |buffer| && AllFit(tags) && 0 < total <= 11 + MAX_BODY && Tight(pos, |buffer|, 0)
    requires buffer[pos..] + ahead == SizeField(sized, total) + Body(tags, sized)
    ensures Following(buffer, pos, ahead, tags, sized, flags, true, total, true)
    ensures !sized ==> Following(buffer, pos, ahead, tags, sized, flags, true, total, false)
  {
    TightMore(pos, |buffer|);
    assert !sized ==> SizeField(sized, total) + Body(tags, sized) == [] + Body(tags, sized);
  }

  lemma HeaderStep(buffer: bytes, pos: nat, ahead: bytes, tags: seq<Tag>, sized: bool, hasAudio: bool, hasVideo: bool)
    requires Following(buffer, pos, ahead, tags, sized, Flags(hasAudio, hasVideo), false, 0, false)
    ensures |buffer| - pos >= 9 ==>
              && ParseFileHeader(buffer[pos..][..9]) == Ok(FileHeader(1, hasAudio, hasVideo, 9))
              && buffer[pos..][9..] + ahead == SizeField(sized, 0) + Body(tags, sized)
    ensures |buffer| - pos < 9 ==> ahead != [] && |buffer| <= MAX_KEPT
  {
    if |buffer| - pos >= 9 {
      HeaderCheck(buffer[pos..], ahead, tags, sized, hasAudio, hasVideo);
    } else {
      assert buffer[pos..] + [] == buffer[pos..];
    }
  }

  lemma BehindHeader(buffer: bytes, pos: nat, ahead: bytes, tags: seq<Tag>, sized: bool, flags: byte)
    requires pos <= |buffer| && AllFit(tags) && Tight(pos, |buffer|, 0)
    requires buffer[pos..] + ahead == SizeField(sized, 0) + Body(tags, sized)
    ensures Following(buffer, pos, ahead, tags, sized, flags, true, 0, false)
  {
    TightMore(pos, |buffer|);
  }

  /** One turn of the parse loop: go round again, or return. */
  datatype Turn<E> = Again | Return(result: Result<Option<Event<E>>, FlvError>)

  class FlvDemuxer<S, E> {
    const mode: Mode
    const interpret: Interpreter<S, E>

    var state: S
    var buffer: bytes
    var readPos: nat
    var header: Option<FileHeader>
    var previousTagTotalSize: nat
    var pendingPreviousTagSize: bool
    var pendingEvents: seq<Event<E>>
    var error: Option<FlvError>

    ghost predicate Valid()
      reads this`readPos, this`buffer
    {
      readPos <= |buffer|
    }

    /** The bytes in the buffer that have not been read. */
    function Seen(): bytes
      requires readPos <= |buffer|
      reads this`readPos, this`buffer
    {
      buffer[readPos..]
    }

    /**
     * What has not been read, continued by `ahead`, are the tags `tags` written with or without size fields, behind the
     * file header as long as it has not been read either.
     */
    ghost predicate Follows(tags: seq<Tag>, sized: bool, flags: byte, ahead: bytes)
      reads this`readPos, this`buffer, this`header, this`previousTagTotalSize, this`pendingPreviousTagSize, this`error
    {
      && error == None && mode != File && (mode == Stream ==> !sized && !pendingPreviousTagSize)
      && Following(buffer, readPos, ahead, tags, sized, flags, header.Some?, previousTagTotalSize,
                   pendingPreviousTagSize)
    }

    constructor (mode: Mode, interpret: Interpreter<S, E>, state: S)
      ensures Valid() && buffer == [] && readPos == 0 && header == None && pendingEvents == [] && error == None
      ensures this.mode == mode && this.interpret == interpret && this.state == state
      ensures previousTagTotalSize == 0 && !pendingPreviousTagSize
    {
      this.mode, this.interpret, this.state := mode, interpret, state;
      buffer, readPos, header := [], 0, None;
      previousTagTotalSize, pendingPreviousTagSize, pendingEvents, error := 0, false, [], None;
    }

    /** Input over the buffer limit puts the demuxer into its error state. */
    method Push(data: bytes)
      requires Valid()
      modifies this`buffer, this`error
      ensures Valid() && |buffer| >= |old(buffer)| && old(buffer) == buffer[..|old(buffer)|]
      ensures data == [] || old(error).Some? ==> unchanged(this)
      ensures data != [] && old(error).None? ==>
                if |old(buffer)| + |data| > MAX_BUFFER then error == Some(LimitExceeded) && buffer == old(buffer)
                else error == None && buffer == old(buffer) + data
    {
      if data == [] || error.Some? {
        return;
      }
      if |buffer| + |data| > MAX_BUFFER {
        error := Some(LimitExceeded);
        return;
      }
      buffer := buffer + data;
    }

    /** Drops the consumed prefix when it is long and more than half the buffer. */
    method Shrink()
      requires Valid()
      modifies this`buffer, this`readPos
      ensures Valid() && Seen() == old(Seen()) && |buffer| <= |old(buffer)| && Tight(readPos, |buffer|, 0)
      ensures (readPos, |buffer|) == Shrunk(old(readPos), |old(buffer)|)
    {
      if readPos > 4096 && readPos * 2 > |buffer| {
        buffer := buffer[readPos..];
        readPos := 0;
      }
    }

    method ParseHeader() returns (r: Result<Option<Event<E>>, FlvError>)
      requires Valid() && header.None?
      modifies this`buffer, this`readPos, this`header
      ensures Valid() && |buffer| <= |old(buffer)| && (r.Ok? && r.value.Some? ==> r.value.value.Header? && header.Some?)
      ensures |old(Seen())| < 9 ==> r == Ok(None) && unchanged(this)
      ensures |old(Seen())| >= 9 ==>
                match ParseFileHeader(old(Seen())[..9])
                case Err(e) => r == Err(e) && unchanged(this)
                case Ok(h) =>
                  if |old(Seen())| < h.headerSize then r == Ok(None) && unchanged(this)
                  else && r == Ok(Some(Header(h))) && header == Some(h) && Seen() == old(Seen())[h.headerSize..]
                       && Tight(readPos, |buffer|, 0)
                       && (readPos, |buffer|) == Shrunk(old(readPos) + h.headerSize, |old(buffer)|)
    {
      hide Tight, ParseFileHeader;
      var seen := Seen();
      if |seen| < 9 {
        return Ok(None);
      }
      var parsed := ParseFileHeader(seen[..9]);
      if parsed.Err? {
        return Err(parsed.error);
      }
      HeaderSizeOk(seen[..9]);
      var skip := parsed.value.headerSize;
      if |seen| < skip {
        return Ok(None);
      }
      readPos := readPos + skip;
      assert Seen() == seen[skip..];
      header := Some(parsed.value);
      Shrink();
      return Ok(Some(Header(parsed.value)));
    }

    /** A size field of the expected value is consumed. */
    method ConsumeOptionalPreviousTagSize(expected: nat) returns (r: Result<bool, FlvError>)
      requires Valid()
      modifies this`readPos
      ensures Valid()
      ensures mode == Stream || (mode == Auto && |old(Seen())| < 4) ==> r == Ok(false)
      ensures mode == File && |old(Seen())| < 4 ==> r == Err(NeedMoreData)
      ensures mode != Stream && |old(Seen())| >= 4 ==>
                r == if FromBE32(old(Seen())[..4]) == expected then Ok(true)
                     else if mode == File then Err(MalformedTag) else Ok(false)
      ensures r == Ok(true) ==> |old(Seen())| >= 4 && readPos == old(readPos) + 4 && Seen() == old(Seen())[4..]
      ensures r != Ok(true) ==> unchanged(this)
    {
      if mode == Stream {
        return Ok(false);
      }
      if |buffer| - readPos < 4 {
        return if mode == File then Err(NeedMoreData) else Ok(false);
      }
      var value := FromBE32(buffer[readPos..readPos + 4]);
      assert buffer[readPos..readPos + 4] == Seen()[..4];
      if value == expected {
        assert buffer[readPos + 4..] == Seen()[4..];
        readPos := readPos + 4;
        return Ok(true);
      }
      return if mode == File then Err(MalformedTag) else Ok(false);
    }

    /** A size field is consumed if it has the size of the tag before and a tag, or nothing yet, follows. */
    method TryConsumePreviousTagSize() returns (r: Result<Option<nat>, FlvError>)
      requires Valid()
      modifies this`readPos, this`pendingPreviousTagSize
      ensures Valid()
      ensures mode == Stream ==> r == Ok(None) && unchanged(this)
      ensures mode == File && |old(Seen())| < 4 ==> r == Err(NeedMoreData) && unchanged(this)
      ensures mode == Auto && |old(Seen())| < 4 ==> r == Ok(None) && pendingPreviousTagSize && unchanged(this`readPos)
      ensures mode != Stream && |old(Seen())| >= 4 ==>
                && pendingPreviousTagSize == old(pendingPreviousTagSize)
                && var seen, value := old(Seen()), FromBE32(old(Seen())[..4]);
                   if (|seen| == 4 || (var b: int := seen[4]; TypeFrom(b % 32).Some?))
                   && value == previousTagTotalSize then
                     r == Ok(Some(value)) && readPos == old(readPos) + 4 && Seen() == seen[4..]
                   else r == Ok(None) && unchanged(this)
    {
      if mode == Stream {
        return Ok(None);
      }
      if |buffer| - readPos < 4 {
        if mode == File {
          return Err(NeedMoreData);
        }
        pendingPreviousTagSize := true;
        return Ok(None);
      }
      var value := FromBE32(buffer[readPos..readPos + 4]);
      assert buffer[readPos..readPos + 4] == Seen()[..4];
      assert readPos + 4 < |buffer| ==> buffer[readPos + 4] == Seen()[4];
      var looksValid := true;
      if readPos + 4 < |buffer| {
        var next: int := buffer[readPos + 4];
        looksValid := TypeFrom(next % 32).Some?;
      }
      if looksValid && value == previousTagTotalSize {
        assert buffer[readPos + 4..] == Seen()[4..];
        readPos := readPos + 4;
        return Ok(Some(value));
      }
      return Ok(None);
    }

    method ParseTag() returns (r: Result<Option<TagHeader>, FlvError>)
      requires Valid()
      ensures |Seen()| < 11 ==> r == Ok(None)
      ensures |Seen()| >= 11 ==>
                match ParseTagHeader(Seen()[..11])
                case Err(e) => r == Err(e)
                case Ok(h) => r == if h.filter then Err(MalformedTag) else Ok(Some(h))
    {
      if |buffer| - readPos < 11 {
        return Ok(None);
      }
      assert buffer[readPos..readPos + 11] == Seen()[..11];
      var parsed := ParseTagHeader(buffer[readPos..readPos + 11]);
      if parsed.Err? {
        return Err(parsed.error);
      }
      if parsed.value.filter {
        return Err(MalformedTag);
      }
      return Ok(Some(parsed.value));
    }

    /** A tag whose body is all there is consumed and interpreted; later events of it wait in `pendingEvents`. */
    method ProcessTag(h: TagHeader) returns (r: Result<Option<Event<E>>, FlvError>)
      requires Valid() && pendingEvents == []
      modifies this`state, this`buffer, this`readPos, this`previousTagTotalSize, this`pendingEvents
      ensures Valid() && |buffer| <= |old(buffer)|
      ensures h.streamId != 0 ==> r == Err(MalformedTag) && unchanged(this)
      ensures h.streamId == 0 && |old(Seen())| < 11 + h.dataSize ==> r == Ok(None) && unchanged(this)
      ensures h.streamId == 0 && |old(Seen())| >= 11 + h.dataSize ==>
                && Seen() == old(Seen())[11 + h.dataSize..] && Tight(readPos, |buffer|, 0)
                && previousTagTotalSize == 11 + h.dataSize
                && (readPos, |buffer|) == Shrunk(old(readPos) + 11 + h.dataSize, |old(buffer)|)
                && var (next, made) := interpret(old(state),
                                                 Tag(h.tagType, h.timestampMs, old(Seen())[11..11 + h.dataSize]));
                   && state == next
                   && match made
                      case Err(e) => r == Err(e) && pendingEvents == []
                      case Ok(events) =>
                        if events == [] then r == Ok(None) && pendingEvents == []
                        else r == Ok(Some(Media(events[0]))) && pendingEvents == AsMedia(events[1..])
    {
      hide Tight;
      if h.streamId != 0 {
        return Err(MalformedTag);
      }
      var total := h.dataSize + 11;
      if |buffer| - readPos < total {
        return Ok(None);
      }
      var dataStart := readPos + 11;
      var dataEnd := dataStart + h.dataSize;
      assert buffer[dataStart..dataEnd] == Seen()[11..total];
      assert buffer[dataEnd..] == Seen()[total..];
      var data := buffer[dataStart..dataEnd];
      readPos := dataEnd;
      previousTagTotalSize := total;
      Shrink();
      var (next, made) := interpret(state, Tag(h.tagType, h.timestampMs, data));
      state := next;
      match made {
        case Err(e) => return Err(e);
        case Ok(events) =>
          if events == [] {
            return Ok(None);
          }
          pendingEvents := AsMedia(events[1..]);
          return Ok(Some(Media(events[0])));
      }
    }

    /** An unfinished size field behind the last tag. */
    method SettlePending(ghost tags: seq<Tag>, ghost sized: bool, ghost flags: byte, ghost ahead: bytes)
      returns (t: Turn<E>)
      requires Valid() && header.Some? && pendingPreviousTagSize
      modifies this`readPos, this`pendingPreviousTagSize, this`previousTagTotalSize
      ensures Valid()
      ensures t.Again? ==> !pendingPreviousTagSize && |Seen()| <= |old(Seen())|
      ensures old(Follows(tags, sized, flags, ahead)) ==>
                && Follows(tags, sized, flags, ahead)
                && (t.Return? ==> t.result == Ok(None) && |buffer| <= MAX_KEPT && (ahead == [] ==> tags == []))
    {
      hide Following, Tight, FromBE32;
      if mode == Stream {
        pendingPreviousTagSize := false;
        return Again;
      }
      if |buffer| - readPos >= 4 {
        if Follows(tags, sized, flags, ahead) {
          SizeStep(buffer, readPos, ahead, tags, sized, flags, previousTagTotalSize, true);
        }
        var consumed := TryConsumePreviousTagSize();
        if consumed.value.Some? {
          previousTagTotalSize := consumed.value.value;
        }
        pendingPreviousTagSize := false;
        return Again;
      }
      if mode == File {
        return Return(Err(NeedMoreData));
      }
      if Follows(tags, sized, flags, ahead) {
        NothingComplete(buffer, readPos, ahead, tags, sized, flags, previousTagTotalSize, true);
      }
      return Return(Ok(None));
    }

    /** The size field at the first tag boundary, which must be 0. */
    method StartSize(ghost tags: seq<Tag>, ghost sized: bool, ghost flags: byte, ghost ahead: bytes)
      returns (r: Result<bool, FlvError>)
      requires Valid() && header.Some? && !pendingPreviousTagSize
      modifies this`readPos
      ensures Valid() && (r == Ok(true) ==> |Seen()| < |old(Seen())|) && |Seen()| <= |old(Seen())|
      ensures mode == File && previousTagTotalSize == 0 ==> r.Err? || r.value
      ensures mode == Stream ==> r == Ok(false) && unchanged(this)
      ensures old(Follows(tags, sized, flags, ahead)) ==>
                r.Ok? && Follows(tags, sized, flags, ahead) && (!r.value ==> AtBoundary(tags, sized, flags, ahead))
    {
      hide Following, Tight, FromBE32, Body;
      if previousTagTotalSize != 0 {
        if Follows(tags, sized, flags, ahead) {
          AtTag(buffer, readPos, ahead, tags, sized, flags, previousTagTotalSize);
        }
        return Ok(false);
      }
      if Follows(tags, sized, flags, ahead) {
        FollowingFits(buffer, readPos, ahead, tags, sized, flags, 0, false);
      }
      if Follows(tags, sized, flags, ahead) && |buffer| - readPos >= 4 {
        SizeStep(buffer, readPos, ahead, tags, sized, flags, 0, false);
      }
      if Follows(tags, sized, flags, ahead) && mode == Stream {
        AtUnsized(buffer, readPos, ahead, tags, flags, previousTagTotalSize);
      }
      r := ConsumeOptionalPreviousTagSize(0);
    }

    /** The size field behind the tag that has just been taken, if it is there. */
    method PassSizeField(ghost tags: seq<Tag>, ghost sized: bool, ghost flags: byte, ghost ahead: bytes)
      returns (r: Result<(), FlvError>)
      requires Valid() && !pendingPreviousTagSize && header.Some?
      modifies this`readPos, this`pendingPreviousTagSize, this`previousTagTotalSize
      ensures Valid() && |Seen()| <= |old(Seen())| && (mode == Stream ==> unchanged(this))
      ensures error == None && mode != File && (mode == Stream ==> !sized) && AllFit(tags)
              && old(Tight(readPos, |buffer|, 0))
              && 0 < old(previousTagTotalSize) <= 11 + MAX_BODY
              && old(Seen()) + ahead == SizeField(sized, old(previousTagTotalSize)) + Body(tags, sized) ==>
                r.Ok? && Follows(tags, sized, flags, ahead)
    {
      hide Following, Tight, FromBE32, Body, SizeField;
      if error == None && mode != File && (mode == Stream ==> !sized) && AllFit(tags) && Tight(readPos, |buffer|, 0)
         && 0 < previousTagTotalSize <= 11 + MAX_BODY
         && Seen() + ahead == SizeField(sized, previousTagTotalSize) + Body(tags, sized) {
        BehindTag(buffer, readPos, ahead, tags, sized, flags, previousTagTotalSize);
        if |buffer| - readPos >= 4 {
          SizeStep(buffer, readPos, ahead, tags, sized, flags, previousTagTotalSize, true);
        }
      }
      var consumed := TryConsumePreviousTagSize();
      if consumed.Err? {
        return Err(consumed.error);
      }
      if consumed.value.Some? {
        previousTagTotalSize := consumed.value.value;
      }
      return Ok(());
    }

    /** The demuxer is at a tag, or does not have the four bytes yet that would tell. */
    ghost predicate AtBoundary(tags: seq<Tag>, sized: bool, flags: byte, ahead: bytes)
      reads this`readPos, this`buffer, this`header, this`previousTagTotalSize, this`pendingPreviousTagSize, this`error
    {
      && Follows(tags, sized, flags, ahead) && header.Some? && AllFit(tags)
      && (Seen() + ahead == Body(tags, sized) || |Seen()| < 4)
    }

    /**
     * The tag at the read position, if all of it is there, and the size field behind it, if that is there too. A tag
     * without events is passed over, but for one that vanishes: it is taken for missing, exactly when it is longer than
     * 4096 bytes and than half the buffer, and at the front of it.
     */
    method TakeTag(ghost tags: seq<Tag>, ghost sized: bool, ghost flags: byte, ghost ahead: bytes) returns (t: Turn<E>)
      requires Valid() && header.Some? && !pendingPreviousTagSize && pendingEvents == []
      modifies this`state, this`buffer, this`readPos, this`previousTagTotalSize, this`pendingEvents,
               this`pendingPreviousTagSize
      ensures Valid() && |buffer| <= |old(buffer)| && (t.Again? ==> pendingEvents == [] && |Seen()| < |old(Seen())|)
      ensures old(AtBoundary(tags, sized, flags, ahead)) && Understood(interpret, old(state), tags) ==>
                if tags == [] || |old(Seen())| < 11 + |tags[0].body| then
                  && t == Return(Ok(None)) && Follows(tags, sized, flags, ahead) && |buffer| <= MAX_KEPT
                  && (ahead == [] ==> tags == []) && state == old(state) && pendingEvents == []
                else
                  && Follows(tags[1..], sized, flags, ahead)
                  && (mode == Stream ==>
                        (readPos, |buffer|) == Shrunk(old(readPos) + 11 + |tags[0].body|, |old(buffer)|))
                  && var (next, made) := interpret(old(state), tags[0]);
                     && state == next
                     && if made.value == [] then
                          && pendingEvents == []
                          && t == if !sized && Vanishes(old(readPos), |old(buffer)|, 11 + |tags[0].body|) then
                            Return(Ok(None))
                                  else Again
                        else t == Return(Ok(Some(Media(made.value[0])))) && pendingEvents == AsMedia(made.value[1..])
    {
      hide Following, Tight, FromBE32, Body, ParseTagHeader, SizeField;
      ghost var follows := AtBoundary(tags, sized, flags, ahead);
      if follows && sized {
        BehindSize(buffer, readPos, ahead, tags, flags, previousTagTotalSize);
      }
      if follows {
        WhatIsThere(buffer, readPos, ahead, tags, sized, flags, previousTagTotalSize);
      }
      var tag := ParseTag();
      if tag.Err? {
        return Return(Err(tag.error));
      }
      if tag.value.None? {
        return Return(Ok(None));
      }
      var startPos := readPos;
      var event := ProcessTag(tag.value.value);
      if event.Err? {
        return Return(Err(event.error));
      }
      if event.value.None? && readPos == startPos {
        if follows && Understood(interpret, old(state), tags) && |old(Seen())| >= 11 + |tags[0].body| {
          BehindUnsized(buffer, readPos, ahead, tags[1..], flags, previousTagTotalSize);
        }
        return Return(Ok(None));
      }
      var passed := PassSizeField(if follows then tags[1..] else [], sized, flags, ahead);
      if passed.Err? {
        return Return(Err(passed.error));
      }
      if event.value.Some? {
        return Return(Ok(event.value));
      }
      return Again;
    }

    /** What is handed out of the tags to come: an event of the first one that has any, or nothing as yet. */
    ghost predicate Advanced(tags: seq<Tag>, sized: bool, flags: byte, ahead: bytes, was: S, result: Option<Event<E>>,
                             left: seq<Tag>)
      reads this`readPos, this`buffer, this`header, this`previousTagTotalSize, this`pendingPreviousTagSize, this`error,
            this`state, this`pendingEvents
    {
      && header.Some? && Follows(left, sized, flags, ahead)
      && match result
         case None =>
           && Silent(interpret, was, tags, state, left) && pendingEvents == [] && |buffer| <= MAX_KEPT
           && (ahead == [] ==> left == [])
         case Some(e) => Takes(interpret, was, tags, e, pendingEvents, state, left)
    }

    /** In stream mode, the first tag is complete and understood, and has events or is about to vanish. */
    ghost predicate Complete(tags: seq<Tag>, flags: byte, ahead: bytes)
      reads this`readPos, this`buffer, this`header, this`previousTagTotalSize, this`pendingPreviousTagSize, this`error,
            this`state
    {
      && mode == Stream && header.Some? && Follows(tags, false, flags, ahead) && tags != []
      && Understood(interpret, state, tags)
      && readPos <= |buffer| && |Seen()| >= 11 + |tags[0].body|
      && (interpret(state, tags[0]).1.value != [] || Vanishes(readPos, |buffer|, 11 + |tags[0].body|))
    }

    /** That tag has been consumed: its first event is the result, or nothing if it has vanished. */
    ghost predicate Consumed(tags: seq<Tag>, flags: byte, ahead: bytes, was: S, pos: nat, len: nat,
                             r: Result<Option<Event<E>>, FlvError>)
      requires tags != [] && Understood(interpret, was, tags) && pos + 11 + |tags[0].body| <= len
      reads this`readPos, this`buffer, this`header, this`previousTagTotalSize, this`pendingPreviousTagSize, this`error,
            this`state, this`pendingEvents
    {
      var (next, made) := interpret(was, tags[0]);
      && header.Some? && Follows(tags[1..], false, flags, ahead) && state == next
      && (readPos, |buffer|) == Shrunk(pos + 11 + |tags[0].body|, len)
      && if made.value == [] then r == Ok(None) && pendingEvents == []
         else r == Ok(Some(Media(made.value[0]))) && pendingEvents == AsMedia(made.value[1..])
    }

    /** The tags up to the first with an event are understood, and those without do not vanish. */
    ghost predicate Passable(tags: seq<Tag>, sized: bool)
      reads this`readPos, this`buffer, this`state
    {
      Passes(interpret, state, tags, sized)
      || (mode == Stream && PassesAt(interpret, state, tags, sized, readPos, |buffer|))
    }

    /** One turn: a size field still expected, or the first one, or a tag. */
    method Advance(ghost tags: seq<Tag>, ghost sized: bool, ghost flags: byte, ghost ahead: bytes)
      returns (t: Turn<E>, ghost left: seq<Tag>)
      requires Valid() && header.Some? && pendingEvents == []
      modifies this`state, this`buffer, this`readPos, this`previousTagTotalSize, this`pendingEvents,
               this`pendingPreviousTagSize
      ensures Valid() && |buffer| <= |old(buffer)|
      ensures t.Again? ==> pendingEvents == [] && |Seen()| <= |old(Seen())|
                           && (|Seen()| < |old(Seen())| || (old(pendingPreviousTagSize) && !pendingPreviousTagSize))
      ensures mode == File && old(previousTagTotalSize) == 0 && !old(pendingPreviousTagSize) ==>
                && pendingEvents == [] && previousTagTotalSize == 0 && !pendingPreviousTagSize
                && (t.Return? ==> t.result.Err? || t.result.value.None?)
      ensures old(Follows(tags, sized, flags, ahead)) && old(Passable(tags, sized)) ==>
                if t.Again? then
                  && Follows(left, sized, flags, ahead) && Passes(interpret, state, left, sized)
                  && Silent(interpret, old(state), tags, state, left)
                else t.result.Ok? && Advanced(tags, sized, flags, ahead, old(state), t.result.value, left)
      ensures old(Complete(tags, flags, ahead)) && !sized ==>
                t.Return? && Consumed(tags, flags, ahead, old(state), old(readPos), |old(buffer)|, t.result)
    {
      hide Following, Tight, Body, AsMedia, Passes, PassesAt, Silent, Takes, Shrunk, Vanishes;
      left := tags;
      SilentNone(interpret, state, tags);
      if pendingPreviousTagSize {
        t := SettlePending(tags, sized, flags, ahead);
        return;
      }
      var started := StartSize(tags, sized, flags, ahead);
      if started.Err? {
        return Return(Err(started.error)), left;
      }
      if started.value {
        return Again, left;
      }
      ghost var follows := old(Follows(tags, sized, flags, ahead)) && old(Passable(tags, sized));
      ghost var taken := tags != [] && |Seen()| >= 11 + |tags[0].body|;
      if follows && tags != [] {
        PassesFirst(interpret, state, tags, sized, readPos, |buffer|);
      }
      t := TakeTag(tags, sized, flags, ahead);
      if follows && taken {
        left := tags[1..];
        if t.Again? {
          SilentOne(interpret, old(state), tags);
        } else {
          TakesNow(interpret, old(state), tags);
        }
      }
    }

    /** Tags are read until one has events or none is complete. */
    method NextTag(ghost tags: seq<Tag>, ghost sized: bool, ghost flags: byte, ghost ahead: bytes)
      returns (r: Result<Option<Event<E>>, FlvError>, ghost left: seq<Tag>)
      requires Valid() && header.Some? && pendingEvents == []
      modifies this`state, this`buffer, this`readPos, this`previousTagTotalSize, this`pendingEvents,
               this`pendingPreviousTagSize
      ensures Valid() && |buffer| <= |old(buffer)|
      ensures mode == File && old(previousTagTotalSize) == 0 && !old(pendingPreviousTagSize) ==>
                && pendingEvents == [] && previousTagTotalSize == 0 && !pendingPreviousTagSize
                && (r.Err? || r.value.None?)
      ensures old(Follows(tags, sized, flags, ahead)) && old(Passable(tags, sized)) ==>
                r.Ok? && Advanced(tags, sized, flags, ahead, old(state), r.value, left)
      ensures old(Complete(tags, flags, ahead)) && !sized ==>
                Consumed(tags, flags, ahead, old(state), old(readPos), |old(buffer)|, r)
    {
      hide Follows, Consumed, Passes, PassesAt, Silent, Takes, Vanishes;
      ghost var follows := Follows(tags, sized, flags, ahead) && Passable(tags, sized);
      var t;
      t, left := Advance(tags, sized, flags, ahead);
      while t.Again?
        invariant Valid() && |buffer| <= |old(buffer)| && (t.Again? ==> pendingEvents == [])
        invariant mode == File && old(previousTagTotalSize) == 0 && !old(pendingPreviousTagSize) ==>
                    && pendingEvents == [] && previousTagTotalSize == 0 && !pendingPreviousTagSize
                    && (t.Return? ==> t.result.Err? || t.result.value.None?)
        invariant follows ==>
                    if t.Again? then
                      && Follows(left, sized, flags, ahead) && Passes(interpret, state, left, sized)
                      && Silent(interpret, old(state), tags, state, left)
                    else t.result.Ok? && Advanced(tags, sized, flags, ahead, old(state), t.result.value, left)
        invariant old(Complete(tags, flags, ahead)) && !sized ==>
                    t.Return? && Consumed(tags, flags, ahead, old(state), old(readPos), |old(buffer)|, t.result)
        decreases t.Again?, |Seen()|, pendingPreviousTagSize
      {
        ghost var mid, was := state, left;
        t, left := Advance(was, sized, flags, ahead);
        if follows {
          AdvancedOn(tags, sized, flags, ahead, old(state), mid, was, t, left);
        }
      }
      return t.result, left;
    }

    /** What is handed out of the tags left is handed out of all. */
    lemma AdvancedOn(tags: seq<Tag>, sized: bool, flags: byte, ahead: bytes, was: S, mid: S, rest: seq<Tag>, t: Turn<E>,
                     left: seq<Tag>)
      requires Silent(interpret, was, tags, mid, rest)
      requires if t.Again? then Silent(interpret, mid, rest, state, left)
               else t.result.Ok? && Advanced(rest, sized, flags, ahead, mid, t.result.value, left)
      ensures if t.Again? then Silent(interpret, was, tags, state, left)
              else Advanced(tags, sized, flags, ahead, was, t.result.value, left)
    {
      hide Follows, Takes, Silent;
      if t.Return? && t.result.value.Some? {
        SilentTakes(interpret, was, tags, mid, rest, t.result.value.value, pendingEvents, state, left);
      } else {
        SilentTwice(interpret, was, tags, mid, rest, state, left);
      }
    }

    /**
     * The next event, if the bytes so far complete one. On a well-formed stream every complete tag is reported, with
     * the events it yields, whether size fields are there or not; tags without events are passed over.
     */
    method NextEvent(ghost tags: seq<Tag>, ghost sized: bool, ghost hasAudio: bool, ghost hasVideo: bool,
                     ghost ahead: bytes)
      returns (r: Result<Option<Event<E>>, FlvError>, ghost left: seq<Tag>)
      requires Valid()
      modifies this`state, this`buffer, this`readPos, this`previousTagTotalSize, this`pendingEvents,
               this`pendingPreviousTagSize, this`header
      ensures Valid() && |buffer| <= |old(buffer)|
      ensures error.Some? ==> r == Err(error.value) && unchanged(this)
      ensures error.None? && |old(buffer)| > MAX_BUFFER ==> r == Err(LimitExceeded) && unchanged(this)
      ensures error.None? && |old(buffer)| <= MAX_BUFFER && old(pendingEvents) != [] ==>
                r == Ok(Some(old(pendingEvents)[0])) && pendingEvents == old(pendingEvents)[1..] && left == tags
                && unchanged(this`state, this`buffer, this`readPos, this`previousTagTotalSize,
                             this`pendingPreviousTagSize, this`header)
      ensures mode == File && old(pendingEvents) == [] && old(previousTagTotalSize) == 0
              && !old(pendingPreviousTagSize) ==>
                && pendingEvents == [] && previousTagTotalSize == 0 && !pendingPreviousTagSize
                && (r.Ok? && r.value.Some? ==> r.value.value.Header? && old(header).None? && header.Some?)
                && (old(header).Some? ==> header.Some?)
      ensures |old(buffer)| <= MAX_BUFFER && old(pendingEvents) == [] && old(header) == None
              && old(Follows(tags, sized, Flags(hasAudio, hasVideo), ahead)) ==>
                && left == tags
                && Follows(tags, sized, Flags(hasAudio, hasVideo), ahead) && pendingEvents == [] && state == old(state)
                && if header == None then r == Ok(None) && ahead != [] && |buffer| <= MAX_KEPT
                   else r == Ok(Some(Header(FileHeader(1, hasAudio, hasVideo, 9))))
                        && old(readPos) + 9 <= |old(buffer)|
                        && (readPos, |buffer|) == Shrunk(old(readPos) + 9, |old(buffer)|)
      ensures |old(buffer)| <= MAX_BUFFER && old(pendingEvents) == [] && old(header).Some?
              && old(Follows(tags, sized, Flags(hasAudio, hasVideo), ahead)) && old(Passable(tags, sized)) ==>
                r.Ok? && Advanced(tags, sized, Flags(hasAudio, hasVideo), ahead, old(state), r.value, left)
      ensures |old(buffer)| <= MAX_BUFFER && old(pendingEvents) == []
              && old(Complete(tags, Flags(hasAudio, hasVideo), ahead)) && !sized ==>
                Consumed(tags, Flags(hasAudio, hasVideo), ahead, old(state), old(readPos), |old(buffer)|, r)
    {
      hide Following, Tight, Body, AsMedia, ParseFileHeader, Flags, Advanced, Consumed, Shrunk;
      left := tags;
      if error.Some? {
        return Err(error.value), left;
      }
      if |buffer| > MAX_BUFFER {
        return Err(LimitExceeded), left;
      }
      if pendingEvents != [] {
        r := Ok(Some(pendingEvents[0]));
        pendingEvents := pendingEvents[1..];
        return;
      }
      if header.None? {
        r := FirstEvent(tags, sized, hasAudio, hasVideo, ahead);
        return;
      }
      r, left := NextTag(tags, sized, Flags(hasAudio, hasVideo), ahead);
    }

    method FirstEvent(ghost tags: seq<Tag>, ghost sized: bool, ghost hasAudio: bool, ghost hasVideo: bool,
                      ghost ahead: bytes)
      returns (r: Result<Option<Event<E>>, FlvError>)
      requires Valid() && header.None?
      modifies this`buffer, this`readPos, this`header
      ensures Valid() && |buffer| <= |old(buffer)| && (r.Ok? && r.value.Some? ==> r.value.value.Header? && header.Some?)
      ensures old(Follows(tags, sized, Flags(hasAudio, hasVideo), ahead)) ==>
                && Follows(tags, sized, Flags(hasAudio, hasVideo), ahead)
                && if header == None then r == Ok(None) && ahead != [] && |buffer| <= MAX_KEPT
                   else r == Ok(Some(Header(FileHeader(1, hasAudio, hasVideo, 9))))
                        && old(readPos) + 9 <= |old(buffer)|
                        && (readPos, |buffer|) == Shrunk(old(readPos) + 9, |old(buffer)|)
    {
      hide Following, Tight, Body, ParseFileHeader, Flags, SizeField, Shrunk;
      ghost var flags := Flags(hasAudio, hasVideo);
      ghost var follows := Follows(tags, sized, flags, ahead);
      if follows {
        FollowingStart(buffer, readPos, ahead, tags, sized, flags, previousTagTotalSize, pendingPreviousTagSize);
        HeaderStep(buffer, readPos, ahead, tags, sized, hasAudio, hasVideo);
      }
      r := ParseHeader();
      if follows && header.Some? {
        BehindHeader(buffer, readPos, ahead, tags, sized, flags);
      }
    }
  }

  /** At a boundary, what is there is a whole tag, or no tag is complete. */
  lemma WhatIsThere(buffer: bytes, pos: nat, ahead: bytes, tags: seq<Tag>, sized: bool, flags: byte, total: nat)
    requires Following(buffer, pos, ahead, tags, sized, flags, true, total, false) && AllFit(tags)
    requires pos <= |buffer| && (buffer[pos..] + ahead == Body(tags, sized) || |buffer| - pos < 4)
    ensures var seen := buffer[pos..];
            if |seen| < 11 then |buffer| <= MAX_KEPT && (ahead == [] ==> tags == [])
            else
              && tags != [] && tags[0].Fits()
              && ParseTagHeader(seen[..11]) ==
              Ok(TagHeader(tags[0].tagType, false, |tags[0].body|, tags[0].timestampMs, 0))
              && if |seen| < 11 + |tags[0].body| then |buffer| <= MAX_KEPT && (ahead == [] ==> tags == [])
                 else
                   && Tag(tags[0].tagType, tags[0].timestampMs, seen[11..11 + |tags[0].body|]) == tags[0]
                   && AllFit(tags[1..])
                   && seen[11 + |tags[0].body|..] + ahead ==
                   SizeField(sized, 11 + |tags[0].body|) + Body(tags[1..], sized)
  {
    hide Following, ParseTagHeader, Body, SizeField;
    var seen := buffer[pos..];
    if |seen| < 11 {
      NothingComplete(buffer, pos, ahead, tags, sized, flags, total, false);
    } else {
      TagStep(buffer, pos, ahead, tags, sized, flags, total);
      if |seen| < 11 + |tags[0].body| {
        NothingComplete(buffer, pos, ahead, tags, sized, flags, total, false);
      }
    }
  }

  /** In a stream with size fields, one has been consumed before any tag is read. */
  lemma BehindSize(buffer: bytes, pos: nat, ahead: bytes, tags: seq<Tag>, flags: byte, total: nat)
    requires Following(buffer, pos, ahead, tags, true, flags, true, total, false) && AllFit(tags)
    ensures buffer[pos..] + ahead == Body(tags, true) ==> pos >= 4
  {
    hide Unread, Tight, Body;
  }

  /** In a stream without size fields, the next tag comes right behind the last. */
  lemma BehindUnsized(buffer: bytes, pos: nat, ahead: bytes, tags: seq<Tag>, flags: byte, total: nat)
    requires pos <= |buffer| && AllFit(tags) && 0 < total <= 11 + MAX_BODY && Tight(pos, |buffer|, 0)
    requires buffer[pos..] + ahead == SizeField(false, total) + Body(tags, false)
    ensures Following(buffer, pos, ahead, tags, false, flags, true, total, false)
  {
    hide Body;
    BehindTag(buffer, pos, ahead, tags, false, flags, total);
  }

  lemma FollowingStart(buffer: bytes, pos: nat, ahead: bytes, tags: seq<Tag>, sized: bool, flags: byte, total: nat,
                       pending: bool)
    requires Following(buffer, pos, ahead, tags, sized, flags, false, total, pending)
    ensures AllFit(tags) && total == 0 && !pending
  {
  }

  /** The first tag is understood, if there is one. */
  ghost predicate Understood<S, E>(interpret: Interpreter<S, E>, state: S, tags: seq<Tag>)
  {
    tags != [] ==> interpret(state, tags[0]).1.Ok?
  }

  /** The tags up to the first with an event are understood, and those without cannot vanish. */
  ghost predicate Passes<S, E>(interpret: Interpreter<S, E>, state: S, tags: seq<Tag>, sized: bool)
    decreases |tags|
  {
    tags != [] ==>
      var (next, made) := interpret(state, tags[0]);
      made.Ok? && (made.value == [] ==>
                     (sized || 11 + |tags[0].body| <= 4096) && Passes(interpret, next, tags[1..], sized))
  }

  /** The first tag is understood and does not vanish from where it is, and those behind it cannot vanish. */
  ghost predicate PassesAt<S, E>(interpret: Interpreter<S, E>, state: S, tags: seq<Tag>, sized: bool, pos: nat,
                                 len: nat)
  {
    tags != [] ==>
      var (next, made) := interpret(state, tags[0]);
      made.Ok? && (made.value == [] ==>
                     (sized || !Vanishes(pos, len, 11 + |tags[0].body|)) && Passes(interpret, next, tags[1..], sized))
  }

  /** The tags before `left` have no events. */
  ghost predicate Silent<S, E>(interpret: Interpreter<S, E>, state: S, tags: seq<Tag>, next: S, left: seq<Tag>)
    decreases |tags|
  {
    (tags == left && state == next) ||
    (tags != [] && interpret(state, tags[0]).1 == Ok([])
     && Silent(interpret, interpret(state, tags[0]).0, tags[1..], next, left))
  }

  /** The first tag with events, behind tags without any. */
  ghost predicate Takes<S, E>(interpret: Interpreter<S, E>, state: S, tags: seq<Tag>, e: Event<E>,
                              pending: seq<Event<E>>, next: S, left: seq<Tag>)
    decreases |tags|
  {
    tags != [] &&
    var (after, made) := interpret(state, tags[0]);
    made.Ok? &&
    if made.value == [] then Takes(interpret, after, tags[1..], e, pending, next, left)
    else e == Media(made.value[0]) && pending == AsMedia(made.value[1..]) && next == after && left == tags[1..]
  }

  lemma SilentNone<S, E>(interpret: Interpreter<S, E>, state: S, tags: seq<Tag>)
    ensures Silent(interpret, state, tags, state, tags)
  {
  }

  lemma TakesNow<S, E>(interpret: Interpreter<S, E>, state: S, tags: seq<Tag>)
    requires tags != [] && interpret(state, tags[0]).1.Ok? && interpret(state, tags[0]).1.value != []
    ensures var (next, made) := interpret(state, tags[0]);
            Takes(interpret, state, tags, Media(made.value[0]), AsMedia(made.value[1..]), next, tags[1..])
  {
  }

  lemma PassesFirst<S, E>(interpret: Interpreter<S, E>, state: S, tags: seq<Tag>, sized: bool, pos: nat, len: nat)
    requires tags != [] && (Passes(interpret, state, tags, sized) || PassesAt(interpret, state, tags, sized, pos, len))
    ensures Understood(interpret, state, tags)
    ensures interpret(state, tags[0]).1.value == [] ==>
              && Passes(interpret, interpret(state, tags[0]).0, tags[1..], sized)
              && (sized || !Vanishes(pos, len, 11 + |tags[0].body|))
  {
  }

  lemma SilentOne<S, E>(interpret: Interpreter<S, E>, state: S, tags: seq<Tag>)
    requires tags != [] && interpret(state, tags[0]).1 == Ok([])
    ensures Silent(interpret, state, tags, interpret(state, tags[0]).0, tags[1..])
  {
  }

  lemma {:induction false} SilentTwice<S, E>(interpret: Interpreter<S, E>, state: S, tags: seq<Tag>, mid: S,
                                             rest: seq<Tag>, next: S, left: seq<Tag>)
    requires Silent(interpret, state, tags, mid, rest) && Silent(interpret, mid, rest, next, left)
    ensures Silent(interpret, state, tags, next, left)
    decreases |tags|
  {
    if !(tags == rest && state == mid) {
      SilentTwice(interpret, interpret(state, tags[0]).0, tags[1..], mid, rest, next, left);
    }
  }

  lemma {:induction false} SilentTakes<S, E>(interpret: Interpreter<S, E>, state: S, tags: seq<Tag>, mid: S,
                                             rest: seq<Tag>, e: Event<E>, pending: seq<Event<E>>, next: S,
                                             left: seq<Tag>)
    requires Silent(interpret, state, tags, mid, rest) && Takes(interpret, mid, rest, e, pending, next, left)
    ensures Takes(interpret, state, tags, e, pending, next, left)
    decreases |tags|
  {
    if !(tags == rest && state == mid) {
      SilentTakes(interpret, interpret(state, tags[0]).0, tags[1..], mid, rest, e, pending, next, left);
    }
  }

  lemma AtTag(buffer: bytes, pos: nat, ahead: bytes, tags: seq<Tag>, sized: bool, flags: byte, total: nat)
    requires Following(buffer, pos, ahead, tags, sized, flags, true, total, false) && total != 0
    ensures AllFit(tags) && buffer[pos..] + ahead == Body(tags, sized)
  {
    assert [] + Body(tags, sized) == Body(tags, sized);
  }

  lemma FollowingFits(buffer: bytes, pos: nat, ahead: bytes, tags: seq<Tag>, sized: bool, flags: byte, total: nat,
                      pending: bool)
    requires Following(buffer, pos, ahead, tags, sized, flags, true, total, pending)
    ensures AllFit(tags)
  {
  }

  lemma AtUnsized(buffer: bytes, pos: nat, ahead: bytes, tags: seq<Tag>, flags: byte, total: nat)
    requires Following(buffer, pos, ahead, tags, false, flags, true, total, false)
    ensures AllFit(tags) && buffer[pos..] + ahead == Body(tags, false)
  {
    assert [] + Body(tags, false) == Body(tags, false);
  }

  function AsMedia<E>(events: seq<E>): (r: seq<Event<E>>)
    ensures |r| == |events|
  {
    seq(|events|, i requires 0 <= i < |events| => Media(events[i]))
  }

  lemma HeaderSizeOk(d: bytes)
    ensures ParseFileHeader(d).Ok? ==> 9 <= ParseFileHeader(d).value.headerSize
  {
  }

  // ---- Whole streams ----

  /** Every tag of a stream is understood, and those without events cannot vanish. */
  ghost predicate PassesAll<S, E>(interpret: Interpreter<S, E>, state: S, tags: seq<Tag>, sized: bool)
    decreases |tags|
  {
    tags != [] ==>
      var (next, made) := interpret(state, tags[0]);
      made.Ok? && (made.value == [] ==> sized || 11 + |tags[0].body| <= 4096)
      && PassesAll(interpret, next, tags[1..], sized)
  }

  lemma {:induction false} AllPass<S, E>(interpret: Interpreter<S, E>, state: S, tags: seq<Tag>, sized: bool)
    requires PassesAll(interpret, state, tags, sized)
    ensures Passes(interpret, state, tags, sized)
    decreases |tags|
  {
    if tags != [] {
      AllPass(interpret, interpret(state, tags[0]).0, tags[1..], sized);
    }
  }

  /** The events of the tags, in order, the interpreter's state threaded through. */
  ghost function MediaAll<S, E>(interpret: Interpreter<S, E>, state: S, tags: seq<Tag>): seq<E>
    decreases |tags|
  {
    if tags == [] then []
    else
      var (next, made) := interpret(state, tags[0]);
      (if made.Ok? then made.value else []) + MediaAll(interpret, next, tags[1..])
  }

  /** All the events still to come. */
  ghost function Outlook<S, E>(interpret: Interpreter<S, E>, state: S, tags: seq<Tag>, pending: seq<Event<E>>,
                               first: seq<Event<E>>): seq<Event<E>>
  {
    first + (pending + AsMedia(MediaAll(interpret, state, tags)))
  }

  lemma OutlookPops<S, E>(interpret: Interpreter<S, E>, state: S, tags: seq<Tag>, pending: seq<Event<E>>)
    requires pending != []
    ensures Outlook(interpret, state, tags, pending, []) ==
            [pending[0]] + Outlook(interpret, state, tags, pending[1..], [])
  {
  }

  /** Tags without events change nothing in what is to come. */
  lemma {:induction false} OutlookStays<S, E>(interpret: Interpreter<S, E>, state: S, tags: seq<Tag>, sized: bool,
                                              next: S, left: seq<Tag>)
    requires PassesAll(interpret, state, tags, sized) && Silent(interpret, state, tags, next, left)
    ensures PassesAll(interpret, next, left, sized) && |left| <= |tags|
    ensures Outlook(interpret, state, tags, [], []) == Outlook(interpret, next, left, [], [])
    decreases |tags|
  {
    if !(tags == left && state == next) {
      OutlookStays(interpret, interpret(state, tags[0]).0, tags[1..], sized, next, left);
      assert [] + MediaAll(interpret, interpret(state, tags[0]).0, tags[1..]) ==
             MediaAll(interpret, interpret(state, tags[0]).0, tags[1..]);
    }
  }

  lemma {:induction false} OutlookTakes<S, E>(interpret: Interpreter<S, E>, state: S, tags: seq<Tag>, sized: bool,
                                              e: Event<E>, pending: seq<Event<E>>, next: S, left: seq<Tag>)
    requires PassesAll(interpret, state, tags, sized) && Takes(interpret, state, tags, e, pending, next, left)
    ensures PassesAll(interpret, next, left, sized) && |left| < |tags|
    ensures Outlook(interpret, state, tags, [], []) == [e] + Outlook(interpret, next, left, pending, [])
    decreases |tags|
  {
    var (after, made) := interpret(state, tags[0]);
    var rest := MediaAll(interpret, after, tags[1..]);
    if made.value == [] {
      OutlookTakes(interpret, after, tags[1..], sized, e, pending, next, left);
      assert [] + rest == rest;
    } else {
      assert AsMedia(made.value + rest) == [Media(made.value[0])] + (AsMedia(made.value[1..]) + AsMedia(rest));
    }
  }

  ghost function FirstEventOf<E>(hasHeader: bool, hasAudio: bool, hasVideo: bool): seq<Event<E>>
  {
    if hasHeader then [] else [Header(FileHeader(1, hasAudio, hasVideo, 9))]
  }

  /** All the events the bytes so far complete. */
  method Drain<S, E>(d: FlvDemuxer<S, E>, ghost tags: seq<Tag>, ghost sized: bool, ghost hasAudio: bool,
                     ghost hasVideo: bool, ghost ahead: bytes) returns (events: seq<Event<E>>, ghost left: seq<Tag>)
    requires d.Valid() && |d.buffer| <= MAX_BUFFER && d.pendingEvents == []
    requires d.Follows(tags, sized, Flags(hasAudio, hasVideo), ahead) && PassesAll(d.interpret, d.state, tags, sized)
    modifies d
    ensures d.Valid() && d.pendingEvents == [] && |d.buffer| <= MAX_KEPT
    ensures d.Follows(left, sized, Flags(hasAudio, hasVideo), ahead) && PassesAll(d.interpret, d.state, left, sized)
    ensures old(Outlook(d.interpret, d.state, tags, [], FirstEventOf(d.header.Some?, hasAudio, hasVideo))) ==
            events + Outlook(d.interpret, d.state, left, [], FirstEventOf(d.header.Some?, hasAudio, hasVideo))
    ensures ahead == [] ==> left == [] && d.header.Some?
  {
    hide Following, Outlook, AsMedia, Flags, Tight, MediaAll, Shrunk, Takes, Silent, Passes, PassesAll;
    events, left := [], tags;
    ghost var all := Outlook(d.interpret, d.state, tags, [], FirstEventOf(d.header.Some?, hasAudio, hasVideo));
    assert [] + all == all;
    while true
      invariant d.Valid() && |d.buffer| <= MAX_BUFFER && (d.header.None? ==> d.pendingEvents == [])
      invariant d.Follows(left, sized, Flags(hasAudio, hasVideo), ahead) && PassesAll(d.interpret, d.state, left, sized)
      invariant all ==
                events + Outlook(d.interpret, d.state, left, d.pendingEvents,
                                 FirstEventOf(d.header.Some?, hasAudio, hasVideo))
      decreases d.header.None?, |left|, |d.pendingEvents|
    {
      ghost var state, pending, hadHeader, was := d.state, d.pendingEvents, d.header.Some?, left;
      AllPass(d.interpret, state, left, sized);
      if pending != [] {
        OutlookPops(d.interpret, state, left, pending);
      } else if !hadHeader {
        OutlookFirst(d.interpret, state, left, hasAudio, hasVideo);
      }
      var next;
      next, left := d.NextEvent(was, sized, hasAudio, hasVideo, ahead);
      if pending == [] && hadHeader {
        if next.value.None? {
          OutlookStays(d.interpret, state, was, sized, d.state, left);
        } else {
          OutlookTakes(d.interpret, state, was, sized, next.value.value, d.pendingEvents, d.state, left);
        }
      }
      if next == Ok(None) {
        return;
      }
      Assoc(events, [next.value.value], Outlook(d.interpret, d.state, left, d.pendingEvents, []));
      events := events + [next.value.value];
    }
  }

  lemma OutlookFirst<S, E>(interpret: Interpreter<S, E>, state: S, tags: seq<Tag>, hasAudio: bool, hasVideo: bool)
    ensures Outlook(interpret, state, tags, [], FirstEventOf(false, hasAudio, hasVideo)) ==
            [Header(FileHeader(1, hasAudio, hasVideo, 9))] + Outlook(interpret, state, tags, [], [])
  {
  }

  lemma OutlookEnds<S, E>(interpret: Interpreter<S, E>, state: S)
    ensures Outlook(interpret, state, [], [], []) == []
  {
  }

  lemma Begins(tags: seq<Tag>, sized: bool, flags: byte)
    requires AllFit(tags)
    ensures Following([], 0, FileBytes(flags, sized) + Body(tags, sized), tags, sized, flags, false, 0, false)
  {
  }

  lemma FollowingPush(buffer: bytes, pos: nat, data: bytes, ahead: bytes, tags: seq<Tag>, sized: bool, flags: byte,
                      hasHeader: bool, total: nat, pending: bool)
    requires Following(buffer, pos, data + ahead, tags, sized, flags, hasHeader, total, pending)
    ensures Following(buffer + data, pos, ahead, tags, sized, flags, hasHeader, total, pending)
  {
    assert (buffer + data)[pos..] == buffer[pos..] + data;
    Assoc(buffer[pos..], data, ahead);
  }

  /**
   * A stream of any length, written with or without size fields and cut into chunks of any size up to half the
   * buffer, gives the file header and then the events of its tags, in order. Tags may be without events; in a stream
   * without size fields, such a tag must not be longer than 4096 bytes.
   */
  method DemuxChunks<S, E>(mode: Mode, interpret: Interpreter<S, E>, state: S, chunks: seq<bytes>, ghost tags: seq<Tag>,
                           ghost sized: bool, ghost hasAudio: bool, ghost hasVideo: bool)
    returns (events: seq<Event<E>>)
    requires mode != File && (mode == Stream ==> !sized)
    requires AllFit(tags) && Concat(chunks) == FileBytes(Flags(hasAudio, hasVideo), sized) + Body(tags, sized)
    requires forall k | 0 <= k < |chunks| :: |chunks[k]| <= MAX_BUFFER - MAX_KEPT
    requires PassesAll(interpret, state, tags, sized)
    ensures events == [Header(FileHeader(1, hasAudio, hasVideo, 9))] + AsMedia(MediaAll(interpret, state, tags))
  {
    hide Following, Outlook, AsMedia, Flags, Tight, MediaAll, FileBytes, Body;
    var d := new FlvDemuxer(mode, interpret, state);
    ghost var flags, left, ahead := Flags(hasAudio, hasVideo), tags, Concat(chunks);
    ghost var all := Outlook(interpret, state, tags, [], FirstEventOf(false, hasAudio, hasVideo));
    Begins(tags, sized, flags);
    assert chunks[0..] == chunks && [] + all == all;
    events := [];
    for i := 0 to |chunks|
      invariant d.Valid() && d.pendingEvents == [] && |d.buffer| <= MAX_KEPT && d.mode == mode
                && d.interpret == interpret
      invariant ahead == Concat(chunks[i..])
      invariant d.Follows(left, sized, flags, ahead) && PassesAll(interpret, d.state, left, sized)
      invariant all == events + Outlook(interpret, d.state, left, [], FirstEventOf(d.header.Some?, hasAudio, hasVideo))
    {
      ghost var rest := Concat(chunks[i + 1..]);
      assert chunks[i..][0] == chunks[i] && chunks[i..][1..] == chunks[i + 1..];
      FollowingPush(d.buffer, d.readPos, chunks[i], rest, left, sized, flags, d.header.Some?, d.previousTagTotalSize,
                    d.pendingPreviousTagSize);
      assert d.buffer + [] == d.buffer;
      d.Push(chunks[i]);
      ahead := rest;
      ghost var before := left;
      var more, after := Drain(d, before, sized, hasAudio, hasVideo, ahead);
      left := after;
      Assoc(events, more, Outlook(interpret, d.state, left, [], FirstEventOf(d.header.Some?, hasAudio, hasVideo)));
      events := events + more;
    }
    assert chunks[|chunks|..] == [];
    var last, after := Drain(d, left, sized, hasAudio, hasVideo, ahead);
    Assoc(events, last, Outlook(interpret, d.state, after, [], FirstEventOf(d.header.Some?, hasAudio, hasVideo)));
    events := events + last;
    OutlookEnds(interpret, d.state);
    OutlookWhole(interpret, state, tags, hasAudio, hasVideo);
  }

  lemma OutlookWhole<S, E>(interpret: Interpreter<S, E>, state: S, tags: seq<Tag>, hasAudio: bool, hasVideo: bool)
    ensures Outlook(interpret, state, tags, [], FirstEventOf(false, hasAudio, hasVideo)) ==
            [Header(FileHeader(1, hasAudio, hasVideo, 9))] + AsMedia(MediaAll(interpret, state, tags))
  {
    assert [] + AsMedia(MediaAll(interpret, state, tags)) == AsMedia(MediaAll(interpret, state, tags));
  }

  // ---- A tag without events that vanishes ----

  /** Three tags, of which the first and the last have one event each and the one between them has none. */
  ghost predicate OneNoneOne<S, E>(interpret: Interpreter<S, E>, state: S, first: Tag, silent: Tag, last: Tag, one: E,
                                   other: E)
  {
    var (second, made) := interpret(state, first);
    var (third, none) := interpret(second, silent);
    made == Ok([one]) && none == Ok([]) && interpret(third, last).1 == Ok([other])
  }

  /** The tag behind `before` bytes of a stream, with `behind` bytes behind it, vanishes. */
  predicate VanishesBetween(before: nat, total: nat, behind: nat)
  {
    before > 4096 && before > total + behind && total > 4096 && total > behind
  }

  lemma NoneLeft<S, E>(interpret: Interpreter<S, E>, state: S, silent: Tag, last: Tag, other: E)
    requires interpret(state, silent).1 == Ok([]) && interpret(interpret(state, silent).0, last).1 == Ok([other])
    ensures Passes(interpret, interpret(state, silent).0, [last], false)
  {
    assert [silent, last][1..] == [last] && [last][1..] == [];
  }

  /** With everything there, the tag that does not vanish is passed over and the last tag's event handed out. */
  lemma OtherTaken<S, E>(d: FlvDemuxer<S, E>, state: S, silent: Tag, last: Tag, other: E, flags: byte,
                         answer: Option<Event<E>>, left: seq<Tag>)
    requires d.interpret(state, silent).1 == Ok([]) && d.interpret(d.interpret(state, silent).0, last).1 == Ok([other])
    requires d.Advanced([silent, last], false, flags, [], state, answer, left)
    ensures answer == Some(Media(other)) && d.pendingEvents == [] && left == []
  {
    hide Following, Silent, Takes, AsMedia;
    if answer.None? {
      NotBothSilent(d.interpret, state, silent, last, other, d.state, left);
    } else {
      TakesSecond(d.interpret, state, silent, last, other, answer.value, d.pendingEvents, d.state, left);
    }
  }

  lemma NotBothSilent<S, E>(interpret: Interpreter<S, E>, state: S, silent: Tag, last: Tag, other: E, next: S,
                            left: seq<Tag>)
    requires interpret(interpret(state, silent).0, last).1 == Ok([other])
    ensures Silent(interpret, state, [silent, last], next, left) ==> left != []
  {
    var third := interpret(state, silent).0;
    assert [silent, last][1..] == [last];
    assert Silent(interpret, third, [last], next, left) ==> left == [last];
  }

  lemma TakesSecond<S, E>(interpret: Interpreter<S, E>, state: S, silent: Tag, last: Tag, other: E, e: Event<E>,
                          pending: seq<Event<E>>, next: S, left: seq<Tag>)
    requires interpret(state, silent).1 == Ok([]) && interpret(interpret(state, silent).0, last).1 == Ok([other])
    requires Takes(interpret, state, [silent, last], e, pending, next, left)
    ensures e == Media(other) && pending == [] && left == []
  {
    var third := interpret(state, silent).0;
    assert [silent, last][1..] == [last] && [last][1..] == [];
    assert Takes(interpret, third, [last], e, pending, next, left);
  }

  /**
   * Three complete tags, all pushed at once in stream mode, the second without events. The call behind the first event
   * says that more data is needed, and the last event comes with the call after it, exactly when the second tag
   * vanishes.
   */
  method SilentTag<S, E>(interpret: Interpreter<S, E>, state: S, first: Tag, silent: Tag, last: Tag, hasAudio: bool,
                         hasVideo: bool, ghost one: E, ghost other: E)
    returns (answers: seq<Result<Option<Event<E>>, FlvError>>)
    requires first.Fits() && silent.Fits() && last.Fits()
             && OneNoneOne(interpret, state, first, silent, last, one, other)
    ensures |answers| == 4 && answers[0] == Ok(Some(Header(FileHeader(1, hasAudio, hasVideo, 9))))
    ensures answers[1] == Ok(Some(Media(one)))
    ensures var vanishes := VanishesBetween(20 + |first.body|, 11 + |silent.body|, 11 + |last.body|);
            && answers[2] == Ok(if vanishes then None else Some(Media(other)))
            && answers[3] == Ok(if vanishes then Some(Media(other)) else None)
  {
    hide VanishesBetween, Flags, FlvDemuxer.Follows;
    var d, header := TakeHeader<S, E>(interpret, state, first, silent, last, hasAudio, hasVideo);
    var found := TakeFirst(d, first, silent, last, Flags(hasAudio, hasVideo), hasAudio, hasVideo, one, other);
    var rest := TakeRest(d, first, silent, last, hasAudio, hasVideo, one, other);
    answers := [header, found] + rest;
  }

  /** A demuxer that has got the three tags and given the header. */
  method TakeHeader<S, E>(interpret: Interpreter<S, E>, state: S, first: Tag, silent: Tag, last: Tag, hasAudio: bool,
                          hasVideo: bool)
    returns (d: FlvDemuxer<S, E>, answer: Result<Option<Event<E>>, FlvError>)
    requires first.Fits() && silent.Fits() && last.Fits()
    ensures fresh(d) && d.Valid() && d.mode == Stream && d.interpret == interpret && d.state == state
            && d.pendingEvents == []
    ensures d.header.Some? && AllFit([first, silent, last])
    ensures d.Follows([first, silent, last], false, Flags(hasAudio, hasVideo), [])
    ensures d.readPos == 9 && |d.buffer| == 42 + |first.body| + |silent.body| + |last.body|
    ensures answer == Ok(Some(Header(FileHeader(1, hasAudio, hasVideo, 9))))
  {
    hide Following, Tight, Body, FileBytes, Flags, Takes, Silent, Passes, TagBytes;
    ghost var tags, flags := [first, silent, last], Flags(hasAudio, hasVideo);
    ThreeTags(first, silent, last);
    d := new FlvDemuxer(Stream, interpret, state);
    var file := FileBytes(Flags(hasAudio, hasVideo), false) + Body([first, silent, last], false);
    Begins(tags, false, flags);
    assert file + [] == file;
    FollowingPush([], 0, file, [], tags, false, flags, false, 0, false);
    d.Push(file);
    ghost var left;
    answer, left := d.NextEvent(tags, false, hasAudio, hasVideo, []);
  }

  method TakeFirst<S, E>(d: FlvDemuxer<S, E>, first: Tag, silent: Tag, last: Tag, ghost flags: byte,
                         ghost hasAudio: bool, ghost hasVideo: bool, ghost one: E, ghost other: E)
    returns (answer: Result<Option<Event<E>>, FlvError>)
    requires first.Fits() && silent.Fits() && last.Fits()
             && OneNoneOne(d.interpret, d.state, first, silent, last, one, other)
    requires d.Valid() && d.mode == Stream && d.header.Some? && d.pendingEvents == []
             && flags == Flags(hasAudio, hasVideo)
    requires AllFit([first, silent, last]) && d.Follows([first, silent, last], false, flags, [])
    requires d.readPos == 9 && |d.buffer| == 42 + |first.body| + |silent.body| + |last.body|
    modifies d
    ensures d.Valid() && d.header.Some? && d.pendingEvents == [] && d.state == d.interpret(old(d.state), first).0
    ensures AllFit([silent, last]) && d.Follows([silent, last], false, flags, [])
    ensures (d.readPos, |d.buffer|) == Shrunk(20 + |first.body|, 42 + |first.body| + |silent.body| + |last.body|)
    ensures answer == Ok(Some(Media(one)))
  {
    hide Following, Tight, Body, Flags, Takes, Silent, Passes, TagBytes;
    ghost var tags := [first, silent, last];
    assert tags[1..] == [silent, last];
    ThreeTags(first, silent, last);
    AtUnsized(d.buffer, d.readPos, [], tags, flags, d.previousTagTotalSize);
    assert d.Seen() + [] == d.Seen();
    ghost var left;
    answer, left := d.NextEvent(tags, false, hasAudio, hasVideo, []);
  }

  method TakeRest<S, E>(d: FlvDemuxer<S, E>, ghost first: Tag, silent: Tag, last: Tag, ghost hasAudio: bool,
                        ghost hasVideo: bool, ghost one: E, ghost other: E)
    returns (answers: seq<Result<Option<Event<E>>, FlvError>>)
    requires first.Fits() && silent.Fits() && last.Fits()
    requires d.interpret(d.state, silent).1 == Ok([])
             && d.interpret(d.interpret(d.state, silent).0, last).1 == Ok([other])
    requires d.Valid() && d.mode == Stream && d.header.Some? && d.pendingEvents == []
    requires AllFit([silent, last]) && d.Follows([silent, last], false, Flags(hasAudio, hasVideo), [])
    requires (d.readPos, |d.buffer|) == Shrunk(20 + |first.body|, 42 + |first.body| + |silent.body| + |last.body|)
    modifies d
    ensures var vanishes := VanishesBetween(20 + |first.body|, 11 + |silent.body|, 11 + |last.body|);
            answers == [Ok(if vanishes then None else Some(Media(other))),
                        Ok(if vanishes then Some(Media(other)) else None)]
  {
    hide Following, Tight, Body, Flags, Takes, Silent, Passes, TagBytes;
    ghost var rest, second, flags := [silent, last], d.state, Flags(hasAudio, hasVideo);
    assert rest[1..] == [last] && [last][1..] == [];
    ThreeTags(first, silent, last);
    AtUnsized(d.buffer, d.readPos, [], rest, flags, d.previousTagTotalSize);
    assert d.Seen() + [] == d.Seen();
    NoneLeft(d.interpret, second, silent, last, other);
    var answer;
    ghost var left;
    answer, left := d.NextEvent(rest, false, hasAudio, hasVideo, []);
    answers := [answer];
    if VanishesBetween(20 + |first.body|, 11 + |silent.body|, 11 + |last.body|) {
      AtUnsized(d.buffer, d.readPos, [], [last], flags, d.previousTagTotalSize);
      assert d.Seen() + [] == d.Seen();
      rest := [last];
    } else {
      OtherTaken(d, second, silent, last, other, flags, answer.value, left);
      NothingPasses(d.interpret, d.state);
      rest, second := [], d.state;
    }
    answer, left := d.NextEvent(rest, false, hasAudio, hasVideo, []);
    if !VanishesBetween(20 + |first.body|, 11 + |silent.body|, 11 + |last.body|) {
      NothingTaken(d, second, flags, answer.value, left);
    }
    answers := answers + [answer];
  }

  lemma NothingPasses<S, E>(interpret: Interpreter<S, E>, state: S)
    ensures Passes(interpret, state, [], false)
  {
  }

  lemma NothingTaken<S, E>(d: FlvDemuxer<S, E>, state: S, flags: byte, answer: Option<Event<E>>, left: seq<Tag>)
    requires d.Advanced([], false, flags, [], state, answer, left)
    ensures answer == None
  {
  }

  lemma ThreeTags(first: Tag, silent: Tag, last: Tag)
    requires first.Fits() && silent.Fits() && last.Fits()
    ensures var tags := [first, silent, last];
            && AllFit(tags) && AllFit([silent, last]) && AllFit([last])
            && |Body(tags, false)| == 33 + |first.body| + |silent.body| + |last.body|
            && |Body([silent, last], false)| == 22 + |silent.body| + |last.body|
            && |Body([last], false)| == 11 + |last.body|
  {
    hide TagBytes;
    var tags := [first, silent, last];
    assert tags[1..] == [silent, last] && [silent, last][1..] == [last] && [last][1..] == [];
    assert AllFit([last]);
    assert Body([last], false) == TagBytes(last) + (SizeField(false, 11 + |last.body|) + Body([], false));
  }

  // ---- Tags as they are ----

  /** The interpreter that reports each tag itself. */
  function Itself(state: (), tag: Tag): ((), Result<seq<Tag>, FlvError>)
  {
    (state, Ok([tag]))
  }

  lemma {:induction false} ItselfPasses(tags: seq<Tag>, sized: bool)
    ensures PassesAll(Itself, (), tags, sized) && MediaAll(Itself, (), tags) == tags
    decreases |tags|
  {
    if tags != [] {
      ItselfPasses(tags[1..], sized);
    }
  }

  /** The types, 32-bit timestamps and bodies of the tags are recovered, in order, from any chunking of the file. */
  method RecoverTags(mode: Mode, chunks: seq<bytes>, ghost tags: seq<Tag>, ghost sized: bool, ghost hasAudio: bool,
                     ghost hasVideo: bool) returns (events: seq<Event<Tag>>)
    requires mode != File && (mode == Stream ==> !sized)
    requires AllFit(tags) && Concat(chunks) == FileBytes(Flags(hasAudio, hasVideo), sized) + Body(tags, sized)
    requires forall k | 0 <= k < |chunks| :: |chunks[k]| <= MAX_BUFFER - MAX_KEPT
    ensures |events| == 1 + |tags| && events[0] == Header(FileHeader(1, hasAudio, hasVideo, 9))
    ensures forall k | 0 <= k < |tags| :: events[1 + k] == Media(tags[k])
  {
    ItselfPasses(tags, sized);
    events := DemuxChunks(mode, Itself, (), chunks, tags, sized, hasAudio, hasVideo);
  }

  /**
   * File mode never reads a tag: behind the first size field the same field is expected again, so on any input at all
   * the file header is the only event, however often the demuxer is asked.
   */
  method FileModeReadsNothing<S, E>(interpret: Interpreter<S, E>, state: S, chunks: seq<bytes>)
    returns (events: seq<Event<E>>)
    ensures |events| <= 1 && forall k | 0 <= k < |events| :: events[k].Header?
  {
    var d := new FlvDemuxer(File, interpret, state);
    events := [];
    for i := 0 to |chunks|
      invariant d.Valid() && d.mode == File && d.pendingEvents == [] && d.previousTagTotalSize == 0
                && !d.pendingPreviousTagSize
      invariant |events| <= (if d.header.Some? then 1 else 0) && forall k | 0 <= k < |events| :: events[k].Header?
    {
      d.Push(chunks[i]);
      var more := true;
      while more
        invariant d.Valid() && d.mode == File && d.pendingEvents == [] && d.previousTagTotalSize == 0
                  && !d.pendingPreviousTagSize
        invariant |events| <= (if d.header.Some? then 1 else 0) && forall k | 0 <= k < |events| :: events[k].Header?
        decreases more, d.header.None?
      {
        var next, _ := d.NextEvent([], false, false, false, []);
        more := next.Ok? && next.value.Some?;
        if more {
          events := events + [next.value.value];
        }
      }
    }
  }
}

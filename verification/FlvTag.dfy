/** The FLV byte format: file header, tag headers and the optional PreviousTagSize fields. */
module FlvTag {
  import opened Bytes

  datatype FlvError =
    | NeedMoreData
    | InvalidSignature
    | MalformedHeader
    | MalformedTag
    | LimitExceeded
    | UnsupportedCodec
    | InvalidTimestamp

  datatype TagType = Audio | Video | Script

  datatype FileHeader = FileHeader(version: byte, hasAudio: bool, hasVideo: bool, headerSize: nat)

  datatype TagHeader = TagHeader(tagType: TagType, filter: bool, dataSize: u24, timestampMs: u32, streamId: u24)

  const MAX_FLV_HEADER_SIZE: nat := 1024 * 1024
  const MAX_BODY: nat := 0xFF_FFFF

  /** A tag as it is written: type, timestamp and a body that fits the size field. */
  datatype Tag = Tag(tagType: TagType, timestampMs: u32, body: bytes)
  {
    predicate Fits() { |body| <= MAX_BODY }
  }

  function TypeByte(t: TagType): byte
  {
    match t
    case Audio => 8
    case Video => 9
    case Script => 18
  }

  function TypeFrom(b: nat): Option<TagType>
  {
    if b == 8 then Some(Audio)
    else if b == 9 then Some(Video)
    else if b == 18 then Some(Script)
    else None
  }

  function ParseFileHeader(d: bytes): (r: Result<FileHeader, FlvError>)
    ensures r.Ok? ==> 9 <= r.value.headerSize <= MAX_FLV_HEADER_SIZE
  {
    if |d| < 9 then Err(NeedMoreData)
    else if d[0] != 0x46 || d[1] != 0x4C || d[2] != 0x56 then Err(InvalidSignature)
    else
      var flags: int := d[4];
      var size := FromBE32(d[5..9]);
      if size < 9 then Err(MalformedHeader)
      else if size > MAX_FLV_HEADER_SIZE then Err(LimitExceeded)
      else Ok(FileHeader(d[3], flags / 4 % 2 == 1, flags % 2 == 1, size))
  }

  function ParseTagHeader(d: bytes): Result<TagHeader, FlvError>
  {
    if |d| < 11 then Err(NeedMoreData)
    else
      var first: int := d[0];
      var tagType := TypeFrom(first % 32);
      if tagType.None? then Err(MalformedTag)
      else
        var extended: int, lower: int := d[7], FromBE24(d[4..7]);
        Ok(TagHeader(tagType.value, first / 32 % 2 == 1, FromBE24(d[1..4]), extended * 0x100_0000 + lower,
                     FromBE24(d[8..11])))
  }

  function TagTotalSize(dataSize: nat): nat
  {
    if dataSize + 11 > U32_MAX then U32_MAX else dataSize + 11
  }

  // ---- Writing ----

  function Flags(hasAudio: bool, hasVideo: bool): byte
  {
    (if hasAudio then 4 else 0) + (if hasVideo then 1 else 0)
  }

  function HeaderBytes(tagType: TagType, dataSize: u24, timestamp: u32): (s: bytes)
    ensures |s| == 11
  {
    [TypeByte(tagType)] + BE24(dataSize) + BE24(timestamp % 0x100_0000) + [timestamp / 0x100_0000] + BE24(0)
  }

  function TagBytes(tag: Tag): (s: bytes)
    requires tag.Fits()
    ensures |s| == 11 + |tag.body|
  {
    HeaderBytes(tag.tagType, |tag.body|, tag.timestampMs) + tag.body
  }

  /** A PreviousTagSize field, in files that have them. */
  function SizeField(sized: bool, total: u32): bytes
  {
    if sized then BE32(total) else []
  }

  ghost predicate AllFit(tags: seq<Tag>)
  {
    forall k | 0 <= k < |tags| :: tags[k].Fits()
  }

  /** Tags one after another, each followed by its size field. */
  function Body(tags: seq<Tag>, sized: bool): bytes
    requires AllFit(tags)
    decreases |tags|
  {
    if tags == [] then []
    else
      assert tags[0].Fits();
      assert AllFit(tags[1..]) by { assert forall k | 0 <= k < |tags[1..]| :: tags[1..][k] == tags[k + 1]; }
      TagBytes(tags[0]) + (SizeField(sized, 11 + |tags[0].body|) + Body(tags[1..], sized))
  }

  function FileBytes(flags: byte, sized: bool): (s: bytes)
    ensures |s| == if sized then 13 else 9
  {
    [0x46, 0x4C, 0x56, 1, flags] + BE32(9) + SizeField(sized, 0)
  }

  // ---- Reading back ----

  lemma HeaderRoundTrip(tagType: TagType, dataSize: u24, timestamp: u32)
    ensures ParseTagHeader(HeaderBytes(tagType, dataSize, timestamp)) ==
            Ok(TagHeader(tagType, false, dataSize, timestamp, 0))
  {
    hide FromBE24, BE24;
    var s := HeaderBytes(tagType, dataSize, timestamp);
    BE24RoundTrip(dataSize);
    BE24RoundTrip(timestamp % 0x100_0000);
    BE24RoundTrip(0);
    assert s[1..4] == BE24(dataSize) && s[4..7] == BE24(timestamp % 0x100_0000) && s[8..11] == BE24(0);
    assert TypeByte(tagType) % 32 == TypeByte(tagType) && TypeByte(tagType) / 32 == 0;
  }

  lemma FileHeaderRoundTrip(hasAudio: bool, hasVideo: bool, sized: bool)
    ensures ParseFileHeader(FileBytes(Flags(hasAudio, hasVideo), sized)[..9]) ==
            Ok(FileHeader(1, hasAudio, hasVideo, 9))
  {
    hide BE32, FromBE32;
    var s := FileBytes(Flags(hasAudio, hasVideo), sized)[..9];
    BE32RoundTrip(9);
    assert s[5..9] == BE32(9);
  }

  /** The first four bytes of a tag, read as a size field, are larger than any tag total. */
  lemma TagIsNoSize(tag: Tag, rest: bytes)
    requires tag.Fits()
    ensures FromBE32((TagBytes(tag) + rest)[..4]) >= 0x800_0000 > 11 + MAX_BODY
  {
    var s := (TagBytes(tag) + rest)[..4];
    var b0: int := s[0];
    assert b0 >= 8;
  }
}

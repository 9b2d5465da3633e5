/** ISO base media boxes (ISO/IEC 14496-12 section 4.2): headers, writing, and walking the children of a box. */
module Boxes {
  import opened Bytes

  datatype Mp4Error =
    | NeedMoreData
    | InvalidInput(code: nat)
    | Unsupported(code: nat)
    | LimitExceeded(limit: string)

  const MAX_BOX_SIZE: nat := 0x100_0000_0000
  const MAX_TABLE_ENTRIES: nat := 1_000_000

  type fourcc = u32

  const FTYP: fourcc := 0x66747970
  const MOOV: fourcc := 0x6D6F6F76
  const MOOF: fourcc := 0x6D6F6F66
  const MFHD: fourcc := 0x6D666864
  const TRAF: fourcc := 0x74726166
  const TFHD: fourcc := 0x74666864
  const TFDT: fourcc := 0x74666474
  const TRUN: fourcc := 0x7472756E
  const MDAT: fourcc := 0x6D646174

  /** The total size, the type, and the length of the header, 8 or 16. */
  datatype BoxHeader = BoxHeader(size: nat, boxType: fourcc, headerSize: nat)

  function ParseHeader(d: bytes): (r: Result<BoxHeader, Mp4Error>)
    ensures r.Ok? ==> 8 <= r.value.headerSize <= 16 && r.value.headerSize <= r.value.size <= MAX_BOX_SIZE
    ensures r.Ok? ==> |d| >= r.value.headerSize
    ensures |d| < 8 ==> r == Err(NeedMoreData)
  {
    if |d| < 8 then Err(NeedMoreData)
    else
      var size: nat, boxType := FromBE32(d[..4]), FromBE32(d[4..8]);
      if size == 1 then
        if |d| < 16 then Err(NeedMoreData)
        else
          var large: nat := FromBE64(d[8..16]);
          if large == 0 then Err(InvalidInput(3001)) else Checked(BoxHeader(large, boxType, 16))
      else if size == 0 then Err(Unsupported(3002))
      else Checked(BoxHeader(size, boxType, 8))
  }

  function Checked(h: BoxHeader): Result<BoxHeader, Mp4Error>
  {
    if h.size > MAX_BOX_SIZE then Err(LimitExceeded("box size"))
    else if h.size < h.headerSize then Err(InvalidInput(3003))
    else Ok(h)
  }

  /** A box inside its parent: where its body is. */
  datatype Box = Box(boxType: fourcc, start: nat, end: nat)

  /** The child box at `pos`. */
  function NextBox(data: bytes, pos: nat): (r: Result<Box, Mp4Error>)
    requires pos < |data|
    ensures r.Ok? ==> pos + 8 <= r.value.start <= r.value.end <= |data|
  {
    match ParseHeader(data[pos..])
    case Err(e) => Err(e)
    case Ok(h) =>
      if pos + h.size > |data| then Err(NeedMoreData) else Ok(Box(h.boxType, pos + h.headerSize, pos + h.size))
  }

  // ---- Writing ----

  function FullBox(version: byte, flags: u24): (s: bytes)
    ensures |s| == 4
  {
    [version] + BE24(flags)
  }

  /** Small boxes have a 32-bit size, others the 64-bit form. */
  function HeaderLength(bodyLength: nat): nat
  {
    if bodyLength + 8 <= U32_MAX then 8 else 16
  }

  function WriteBox(boxType: fourcc, body: bytes): (s: bytes)
    ensures |s| == HeaderLength(|body|) + |body| && s[HeaderLength(|body|)..] == body
  {
    if |body| + 8 <= U32_MAX then BE32(|body| + 8) + BE32(boxType) + body
    else BE32(1) + BE32(boxType) + BE64((|body| + 16) % (U64_MAX + 1)) + body
  }

  // ---- Reading what was written ----

  lemma SmallHeaderReads(boxType: fourcc, body: bytes, rest: bytes)
    requires |body| + 8 <= U32_MAX
    ensures ParseHeader(WriteBox(boxType, body) + rest) == Ok(BoxHeader(|body| + 8, boxType, 8))
  {
    hide BE32, FromBE32, FromBE64, BE64;
    var s := WriteBox(boxType, body) + rest;
    assert s[..4] == BE32(|body| + 8) && s[4..8] == BE32(boxType);
    BE32RoundTrip(|body| + 8);
    BE32RoundTrip(boxType);
  }

  lemma LargeHeaderReads(boxType: fourcc, body: bytes, rest: bytes)
    requires U32_MAX < |body| + 8 && |body| + 16 <= MAX_BOX_SIZE
    ensures ParseHeader(WriteBox(boxType, body) + rest) == Ok(BoxHeader(|body| + 16, boxType, 16))
  {
    hide BE32, FromBE32, FromBE64, BE64;
    var s := WriteBox(boxType, body) + rest;
    assert s[..4] == BE32(1) && s[4..8] == BE32(boxType) && s[8..16] == BE64(|body| + 16);
    BE32RoundTrip(1);
    BE32RoundTrip(boxType);
    BE64RoundTrip(|body| + 16);
  }

  /** A written box reads back with its type, size and header length, whatever follows. */
  lemma HeaderReads(boxType: fourcc, body: bytes, rest: bytes)
    requires HeaderLength(|body|) + |body| <= MAX_BOX_SIZE
    ensures ParseHeader(WriteBox(boxType, body) + rest) ==
            Ok(BoxHeader(HeaderLength(|body|) + |body|, boxType, HeaderLength(|body|)))
  {
    hide ParseHeader, WriteBox;
    if |body| + 8 <= U32_MAX {
      SmallHeaderReads(boxType, body, rest);
    } else {
      LargeHeaderReads(boxType, body, rest);
    }
  }

  /** A written box among others is the next box at its place, with its body. */
  lemma NextReads(before: bytes, boxType: fourcc, body: bytes, rest: bytes)
    requires HeaderLength(|body|) + |body| <= MAX_BOX_SIZE
    ensures var data, start := before + (WriteBox(boxType, body) + rest), |before| + HeaderLength(|body|);
            && NextBox(data, |before|) == Ok(Box(boxType, start, start + |body|)) && data[start..start + |body|] == body
  {
    hide ParseHeader;
    var data := before + (WriteBox(boxType, body) + rest);
    assert data[|before|..] == WriteBox(boxType, body) + rest;
    HeaderReads(boxType, body, rest);
    BodyPlace(before, WriteBox(boxType, body), rest, HeaderLength(|body|));
  }

  lemma BodyPlace(before: bytes, box: bytes, rest: bytes, h: nat)
    requires h <= |box|
    ensures (before + (box + rest))[|before| + h..|before| + |box|] == box[h..]
  {
  }

  // ---- Headers and more data ----

  /** A header that can be told from a prefix is told the same from every extension. */
  lemma HeaderStable(d: bytes, more: bytes)
    requires ParseHeader(d) != Err(NeedMoreData)
    ensures ParseHeader(d + more) == ParseHeader(d)
  {
    hide FromBE32, FromBE64;
    assert |d| >= 8;
    assert (d + more)[..4] == d[..4] && (d + more)[4..8] == d[4..8];
    if |d| >= 16 {
      assert (d + more)[8..16] == d[8..16];
    }
  }
}

/** Byte strings and big-endian fields, shared by every container and codec module. */
module Bytes {
  type byte = b: int | 0 <= b < 256
  type bytes = seq<byte>

  datatype Option<+T> = None | Some(value: T)
  datatype Result<+T, +E> = Ok(value: T) | Err(error: E)

  const U32_MAX: int := 0xFFFF_FFFF
  const U64_MAX: int := 0xFFFF_FFFF_FFFF_FFFF
  const I32_MAX: int := 0x7FFF_FFFF
  const I64_MAX: int := 0x7FFF_FFFF_FFFF_FFFF

  type u16 = v: int | 0 <= v <= 0xFFFF
  type u24 = v: int | 0 <= v <= 0xFF_FFFF
  type u32 = v: int | 0 <= v <= 0xFFFF_FFFF
  type u64 = v: int | 0 <= v <= 0xFFFF_FFFF_FFFF_FFFF
  type i64 = v: int | -0x8000_0000_0000_0000 <= v <= 0x7FFF_FFFF_FFFF_FFFF
  type i32 = v: int | -0x8000_0000 <= v <= 0x7FFF_FFFF

  /** The concatenation of a list of chunks. */
  function Concat<T>(parts: seq<seq<T>>): seq<T>
  {
    if parts == [] then [] else parts[0] + Concat(parts[1..])
  }

  lemma {:induction false} ConcatAppend<T>(a: seq<seq<T>>, b: seq<seq<T>>)
    ensures Concat(a + b) == Concat(a) + Concat(b)
  {
    if a == [] {
      assert a + b == b;
    } else {
      assert (a + b)[1..] == a[1..] + b;
      ConcatAppend(a[1..], b);
    }
  }

  lemma ConcatSnoc<T>(a: seq<seq<T>>, x: seq<T>)
    ensures Concat(a + [x]) == Concat(a) + x
  {
    ConcatAppend(a, [x]);
    assert Concat([x]) == x;
  }

  lemma Assoc<T>(a: seq<T>, b: seq<T>, c: seq<T>)
    ensures (a + b) + c == a + (b + c)
  {
  }

  lemma SliceOfSlice<T>(s: seq<T>, a: nat, b: nat, c: nat, d: nat)
    requires a <= b <= |s| && c <= d <= b - a
    ensures s[a..b][c..d] == s[a + c..a + d]
  {
    var x, y := s[a..b][c..d], s[a + c..a + d];
    forall i | 0 <= i < d - c ensures x[i] == y[i] {
      assert x[i] == s[a..b][c + i] == s[a + (c + i)];
    }
  }

  function Zeros(n: nat): (z: bytes)
    ensures |z| == n
  {
    seq(n, _ => 0)
  }

  function Pow2(n: nat): (p: nat)
    ensures p > 0
  {
    if n == 0 then 1 else 2 * Pow2(n - 1)
  }

  /**
   * Cuts a stream into chunks of the given sizes, at most `most` bytes each, and of single bytes where they run out.
   */
  function Cut(stream: bytes, sizes: seq<nat>, most: nat): (chunks: seq<bytes>)
    requires most > 0
    ensures Concat(chunks) == stream
    ensures forall k | 0 <= k < |chunks| :: |chunks[k]| <= most
    decreases |stream|, |sizes|
  {
    if stream == [] then []
    else
      var asked := if sizes == [] || sizes[0] == 0 then 1 else sizes[0];
      var n := if asked > most then most else asked;
      var len := if n > |stream| then |stream| else n;
      [stream[..len]] + Cut(stream[len..], if sizes == [] then [] else sizes[1..], most)
  }

  /** What a 64-bit counter that wraps around holds after `n` steps. */
  function Wrap64(n: nat): u64
  {
    n % 0x1_0000_0000_0000_0000
  }

  lemma WrapNone(n: u64)
    ensures Wrap64(n) == n
  {
  }

  lemma WrapNext(n: nat)
    ensures Wrap64(n + 1) == Wrap64(Wrap64(n) + 1) == if Wrap64(n) == U64_MAX then 0 else Wrap64(n) + 1
  {
  }

  // Wide fields are built from 16-bit halves, most significant first.

  function BE16(v: u16): (s: bytes)
    ensures |s| == 2
  {
    [v / 256, v % 256]
  }

  function BE24(v: u24): (s: bytes)
    ensures |s| == 3
  {
    [v / 65536] + BE16(v % 65536)
  }

  function BE32(v: u32): (s: bytes)
    ensures |s| == 4
  {
    BE16(v / 65536) + BE16(v % 65536)
  }

  function BE64(v: u64): (s: bytes)
    ensures |s| == 8
  {
    BE32(v / 0x1_0000_0000) + BE32(v % 0x1_0000_0000)
  }

  function FromBE16(s: bytes): u16
    requires |s| == 2
  {
    var hi: int, lo: int := s[0], s[1];
    hi * 256 + lo
  }

  function FromBE24(s: bytes): u24
    requires |s| == 3
  {
    var hi: int, lo: int := s[0], FromBE16(s[1..]);
    hi * 65536 + lo
  }

  function FromBE32(s: bytes): u32
    requires |s| == 4
  {
    var hi: int, lo: int := FromBE16(s[..2]), FromBE16(s[2..]);
    hi * 65536 + lo
  }

  function FromBE64(s: bytes): u64
    requires |s| == 8
  {
    var hi: int, lo: int := FromBE32(s[..4]), FromBE32(s[4..]);
    hi * 0x1_0000_0000 + lo
  }

  lemma BE16RoundTrip(v: u16)
    ensures FromBE16(BE16(v)) == v
  {
  }

  lemma BE24RoundTrip(v: u24)
    ensures FromBE24(BE24(v)) == v
  {
    assert BE24(v)[1..] == BE16(v % 65536);
  }

  lemma BE32RoundTrip(v: u32)
    ensures FromBE32(BE32(v)) == v
  {
    assert BE32(v)[..2] == BE16(v / 65536);
    assert BE32(v)[2..] == BE16(v % 65536);
  }

  lemma BE64RoundTrip(v: u64)
    ensures FromBE64(BE64(v)) == v
  {
    BE32RoundTrip(v / 0x1_0000_0000);
    BE32RoundTrip(v % 0x1_0000_0000);
    assert BE64(v)[..4] == BE32(v / 0x1_0000_0000);
    assert BE64(v)[4..] == BE32(v % 0x1_0000_0000);
  }
}

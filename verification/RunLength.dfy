/** Run-length encoding of the time tables (ISO/IEC 14496-12 sections 8.6.1.2 and 8.6.1.3). */
module RunLength {
  import opened Bytes
  import opened Boxes

  datatype TimeRun = TimeRun(count: u32, value: int)

  /** One more value; the counter of a run saturates. */
  function Extend(runs: seq<TimeRun>, v: int): (r: seq<TimeRun>)
    ensures |r| <= |runs| + 1
  {
    if runs != [] && runs[|runs| - 1].value == v then
      var last := runs[|runs| - 1];
      runs[..|runs| - 1] + [TimeRun(if last.count == U32_MAX then U32_MAX else last.count + 1, v)]
    else runs + [TimeRun(1, v)]
  }

  /** The runs of values that fit a field, or the error of the first that does not. */
  function Encode(values: seq<int>, low: int, high: int, field: string): Result<seq<TimeRun>, Mp4Error>
    decreases |values|
  {
    if values == [] then Ok([])
    else
      var n := |values| - 1;
      match Encode(values[..n], low, high, field)
      case Err(e) => Err(e)
      case Ok(runs) => if low <= values[n] <= high then Ok(Extend(runs, values[n])) else Err(LimitExceeded(field))
  }

  function Repeated(v: int, n: nat): (s: seq<int>)
    ensures |s| == n
  {
    seq(n, _ => v)
  }

  /** The values that runs stand for. */
  function Decode(runs: seq<TimeRun>): seq<int>
    decreases |runs|
  {
    if runs == [] then []
    else
      var last := runs[|runs| - 1];
      Decode(runs[..|runs| - 1]) + Repeated(last.value, last.count)
  }

  /** Runs are not empty, and neighbours differ: there is no shorter list with the same meaning. */
  predicate Maximal(runs: seq<TimeRun>)
  {
    && (forall k | 0 <= k < |runs| :: runs[k].count > 0)
    && (forall k | 0 < k < |runs| :: runs[k - 1].value != runs[k].value)
  }

  lemma ExtendDecodes(runs: seq<TimeRun>, v: int)
    requires Maximal(runs) && |Decode(runs)| < U32_MAX
    ensures Decode(Extend(runs, v)) == Decode(runs) + [v] && Maximal(Extend(runs, v))
  {
    hide Decode, Repeated;
    if runs != [] && runs[|runs| - 1].value == v {
      var front, last := runs[..|runs| - 1], runs[|runs| - 1];
      assert runs == front + [last];
      DecodeSnoc(front, last);
      DecodeSnoc(front, TimeRun(last.count + 1, v));
      OneMore(v, last.count);
      Assoc(Decode(front), Repeated(v, last.count), [v]);
    } else {
      DecodeSnoc(runs, TimeRun(1, v));
      OneMore(v, 0);
    }
  }

  lemma DecodeSnoc(runs: seq<TimeRun>, last: TimeRun)
    ensures Decode(runs + [last]) == Decode(runs) + Repeated(last.value, last.count)
  {
    hide Repeated;
    assert (runs + [last])[..|runs|] == runs;
  }

  lemma OneMore(v: int, n: nat)
    ensures Repeated(v, n + 1) == Repeated(v, n) + [v] && Repeated(v, 1) == [v]
  {
  }

  /** Up to 2^32 - 1 values the counters do not saturate, and the runs stand for the values. */
  lemma {:induction false} EncodeDecodes(values: seq<int>, low: int, high: int, field: string)
    requires |values| <= U32_MAX && Encode(values, low, high, field).Ok?
    ensures var runs := Encode(values, low, high, field).value;
            && Decode(runs) == values && Maximal(runs) && |runs| <= |values|
            && forall k | 0 <= k < |runs| :: low <= runs[k].value <= high
    decreases |values|
  {
    hide Extend, Decode, Maximal;
    if values == [] {
      NoRuns();
    } else {
      var n := |values| - 1;
      EncodeDecodes(values[..n], low, high, field);
      var runs := Encode(values[..n], low, high, field).value;
      ExtendDecodes(runs, values[n]);
      ExtendFits(runs, values[n], low, high);
      assert values == values[..n] + [values[n]];
    }
  }

  lemma NoRuns()
    ensures Decode([]) == [] && Maximal([])
  {
  }

  lemma ExtendFits(runs: seq<TimeRun>, v: int, low: int, high: int)
    requires low <= v <= high && forall k | 0 <= k < |runs| :: low <= runs[k].value <= high
    ensures forall k | 0 <= k < |Extend(runs, v)| :: low <= Extend(runs, v)[k].value <= high
  {
  }

  lemma {:induction false} EncodeFails(values: seq<int>, low: int, high: int, field: string, i: nat, n: nat)
    requires i < n <= |values| && Encode(values[..i], low, high, field).Ok? && !(low <= values[i] <= high)
    ensures Encode(values[..n], low, high, field) == Err(LimitExceeded(field))
    decreases n
  {
    hide Extend;
    assert values[..n][..n - 1] == values[..n - 1];
    if i < n - 1 {
      EncodeFails(values, low, high, field, i, n - 1);
    }
  }

  method RunLengthEncode(values: seq<int>, low: int, high: int, field: string)
    returns (r: Result<seq<TimeRun>, Mp4Error>)
    ensures r == Encode(values, low, high, field)
  {
    var runs: seq<TimeRun> := [];
    for i := 0 to |values|
      invariant Encode(values[..i], low, high, field) == Ok(runs)
    {
      var v := values[i];
      assert values[..i + 1][..i] == values[..i];
      if !(low <= v <= high) {
        EncodeFails(values, low, high, field, i, |values|);
        assert values[..|values|] == values;
        return Err(LimitExceeded(field));
      }
      var m := |runs|;
      if m > 0 && runs[m - 1].value == v {
        var count := if runs[m - 1].count == U32_MAX then U32_MAX else runs[m - 1].count + 1;
        runs := runs[..m - 1] + [TimeRun(count, v)];
      } else {
        runs := runs + [TimeRun(1, v)];
      }
    }
    assert values[..|values|] == values;
    return Ok(runs);
  }

  // ---- Tables of numbers ----

  /** Two's complement in 32 bits. */
  function Low32(v: int): u32
  {
    v % 0x1_0000_0000
  }

  function Signed32(v: u32): int
  {
    if v > I32_MAX then v - 0x1_0000_0000 else v
  }

  function Words(values: seq<u32>): (s: bytes)
    ensures |s| == 4 * |values|
    decreases |values|
  {
    if values == [] then [] else Words(values[..|values| - 1]) + BE32(values[|values| - 1])
  }

  function RunWords(runs: seq<TimeRun>): (s: bytes)
    ensures |s| == 8 * |runs|
    decreases |runs|
  {
    if runs == [] then []
    else
      var last := runs[|runs| - 1];
      RunWords(runs[..|runs| - 1]) + (BE32(last.count) + BE32(Low32(last.value)))
  }

  /** The word at a place of a file, as a player reads it. */
  function Word(d: bytes, at: nat): u32
  {
    if at + 4 <= |d| then FromBE32(d[at..at + 4]) else 0
  }

  function DoubleWord(d: bytes, at: nat): u64
  {
    if at + 8 <= |d| then FromBE64(d[at..at + 8]) else 0
  }

  lemma {:induction false} WordsAt(values: seq<u32>, k: nat)
    requires k < |values|
    ensures Words(values)[4 * k..4 * k + 4] == BE32(values[k])
    decreases |values|
  {
    hide BE32;
    var n := |values| - 1;
    if k < n {
      WordsAt(values[..n], k);
      assert Words(values)[4 * k..4 * k + 4] == Words(values[..n])[4 * k..4 * k + 4];
    }
  }

  lemma {:induction false} RunWordsAt(runs: seq<TimeRun>, k: nat)
    requires k < |runs|
    ensures RunWords(runs)[8 * k..8 * k + 4] == BE32(runs[k].count)
    ensures RunWords(runs)[8 * k + 4..8 * k + 8] == BE32(Low32(runs[k].value))
    decreases |runs|
  {
    hide BE32, Low32;
    var n := |runs| - 1;
    if k < n {
      RunWordsAt(runs[..n], k);
      assert RunWords(runs)[8 * k..8 * k + 4] == RunWords(runs[..n])[8 * k..8 * k + 4];
      assert RunWords(runs)[8 * k + 4..8 * k + 8] == RunWords(runs[..n])[8 * k + 4..8 * k + 8];
    }
  }

  /** A field of a part of the file. */
  lemma WordInside(d: bytes, at: nat, part: bytes, pos: nat, v: u32)
    requires at + |part| <= |d| && d[at..at + |part|] == part && pos + 4 <= |part| && part[pos..pos + 4] == BE32(v)
    ensures Word(d, at + pos) == v
  {
    hide BE32, FromBE32;
    SliceOfSlice(d, at, at + |part|, pos, pos + 4);
    BE32RoundTrip(v);
  }

  lemma DoubleWordInside(d: bytes, at: nat, part: bytes, pos: nat, v: u64)
    requires at + |part| <= |d| && d[at..at + |part|] == part && pos + 8 <= |part| && part[pos..pos + 8] == BE64(v)
    ensures DoubleWord(d, at + pos) == v
  {
    hide BE64, FromBE64;
    SliceOfSlice(d, at, at + |part|, pos, pos + 8);
    BE64RoundTrip(v);
  }
}

/** Annex-B start codes: the scan shared by the NAL splitter and the incremental demuxers. */
module StartCode {
  import opened Bytes

  /** A start code found at `pos`; `len` is 3 or 4. */
  datatype Code = Code(pos: nat, len: nat) {
    function End(): nat { pos + len }
  }

  const CODE3: bytes := [0, 0, 1]
  const CODE4: bytes := [0, 0, 0, 1]

  ghost predicate IsCodeAt(data: bytes, c: Code)
  {
    && c.End() <= |data|
    && (data[c.pos..c.End()] == CODE3 || data[c.pos..c.End()] == CODE4)
  }

  /** Whether an emulation-prevention sequence 00 00 03 0x starts at `i`. */
  predicate IsProtected(data: bytes, i: nat)
  {
    i + 3 < |data| && data[i] == 0 && data[i + 1] == 0 && data[i + 2] == 3 && data[i + 3] <= 3
  }

  /** What the scan from `i` finds: the first start code outside emulation-prevention sequences. */
  function Find(data: bytes, i: nat): (r: Option<Code>)
    ensures r.Some? ==> i <= r.value.pos && 3 <= r.value.len <= 4 && IsCodeAt(data, r.value)
    decreases |data| - i
  {
    if i + 2 >= |data| then None
    else if data[i] == 0 && data[i + 1] == 0 && i + 3 < |data| && data[i + 2] == 0 && data[i + 3] == 1 then
      Some(Code(i, 4))
    else if data[i] == 0 && data[i + 1] == 0 && data[i + 2] == 1 then
      Some(Code(i, 3))
    else if IsProtected(data, i) then Find(data, i + 4)
    else Find(data, i + 1)
  }

  method FindStartCode(data: bytes, start: nat) returns (r: Option<Code>)
    ensures r == Find(data, start)
  {
    if |data| < start + 3 {
      return None;
    }
    var i := start;
    while i + 2 < |data|
      invariant Find(data, i) == Find(data, start)
      decreases |data| - i
    {
      if data[i] == 0 && data[i + 1] == 0 {
        if i + 3 < |data| && data[i + 2] == 0 && data[i + 3] == 1 {
          return Some(Code(i, 4));
        }
        if data[i + 2] == 1 {
          return Some(Code(i, 3));
        }
        if data[i + 2] == 3 && i + 3 < |data| && data[i + 3] <= 3 {
          i := i + 4;
          continue;
        }
      }
      i := i + 1;
    }
    return None;
  }

  /** A code found on a prefix is found, unchanged, on every extension of it. */
  lemma {:induction false} FindPrefixStable(a: bytes, b: bytes, i: nat)
    requires Find(a, i).Some?
    ensures Find(a + b, i) == Find(a, i)
    decreases |a| - i
  {
    assert forall k | 0 <= k < |a| :: (a + b)[k] == a[k];
    if a[i] == 0 && a[i + 1] == 0 && (a[i + 2] == 1 || (i + 3 < |a| && a[i + 2] == 0 && a[i + 3] == 1)) {
    } else if IsProtected(a, i) {
      FindPrefixStable(a, b, i + 4);
    } else {
      FindPrefixStable(a, b, i + 1);
    }
  }

  function Shift(r: Option<Code>, distance: nat): Option<Code>
  {
    match r
    case None => None
    case Some(c) => Some(Code(c.pos + distance, c.len))
  }

  /** The scan looks only at bytes from its starting point on. */
  lemma {:induction false} FindShift(a: bytes, b: bytes, i: nat)
    ensures Find(a + b, |a| + i) == Shift(Find(b, i), |a|)
    decreases |b| - i
  {
    var ab := a + b;
    assert forall k | 0 <= k < |b| :: ab[|a| + k] == b[k];
    if i + 2 < |b| {
      assert IsProtected(ab, |a| + i) == IsProtected(b, i);
      if IsProtected(b, i) {
        FindShift(a, b, i + 4);
      } else {
        FindShift(a, b, i + 1);
      }
    }
  }

  /** Scanning a suffix is scanning the whole from the suffix's position. */
  lemma FindSuffix(data: bytes, at: nat, i: nat)
    requires at <= |data|
    ensures Find(data, at + i) == Shift(Find(data[at..], i), at)
  {
    assert data == data[..at] + data[at..];
    FindShift(data[..at], data[at..], i);
  }

  /** Scanning from where a scan stopped finds the same code again. */
  lemma {:induction false} FindAgain(data: bytes, i: nat)
    requires Find(data, i).Some?
    ensures Find(data, Find(data, i).value.pos) == Find(data, i)
    decreases |data| - i
  {
    if data[i] == 0 && data[i + 1] == 0
    && (data[i + 2] == 1 || (i + 3 < |data| && data[i + 2] == 0 && data[i + 3] == 1)) {
    } else if IsProtected(data, i) {
      FindAgain(data, i + 4);
    } else {
      FindAgain(data, i + 1);
    }
  }

  // ---- NAL units that the scan can delimit ----

  /** No 00 00 followed by 00, 01 or 02 (H.264 section 7.4.1). */
  ghost predicate EmulationPrevented(nal: bytes)
  {
    forall k :: 0 <= k && k + 2 < |nal| && nal[k] == 0 && nal[k + 1] == 0 ==> nal[k + 2] >= 3
  }

  /** Non-empty, emulation-prevented, not ending in 00 nor in 00 00 03. */
  ghost predicate CleanNal(nal: bytes)
  {
    && 0 < |nal|
    && EmulationPrevented(nal)
    && nal[|nal| - 1] != 0
    && !(|nal| >= 3 && nal[|nal| - 3] == 0 && nal[|nal| - 2] == 0 && nal[|nal| - 1] == 3)
  }

  ghost predicate IsCode(code: bytes)
  {
    code == CODE3 || code == CODE4
  }

  /** Whether the scan of `nal` that begins at `i` comes to stand on `p`. */
  predicate Visits(nal: bytes, i: nat, p: int)
    decreases p - i
  {
    i == p || (i < p && Visits(nal, if IsProtected(nal, i) then i + 4 else i + 1, p))
  }

  predicate EndsInZero(nal: bytes)
  {
    |nal| >= 1 && nal[|nal| - 1] == 0
  }

  predicate EndsInProtector(nal: bytes)
  {
    |nal| >= 3 && nal[|nal| - 3] == 0 && nal[|nal| - 2] == 0 && nal[|nal| - 1] == 3
  }

  /**
   * The scan of `nal` from `i` stops exactly at a `code` behind it: it does not stand on a final 00 in front of a
   * 3-byte code, nor on a final 00 00 03.
   */
  predicate Delimits(nal: bytes, i: nat, code: bytes)
  {
    && !(code == CODE3 && EndsInZero(nal) && Visits(nal, i, |nal| - 1))
    && !(EndsInProtector(nal) && Visits(nal, i, |nal| - 3))
  }

  /** A clean NAL can be delimited by either code from anywhere inside it. */
  lemma CleanDelimits(nal: bytes, i: nat, code: bytes)
    requires CleanNal(nal)
    ensures Delimits(nal, i, code)
  {
  }

  /** What the scan from inside an emulation-prevented NAL finds when a code is behind it. */
  function FoundBehind(nal: bytes, code: bytes, rest: bytes, i: nat): Option<Code>
  {
    if EndsInProtector(nal) && Visits(nal, i, |nal| - 3) then
      if code == CODE4 then Some(Code(|nal| + 1, 3)) else Shift(Find(rest, 0), |nal| + 3)
    else if code == CODE3 && EndsInZero(nal) && Visits(nal, i, |nal| - 1) then Some(Code(|nal| - 1, 4))
    else Some(Code(|nal|, |code|))
  }

  predicate StandsOnCode(data: bytes, i: nat)
  {
    && i + 2 < |data| && data[i] == 0 && data[i + 1] == 0
    && (data[i + 2] == 1 || (i + 3 < |data| && data[i + 2] == 0 && data[i + 3] == 1))
  }

  /** One step of the scan. */
  lemma FindStep(data: bytes, i: nat)
    ensures Find(data, i) ==
            if StandsOnCode(data, i) then Some(Code(i, if data[i + 2] == 1 then 3 else 4))
            else Find(data, if IsProtected(data, i) then i + 4 else i + 1)
  {
  }

  /** `s` begins with `nal` and a code of length `len` behind it. */
  ghost predicate Behind(s: bytes, nal: bytes, len: nat)
  {
    var n := |nal|;
    && n + 3 <= n + len <= |s| && (forall k | 0 <= k < n :: s[k] == nal[k])
    && s[n] == 0 && s[n + 1] == 0
    && (if len == 3 then s[n + 2] == 1 else len == 4 && s[n + 2] == 0 && s[n + 3] == 1)
  }

  lemma JoinedBehind(nal: bytes, code: bytes, rest: bytes)
    requires IsCode(code)
    ensures Behind(nal + code + rest, nal, |code|)
  {
    var s := nal + code + rest;
    assert forall k | 0 <= k < |nal| :: s[k] == nal[k];
    assert forall k | 0 <= k < |code| :: s[|nal| + k] == code[k];
  }

  lemma {:induction false} FindBehind(nal: bytes, code: bytes, rest: bytes, i: nat)
    requires EmulationPrevented(nal) && IsCode(code) && i <= |nal|
    ensures Find(nal + code + rest, i) == FoundBehind(nal, code, rest, i)
    decreases |nal| - i
  {
    hide Find, EmulationPrevented, IsProtected, Behind, StandsOnCode;
    JoinedBehind(nal, code, rest);
    var s, n := nal + code + rest, |nal|;
    if EndsInProtector(nal) && i == n - 3 {
      CodeIsJumpedInto(nal, code, rest);
    } else if i == n || (code == CODE3 && EndsInZero(nal) && i == n - 1) {
      CodeIsHere(s, nal, |code|, i);
    } else {
      NotHere(s, nal, |code|, i);
      FindStep(s, i);
      FindBehind(nal, code, rest, if IsProtected(nal, i) then i + 4 else i + 1);
    }
  }

  lemma CodeIsHere(s: bytes, nal: bytes, len: nat, i: nat)
    requires Behind(s, nal, len) && (i == |nal| || (len == 3 && EndsInZero(nal) && i == |nal| - 1))
    ensures Find(s, i) == Some(Code(i, if i == |nal| then len else 4))
  {
    FindStep(s, i);
    hide Find;
  }

  /** Where neither ending gets in the way, the scan goes on as it would in the NAL alone. */
  lemma NotHere(s: bytes, nal: bytes, len: nat, i: nat)
    requires EmulationPrevented(nal) && Behind(s, nal, len) && i < |nal|
    requires !(EndsInProtector(nal) && i == |nal| - 3) && !(len == 3 && EndsInZero(nal) && i == |nal| - 1)
    ensures !StandsOnCode(s, i) && IsProtected(s, i) == IsProtected(nal, i)
    ensures IsProtected(nal, i) ==> i + 4 <= |nal|
  {
  }

  /** A final 00 00 03 takes the first byte of the code for protected; the rest of a 3-byte code is none. */
  lemma CodeIsJumpedInto(nal: bytes, code: bytes, rest: bytes)
    requires EndsInProtector(nal) && IsCode(code)
    ensures Find(nal + code + rest, |nal| - 3) ==
            if code == CODE4 then Some(Code(|nal| + 1, 3)) else Shift(Find(rest, 0), |nal| + 3)
  {
    hide Find;
    JoinedBehind(nal, code, rest);
    JumpFromProtector(nal + code + rest, nal, |code|);
    FindShift(nal + code, rest, 0);
  }

  lemma JumpFromProtector(s: bytes, nal: bytes, len: nat)
    requires EndsInProtector(nal) && Behind(s, nal, len)
    ensures Find(s, |nal| - 3) == if len == 4 then Some(Code(|nal| + 1, 3)) else Find(s, |nal| + 3)
  {
    hide Find;
    var n := |nal|;
    FindStep(s, n - 3);
    FindStep(s, n + 1);
    FindStep(s, n + 2);
  }

  /** At the end of the data, the scan of an emulation-prevented NAL finds nothing. */
  lemma {:induction false} FindNoneInNal(nal: bytes, i: nat)
    requires EmulationPrevented(nal)
    ensures Find(nal, i).None?
    decreases |nal| - i
  {
    if i + 2 < |nal| {
      FindNoneInNal(nal, if IsProtected(nal, i) then i + 4 else i + 1);
    }
  }
}

/** Single bytes of a stream overwritten after the stream has been written: what they leave wrong. */
module FlvPatch {
  import opened Bytes

  /** At `at`, where `was` stood, `now` was put. */
  datatype Stray = Stray(at: nat, was: byte, now: byte)

  /** The stream after all the strays, oldest first. */
  function Patched(plain: bytes, strays: seq<Stray>): (s: bytes)
    ensures |s| == |plain|
    decreases |strays|
  {
    if strays == [] then plain
    else
      var last := strays[|strays| - 1];
      var before := Patched(plain, strays[..|strays| - 1]);
      if last.at < |plain| then before[last.at := last.now] else before
  }

  /** Each stray overwrote what the stream held at that moment. */
  predicate Observed(plain: bytes, strays: seq<Stray>)
    decreases |strays|
  {
    strays == [] ||
    var n := |strays| - 1;
    && Observed(plain, strays[..n])
    && strays[n].at < |plain| && strays[n].was == Patched(plain, strays[..n])[strays[n].at]
  }

  /** What stood at `at` before any stray hit it. */
  function First(strays: seq<Stray>, at: nat): Option<byte>
    decreases |strays|
  {
    if strays == [] then None
    else
      var last := strays[|strays| - 1];
      var before := First(strays[..|strays| - 1], at);
      if before.Some? then before else if last.at == at then Some(last.was) else None
  }

  /** What the last stray put at `at`. */
  function Last(strays: seq<Stray>, at: nat): Option<byte>
    decreases |strays|
  {
    if strays == [] then None
    else
      var last := strays[|strays| - 1];
      if last.at == at then Some(last.now) else Last(strays[..|strays| - 1], at)
  }

  /** Wherever a stray hit, the last one put back what stood there first. */
  predicate Harmless(strays: seq<Stray>)
  {
    forall k :: 0 <= k < |strays| ==> First(strays, strays[k].at) == Last(strays, strays[k].at)
  }

  lemma {:induction false} PatchedAt(plain: bytes, strays: seq<Stray>, i: nat)
    requires Observed(plain, strays) && i < |plain|
    ensures First(strays, i).Some? <==> Last(strays, i).Some?
    ensures First(strays, i).Some? ==> First(strays, i).value == plain[i]
    ensures Patched(plain, strays)[i] == if Last(strays, i).Some? then Last(strays, i).value else plain[i]
    decreases |strays|
  {
    if strays != [] {
      PatchedAt(plain, strays[..|strays| - 1], i);
    }
  }

  lemma {:induction false} LastIsHit(strays: seq<Stray>, at: nat)
    ensures Last(strays, at).Some? <==> exists k :: 0 <= k < |strays| && strays[k].at == at
    decreases |strays|
  {
    if strays != [] {
      var n := |strays| - 1;
      LastIsHit(strays[..n], at);
      assert forall k :: 0 <= k < n ==> strays[..n][k] == strays[k];
    }
  }

  /** The stream is as it was written exactly when the strays are harmless. */
  lemma HarmlessExactly(plain: bytes, strays: seq<Stray>)
    requires Observed(plain, strays)
    ensures Patched(plain, strays) == plain <==> Harmless(strays)
  {
    hide Patched, First, Last;
    if Harmless(strays) {
      forall i | 0 <= i < |plain| ensures Patched(plain, strays)[i] == plain[i] {
        PatchedAt(plain, strays, i);
        LastIsHit(strays, i);
      }
    }
    if Patched(plain, strays) == plain {
      forall k | 0 <= k < |strays| ensures First(strays, strays[k].at) == Last(strays, strays[k].at) {
        ObservedInside(plain, strays, k);
        PatchedAt(plain, strays, strays[k].at);
        LastIsHit(strays, strays[k].at);
      }
    }
  }

  lemma {:induction false} ObservedInside(plain: bytes, strays: seq<Stray>, k: nat)
    requires Observed(plain, strays) && k < |strays|
    ensures strays[k].at < |plain|
    decreases |strays|
  {
    if k < |strays| - 1 {
      ObservedInside(plain, strays[..|strays| - 1], k);
    }
  }

  /** What is written behind the stream is not touched. */
  lemma {:induction false} PatchedAppend(plain: bytes, more: bytes, strays: seq<Stray>)
    requires Observed(plain, strays)
    ensures Observed(plain + more, strays) && Patched(plain + more, strays) == Patched(plain, strays) + more
    decreases |strays|
  {
    if strays != [] {
      var n := |strays| - 1;
      PatchedAppend(plain, more, strays[..n]);
      UpdateAppend(Patched(plain, strays[..n]), more, strays[n].at, strays[n].now);
    }
  }

  lemma UpdateAppend(s: bytes, more: bytes, at: nat, b: byte)
    requires at < |s|
    ensures (s + more)[at := b] == s[at := b] + more && (s + more)[at] == s[at]
  {
  }

  lemma PatchedSnoc(plain: bytes, strays: seq<Stray>, at: nat, now: byte)
    requires Observed(plain, strays) && at < |plain|
    ensures var s := Patched(plain, strays);
            var more := strays + [Stray(at, s[at], now)];
            Observed(plain, more) && Patched(plain, more) == s[at := now]
  {
    var more := strays + [Stray(at, Patched(plain, strays)[at], now)];
    assert more[..|strays|] == strays;
  }
}

/** Fragment headers with any of their optional fields: what is written is read, and defaults fill in what is not. */
module FragmentFields {
  import opened Boxes
  import opened Bytes
  import opened FragmentReader
  import opened FragmentRoundTrip

  // ---- Optional fields ----

  function Opt32(v: Option<u32>): bytes
  {
    if v.Some? then BE32(v.value) else []
  }

  function Opt64(v: Option<u64>): bytes
  {
    if v.Some? then BE64(v.value) else []
  }

  /** A signed word in two's complement; an unsigned one as it is. */
  function Word32(v: Option<int>): Option<u32>
    requires v.Some? ==> -I32_MAX - 1 <= v.value <= U32_MAX
  {
    if v.None? then None else if v.value < 0 then Some(v.value + 0x1_0000_0000) else Some(v.value)
  }

  lemma OptionalReads(front: bytes, v: Option<u32>, rest: bytes)
    ensures Field(front + (Opt32(v) + rest), |front|, v.Some?) == Ok((v, |front| + |Opt32(v)|))
    ensures front + (Opt32(v) + rest) == (front + Opt32(v)) + rest
  {
    hide BE32, FromBE32;
    var d := front + (Opt32(v) + rest);
    Assoc(front, Opt32(v), rest);
    if v.Some? {
      assert d[|front|..|front| + 4] == BE32(v.value);
      BE32RoundTrip(v.value);
    }
  }

  // ---- trun ----

  /** The entry has just the fields that the flags announce, and its composition offset fits the version's type. */
  predicate Announced(e: TrunEntry, version: byte, flags: u24)
  {
    && (e.duration.Some? <==> Bit(flags, 0x100)) && (e.size.Some? <==> Bit(flags, 0x200))
    && (e.flags.Some? <==> Bit(flags, 0x400)) && (e.offset.Some? <==> Bit(flags, 0x800))
    && (e.offset.Some? ==>
          if version == 1 then -I32_MAX - 1 <= e.offset.value <= I32_MAX else 0 <= e.offset.value <= U32_MAX)
  }

  function EntryBytes(e: TrunEntry): bytes
    requires e.offset.Some? ==> -I32_MAX - 1 <= e.offset.value <= U32_MAX
  {
    Opt32(e.duration) + (Opt32(e.size) + (Opt32(e.flags) + Opt32(Word32(e.offset))))
  }

  predicate AllAnnounced(es: seq<TrunEntry>, version: byte, flags: u24)
  {
    forall k | 0 <= k < |es| :: Announced(es[k], version, flags)
  }

  function EntriesBytes(es: seq<TrunEntry>, version: byte, flags: u24): bytes
    requires AllAnnounced(es, version, flags)
    decreases |es|
  {
    if es == [] then []
    else
      assert Announced(es[|es| - 1], version, flags);
      EntriesBytes(es[..|es| - 1], version, flags) + EntryBytes(es[|es| - 1])
  }

  lemma EntryReadsBack(front: bytes, e: TrunEntry, rest: bytes, version: byte, flags: u24)
    requires Announced(e, version, flags)
    ensures ParseEntry(front + (EntryBytes(e) + rest), |front|, version, flags) == Ok((e, |front| + |EntryBytes(e)|))
  {
    hide Opt32, Bit, Field, AsI32, Word32;
    var f1, f2, f3, f4 := Opt32(e.duration), Opt32(e.size), Opt32(e.flags), Opt32(Word32(e.offset));
    var d := front + (EntryBytes(e) + rest);
    Assoc(f1, f2 + (f3 + f4), rest);
    Assoc(f2, f3 + f4, rest);
    Assoc(f3, f4, rest);
    OptionalReads(front, e.duration, f2 + (f3 + (f4 + rest)));
    OptionalReads(front + f1, e.size, f3 + (f4 + rest));
    OptionalReads(front + f1 + f2, e.flags, f4 + rest);
    OptionalReads(front + f1 + f2 + f3, Word32(e.offset), rest);
    OffsetReads(e.offset, version);
  }

  lemma OffsetReads(offset: Option<int>, version: byte)
    requires offset.Some? ==>
               if version == 1 then -I32_MAX - 1 <= offset.value <= I32_MAX else 0 <= offset.value <= U32_MAX
    ensures Word32(offset).Some? == offset.Some?
    ensures offset.Some? ==>
              (if version == 1 then AsI32(Word32(offset).value) else Word32(offset).value) == offset.value
  {
  }

  lemma {:induction false} EntriesReadBack(front: bytes, es: seq<TrunEntry>, rest: bytes, version: byte, flags: u24)
    requires AllAnnounced(es, version, flags)
    ensures var all := EntriesBytes(es, version, flags);
            ParseEntries(front + (all + rest), |front|, version, flags, |es|) == Ok((es, |front| + |all|))
    decreases |es|
  {
    hide Announced, EntryBytes, ParseEntry;
    if es != [] {
      var n := |es| - 1;
      assert Announced(es[n], version, flags) && AllAnnounced(es[..n], version, flags);
      assert es == es[..n] + [es[n]];
      EntryFits(es[n], version, flags);
      var before, last := EntriesBytes(es[..n], version, flags), EntryBytes(es[n]);
      Assoc(before, last, rest);
      Assoc(front, before, last + rest);
      EntriesReadBack(front, es[..n], last + rest, version, flags);
      EntryReadsBack(front + before, es[n], rest, version, flags);
    }
  }

  lemma EntryFits(e: TrunEntry, version: byte, flags: u24)
    requires Announced(e, version, flags)
    ensures e.offset.Some? ==> -I32_MAX - 1 <= e.offset.value <= U32_MAX
  {
  }

  /** A table has just the fields that its flags announce. */
  predicate TrunAnnounced(t: Trun, version: byte, flags: u24)
  {
    && (t.dataOffset.Some? <==> Bit(flags, 0x01)) && (t.firstSampleFlags.Some? <==> Bit(flags, 0x04))
    && |t.entries| <= MAX_TABLE_ENTRIES && AllAnnounced(t.entries, version, flags)
  }

  function DataOffset(t: Trun): Option<u32>
  {
    if t.dataOffset.Some? then Word32(Some(t.dataOffset.value)) else None
  }

  function TrunBytes(t: Trun, version: byte, flags: u24): bytes
    requires TrunAnnounced(t, version, flags)
  {
    FullBox(version, flags) +
    (BE32(|t.entries|) + (Opt32(DataOffset(t)) + (Opt32(t.firstSampleFlags) + EntriesBytes(t.entries, version, flags))))
  }

  /** A sample table with any combination of optional fields, of either version, reads back whatever follows it. */
  lemma TrunReadsBack(t: Trun, version: byte, flags: u24, more: bytes)
    requires TrunAnnounced(t, version, flags)
    ensures ParseTrun(TrunBytes(t, version, flags) + more) == Ok(t)
  {
    hide FullBox, FullHeader, BE32, Opt32, Bit, Field, AsI32, Word32, ParseEntries, EntriesBytes, AllAnnounced, ReadU32;
    var count, f1, f2 := BE32(|t.entries|), Opt32(DataOffset(t)), Opt32(t.firstSampleFlags);
    var all := EntriesBytes(t.entries, version, flags);
    var body := count + (f1 + (f2 + (all + more)));
    Assoc(FullBox(version, flags), count + (f1 + (f2 + all)), more);
    Assoc(count, f1 + (f2 + all), more);
    Assoc(f1, f2 + all, more);
    Assoc(f2, all, more);
    FullReads(version, flags, body);
    CountReads(|t.entries|, f1 + (f2 + (all + more)));
    DataOffsetReads(t);
    OptionalReads(count, DataOffset(t), f2 + (all + more));
    OptionalReads(count + f1, t.firstSampleFlags, all + more);
    EntriesReadBack(count + f1 + f2, t.entries, more, version, flags);
  }

  lemma CountReads(n: u32, rest: bytes)
    ensures ReadU32(BE32(n) + rest, 0) == Ok(n) && |BE32(n)| == 4
  {
    hide BE32, FromBE32;
    assert (BE32(n) + rest)[0..4] == BE32(n);
    BE32RoundTrip(n);
  }

  lemma DataOffsetReads(t: Trun)
    ensures DataOffset(t).Some? == t.dataOffset.Some?
    ensures t.dataOffset.Some? ==> AsI32(DataOffset(t).value) == t.dataOffset.value
  {
  }

  // ---- tfhd ----

  datatype TfhdFields = TfhdFields(trackId: u32, base: Option<u64>, index: Option<u32>, duration: Option<u32>,
                                   size: Option<u32>, sampleFlags: Option<u32>)

  predicate TfhdAnnounced(h: TfhdFields, flags: u24)
  {
    && (h.base.Some? <==> Bit(flags, 0x01)) && (h.index.Some? <==> Bit(flags, 0x02))
    && (h.duration.Some? <==> Bit(flags, 0x08))
    && (h.size.Some? <==> Bit(flags, 0x10)) && (h.sampleFlags.Some? <==> Bit(flags, 0x20))
  }

  function TfhdBytes(h: TfhdFields, version: byte, flags: u24): bytes
  {
    FullBox(version, flags) +
    (BE32(h.trackId)
     + (Opt64(h.base) + (Opt32(h.index) + (Opt32(h.duration) + (Opt32(h.size) + Opt32(h.sampleFlags))))))
  }

  /** A track's header with any combination of optional fields reads back. */
  lemma TfhdReadsBack(h: TfhdFields, version: byte, flags: u24, more: bytes)
    requires TfhdAnnounced(h, flags)
    ensures ParseTfhd(TfhdBytes(h, version, flags) + more) ==
            Ok(Tfhd(flags, h.trackId, if h.base.Some? then h.base.value else 0, OrElse(h.duration, 0),
                    OrElse(h.size, 0), OrElse(h.sampleFlags, 0)))
  {
    hide FullBox, FullHeader, BE32, Opt32, Opt64, Bit, Field, ReadU32, ReadU64;
    var id, f0, f1, f2 := BE32(h.trackId), Opt64(h.base), Opt32(h.index), Opt32(h.duration);
    var f3, f4 := Opt32(h.size), Opt32(h.sampleFlags);
    var body := id + (f0 + (f1 + (f2 + (f3 + (f4 + more)))));
    assert TfhdBytes(h, version, flags) + more == FullBox(version, flags) + body by {
      Assoc(FullBox(version, flags), id + (f0 + (f1 + (f2 + (f3 + f4)))), more);
      Assoc(id, f0 + (f1 + (f2 + (f3 + f4))), more);
      Assoc(f0, f1 + (f2 + (f3 + f4)), more);
      Assoc(f1, f2 + (f3 + f4), more);
      Assoc(f2, f3 + f4, more);
      Assoc(f3, f4, more);
    }
    FullReads(version, flags, body);
    CountReads(h.trackId, f0 + (f1 + (f2 + (f3 + (f4 + more)))));
    BaseReads(id, h.base, f1 + (f2 + (f3 + (f4 + more))));
    OptionalReads(id + f0, h.index, f2 + (f3 + (f4 + more)));
    OptionalReads(id + f0 + f1, h.duration, f3 + (f4 + more));
    OptionalReads(id + f0 + f1 + f2, h.size, f4 + more);
    OptionalReads(id + f0 + f1 + f2 + f3, h.sampleFlags, more);
    OptSize(h.index);
    IndexThere(body, 4 + |f0|, h.index);
  }

  lemma OptSize(v: Option<u32>)
    ensures |Opt32(v)| == if v.Some? then 4 else 0
  {
  }

  lemma BaseReads(front: bytes, v: Option<u64>, rest: bytes)
    ensures |Opt64(v)| == if v.Some? then 8 else 0
    ensures front + (Opt64(v) + rest) == (front + Opt64(v)) + rest
    ensures v.Some? ==> ReadU64(front + (Opt64(v) + rest), |front|) == Ok(v.value)
  {
    hide BE64, FromBE64;
    var d := front + (Opt64(v) + rest);
    Assoc(front, Opt64(v), rest);
    if v.Some? {
      assert d[|front|..|front| + 8] == BE64(v.value);
      BE64RoundTrip(v.value);
    }
  }

  lemma IndexThere(d: bytes, pos: nat, v: Option<u32>)
    requires Field(d, pos, v.Some?).Ok?
    ensures v.Some? ==> ReadU32(d, pos).Ok?
  {
    hide ReadU32;
  }

  // ---- Samples with their defaults ----

  /** The bytes of the samples before the `k`-th. */
  function SizeBefore(t: Trun, defaults: Trex, k: nat): nat
    requires k <= |t.entries|
  {
    if k == 0 then 0 else SizeBefore(t, defaults, k - 1) + OrElse(t.entries[k - 1].size, defaults.size)
  }

  /** Sample `k`: each field is the entry's, or else the default; the first sample's flags may be given apart. */
  ghost predicate Resolved(t: Trun, defaults: Trex, first: int, k: nat, s: FragmentSample)
    requires k < |t.entries|
  {
    var e := t.entries[k];
    && (if e.duration.Some? then s.duration == e.duration.value else s.duration == defaults.duration)
    && (if e.size.Some? then s.size == e.size.value else s.size == defaults.size)
    && (if k == 0 && t.firstSampleFlags.Some? then s.flags == t.firstSampleFlags.value
        else if e.flags.Some? then s.flags == e.flags.value else s.flags == defaults.flags)
    && (if e.offset.Some? then s.offset == e.offset.value else s.offset == 0)
    && s.dataOffset == first + SizeBefore(t, defaults, k)
  }

  /** Where the data of the table begins. */
  function DataAt(t: Trun, base: nat): int
  {
    base + if t.dataOffset.Some? then t.dataOffset.value else 0
  }

  lemma {:induction false} SizeGrows(t: Trun, defaults: Trex, i: nat, k: nat)
    requires i <= k <= |t.entries|
    ensures SizeBefore(t, defaults, i) <= SizeBefore(t, defaults, k)
    decreases k
  {
    if i < k {
      SizeGrows(t, defaults, i, k - 1);
    }
  }

  /**
   * The samples of a table: they are resolved one by one, and succeed exactly when the data begins at a 64-bit offset
   * and neither the last sample's offset nor the size of the data leaves that range.
   */
  lemma {:induction false} SamplesResolved(t: Trun, defaults: Trex, base: nat, n: nat)
    requires n <= |t.entries|
    ensures var r, first := SamplesTo(t, defaults, base, n), DataAt(t, base);
            && (r.Ok? <==> n == 0 || (0 <= first && first + SizeBefore(t, defaults, n - 1) <= U64_MAX
                                      && SizeBefore(t, defaults, n) <= U64_MAX))
            && (r.Err? ==> r.error == InvalidInput(3302))
            && (r.Ok? ==>
                  && r.value.1 == SizeBefore(t, defaults, n)
                  && forall k | 0 <= k < n ::
                       Resolved(t, defaults, first, k, r.value.0[k]))
    decreases n
  {
    if n > 0 {
      SamplesResolved(t, defaults, base, n - 1);
      if n > 1 {
        SizeGrows(t, defaults, n - 2, n - 1);
      }
      hide Resolved;
      var before := SamplesTo(t, defaults, base, n - 1);
      var r := SamplesTo(t, defaults, base, n);
      if r.Ok? {
        LastResolved(t, defaults, base, n);
        assert forall k | 0 <= k < n - 1 :: r.value.0[k] == before.value.0[k];
      }
    }
  }

  lemma LastResolved(t: Trun, defaults: Trex, base: nat, n: nat)
    requires 0 < n <= |t.entries| && SamplesTo(t, defaults, base, n).Ok? && SamplesTo(t, defaults, base, n - 1).Ok?
    requires SamplesTo(t, defaults, base, n - 1).value.1 == SizeBefore(t, defaults, n - 1)
    ensures Resolved(t, defaults, DataAt(t, base), n - 1, SamplesTo(t, defaults, base, n).value.0[n - 1])
  {
  }

  /** The defaults of a track: the fragment header's where it has them, the initialisation segment's otherwise. */
  ghost predicate DefaultsOf(h: TfhdFields, trex: Trex, defaults: Trex)
  {
    && defaults.duration == (if h.duration.Some? then h.duration.value else trex.duration)
    && defaults.size == (if h.size.Some? then h.size.value else trex.size)
    && defaults.flags == (if h.sampleFlags.Some? then h.sampleFlags.value else trex.flags)
  }

  /**
   * A track box with any optional fields: its samples are the table's, with the entry's value before the header's
   * before the track's, behind the header's base offset or else the `moof`'s place.
   */
  lemma TrafReadsBack(h: TfhdFields, hFlags: u24, time: u64, t: Trun, version: byte, flags: u24, moofOffset: nat,
                      tracks: map<u32, Trex>)
    requires TfhdAnnounced(h, hFlags) && TrunAnnounced(t, version, flags)
             && |TrunBytes(t, version, flags)| + 8 <= U32_MAX
    ensures var d := (WriteBox(TFHD, TfhdBytes(h, 0, hFlags)) + WriteBox(TFDT, FullBox(1, 0) + BE64(time)))
                     + WriteBox(TRUN, TrunBytes(t, version, flags));
            var base := if h.base.Some? then h.base.value else moofOffset;
            exists defaults ::
              && DefaultsOf(h, TrexOf(tracks, h.trackId), defaults)
              && match SamplesTo(t, defaults, base, |t.entries|)
                 case Err(e) => ParseTraf(d, moofOffset, tracks) == Err(e)
                 case Ok((samples, _)) =>
                   ParseTraf(d, moofOffset, tracks) == Ok(Some(TrackFragment(h.trackId, time, samples)))
  {
    hide *;
    var header := HeaderOf(h, hFlags);
    TrafChildren(h, hFlags, time, t, version, flags);
    DefaultsAre(h, hFlags, TrexOf(tracks, h.trackId));
    TrafOf((WriteBox(TFHD, TfhdBytes(h, 0, hFlags)) + WriteBox(TFDT, FullBox(1, 0) + BE64(time)))
           + WriteBox(TRUN, TrunBytes(t, version, flags)), h, hFlags, time, t, moofOffset, tracks);
  }

  /** What a track's header reads as. */
  function HeaderOf(h: TfhdFields, flags: u24): Tfhd
  {
    Tfhd(flags, h.trackId, if h.base.Some? then h.base.value else 0, OrElse(h.duration, 0), OrElse(h.size, 0),
         OrElse(h.sampleFlags, 0))
  }

  lemma DefaultsAre(h: TfhdFields, flags: u24, trex: Trex)
    requires TfhdAnnounced(h, flags)
    ensures DefaultsOf(h, trex, Defaults(HeaderOf(h, flags), trex))
  {
  }

  lemma TrafOf(d: bytes, h: TfhdFields, hFlags: u24, time: u64, t: Trun, moofOffset: nat, tracks: map<u32, Trex>)
    requires TfhdAnnounced(h, hFlags)
    requires ReadChildren(d, 0, TrafBoxes(None, None, None)) ==
             Ok(TrafBoxes(Some(HeaderOf(h, hFlags)), Some(time), Some(t)))
    ensures var base := if h.base.Some? then h.base.value else moofOffset;
            match SamplesTo(t, Defaults(HeaderOf(h, hFlags), TrexOf(tracks, h.trackId)), base, |t.entries|)
            case Err(e) => ParseTraf(d, moofOffset, tracks) == Err(e)
            case Ok((samples, _)) =>
              ParseTraf(d, moofOffset, tracks) == Ok(Some(TrackFragment(h.trackId, time, samples)))
  {
    hide ReadChildren, SamplesTo, Defaults, Bit, TrexOf;
  }

  lemma TrafChildren(h: TfhdFields, hFlags: u24, time: u64, t: Trun, version: byte, flags: u24)
    requires TfhdAnnounced(h, hFlags) && TrunAnnounced(t, version, flags)
             && |TrunBytes(t, version, flags)| + 8 <= U32_MAX
    ensures ReadChildren((WriteBox(TFHD, TfhdBytes(h, 0, hFlags)) + WriteBox(TFDT, FullBox(1, 0) + BE64(time)))
                         + WriteBox(TRUN, TrunBytes(t, version, flags)), 0, TrafBoxes(None, None, None)) ==
            Ok(TrafBoxes(Some(HeaderOf(h, hFlags)), Some(time), Some(t)))
  {
    TfhdSmall(h, hFlags, time);
    TfhdReadsBack(h, 0, hFlags, []);
    TrunReadsBack(t, version, flags, []);
    TfdtReads(time);
    assert TfhdBytes(h, 0, hFlags) + [] == TfhdBytes(h, 0, hFlags);
    assert TrunBytes(t, version, flags) + [] == TrunBytes(t, version, flags);
    hide WriteBox, TfhdBytes, TrunBytes, ParseTfhd, ParseTfdt, ParseTrun, FullBox, BE64, ReadChildren, Bit;
    var f0 := TrafBoxes(None, None, None);
    var f1 := f0.(tfhd := Some(HeaderOf(h, hFlags)));
    var f2 := f1.(tfdt := Some(time));
    ThreeChildren(TFHD, TfhdBytes(h, 0, hFlags), TFDT, FullBox(1, 0) + BE64(time), TRUN, TrunBytes(t, version, flags),
                  f0, f1, f2, f2.(trun := Some(t)));
  }

  lemma TfhdSmall(h: TfhdFields, flags: u24, time: u64)
    ensures |TfhdBytes(h, 0, flags)| <= 32 && |FullBox(1, 0) + BE64(time)| == 12
  {
    hide BE32, BE64;
  }
}

/** Reading a media segment: `moof` into track fragments, and these with the `mdat` into packets. */
module FragmentReader {
  import opened Bytes
  import opened Boxes

  /** A sample with its defaults resolved; the data offset counts from the beginning of the stream. */
  datatype FragmentSample = FragmentSample(duration: nat, size: nat, flags: u32, offset: int, dataOffset: nat)

  datatype TrackFragment = TrackFragment(trackId: u32, baseDecodeTime: u64, samples: seq<FragmentSample>)

  /** A track's defaults from the initialisation segment. */
  datatype Trex = Trex(duration: u32, size: u32, flags: u32)

  datatype Tfhd = Tfhd(flags: u24, trackId: u32, baseDataOffset: u64, duration: u32, size: u32, sampleFlags: u32)

  datatype TrunEntry = TrunEntry(duration: Option<u32>, size: Option<u32>, flags: Option<u32>, offset: Option<int>)

  datatype Trun = Trun(dataOffset: Option<i32>, firstSampleFlags: Option<u32>, entries: seq<TrunEntry>)

  // ---- Fields ----

  predicate Bit(flags: u24, mask: nat)
    requires mask > 0
  {
    flags / mask % 2 == 1
  }

  function ReadU32(d: bytes, pos: nat): Result<u32, Mp4Error>
  {
    if pos + 4 > |d| then Err(NeedMoreData) else Ok(FromBE32(d[pos..pos + 4]))
  }

  function ReadU64(d: bytes, pos: nat): Result<u64, Mp4Error>
  {
    if pos + 8 > |d| then Err(NeedMoreData) else Ok(FromBE64(d[pos..pos + 8]))
  }

  function AsI32(v: u32): i32
  {
    if v > I32_MAX then v - 0x1_0000_0000 else v
  }

  /** A field that is there when its flag is set, and the position behind it. */
  function Field(d: bytes, pos: nat, present: bool): Result<(Option<u32>, nat), Mp4Error>
  {
    if !present then Ok((None, pos))
    else
      match ReadU32(d, pos)
      case Err(e) => Err(e)
      case Ok(v) => Ok((Some(v), pos + 4))
  }

  function OrElse(v: Option<u32>, otherwise: u32): u32
  {
    if v.Some? then v.value else otherwise
  }

  /** The header of a full box, and its body. */
  function FullHeader(d: bytes): Result<(byte, u24, bytes), Mp4Error>
  {
    if |d| < 4 then Err(NeedMoreData) else Ok((d[0], FromBE24(d[1..4]), d[4..]))
  }

  // ---- tfhd, tfdt and trun ----

  function ParseTfhd(d: bytes): Result<Tfhd, Mp4Error>
  {
    match FullHeader(d)
    case Err(e) => Err(e)
    case Ok((_, flags, body)) =>
      var p1 := 4 + if Bit(flags, 0x01) then 8 else 0;
      var p2 := p1 + if Bit(flags, 0x02) then 4 else 0;
      match ReadU32(body, 0)
      case Err(e) => Err(e)
      case Ok(trackId) =>
        var base := if Bit(flags, 0x01) then ReadU64(body, 4) else Ok(0);
        if base.Err? then Err(base.error)
        else if Bit(flags, 0x02) && ReadU32(body, p1).Err? then Err(NeedMoreData)
        else
          match Field(body, p2, Bit(flags, 0x08))
          case Err(e) => Err(e)
          case Ok((duration, p3)) =>
            match Field(body, p3, Bit(flags, 0x10))
            case Err(e) => Err(e)
            case Ok((size, p4)) =>
              match Field(body, p4, Bit(flags, 0x20))
              case Err(e) => Err(e)
              case Ok((sampleFlags, _)) =>
                Ok(Tfhd(flags, trackId, base.value, OrElse(duration, 0), OrElse(size, 0), OrElse(sampleFlags, 0)))
  }

  function ParseTfdt(d: bytes): Result<u64, Mp4Error>
  {
    match FullHeader(d)
    case Err(e) => Err(e)
    case Ok((version, _, body)) =>
      if version == 1 then ReadU64(body, 0)
      else
        match ReadU32(body, 0)
        case Err(e) => Err(e)
        case Ok(v) => Ok(v)
  }

  function ParseEntry(d: bytes, pos: nat, version: byte, flags: u24): Result<(TrunEntry, nat), Mp4Error>
  {
    match Field(d, pos, Bit(flags, 0x100))
    case Err(e) => Err(e)
    case Ok((duration, p1)) =>
      match Field(d, p1, Bit(flags, 0x200))
      case Err(e) => Err(e)
      case Ok((size, p2)) =>
        match Field(d, p2, Bit(flags, 0x400))
        case Err(e) => Err(e)
        case Ok((sampleFlags, p3)) =>
          match Field(d, p3, Bit(flags, 0x800))
          case Err(e) => Err(e)
          case Ok((offset, p4)) =>
            var signed: Option<int> :=
              if offset.None? then None else Some(if version == 1 then AsI32(offset.value) else offset.value);
            Ok((TrunEntry(duration, size, sampleFlags, signed), p4))
  }

  /** The first `n` entries of a table, and the position behind them. */
  function ParseEntries(d: bytes, pos: nat, version: byte, flags: u24, n: nat)
    : (r: Result<(seq<TrunEntry>, nat), Mp4Error>)
    ensures r.Ok? ==> |r.value.0| == n
  {
    if n == 0 then Ok(([], pos))
    else
      match ParseEntries(d, pos, version, flags, n - 1)
      case Err(e) => Err(e)
      case Ok((entries, at)) =>
        match ParseEntry(d, at, version, flags)
        case Err(e) => Err(e)
        case Ok((entry, next)) => Ok((entries + [entry], next))
  }

  function ParseTrun(d: bytes): Result<Trun, Mp4Error>
  {
    match FullHeader(d)
    case Err(e) => Err(e)
    case Ok((version, flags, body)) =>
      match ReadU32(body, 0)
      case Err(e) => Err(e)
      case Ok(count) =>
        if count > MAX_TABLE_ENTRIES then Err(LimitExceeded("trun entries"))
        else
          match Field(body, 4, Bit(flags, 0x01))
          case Err(e) => Err(e)
          case Ok((dataOffset, p1)) =>
            match Field(body, p1, Bit(flags, 0x04))
            case Err(e) => Err(e)
            case Ok((first, p2)) =>
              match ParseEntries(body, p2, version, flags, count)
              case Err(e) => Err(e)
              case Ok((entries, _)) =>
                Ok(Trun(if dataOffset.Some? then Some(AsI32(dataOffset.value)) else None, first, entries))
  }

  lemma {:induction false} EntriesFail(d: bytes, pos: nat, version: byte, flags: u24, i: nat, n: nat)
    requires i <= n && ParseEntries(d, pos, version, flags, i).Err?
    ensures ParseEntries(d, pos, version, flags, n) == ParseEntries(d, pos, version, flags, i)
    decreases n
  {
    if i < n {
      EntriesFail(d, pos, version, flags, i, n - 1);
    }
  }

  method ParseTrunBox(d: bytes) returns (r: Result<Trun, Mp4Error>)
    ensures r == ParseTrun(d)
  {
    hide ParseEntry;
    var header := FullHeader(d);
    if header.Err? {
      return Err(header.error);
    }
    var (version, flags, body) := header.value;
    var count := ReadU32(body, 0);
    if count.Err? {
      return Err(count.error);
    }
    if count.value > MAX_TABLE_ENTRIES {
      return Err(LimitExceeded("trun entries"));
    }
    var dataOffset := Field(body, 4, Bit(flags, 0x01));
    if dataOffset.Err? {
      return Err(dataOffset.error);
    }
    var first := Field(body, dataOffset.value.1, Bit(flags, 0x04));
    if first.Err? {
      return Err(first.error);
    }
    var entries := [];
    var pos := first.value.1;
    for i := 0 to count.value
      invariant ParseEntries(body, first.value.1, version, flags, i) == Ok((entries, pos))
    {
      var entry := ParseEntry(body, pos, version, flags);
      if entry.Err? {
        EntriesFail(body, first.value.1, version, flags, i + 1, count.value);
        return Err(entry.error);
      }
      entries := entries + [entry.value.0];
      pos := entry.value.1;
    }
    return Ok(Trun(if dataOffset.value.0.Some? then Some(AsI32(dataOffset.value.0.value)) else None, first.value.0,
                   entries));
  }

  // ---- traf ----

  datatype TrafBoxes = TrafBoxes(tfhd: Option<Tfhd>, tfdt: Option<u64>, trun: Option<Trun>)

  /** What one child adds; of several of a kind the last counts. */
  function AddChild(found: TrafBoxes, boxType: fourcc, body: bytes): Result<TrafBoxes, Mp4Error>
  {
    if boxType == TFHD then
      match ParseTfhd(body) { case Err(e) => Err(e) case Ok(v) => Ok(found.(tfhd := Some(v))) }
    else if boxType == TFDT then
      match ParseTfdt(body) { case Err(e) => Err(e) case Ok(v) => Ok(found.(tfdt := Some(v))) }
    else if boxType == TRUN then
      match ParseTrun(body) { case Err(e) => Err(e) case Ok(v) => Ok(found.(trun := Some(v))) }
    else Ok(found)
  }

  function ReadChildren(d: bytes, pos: nat, found: TrafBoxes): Result<TrafBoxes, Mp4Error>
    decreases |d| - pos
  {
    if pos >= |d| then Ok(found)
    else
      match NextBox(d, pos)
      case Err(e) => Err(e)
      case Ok(b) =>
        match AddChild(found, b.boxType, d[b.start..b.end])
        case Err(e) => Err(e)
        case Ok(now) => ReadChildren(d, b.end, now)
  }

  /** A track's defaults: those of the fragment where it has them, then those of the track. */
  function Defaults(tfhd: Tfhd, trex: Trex): Trex
  {
    Trex(if Bit(tfhd.flags, 0x08) then tfhd.duration else trex.duration,
         if Bit(tfhd.flags, 0x10) then tfhd.size else trex.size,
         if Bit(tfhd.flags, 0x20) then tfhd.sampleFlags else trex.flags)
  }

  /** Where the first sample is. */
  function FirstOffset(base: nat, dataOffset: Option<i32>): Result<nat, Mp4Error>
  {
    var at := base + if dataOffset.Some? then dataOffset.value else 0;
    if 0 <= at <= U64_MAX then Ok(at) else Err(InvalidInput(3302))
  }

  /** The first `n` samples, and the size of their data. */
  function SamplesTo(trun: Trun, defaults: Trex, base: nat, n: nat): (r: Result<(seq<FragmentSample>, nat), Mp4Error>)
    requires n <= |trun.entries|
    ensures r.Ok? ==> |r.value.0| == n
  {
    if n == 0 then Ok(([], 0))
    else
      match SamplesTo(trun, defaults, base, n - 1)
      case Err(e) => Err(e)
      case Ok((samples, cumulative)) =>
        match FirstOffset(base, trun.dataOffset)
        case Err(e) => Err(e)
        case Ok(first) =>
          var entry := trun.entries[n - 1];
          var size := OrElse(entry.size, defaults.size);
          var flags := if n == 1 && trun.firstSampleFlags.Some? then trun.firstSampleFlags.value
                       else OrElse(entry.flags, defaults.flags);
          if first + cumulative > U64_MAX || cumulative + size > U64_MAX then Err(InvalidInput(3302))
          else
            Ok((samples + [FragmentSample(OrElse(entry.duration, defaults.duration), size, flags,
                                          if entry.offset.Some? then entry.offset.value else 0, first + cumulative)],
                cumulative + size))
  }

  function TrexOf(tracks: map<u32, Trex>, id: u32): Trex
  {
    if id in tracks then tracks[id] else Trex(0, 0, 0)
  }

  function ParseTraf(d: bytes, moofOffset: nat, tracks: map<u32, Trex>): Result<Option<TrackFragment>, Mp4Error>
  {
    match ReadChildren(d, 0, TrafBoxes(None, None, None))
    case Err(e) => Err(e)
    case Ok(found) =>
      if found.tfhd.None? || found.trun.None? then Ok(None)
      else
        var tfhd, trun := found.tfhd.value, found.trun.value;
        var base := if Bit(tfhd.flags, 0x01) then tfhd.baseDataOffset else moofOffset;
        match SamplesTo(trun, Defaults(tfhd, TrexOf(tracks, tfhd.trackId)), base, |trun.entries|)
        case Err(e) => Err(e)
        case Ok((samples, _)) =>
          Ok(Some(TrackFragment(tfhd.trackId, if found.tfdt.Some? then found.tfdt.value else 0, samples)))
  }

  method ParseTrafBox(d: bytes, moofOffset: nat, tracks: map<u32, Trex>)
    returns (r: Result<Option<TrackFragment>, Mp4Error>)
    ensures r == ParseTraf(d, moofOffset, tracks)
  {
    hide ParseTfhd, ParseTfdt, ParseTrun, NextBox;
    var found := TrafBoxes(None, None, None);
    var pos := 0;
    while pos < |d|
      invariant ReadChildren(d, 0, TrafBoxes(None, None, None)) == ReadChildren(d, pos, found)
      decreases |d| - pos
    {
      var b := NextBox(d, pos);
      if b.Err? {
        return Err(b.error);
      }
      NextBoxBounds(d, pos);
      var body := d[b.value.start..b.value.end];
      if b.value.boxType == TFHD {
        var v := ParseTfhd(body);
        if v.Err? {
          return Err(v.error);
        }
        found := found.(tfhd := Some(v.value));
      } else if b.value.boxType == TFDT {
        var v := ParseTfdt(body);
        if v.Err? {
          return Err(v.error);
        }
        found := found.(tfdt := Some(v.value));
      } else if b.value.boxType == TRUN {
        var v := ParseTrunBox(body);
        if v.Err? {
          return Err(v.error);
        }
        found := found.(trun := Some(v.value));
      }
      pos := b.value.end;
    }
    if found.tfhd.None? || found.trun.None? {
      return Ok(None);
    }
    var tfhd, trun := found.tfhd.value, found.trun.value;
    var samples := ResolveSamples(trun, Defaults(tfhd, TrexOf(tracks, tfhd.trackId)),
                                  if Bit(tfhd.flags, 0x01) then tfhd.baseDataOffset else moofOffset);
    if samples.Err? {
      return Err(samples.error);
    }
    return Ok(Some(TrackFragment(tfhd.trackId, if found.tfdt.Some? then found.tfdt.value else 0, samples.value)));
  }

  lemma NextBoxBounds(d: bytes, pos: nat)
    requires pos < |d| && NextBox(d, pos).Ok?
    ensures pos + 8 <= NextBox(d, pos).value.start <= NextBox(d, pos).value.end <= |d|
  {
  }

  lemma {:induction false} SamplesFail(trun: Trun, defaults: Trex, base: nat, i: nat, n: nat)
    requires i <= n <= |trun.entries| && SamplesTo(trun, defaults, base, i).Err?
    ensures SamplesTo(trun, defaults, base, n) == SamplesTo(trun, defaults, base, i)
    decreases n
  {
    if i < n {
      SamplesFail(trun, defaults, base, i, n - 1);
    }
  }

  method ResolveSamples(trun: Trun, defaults: Trex, base: nat) returns (r: Result<seq<FragmentSample>, Mp4Error>)
    ensures r == match SamplesTo(trun, defaults, base, |trun.entries|)
                 case Err(e) => Err(e)
                 case Ok((samples, _)) => Ok(samples)
  {
    var cumulative := 0;
    var samples := [];
    for i := 0 to |trun.entries|
      invariant SamplesTo(trun, defaults, base, i) == Ok((samples, cumulative))
    {
      if SamplesTo(trun, defaults, base, i + 1).Err? {
        SamplesFail(trun, defaults, base, i + 1, |trun.entries|);
      }
      var entry := trun.entries[i];
      var duration := OrElse(entry.duration, defaults.duration);
      var size := OrElse(entry.size, defaults.size);
      var flags := OrElse(entry.flags, defaults.flags);
      var offset := if entry.offset.Some? then entry.offset.value else 0;
      if i == 0 && trun.firstSampleFlags.Some? {
        flags := trun.firstSampleFlags.value;
      }
      var first := FirstOffset(base, trun.dataOffset);
      if first.Err? {
        return Err(first.error);
      }
      if first.value + cumulative > U64_MAX || cumulative + size > U64_MAX {
        return Err(InvalidInput(3302));
      }
      samples := samples + [FragmentSample(duration, size, flags, offset, first.value + cumulative)];
      cumulative := cumulative + size;
    }
    return Ok(samples);
  }

  // ---- moof ----

  function ParseMoof(d: bytes, pos: nat, moofOffset: nat, tracks: map<u32, Trex>): Result<seq<TrackFragment>, Mp4Error>
    decreases |d| - pos
  {
    if pos >= |d| then Ok([])
    else
      match NextBox(d, pos)
      case Err(e) => Err(e)
      case Ok(b) =>
        var traf := if b.boxType == TRAF then ParseTraf(d[b.start..b.end], moofOffset, tracks) else Ok(None);
        if traf.Err? then Err(traf.error)
        else
          match ParseMoof(d, b.end, moofOffset, tracks)
          case Err(e) => Err(e)
          case Ok(rest) => Ok((if traf.value.Some? then [traf.value.value] else []) + rest)
  }

  method ParseMoofBox(d: bytes, moofOffset: nat, tracks: map<u32, Trex>)
    returns (r: Result<seq<TrackFragment>, Mp4Error>)
    ensures r == ParseMoof(d, 0, moofOffset, tracks)
  {
    hide ParseTraf, NextBox;
    var fragments := [];
    var pos := 0;
    ghost var all := ParseMoof(d, 0, moofOffset, tracks);
    assert all.Ok? ==> [] + all.value == all.value;
    while pos < |d|
      invariant all == match ParseMoof(d, pos, moofOffset, tracks)
                       case Err(e) => Err(e)
                       case Ok(rest) => Ok(fragments + rest)
      decreases |d| - pos
    {
      var b := NextBox(d, pos);
      if b.Err? {
        return Err(b.error);
      }
      NextBoxBounds(d, pos);
      if b.value.boxType == TRAF {
        var traf := ParseTrafBox(d[b.value.start..b.value.end], moofOffset, tracks);
        if traf.Err? {
          return Err(traf.error);
        }
        if traf.value.Some? {
          ghost var rest := ParseMoof(d, b.value.end, moofOffset, tracks);
          if rest.Ok? {
            Assoc(fragments, [traf.value.value], rest.value);
          }
          fragments := fragments + [traf.value.value];
        } else {
          NothingBefore(d, b.value.end, moofOffset, tracks);
        }
      } else {
        NothingBefore(d, b.value.end, moofOffset, tracks);
      }
      pos := b.value.end;
    }
    assert fragments + [] == fragments;
    return Ok(fragments);
  }

  lemma NothingBefore(d: bytes, pos: nat, moofOffset: nat, tracks: map<u32, Trex>)
    ensures var rest := ParseMoof(d, pos, moofOffset, tracks); rest.Ok? ==> [] + rest.value == rest.value
  {
  }

  // ---- Packets ----

  /** A packet of a track, its times in ticks. */
  datatype MediaPacket = MediaPacket(trackId: u32, epoch: nat, sequence: u64, payload: bytes, pts: i64, dts: i64,
                                     duration: i64, key: bool, discontinuity: bool)

  predicate IsNonSync(flags: u32)
  {
    flags / 0x1_0000 % 2 == 1
  }

  /** Decode times add up and saturate at the unsigned range, presentation times at both its ends. */
  function Saturated(t: int): u64
  {
    if t < 0 then 0 else if t > U64_MAX then U64_MAX else t
  }

  function EmitOne(s: FragmentSample, trackId: u32, mdat: bytes, mdatOffset: nat, dts: u64, sequence: u64, epoch: nat)
    : Result<MediaPacket, Mp4Error>
  {
    if s.dataOffset < mdatOffset then Err(InvalidInput(3302))
    else
      var start := s.dataOffset - mdatOffset;
      if start + s.size > U64_MAX then Err(InvalidInput(3302))
      else if start + s.size > |mdat| then Err(InvalidInput(3301))
      else
        var pts := Saturated(dts + s.offset);
        if pts > I64_MAX || dts > I64_MAX || s.duration > I64_MAX then Err(InvalidInput(3303))
        else Ok(MediaPacket(trackId, epoch, sequence, mdat[start..start + s.size], pts, dts, s.duration,
                            !IsNonSync(s.flags), false))
  }

  /** The packets of the first `n` samples, and the decode time behind them. */
  function EmitTo(tf: TrackFragment, mdat: bytes, mdatOffset: nat, sequence: u64, epoch: nat, n: nat)
    : (r: Result<(seq<MediaPacket>, u64), Mp4Error>)
    requires n <= |tf.samples|
    ensures r.Ok? ==> |r.value.0| == n
  {
    if n == 0 then Ok(([], Saturated(tf.baseDecodeTime)))
    else
      match EmitTo(tf, mdat, mdatOffset, sequence, epoch, n - 1)
      case Err(e) => Err(e)
      case Ok((packets, dts)) =>
        var s := tf.samples[n - 1];
        match EmitOne(s, tf.trackId, mdat, mdatOffset, dts, Wrap64(sequence + (n - 1)), epoch)
        case Err(e) => Err(e)
        case Ok(p) => Ok((packets + [p], Saturated(dts + s.duration)))
  }

  lemma {:induction false} EmitFails(tf: TrackFragment, mdat: bytes, mdatOffset: nat, sequence: u64, epoch: nat, i: nat,
                                     n: nat)
    requires i <= n <= |tf.samples| && EmitTo(tf, mdat, mdatOffset, sequence, epoch, i).Err?
    ensures EmitTo(tf, mdat, mdatOffset, sequence, epoch, n) == EmitTo(tf, mdat, mdatOffset, sequence, epoch, i)
    decreases n
  {
    if i < n {
      EmitFails(tf, mdat, mdatOffset, sequence, epoch, i, n - 1);
    }
  }

  /** How many of the first `n` samples are emitted before one fails. */
  function Emitted(tf: TrackFragment, mdat: bytes, mdatOffset: nat, sequence: u64, epoch: nat, n: nat): (k: nat)
    requires n <= |tf.samples|
    ensures k <= n && (EmitTo(tf, mdat, mdatOffset, sequence, epoch, n).Ok? ==> k == n)
  {
    if n == 0 || EmitTo(tf, mdat, mdatOffset, sequence, epoch, n).Ok? then n
    else Emitted(tf, mdat, mdatOffset, sequence, epoch, n - 1)
  }

  lemma {:induction false} EmittedStops(tf: TrackFragment, mdat: bytes, mdatOffset: nat, sequence: u64, epoch: nat,
                                        i: nat, n: nat)
    requires i < n <= |tf.samples| && EmitTo(tf, mdat, mdatOffset, sequence, epoch, i).Ok?
    requires EmitTo(tf, mdat, mdatOffset, sequence, epoch, i + 1).Err?
    ensures Emitted(tf, mdat, mdatOffset, sequence, epoch, n) == i
    decreases n
  {
    EmitFails(tf, mdat, mdatOffset, sequence, epoch, i + 1, n);
    hide EmitTo;
    if i + 1 < n {
      EmittedStops(tf, mdat, mdatOffset, sequence, epoch, i, n - 1);
    }
  }

  /** Cuts a fragment's packets out of the `mdat`; `next` is the sequence number behind those emitted. */
  method EmitPackets(tf: TrackFragment, mdat: bytes, mdatOffset: nat, sequence: u64, epoch: nat)
    returns (r: Result<seq<MediaPacket>, Mp4Error>, next: u64)
    ensures r == match EmitTo(tf, mdat, mdatOffset, sequence, epoch, |tf.samples|)
                 case Err(e) => Err(e)
                 case Ok((ps, _)) => Ok(ps)
    ensures next == Wrap64(sequence + Emitted(tf, mdat, mdatOffset, sequence, epoch, |tf.samples|))
  {
    hide EmitOne, Wrap64;
    var out := [];
    var dts := tf.baseDecodeTime;
    next := sequence;
    WrapNone(sequence);
    for i := 0 to |tf.samples|
      invariant EmitTo(tf, mdat, mdatOffset, sequence, epoch, i) == Ok((out, dts)) && next == Wrap64(sequence + i)
    {
      var s := tf.samples[i];
      var p := EmitOne(s, tf.trackId, mdat, mdatOffset, dts, next, epoch);
      if p.Err? {
        EmitFails(tf, mdat, mdatOffset, sequence, epoch, i + 1, |tf.samples|);
        EmittedStops(tf, mdat, mdatOffset, sequence, epoch, i, |tf.samples|);
        return Err(p.error), next;
      }
      WrapNext(sequence + i);
      next := if next == U64_MAX then 0 else next + 1;
      out := out + [p.value];
      dts := Saturated(dts + s.duration);
    }
    return Ok(out), next;
  }
}

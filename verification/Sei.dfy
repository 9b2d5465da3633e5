/** SEI message lists inside an unescaped RBSP: 0xFF-coded type and size, payload, trailing bits. */
module Sei {
  import opened Bytes

  datatype SeiError = Truncated | InvalidMessage | TooManyMessages | PayloadTooLarge

  datatype SeiMessage = SeiMessage(payloadType: u32, payload: bytes)

  // ---- 0xFF coding ----

  /** What reading one 0xFF-coded number yields: its value and the position behind it. */
  datatype Number = Number(value: nat, next: nat) | Overflow | Ended

  function ReadNumber(data: bytes, i: nat, acc: nat, max: nat): (n: Number)
    requires i <= |data|
    ensures n.Number? ==> i < n.next <= |data| && n.value <= max
    decreases |data| - i
  {
    if i == |data| then Ended
    else if acc + data[i] > max then Overflow
    else if data[i] == 0xFF then ReadNumber(data, i + 1, acc + 255, max)
    else Number(acc + data[i], i + 1)
  }

  method ReadCoded(data: bytes, start: nat, max: nat) returns (n: Number)
    requires start <= |data|
    ensures n == ReadNumber(data, start, 0, max)
  {
    var value: nat := 0;
    var i := start;
    while i < |data|
      invariant start <= i <= |data|
      invariant ReadNumber(data, i, value, max) == ReadNumber(data, start, 0, max)
    {
      var b := data[i];
      i := i + 1;
      if value + b > max {
        return Overflow;
      }
      value := value + b;
      if b != 0xFF {
        return Number(value, i);
      }
    }
    return Ended;
  }

  /** The 0xFF coding of `n`. */
  function FF(n: nat): (s: bytes)
    ensures |s| == n / 255 + 1
  {
    if n >= 255 then [0xFF] + FF(n - 255) else [n]
  }

  lemma {:induction false} ReadInvertsFF(before: bytes, n: nat, rest: bytes, acc: nat, max: nat)
    requires acc + n <= max
    ensures ReadNumber(before + FF(n) + rest, |before|, acc, max) == Number(acc + n, |before| + |FF(n)|)
    decreases n
  {
    var s := before + FF(n) + rest;
    assert s[|before|] == FF(n)[0];
    if n >= 255 {
      assert s == (before + [0xFF]) + FF(n - 255) + rest;
      ReadInvertsFF(before + [0xFF], n - 255, rest, acc + 255, max);
    }
  }

  // ---- Message lists ----

  predicate AllZeroFrom(data: bytes, i: nat)
  {
    forall k | i <= k < |data| :: data[k] == 0
  }

  /** Whether `data` from `i` on is the rbsp_trailing_bits byte and zero padding. */
  predicate IsTrailing(data: bytes, i: nat)
    requires i < |data|
  {
    data[i] == 0x80 && AllZeroFrom(data, i + 1)
  }

  /** One round of the parser: a message and where the next begins, a final shortened message, or an error. */
  datatype Round = Message(message: SeiMessage, next: nat) | Final(message: SeiMessage) | Bad(error: SeiError)

  function ParseRound(data: bytes, i: nat, maxPayload: nat): (r: Round)
    requires i < |data|
    ensures r.Message? ==> i < r.next <= |data|
  {
    match ReadNumber(data, i, 0, U32_MAX)
    case Overflow => Bad(InvalidMessage)
    case Ended => Bad(Truncated)
    case Number(payloadType, sizeAt) =>
      match ReadNumber(data, sizeAt, 0, U64_MAX)
      case Overflow => Bad(InvalidMessage)
      case Ended => Bad(Truncated)
      case Number(size, from) =>
        if size > maxPayload then Bad(PayloadTooLarge)
        else if from + size <= |data| then Message(SeiMessage(payloadType, data[from..from + size]), from + size)
        else if AllZeroFrom(data, from) then Final(SeiMessage(payloadType, data[from..]))
        else Bad(Truncated)
  }

  type Parsed = Result<seq<SeiMessage>, SeiError>

  function Prepend(ms: seq<SeiMessage>, r: Parsed): Parsed
  {
    if r.Err? then r else Ok(ms + r.value)
  }

  /** The messages of `data` from `i` on when `count` have been read before. */
  function ParseFrom(data: bytes, i: nat, count: nat, maxMessages: nat, maxPayload: nat): Parsed
    requires i <= |data|
    decreases |data| - i
  {
    if i == |data| || IsTrailing(data, i) then Ok([])
    else if count >= maxMessages then Err(TooManyMessages)
    else
      match ParseRound(data, i, maxPayload)
      case Bad(e) => Err(e)
      case Final(m) => Ok([m])
      case Message(m, next) => Prepend([m], ParseFrom(data, next, count + 1, maxMessages, maxPayload))
  }

  /** A serialised list of SEI messages. */
  function Serialise(ms: seq<SeiMessage>): bytes
  {
    if ms == [] then [] else Body(ms[0]) + Serialise(ms[1..])
  }

  function Body(m: SeiMessage): bytes
  {
    FF(m.payloadType) + (FF(|m.payload|) + m.payload)
  }

  predicate WithinLimits(ms: seq<SeiMessage>, maxMessages: nat, maxPayload: nat)
  {
    |ms| <= maxMessages && forall m | m in ms :: |m.payload| <= maxPayload
  }

  lemma PrependTwice(ms: seq<SeiMessage>, m: SeiMessage, r: Parsed)
    ensures Prepend(ms, Prepend([m], r)) == Prepend(ms + [m], r)
  {
    if r.Ok? {
      assert ms + ([m] + r.value) == (ms + [m]) + r.value;
    }
  }

  lemma PrependNone(ms: seq<SeiMessage>, r: Parsed)
    ensures Prepend([], r) == r && Prepend(ms, Ok([])) == Ok(ms)
  {
    if r.Ok? {
      assert [] + r.value == r.value;
    }
    assert ms + [] == ms;
  }

  method ParseSeiMessages(rbsp: bytes, maxMessages: nat, maxPayload: nat) returns (r: Parsed)
    ensures r == ParseFrom(rbsp, 0, 0, maxMessages, maxPayload)
  {
    var messages := [];
    var i := 0;
    PrependNone([], ParseFrom(rbsp, 0, 0, maxMessages, maxPayload));
    while i < |rbsp|
      invariant i <= |rbsp|
      invariant ParseFrom(rbsp, 0, 0, maxMessages, maxPayload) ==
                Prepend(messages, ParseFrom(rbsp, i, |messages|, maxMessages, maxPayload))
      decreases |rbsp| - i
    {
      if IsTrailing(rbsp, i) {
        break;
      }
      if |messages| >= maxMessages {
        return Err(TooManyMessages);
      }
      var round := ReadMessage(rbsp, i, maxPayload);
      match round {
        case Bad(e) =>
          return Err(e);
        case Final(m) =>
          return Ok(messages + [m]);
        case Message(m, next) =>
          PrependTwice(messages, m, ParseFrom(rbsp, next, |messages| + 1, maxMessages, maxPayload));
          messages := messages + [m];
          i := next;
      }
    }
    PrependNone(messages, Ok([]));
    return Ok(messages);
  }

  method ReadMessage(rbsp: bytes, i: nat, maxPayload: nat) returns (r: Round)
    requires i < |rbsp|
    ensures r == ParseRound(rbsp, i, maxPayload)
  {
    var payloadType := ReadCoded(rbsp, i, U32_MAX);
    if !payloadType.Number? {
      return Bad(if payloadType.Overflow? then InvalidMessage else Truncated);
    }
    var size := ReadCoded(rbsp, payloadType.next, U64_MAX);
    if !size.Number? {
      return Bad(if size.Overflow? then InvalidMessage else Truncated);
    }
    if size.value > maxPayload {
      return Bad(PayloadTooLarge);
    }
    var from := size.next;
    if from + size.value > |rbsp| {
      if AllZeroFrom(rbsp, from) {
        return Final(SeiMessage(payloadType.value, rbsp[from..]));
      }
      return Bad(Truncated);
    }
    return Message(SeiMessage(payloadType.value, rbsp[from..from + size.value]), from + size.value);
  }

  lemma {:induction false} ReadOverflowsFF(before: bytes, n: nat, rest: bytes, acc: nat, max: nat)
    requires acc <= max < acc + n
    ensures ReadNumber(before + FF(n) + rest, |before|, acc, max) == Overflow
    decreases n
  {
    var s := before + FF(n) + rest;
    assert s[|before|] == FF(n)[0];
    if n >= 255 && acc + 255 <= max {
      assert s == (before + [0xFF]) + FF(n - 255) + rest;
      ReadOverflowsFF(before + [0xFF], n - 255, rest, acc + 255, max);
    }
  }

  /** One serialised message is read back, whatever surrounds it. */
  lemma RoundInvertsBody(before: bytes, m: SeiMessage, rest: bytes, maxPayload: nat)
    requires maxPayload <= U64_MAX
    ensures var s := (before + Body(m)) + rest;
            if |m.payload| <= maxPayload
            then ParseRound(s, |before|, maxPayload) == Message(m, |before| + |Body(m)|)
            else ParseRound(s, |before|, maxPayload).Bad?
  {
    hide ReadNumber, FF;
    var coded := FF(|m.payload|) + m.payload;
    var typed := before + FF(m.payloadType);
    Assoc(before, FF(m.payloadType), coded);
    Assoc(typed, coded, rest);
    assert before + Body(m) + rest == typed + (coded + rest);
    ReadInvertsFF(before, m.payloadType, coded + rest, 0, U32_MAX);
    Assoc(FF(|m.payload|), m.payload, rest);
    Assoc(typed, FF(|m.payload|), m.payload + rest);
    SizeInvertsBody(typed, m.payload, rest);
  }

  lemma SizeInvertsBody(typed: bytes, payload: bytes, rest: bytes)
    ensures var s := typed + FF(|payload|) + (payload + rest);
            var from := |typed| + |FF(|payload|)|;
            && ReadNumber(s, |typed|, 0, U64_MAX) ==
            (if |payload| <= U64_MAX then Number(|payload|, from) else Overflow)
            && s[from..from + |payload|] == payload
  {
    hide ReadNumber, FF;
    var s := typed + FF(|payload|) + (payload + rest);
    var from := |typed| + |FF(|payload|)|;
    assert s[from..from + |payload|] == payload by {
      assert from == |typed + FF(|payload|)|;
      assert s[from..] == payload + rest;
    }
    if |payload| <= U64_MAX {
      ReadInvertsFF(typed, |payload|, payload + rest, 0, U64_MAX);
    } else {
      ReadOverflowsFF(typed, |payload|, payload + rest, 0, U64_MAX);
    }
  }

  /** The rbsp_trailing_bits byte and `padding` zero bytes. */
  function Trailer(padding: nat): (t: bytes)
    ensures |t| == 1 + padding
  {
    [0x80] + Zeros(padding)
  }

  /** A message in front of the trailer is never mistaken for it. */
  lemma MessageIsNotTrailing(before: bytes, m: SeiMessage, more: bytes, padding: nat)
    ensures var s := (before + Body(m)) + (more + Trailer(padding));
            |before| < |s| && !IsTrailing(s, |before|)
  {
    var s := before + Body(m) + (more + Trailer(padding));
    assert s[|s| - padding - 1] == 0x80;
  }

  /** The round that reads the first message of a serialised list that does not read as trailing bits. */
  lemma ParseOne(before: bytes, m: SeiMessage, end: bytes, count: nat, maxMessages: nat, maxPayload: nat)
    requires maxPayload <= U64_MAX && count <= maxMessages
    requires |before| < |(before + Body(m)) + end| && !IsTrailing((before + Body(m)) + end, |before|)
    ensures var after := before + Body(m);
            ParseFrom(before + (Body(m) + end), |before|, count, maxMessages, maxPayload) ==
            if count == maxMessages then Err(TooManyMessages)
            else
              match ParseRound(after + end, |before|, maxPayload)
              case Bad(e) => Err(e)
              case _ => Prepend([m], ParseFrom(after + end, |after|, count + 1, maxMessages, maxPayload))
    ensures |m.payload| > maxPayload <==> ParseRound(before + Body(m) + end, |before|, maxPayload).Bad?
  {
    hide Body, IsTrailing, ReadNumber;
    Assoc(before, Body(m), end);
    RoundInvertsBody(before, m, end, maxPayload);
  }

  lemma OnlyTrailer(before: bytes, padding: nat)
    ensures var s := before + ([] + Trailer(padding));
            |before| < |s| && IsTrailing(s, |before|)
  {
    var s := before + ([] + Trailer(padding));
    assert s[|before|] == 0x80;
  }

  /**
   * Parsing a serialised list, its stop byte and any zero padding returns the list exactly when it keeps the limits;
   * otherwise parsing reports an error.
   */
  lemma {:induction false} ParseInvertsSerialise(before: bytes, ms: seq<SeiMessage>, padding: nat,
                                                 count: nat, maxMessages: nat, maxPayload: nat)
    requires maxPayload <= U64_MAX && count <= maxMessages
    ensures var p := ParseFrom(before + (Serialise(ms) + Trailer(padding)), |before|, count, maxMessages, maxPayload);
            if WithinLimits(ms, maxMessages - count, maxPayload) then p == Ok(ms) else p.Err?
    decreases |ms|
  {
    hide ParseRound, IsTrailing, Body, Trailer;
    if ms == [] {
      OnlyTrailer(before, padding);
    } else {
      var m := ms[0];
      var more := Serialise(ms[1..]);
      Assoc(Body(m), more, Trailer(padding));
      MessageIsNotTrailing(before, m, more, padding);
      ParseOne(before, m, more + Trailer(padding), count, maxMessages, maxPayload);
      LimitsSplit(ms, maxMessages - count, maxPayload);
      if count < maxMessages && |m.payload| <= maxPayload {
        ParseInvertsSerialise(before + Body(m), ms[1..], padding, count + 1, maxMessages, maxPayload);
      }
    }
  }

  lemma LimitsSplit(ms: seq<SeiMessage>, maxMessages: nat, maxPayload: nat)
    requires ms != []
    ensures WithinLimits(ms, maxMessages, maxPayload) <==>
            maxMessages > 0 && |ms[0].payload| <= maxPayload && WithinLimits(ms[1..], maxMessages - 1, maxPayload)
    ensures Prepend([ms[0]], Ok(ms[1..])) == Ok(ms)
  {
    assert ms == [ms[0]] + ms[1..];
  }

  // ---- Lists without a stop byte ----

  /** The lists whose serialised form is that of trailing bits. */
  predicate LooksTrailing(ms: seq<SeiMessage>)
  {
    ms != [] && ms[0] == SeiMessage(128, []) && forall k | 1 <= k < |ms| :: ms[k] == SeiMessage(0, [])
  }

  lemma AllZeroAppend(a: bytes, b: bytes)
    ensures AllZeroFrom(a + b, 0) <==> AllZeroFrom(a, 0) && AllZeroFrom(b, 0)
    ensures AllZeroFrom(a + b, |a|) <==> AllZeroFrom(b, 0)
  {
    forall k | 0 <= k < |a| ensures (a + b)[k] == a[k] {
    }
    forall k | 0 <= k < |b| ensures (a + b)[|a| + k] == b[k] {
    }
  }

  lemma {:induction false} ZeroCoded(n: nat)
    ensures AllZeroFrom(FF(n), 0) <==> n == 0
    ensures FF(n)[0] == 128 <==> n == 128
  {
    assert FF(n)[0] == if n < 255 then n else 0xFF;
  }

  lemma ZeroBody(m: SeiMessage)
    ensures AllZeroFrom(Body(m), 0) <==> m == SeiMessage(0, [])
  {
    hide FF;
    AllZeroAppend(FF(m.payloadType), FF(|m.payload|) + m.payload);
    AllZeroAppend(FF(|m.payload|), m.payload);
    ZeroCoded(m.payloadType);
    ZeroCoded(|m.payload|);
  }

  lemma {:induction false} ZeroSerialised(ms: seq<SeiMessage>)
    ensures AllZeroFrom(Serialise(ms), 0) <==> forall k | 0 <= k < |ms| :: ms[k] == SeiMessage(0, [])
    decreases |ms|
  {
    hide Body;
    if ms != [] {
      AllZeroAppend(Body(ms[0]), Serialise(ms[1..]));
      ZeroBody(ms[0]);
      ZeroSerialised(ms[1..]);
      assert ms == [ms[0]] + ms[1..];
    }
  }

  /** Behind a first byte of 0x80 everything is zero exactly when the lists look like trailing bits. */
  lemma TrailingBody(before: bytes, m: SeiMessage, more: bytes)
    ensures |before| < |before + Body(m) + more|
    ensures IsTrailing(before + Body(m) + more, |before|) <==> m == SeiMessage(128, []) && AllZeroFrom(more, 0)
  {
    hide FF;
    var sized := FF(|m.payload|) + m.payload;
    var s := before + Body(m) + more;
    var head := before + FF(m.payloadType);
    Assoc(before, FF(m.payloadType), sized);
    Assoc(head, sized, more);
    assert s[|before|] == FF(m.payloadType)[0];
    ZeroCoded(m.payloadType);
    ZeroCoded(|m.payload|);
    AllZeroAppend(FF(|m.payload|), m.payload);
    AllZeroAppend(sized, more);
    AllZeroAppend(head, sized + more);
    assert m.payloadType == 128 ==> |head| == |before| + 1;
  }

  lemma SerialisedTrailing(before: bytes, ms: seq<SeiMessage>)
    requires ms != []
    ensures |before| < |before + Serialise(ms)|
    ensures IsTrailing(before + Serialise(ms), |before|) <==> LooksTrailing(ms)
  {
    hide Body, IsTrailing;
    Assoc(before, Body(ms[0]), Serialise(ms[1..]));
    TrailingBody(before, ms[0], Serialise(ms[1..]));
    ZeroSerialised(ms[1..]);
    assert ms == [ms[0]] + ms[1..];
  }

  /** Some message and those behind it look like trailing bits. */
  predicate EndsTrailing(ms: seq<SeiMessage>)
  {
    exists j | 0 <= j < |ms| :: LooksTrailing(ms[j..])
  }

  lemma EndsTrailingSplit(ms: seq<SeiMessage>)
    requires ms != []
    ensures EndsTrailing(ms) <==> LooksTrailing(ms) || EndsTrailing(ms[1..])
  {
    hide LooksTrailing;
    assert ms[0..] == ms;
    forall j | 1 <= j < |ms| ensures ms[1..][j - 1..] == ms[j..] {
    }
    if exists j | 0 <= j < |ms| :: LooksTrailing(ms[j..]) {
      var j :| 0 <= j < |ms| && LooksTrailing(ms[j..]);
      if j > 0 {
        assert LooksTrailing(ms[1..][j - 1..]);
      }
    }
    if EndsTrailing(ms[1..]) {
      var j :| 0 <= j < |ms[1..]| && LooksTrailing(ms[1..][j..]);
      assert ms[1..][j..] == ms[j + 1..];
    }
  }

  lemma {:induction false} ParseWithoutStop(before: bytes, ms: seq<SeiMessage>,
                                            count: nat, maxMessages: nat, maxPayload: nat)
    requires maxPayload <= U64_MAX && count <= maxMessages
    ensures ParseFrom(before + Serialise(ms), |before|, count, maxMessages, maxPayload) == Ok(ms) <==>
            WithinLimits(ms, maxMessages - count, maxPayload) && !EndsTrailing(ms)
    decreases |ms|
  {
    hide ParseRound, IsTrailing, LooksTrailing, EndsTrailing, Body, WithinLimits;
    if ms == [] {
      assert !EndsTrailing(ms) && WithinLimits(ms, maxMessages - count, maxPayload) by {
        NothingTrails(maxMessages - count, maxPayload);
      }
    } else {
      var m := ms[0];
      var more := Serialise(ms[1..]);
      SerialisedTrailing(before, ms);
      EndsTrailingSplit(ms);
      if !LooksTrailing(ms) {
        Assoc(before, Body(m), more);
        ParseOne(before, m, more, count, maxMessages, maxPayload);
        LimitsSplit(ms, maxMessages - count, maxPayload);
        if count < maxMessages && |m.payload| <= maxPayload {
          ParseWithoutStop(before + Body(m), ms[1..], count + 1, maxMessages, maxPayload);
          PrependExactly(ms,
                         ParseFrom(before + Body(m) + more, |before + Body(m)|, count + 1, maxMessages, maxPayload));
        }
      }
    }
  }

  lemma NothingTrails(maxMessages: nat, maxPayload: nat)
    ensures !EndsTrailing([]) && WithinLimits([], maxMessages, maxPayload)
  {
  }

  lemma PrependExactly(ms: seq<SeiMessage>, r: Parsed)
    requires ms != []
    ensures Prepend([ms[0]], r) == Ok(ms) <==> r == Ok(ms[1..])
  {
    if r.Ok? {
      assert ([ms[0]] + r.value)[1..] == r.value;
    }
    assert [ms[0]] + ms[1..] == ms;
  }

  /**
   * The stop byte may be left out exactly when the list keeps the limits and no message of it is one of type 128 with
   * an empty payload that only empty messages of type 0 follow.
   */
  lemma StopByteIsOptional(ms: seq<SeiMessage>, maxMessages: nat, maxPayload: nat)
    requires maxPayload <= U64_MAX
    ensures ParseFrom(Serialise(ms), 0, 0, maxMessages, maxPayload) == Ok(ms) <==>
            WithinLimits(ms, maxMessages, maxPayload) && !(exists j | 0 <= j < |ms| :: LooksTrailing(ms[j..]))
  {
    ParseWithoutStop([], ms, 0, maxMessages, maxPayload);
    assert [] + Serialise(ms) == Serialise(ms);
  }

  /** Without the stop byte, a last message of type 128 with an empty payload reads as trailing bits and is lost. */
  lemma StopByteIsNeeded()
    ensures ParseFrom(Serialise([SeiMessage(128, [])]), 0, 0, 1, 0) == Ok([])
  {
    var s := Serialise([SeiMessage(128, [])]);
    assert FF(128) == [128] && FF(0) == [0];
    assert s == [128, 0];
    assert IsTrailing(s, 0);
  }
}

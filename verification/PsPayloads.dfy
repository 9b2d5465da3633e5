/** PES payloads and the elementary stream they add up to. */
module PsPayloads {
  import opened Bytes

  /** A PES payload and its presentation time; the time type is opaque here. */
  datatype Payload<T> = Payload(data: bytes, time: T)

  function Stream<T>(payloads: seq<Payload<T>>): bytes
    decreases |payloads|
  {
    if payloads == [] then []
    else Stream(payloads[..|payloads| - 1]) + payloads[|payloads| - 1].data
  }

  lemma StreamSnoc<T>(payloads: seq<Payload<T>>, p: Payload<T>)
    ensures Stream(payloads + [p]) == Stream(payloads) + p.data
  {
    assert (payloads + [p])[..|payloads|] == payloads;
  }

  /** The payload that holds the stream byte `at`. */
  ghost predicate Holds<T>(payloads: seq<Payload<T>>, i: nat, at: nat)
    requires i < |payloads|
  {
    |Stream(payloads[..i])| <= at < |Stream(payloads[..i + 1])|
  }

  lemma {:induction false} StreamGrows<T>(payloads: seq<Payload<T>>, i: nat, j: nat)
    requires i <= j <= |payloads|
    ensures |Stream(payloads[..i])| <= |Stream(payloads[..j])|
    decreases j
  {
    if i < j {
      assert payloads[..j][..j - 1] == payloads[..j - 1];
      StreamGrows(payloads, i, j - 1);
    }
  }

  lemma {:induction false} SomePayloadHolds<T>(payloads: seq<Payload<T>>, at: nat) returns (i: nat)
    requires at < |Stream(payloads)|
    ensures i < |payloads| && Holds(payloads, i, at)
    decreases |payloads|
  {
    var n := |payloads|;
    if at >= |Stream(payloads[..n - 1])| {
      i := n - 1;
      assert payloads[..n] == payloads;
    } else {
      var before := payloads[..n - 1];
      i := SomePayloadHolds(before, at);
      assert before[..i] == payloads[..i] && before[..i + 1] == payloads[..i + 1];
    }
  }

  lemma {:induction false} StreamPrefix<T>(payloads: seq<Payload<T>>, i: nat)
    requires i <= |payloads|
    ensures |Stream(payloads[..i])| <= |Stream(payloads)|
    ensures Stream(payloads) == Stream(payloads[..i]) + Stream(payloads)[|Stream(payloads[..i])|..]
    decreases |payloads|
  {
    if i == |payloads| {
      assert payloads[..i] == payloads;
    } else {
      assert payloads[..|payloads| - 1][..i] == payloads[..i];
      StreamPrefix(payloads[..|payloads| - 1], i);
    }
  }
}

/** Ping-pong message framing: a message type and a length-prefixed payload. */
module PingPong {
  import opened Wrappers
  import opened Bytes

  datatype MessageType = Initialize | Finish

  function Code(t: MessageType): Byte {
    match t
    case Initialize => 0
    case Finish => 2
  }

  predicate Frameable(payload: seq<Byte>) {
    |payload| < Pow256(4)
  }

  function Frame(t: MessageType, payload: seq<Byte>): Result<seq<Byte>> {
    if Frameable(payload) then Ok([Code(t)] + EncPrefixed(4, payload)) else Err
  }

  /** A frame is a byte for the type, the length of the payload in four bytes, and the payload. */
  lemma FrameLayout(t: MessageType, payload: seq<Byte>, bytes: seq<Byte>)
    ensures Frame(t, payload) == Ok(bytes)
       <==> && |bytes| == 5 + |payload| && bytes[0] == (if t == Initialize then 0 else 2)
            && UintOf(bytes[1..5]) == |payload| && bytes[5..] == payload
  {
    if Frameable(payload) {
      var frame := [Code(t)] + EncPrefixed(4, payload);
      UintOfEnc(4, |payload|);
      assert frame[1..5] == EncUint(4, |payload|) && frame[5..] == payload;
      if |bytes| == 5 + |payload| && bytes[0] == Code(t) && UintOf(bytes[1..5]) == |payload| && bytes[5..] == payload {
        EncUintOf(bytes[1..5]);
        assert bytes == [bytes[0]] + (bytes[1..5] + bytes[5..]);
      }
    }
  }

  /** The payload of a message of the expected type that fills the whole string. */
  function DecodeFramed(bytes: seq<Byte>, expected: MessageType): Result<seq<Byte>> {
    match DecUint(1, bytes)
    case Got(code, rest) =>
      if code != Code(expected) then Err
      else (match DecUint(4, rest)
            case Got(len, payload) => if |payload| == len then Ok(payload) else Err
            case _ => Err)
    case _ => Err
  }

  /** A message is accepted exactly when it is the frame, of the expected type, of the payload returned. */
  lemma FramedExact(bytes: seq<Byte>, t: MessageType, payload: seq<Byte>)
    ensures DecodeFramed(bytes, t) == Ok(payload) <==> Frame(t, payload) == Ok(bytes)
  {
    var len := EncUint(4, |payload|);
    assert EncUint(1, Code(t)) == [Code(t)] by {
      assert EncUint(0, 0) == [];
    }
    assert [Code(t)] + EncPrefixed(4, payload) == [Code(t)] + (len + payload);
    UintExact(1, bytes, Code(t), len + payload);
    UintExact(4, len + payload, |payload|, payload);
    if DecodeFramed(bytes, t) == Ok(payload) {
      UintExact(1, bytes, Code(t), bytes[1..]);
      UintExact(4, bytes[1..], |payload|, payload);
    }
  }
}

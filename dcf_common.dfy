/**
 * The DCF wire codec: a fixed 17-byte big-endian header (type u8,
 * sequence u32, timestamp u64, payload length u32) followed by the payload.
 * There is no version byte and the type byte is not checked on decode.
 */
module DcfCommon {
  import opened Wrappers
  import opened BigEndian

  /** Size of the packed header `>B I Q I`. */
  const HEADER_SIZE: nat := 17

  /** Message type codes. */
  const MSG_HEARTBEAT: int := 0x01
  const MSG_TASK: int := 0x02
  const MSG_RESULT: int := 0x03
  const MSG_ERROR: int := 0xFF

  /** A UDP endpoint, `(host, port)`. */
  datatype Addr = Addr(host: string, port: int)

  /**
   * A `DCFMessage`. Its integer fields are unbounded, as Python's are; the
   * header's field widths only bite when the message is serialized.
   */
  datatype Message = Message(msgType: int, sequence: int, timestamp: int, payload: seq<Byte>)

  /** Every header field fits its width, so `struct.pack` does not raise. */
  predicate Packable(m: Message)
  {
    && 0 <= m.msgType < 0x100
    && 0 <= m.sequence < 0x1_0000_0000
    && 0 <= m.timestamp < 0x1_0000_0000_0000_0000
    && |m.payload| < 0x1_0000_0000
  }

  /** The 17 header bytes of a packable message. */
  function Header(m: Message): (r: seq<Byte>)
    requires Packable(m)
    ensures |r| == HEADER_SIZE
  {
    FieldLimits();
    Encode(m.msgType, 1) + Encode(m.sequence, 4) + Encode(m.timestamp, 8) + Encode(|m.payload|, 4)
  }

  /**
   * The datagram for `m`: header then payload. `None` stands for the
   * `struct.error` that `struct.pack` raises on a field out of range.
   */
  function Serialize(m: Message): (r: Option<seq<Byte>>)
    ensures r.Some? <==> Packable(m)
    ensures r.Some? ==> |r.value| == HEADER_SIZE + |m.payload|
    ensures r.Some? ==> r.value[HEADER_SIZE..] == m.payload
  {
    if !Packable(m) then None
    else Some(Header(m) + m.payload)
  }

  /** The payload length a header declares: bytes 13 to 16. */
  function DeclaredLength(data: seq<Byte>): nat
    requires |data| >= HEADER_SIZE
  {
    Decode(data[13..17])
  }

  /**
   * The message a datagram carries, or `None` when it is shorter than the
   * header or than the header plus the payload length it declares. Bytes
   * after the declared payload are ignored.
   */
  function Deserialize(data: seq<Byte>): (r: Option<Message>)
    ensures |data| < HEADER_SIZE ==> r.None?
    ensures r.Some? ==> Packable(r.value)
    ensures r.Some? ==> r.value.msgType == data[0]
    ensures r.Some? ==> HEADER_SIZE + |r.value.payload| <= |data|
                        && r.value.payload == data[HEADER_SIZE..HEADER_SIZE + |r.value.payload|]
  {
    if |data| < HEADER_SIZE then None
    else
      var payloadLen := DeclaredLength(data);
      if |data| < HEADER_SIZE + payloadLen then None
      else
        FieldLimits();
        Some(Message(data[0], Decode(data[1..5]), Decode(data[5..13]),
                     data[HEADER_SIZE..HEADER_SIZE + payloadLen]))
  }

  lemma HeaderFields(m: Message)
    requires Packable(m)
    ensures var h := Header(m);
      && |h| == HEADER_SIZE
      && h[0..1] == Encode(m.msgType, 1)
      && h[1..5] == Encode(m.sequence, 4)
      && h[5..13] == Encode(m.timestamp, 8)
      && h[13..17] == Encode(|m.payload|, 4)
  {
    FieldLimits();
    var t, s, ts, n := Encode(m.msgType, 1), Encode(m.sequence, 4), Encode(m.timestamp, 8),
                       Encode(|m.payload|, 4);
    var h := Header(m);
    assert h == t + s + ts + n;
    assert h[0..1] == t;
    assert h[1..5] == s;
    assert h[5..13] == ts;
    assert h[13..17] == n;
  }

  /** Header layout: byte 0 the type, then sequence, timestamp and payload length, big-endian. */
  lemma HeaderLayout(m: Message)
    requires Packable(m)
    ensures var d := Serialize(m).value;
      && d[0] == m.msgType
      && Decode(d[1..5]) == m.sequence
      && Decode(d[5..13]) == m.timestamp
      && Decode(d[13..17]) == |m.payload|
  {
    FieldLimits();
    var d := Serialize(m).value;
    HeaderFields(m);
    var h := Header(m);
    assert d == h + m.payload;
    assert d[0..1] == h[0..1] && d[1..5] == h[1..5] && d[5..13] == h[5..13] && d[13..17] == h[13..17];
    DecodeEncode(m.msgType, 1);
    DecodeEncode(m.sequence, 4);
    DecodeEncode(m.timestamp, 8);
    DecodeEncode(|m.payload|, 4);
  }

  /**
   * Round trip: a serialized message, followed by any trailing bytes,
   * decodes to the same message.
   */
  lemma RoundTripWithTrailing(m: Message, trailing: seq<Byte>)
    requires Packable(m)
    ensures Deserialize(Serialize(m).value + trailing) == Some(m)
  {
    var d := Serialize(m).value;
    HeaderLayout(m);
    var data := d + trailing;
    PrefixSlice(d, trailing, 1, 5);
    PrefixSlice(d, trailing, 5, 13);
    PrefixSlice(d, trailing, 13, 17);
    PrefixSlice(d, trailing, HEADER_SIZE, |d|);
    DecodesTo(data, m);
  }

  /** A slice inside `d` is unchanged by appending bytes after it. */
  lemma PrefixSlice(d: seq<Byte>, trailing: seq<Byte>, i: nat, j: nat)
    requires i <= j <= |d|
    ensures (d + trailing)[i..j] == d[i..j]
  {
  }

  /** A datagram whose header fields and payload are those of `m` decodes to `m`. */
  lemma DecodesTo(data: seq<Byte>, m: Message)
    requires |data| >= HEADER_SIZE + |m.payload|
    requires data[0] == m.msgType && Decode(data[1..5]) == m.sequence
    requires Decode(data[5..13]) == m.timestamp && Decode(data[13..17]) == |m.payload|
    requires data[HEADER_SIZE..HEADER_SIZE + |m.payload|] == m.payload
    ensures Deserialize(data) == Some(m)
  {
  }

  /** Round trip: `deserialize(serialize(m)) == m` for every message whose fields fit. */
  lemma RoundTrip(m: Message)
    requires Packable(m)
    ensures Deserialize(Serialize(m).value) == Some(m)
  {
    RoundTripWithTrailing(m, []);
    assert Serialize(m).value + [] == Serialize(m).value;
  }

  /**
   * The other direction: whatever decodes re-encodes to the bytes it was
   * decoded from, up to the end of the declared payload.
   */
  lemma ReEncode(data: seq<Byte>)
    requires Deserialize(data).Some?
    ensures var m := Deserialize(data).value;
      Serialize(m) == Some(data[..HEADER_SIZE + |m.payload|])
  {
    var m := Deserialize(data).value;
    var n := HEADER_SIZE + |m.payload|;
    HeaderOfDecoded(data);
    assert data[..n] == data[..HEADER_SIZE] + data[HEADER_SIZE..n];
  }

  /** The header a decoded message re-encodes to is the datagram's own first 17 bytes. */
  lemma HeaderOfDecoded(data: seq<Byte>)
    requires Deserialize(data).Some?
    ensures Header(Deserialize(data).value) == data[..HEADER_SIZE]
  {
    var m := Deserialize(data).value;
    var h := Header(m);
    HeaderFields(m);
    DecodedFields(data);
    EncodeByte(data[0]);
    EncodeDecode(data[1..5]);
    EncodeDecode(data[5..13]);
    EncodeDecode(data[13..17]);
    SameBySlices(h, data[..HEADER_SIZE]);
  }

  /** The fields of a decoded message, read off the header. */
  lemma DecodedFields(data: seq<Byte>)
    requires Deserialize(data).Some?
    ensures var m := Deserialize(data).value;
      && m.msgType == data[0]
      && m.sequence == Decode(data[1..5])
      && m.timestamp == Decode(data[5..13])
      && |m.payload| == Decode(data[13..17])
  {
  }

  /** Two 17-byte headers that agree field by field are equal. */
  lemma SameBySlices(h: seq<Byte>, d: seq<Byte>)
    requires |h| == HEADER_SIZE && |d| == HEADER_SIZE
    requires h[0..1] == [d[0]] && h[1..5] == d[1..5] && h[5..13] == d[5..13] && h[13..17] == d[13..17]
    ensures h == d
  {
    assert h == h[0..1] + h[1..5] + h[5..13] + h[13..17];
    assert d == d[0..1] + d[1..5] + d[5..13] + d[13..17];
  }

  /**
   * Exactly two ways to be rejected: fewer bytes than the header, or fewer
   * than the header plus its declared payload length. In particular every
   * type byte 0..255 is accepted.
   */
  lemma RejectsExactlyShortInput(data: seq<Byte>)
    ensures Deserialize(data).None? <==>
      (|data| < HEADER_SIZE || |data| < HEADER_SIZE + DeclaredLength(data))
  {
  }
}

/**
 * MQTT 3.1.1 packets as the driver writes and reads them: the base-128 remaining length of
 * section 2.2.3, PUBLISH packets, and reading one packet off a byte stream.
 */
module Mqtt {
  import opened Base
  import opened Utf8

  const MAX_REMAINING_LENGTH: nat := 268_435_455
  const MAX_PACKET_BYTES: nat := 64 * 1024 * 1024

  datatype MqttError = Disconnected | BadRemainingLength | PacketTooLarge | StringTooLong | BadPublish | Unexpected

  // ----- remaining length -----

  /** Seven bits a byte, least significant first, the high bit set on all but the last. */
  function RemainingLength(n: nat): (s: Bytes)
    ensures s != []
  {
    if n < 128 then [n] else [n % 128 + 128] + RemainingLength(n / 128)
  }

  method EncodeRemainingLength(n: nat) returns (bytes: Bytes)
    ensures bytes == RemainingLength(n)
  {
    bytes := [];
    var length := n;
    while true
      invariant bytes + RemainingLength(length) == RemainingLength(n)
      decreases length
    {
      var b := length % 128;
      ghost var whole := RemainingLength(length);
      length := length / 128;
      if length > 0 {
        b := b + 128;
        assert whole == [b] + RemainingLength(length);
        assert (bytes + [b]) + RemainingLength(length) == bytes + whole;
      }
      bytes := bytes + [b];
      if length == 0 {
        return;
      }
    }
  }

  datatype Length = Length(value: nat, used: nat)

  /** The decoding loop from byte `index` on: at most four bytes are ever read. */
  function DecodeLength(s: Bytes, index: nat, multiplier: nat, length: nat): Result<Length, MqttError>
    requires index < 4
    decreases 4 - index
  {
    if s == [] then Err(Disconnected)
    else
      var sum := length + s[0] % 128 * multiplier;
      if s[0] < 128 then Ok(Length(sum, 1))
      else if index == 3 then Err(BadRemainingLength)
      else
        var rest := DecodeLength(s[1..], index + 1, multiplier * 128, sum);
        if rest.Err? then rest else Ok(Length(rest.value.value, rest.value.used + 1))
  }

  /** The place value of byte `index`. */
  function Place(index: nat): nat
    requires index <= 4
  {
    if index == 0 then 1 else if index == 1 then 128 else if index == 2 then 16_384 else if index == 3 then 2_097_152 else 268_435_456
  }

  /** Decoding an encoded number adds it in at its place, or rejects it when it does not fit. */
  lemma {:induction false} DecodeEncoded(m: nat, rest: Bytes, index: nat, length: nat)
    requires index < 4
    ensures m < Place(4 - index) ==>
              DecodeLength(RemainingLength(m) + rest, index, Place(index), length)
              == Ok(Length(length + m * Place(index), |RemainingLength(m)|))
    ensures m >= Place(4 - index) ==>
              DecodeLength(RemainingLength(m) + rest, index, Place(index), length) == Err(BadRemainingLength)
    decreases m
  {
    hide DecodeLength, RemainingLength, Place;
    EncodedFront(m, rest);
    var s := RemainingLength(m) + rest;
    DecodeFront(s, index, Place(index), length);
    PlaceBounds(index);
    if m >= 128 && index < 3 {
      var low, high := m % 128, m / 128;
      DecodeEncoded(high, rest, index + 1, length + low * Place(index));
      PlaceSplits(low, high, index);
      PlaceGrows(index);
      FitsAfterDivision(m, Place(4 - (index + 1)));
    }
  }

  /** The first byte of an encoded number, and what follows it. */
  lemma EncodedFront(m: nat, rest: Bytes)
    ensures var s := RemainingLength(m) + rest;
            && s != []
            && (m < 128 ==> s[0] == m && m % 128 == m && |RemainingLength(m)| == 1)
            && (m >= 128 ==>
                  && s[0] >= 128 && s[0] % 128 == m % 128 && m == m % 128 + m / 128 * 128
                  && s[1..] == RemainingLength(m / 128) + rest && |RemainingLength(m)| == 1 + |RemainingLength(m / 128)|)
  {
    hide RemainingLength;
    RemainingUnfold(m);
    if m < 128 {
      FrontOf(m, [], rest);
      assert [m] + [] == [m];
    } else {
      LowByte(m);
      FrontOf(m % 128 + 128, RemainingLength(m / 128), rest);
    }
  }

  lemma RemainingUnfold(n: nat)
    ensures RemainingLength(n) == if n < 128 then [n] else [n % 128 + 128] + RemainingLength(n / 128)
  {}

  lemma FrontOf(b: byte, more: Bytes, rest: Bytes)
    ensures var s := ([b] + more) + rest; s != [] && s[0] == b && s[1..] == more + rest
  {}

  lemma LowByte(m: nat)
    ensures (m % 128 + 128) % 128 == m % 128 && m == m % 128 + m / 128 * 128
  {}

  lemma DecodeFront(s: Bytes, index: nat, multiplier: nat, length: nat)
    requires index < 4 && s != []
    ensures var sum := length + s[0] % 128 * multiplier;
            && (s[0] < 128 ==> DecodeLength(s, index, multiplier, length) == Ok(Length(sum, 1)))
            && (s[0] >= 128 && index == 3 ==> DecodeLength(s, index, multiplier, length) == Err(BadRemainingLength))
            && (s[0] >= 128 && index < 3 ==>
                  var rest := DecodeLength(s[1..], index + 1, multiplier * 128, sum);
                  DecodeLength(s, index, multiplier, length)
                  == if rest.Err? then rest else Ok(Length(rest.value.value, rest.value.used + 1)))
  {}

  lemma PlaceGrows(index: nat)
    requires index < 3
    ensures Place(index) * 128 == Place(index + 1) && Place(4 - index) == Place(4 - (index + 1)) * 128
  {}

  lemma PlaceBounds(index: nat)
    requires index < 4
    ensures Place(4 - index) >= 128 && (index == 3 ==> Place(4 - index) == 128)
  {}

  lemma PlaceSplits(low: nat, high: nat, index: nat)
    requires index < 3
    ensures low * Place(index) + high * Place(index + 1) == (low + high * 128) * Place(index)
  {}

  lemma FitsAfterDivision(m: nat, bound: nat)
    ensures m / 128 < bound <==> m < bound * 128
  {}

  /** Section 2.2.3: every length up to 268435455 survives, and every longer one is rejected. */
  lemma RemainingLengthRoundTrip(n: nat, rest: Bytes)
    ensures n <= MAX_REMAINING_LENGTH ==>
              DecodeLength(RemainingLength(n) + rest, 0, 1, 0) == Ok(Length(n, |RemainingLength(n)|))
    ensures n > MAX_REMAINING_LENGTH ==>
              DecodeLength(RemainingLength(n) + rest, 0, 1, 0) == Err(BadRemainingLength)
  {
    DecodeEncoded(n, rest, 0, 0);
    assert n * 1 == n;
  }

  /** The encoding is minimal: nothing shorter decodes to the same number. */
  lemma RemainingLengthMinimal(s: Bytes, n: nat, used: nat)
    requires DecodeLength(s, 0, 1, 0) == Ok(Length(n, used))
    ensures |RemainingLength(n)| <= used
  {
    DecodedBelow(s, 0, 0);
    EncodedSize(n, used);
  }

  /** A number read from `used` bytes is below the next place value. */
  lemma {:induction false} DecodedBelow(s: Bytes, index: nat, length: nat)
    requires index < 4 && length < Place(index)
    ensures var d := DecodeLength(s, index, Place(index), length);
            d.Ok? ==> 1 <= d.value.used && index + d.value.used <= 4 && d.value.value < Place(index + d.value.used)
    decreases 4 - index
  {
    if s != [] {
      assert length + s[0] % 128 * Place(index) < Place(index) * 128 == Place(index + 1) by {
        PlaceBound(s[0] % 128, index, length);
      }
      if s[0] >= 128 && index < 3 {
        DecodedBelow(s[1..], index + 1, length + s[0] % 128 * Place(index));
      }
    }
  }

  lemma PlaceBound(low: nat, index: nat, length: nat)
    requires index < 4 && low < 128 && length < Place(index)
    ensures length + low * Place(index) < Place(index) * 128 == Place(index + 1)
  {}

  lemma {:induction false} EncodedSize(n: nat, used: nat)
    requires 1 <= used <= 4 && n < Place(used)
    ensures |RemainingLength(n)| <= used
    decreases used
  {
    if n >= 128 {
      assert Place(used) == Place(used - 1) * 128;
      FitsAfterDivision(n, Place(used - 1));
      EncodedSize(n / 128, used - 1);
    }
  }

  // ----- packets -----

  function Packet(header: byte, body: Bytes): Bytes {
    [header] + RemainingLength(|body|) + body
  }

  datatype Received = Received(header: byte, body: Bytes, rest: Bytes)

  /** One packet off the front of a byte stream. */
  function ReadPacket(stream: Bytes): Result<Received, MqttError> {
    if stream == [] then Err(Disconnected)
    else
      var length := DecodeLength(stream[1..], 0, 1, 0);
      if length.Err? then Err(length.error)
      else if length.value.value > MAX_PACKET_BYTES then Err(PacketTooLarge)
      else
        var start := 1 + length.value.used;
        if |stream| < start + length.value.value then Err(Disconnected)
        else Ok(Received(stream[0], stream[start..start + length.value.value], stream[start + length.value.value..]))
  }

  /** A written packet reads back whole, exactly when its body is within 64 MiB. */
  lemma PacketRoundTrip(header: byte, body: Bytes, rest: Bytes)
    ensures |body| <= MAX_PACKET_BYTES ==> ReadPacket(Packet(header, body) + rest) == Ok(Received(header, body, rest))
    ensures MAX_PACKET_BYTES < |body| <= MAX_REMAINING_LENGTH ==> ReadPacket(Packet(header, body) + rest) == Err(PacketTooLarge)
    ensures |body| > MAX_REMAINING_LENGTH ==> ReadPacket(Packet(header, body) + rest) == Err(BadRemainingLength)
  {
    hide DecodeLength, RemainingLength;
    var stream := Packet(header, body) + rest;
    var coded := RemainingLength(|body|);
    RemainingLengthRoundTrip(|body|, body + rest);
    assert stream[1..] == coded + (body + rest);
    var start := 1 + |coded|;
    assert stream[start..] == body + rest;
    if |body| <= MAX_PACKET_BYTES {
      assert stream[start..start + |body|] == stream[start..][..|body|] == body;
      assert stream[start + |body|..] == stream[start..][|body|..] == rest;
    }
  }

  function ToBigEndian16(n: nat): (b: Bytes)
    ensures |b| == 2
  {
    [n / 256 % 256, n % 256]
  }

  function FromBigEndian16(a: byte, b: byte): (n: nat)
    ensures n < 65536
  {
    a * 256 + b
  }

  datatype Publish = Publish(topic: Bytes, payload: Bytes, qos: byte, retain: bool)

  /** `0x30 | (qos << 1) | retain`, on eight bits. */
  function PublishHeader(qos: byte, retain: bool): byte {
    (0x30 as bv8 | ((qos as bv8) << 1) | (if retain then 1 else 0)) as int
  }

  function Kind(header: byte): nat { header / 16 }

  function Qos(header: byte): nat { header / 2 % 4 }

  predicate Retained(header: byte) { header % 2 == 1 }

  lemma HeaderFields(qos: byte, retain: bool)
    requires qos <= 2
    ensures var h := PublishHeader(qos, retain); Kind(h) == 3 && Qos(h) == qos && Retained(h) == retain
  {
    if qos == 0 {
      assert PublishHeader(0, false) == 0x30 && PublishHeader(0, true) == 0x31;
    } else if qos == 1 {
      assert PublishHeader(1, false) == 0x32 && PublishHeader(1, true) == 0x33;
    } else {
      assert PublishHeader(2, false) == 0x34 && PublishHeader(2, true) == 0x35;
    }
  }

  function PublishBody(p: Publish, id: nat): Bytes {
    ToBigEndian16(|p.topic|) + p.topic + (if p.qos > 0 then ToBigEndian16(id) else []) + p.payload
  }

  function PublishPacket(p: Publish, id: nat): Result<Bytes, MqttError> {
    if |p.topic| > 65535 then Err(StringTooLong)
    else Ok(Packet(PublishHeader(p.qos, p.retain), PublishBody(p, id)))
  }

  datatype Incoming = Incoming(topic: Bytes, data: Bytes, id: Option<nat>)

  function IncomingPublish(header: byte, body: Bytes): Result<Incoming, MqttError> {
    if |body| < 2 then Err(BadPublish)
    else
      var cursor := 2 + FromBigEndian16(body[0], body[1]);
      if |body| < cursor then Err(BadPublish)
      else if !ValidUtf8(body[2..cursor]) then Err(BadPublish)
      else if Qos(header) == 0 then Ok(Incoming(body[2..cursor], body[cursor..], None))
      else if |body| < cursor + 2 then Err(BadPublish)
      else Ok(Incoming(body[2..cursor], body[cursor + 2..], Some(FromBigEndian16(body[cursor], body[cursor + 1]))))
  }

  lemma PublishBodyRoundTrip(p: Publish, id: nat)
    requires p.qos <= 2 && |p.topic| <= 65535 && ValidUtf8(p.topic) && id < 65536
    ensures IncomingPublish(PublishHeader(p.qos, p.retain), PublishBody(p, id))
            == Ok(Incoming(p.topic, p.payload, if p.qos > 0 then Some(id) else None))
  {
    hide ValidUtf8, PublishHeader;
    HeaderFields(p.qos, p.retain);
    var body := PublishBody(p, id);
    var n := |p.topic|;
    assert FromBigEndian16(n / 256 % 256, n % 256) == n;
    assert FromBigEndian16(id / 256 % 256, id % 256) == id;
    assert body[0] == n / 256 % 256 && body[1] == n % 256;
    assert body[2..2 + n] == p.topic;
    if p.qos > 0 {
      assert body[2 + n] == id / 256 % 256 && body[2 + n + 1] == id % 256;
      assert body[2 + n + 2..] == p.payload;
    } else {
      assert body[2 + n..] == p.payload;
    }
  }

  /** Every PUBLISH within the limits arrives with the same topic, payload, id, QoS and retain flag. */
  lemma PublishRoundTrip(p: Publish, id: nat, rest: Bytes)
    requires p.qos <= 2 && |p.topic| <= 65535 && ValidUtf8(p.topic) && id < 65536
    requires |PublishBody(p, id)| <= MAX_PACKET_BYTES
    ensures PublishPacket(p, id).Ok?
    ensures var r := ReadPacket(PublishPacket(p, id).value + rest);
            && r.Ok? && r.value.rest == rest
            && Kind(r.value.header) == 3 && Qos(r.value.header) == p.qos && Retained(r.value.header) == p.retain
            && IncomingPublish(r.value.header, r.value.body)
               == Ok(Incoming(p.topic, p.payload, if p.qos > 0 then Some(id) else None))
  {
    hide PublishHeader, PublishBody, Packet, ReadPacket, IncomingPublish, ValidUtf8;
    HeaderFields(p.qos, p.retain);
    PublishBodyRoundTrip(p, id);
    PacketRoundTrip(PublishHeader(p.qos, p.retain), PublishBody(p, id), rest);
  }
}

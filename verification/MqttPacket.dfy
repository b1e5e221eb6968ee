/**
 The MQTT 3.1.1 control packet codec (OASIS MQTT 3.1.1, section 2): the
 variable-length integer, the fixed header, and PUBLISH.
 */
module MqttPacket {
  import opened Wrappers
  import opened Bytes
  import opened Framing

  const MAX_REMAINING_LENGTH: nat := 268435455

  // Packet types by their wire value (section 2.2.1).
  const PUBLISH := 3
  const PUBACK := 4
  const PUBREC := 5
  const PUBREL := 6
  const PUBCOMP := 7

  type Nibble = n: int | 0 <= n < 16
  type QosBits = n: int | 0 <= n < 4

  datatype FixedHeader = FixedHeader(kind: Nibble, dup: bool, qos: QosBits, retain: bool, remainingLength: nat)

  datatype Packet = Packet(header: FixedHeader, body: seq<Byte>)

  datatype PublishMessage = PublishMessage(topic: seq<Byte>, packetId: U16, qos: QosBits, retain: bool, payload: seq<Byte>)

  // ---------------------------------------------------------------------------
  // Remaining length
  // ---------------------------------------------------------------------------

  /** Seven bits a byte, least significant group first, the top bit set on all but the last. */
  function LengthField(value: nat): (out: seq<Byte>)
    ensures |out| > 0
  {
    if value < 128 then [value] else [value % 128 + 128] + LengthField(value / 128)
  }

  method EncodeRemainingLength(value: nat) returns (out: seq<Byte>)
    ensures out == if value > MAX_REMAINING_LENGTH then [] else LengthField(value)
  {
    if value > MAX_REMAINING_LENGTH {
      return [];
    }
    out := [];
    var left := value;
    while true
      invariant out + LengthField(left) == LengthField(value)
      decreases left
    {
      var byte: Byte := left % 128;
      var next := left / 128;
      if next == 0 {
        assert LengthField(left) == [byte];
        out := out + [byte];
        return;
      }
      assert LengthField(left) == [byte + 128] + LengthField(next);
      assert out + ([byte + 128] + LengthField(next)) == (out + [byte + 128]) + LengthField(next);
      out := out + [byte + 128];
      left := next;
    }
  }

  /** The value at the front of `buffer` and the bytes it took, given that `depth` bytes came before. */
  function LengthAt(buffer: seq<Byte>, depth: nat): (r: Option<(nat, nat)>)
    ensures r.Some? ==> 1 <= r.value.1 <= |buffer| && depth + r.value.1 <= 4
    decreases 4 - depth
  {
    if depth >= 4 || buffer == [] then None
    else if buffer[0] < 128 then Some((buffer[0], 1))
    else
      match LengthAt(buffer[1..], depth + 1)
      case None => None
      case Some(r) => Some(((buffer[0] as int - 128) + 128 * r.0, r.1 + 1))
  }

  /** A decoded length with `taken` more bytes in front of it, worth `value`, scaled by `multiplier`. */
  function Behind(r: Option<(nat, nat)>, value: nat, multiplier: nat, taken: nat): Option<(nat, nat)>
  {
    match r
    case None => None
    case Some(t) => Some((value + multiplier * t.0, taken + t.1))
  }

  lemma BehindStep(buffer: seq<Byte>, depth: nat, value: nat, multiplier: nat, taken: nat)
    requires depth < 4 && buffer != [] && buffer[0] >= 128
    ensures Behind(LengthAt(buffer, depth), value, multiplier, taken)
            == Behind(LengthAt(buffer[1..], depth + 1), value + multiplier * (buffer[0] as int - 128), multiplier * 128, taken + 1)
  {
    var low := buffer[0] as int - 128;
    match LengthAt(buffer[1..], depth + 1)
    case None =>
    case Some(t) =>
      assert multiplier * (low + 128 * t.0) == multiplier * low + multiplier * 128 * t.0;
  }

  lemma BehindEnds(buffer: seq<Byte>, depth: nat, value: nat, multiplier: nat, taken: nat)
    ensures depth >= 4 || buffer == [] ==> Behind(LengthAt(buffer, depth), value, multiplier, taken) == None
    ensures depth < 4 && buffer != [] && buffer[0] < 128 ==>
              Behind(LengthAt(buffer, depth), value, multiplier, taken) == Some((value + multiplier * buffer[0] as int, taken + 1))
  {
  }

  lemma BehindNothing(r: Option<(nat, nat)>)
    ensures Behind(r, 0, 1, 0) == r
  {
  }

  method DecodeRemainingLength(buffer: seq<Byte>) returns (r: Option<(nat, nat)>)
    ensures r == LengthAt(buffer, 0)
  {
    hide LengthAt, Behind;
    BehindNothing(LengthAt(buffer, 0));
    assert buffer[0..] == buffer;
    var value: nat := 0;
    var multiplier: nat := 1;
    var i := 0;
    while i < 4
      invariant 0 <= i <= 4 && i <= |buffer|
      invariant LengthAt(buffer, 0) == Behind(LengthAt(buffer[i..], i), value, multiplier, i)
    {
      BehindEnds(buffer[i..], i, value, multiplier, i);
      if i >= |buffer| {
        return None;
      }
      var byte: int := buffer[i];
      if byte < 128 {
        return Some((value + multiplier * byte, i + 1));
      }
      BehindStep(buffer[i..], i, value, multiplier, i);
      assert buffer[i..][1..] == buffer[i + 1..];
      value := value + multiplier * (byte - 128);
      multiplier := multiplier * 128;
      i := i + 1;
    }
    BehindEnds(buffer[i..], i, value, multiplier, i);
    return None;
  }

  /** The field's own length never depends on what follows it. */
  lemma {:induction false} LengthAtExtends(a: seq<Byte>, x: seq<Byte>, depth: nat)
    requires LengthAt(a, depth).Some?
    ensures LengthAt(a + x, depth) == LengthAt(a, depth)
    decreases 4 - depth
  {
    if a[0] >= 128 {
      assert (a + x)[1..] == a[1..] + x;
      LengthAtExtends(a[1..], x, depth + 1);
    }
  }

  function Capacity(depth: nat): nat
  {
    if depth == 0 then 0x1000_0000 else if depth == 1 then 0x20_0000 else if depth == 2 then 0x4000 else if depth == 3 then 128 else 0
  }

  lemma {:induction false} LengthAtField(value: nat, x: seq<Byte>, depth: nat)
    requires depth < 4 && value < Capacity(depth)
    ensures LengthAt(LengthField(value) + x, depth) == Some((value, |LengthField(value)|))
    decreases 4 - depth
  {
    var s := LengthField(value) + x;
    if value >= 128 {
      assert s[1..] == LengthField(value / 128) + x;
      LengthAtField(value / 128, x, depth + 1);
    }
  }

  /** Section 2.2.3: what was encoded is what is decoded, for every legal value and whatever follows. */
  lemma RemainingLengthRoundTrip(value: nat, x: seq<Byte>)
    requires value <= MAX_REMAINING_LENGTH
    ensures LengthAt(LengthField(value) + x, 0) == Some((value, |LengthField(value)|))
  {
    LengthAtField(value, x, 0);
  }

  /** The decoder accepts padded encodings; it accepts the encoder's own exactly when the last byte says something. */
  lemma {:induction false} DecodedFieldIsMinimal(buffer: seq<Byte>, depth: nat)
    requires LengthAt(buffer, depth).Some?
    ensures
      var (value, n) := LengthAt(buffer, depth).value;
      && value < Capacity(depth)
      && (LengthField(value) == buffer[..n] <==> n == 1 || buffer[n - 1] != 0)
      && (buffer[n - 1] == 0 && n > 1 ==> |LengthField(value)| < n)
    decreases 4 - depth
  {
    var (value, n) := LengthAt(buffer, depth).value;
    if buffer[0] >= 128 {
      var (v, m) := LengthAt(buffer[1..], depth + 1).value;
      DecodedFieldIsMinimal(buffer[1..], depth + 1);
      assert value % 128 == buffer[0] - 128 && value / 128 == v;
      assert buffer[..n] == [buffer[0]] + buffer[1..][..m];
      assert buffer[n - 1] == buffer[1..][m - 1];
      if v == 0 {
        assert |LengthField(value)| == 1;
        assert LengthField(v) == [0];
      } else {
        assert LengthField(value) == [buffer[0]] + LengthField(v);
        assert LengthField(value)[1..] == LengthField(v);
        assert buffer[..n][1..] == buffer[1..][..m];
        if m == 1 { assert v == buffer[1]; }
      }
    }
  }

  // ---------------------------------------------------------------------------
  // Fixed header and framing
  // ---------------------------------------------------------------------------

  function FlagsFor(header: FixedHeader): (flags: Nibble)
  {
    (if header.dup then 8 else 0) + header.qos * 2 + (if header.retain then 1 else 0)
  }

  function Frame(kind: Nibble, flags: Nibble, body: seq<Byte>): (out: seq<Byte>)
  {
    [kind * 16 + flags]
    + (if |body| > MAX_REMAINING_LENGTH then [] else LengthField(|body|))
    + body
  }

  function EncodePacket(header: FixedHeader, body: seq<Byte>): seq<Byte>
  {
    Frame(header.kind, FlagsFor(header), body)
  }

  function HeaderOf(first: Byte, remaining: nat): FixedHeader
  {
    FixedHeader(first / 16, first / 8 % 2 == 1, first / 2 % 4, first % 2 == 1, remaining)
  }

  /**
   The packet a buffer starts with, once all of it is there. A remaining length that runs past
   four bytes is reported as merely incomplete, so the stream stalls on it.
   */
  function TakePacket(buffer: seq<Byte>): (t: Taken<Packet>)
    ensures t.Frame? ==> 2 <= t.size <= |buffer|
    ensures !t.Invalid?
  {
    if buffer == [] then Incomplete
    else
      match LengthAt(buffer[1..], 0)
      case None => Incomplete
      case Some((remaining, n)) =>
        var headerSize := 1 + n;
        if |buffer| < headerSize + remaining then Incomplete
        else Taken.Frame(Packet(HeaderOf(buffer[0], remaining), buffer[headerSize..headerSize + remaining]),
                         headerSize + remaining)
  }

  lemma TakePacketExtends(b: seq<Byte>, x: seq<Byte>)
    requires TakePacket(b).Frame?
    ensures TakePacket(b + x) == TakePacket(b)
  {
    assert (b + x)[1..] == b[1..] + x;
    LengthAtExtends(b[1..], x, 0);
    var size := TakePacket(b).size;
    assert (b + x)[..size] == b[..size];
    var n := LengthAt(b[1..], 0).value.1;
    assert (b + x)[1 + n..size] == b[1 + n..size];
  }

  lemma TakePacketStable()
    ensures Stable(TakePacket)
  {
    forall b, x | TakePacket(b).Frame? ensures TakePacket(b + x) == TakePacket(b) {
      TakePacketExtends(b, x);
    }
  }

  /** The first byte of a packet and its header say the same thing. */
  lemma FirstByteRoundTrip(first: Byte, remaining: nat)
    ensures var h := HeaderOf(first, remaining); h.kind * 16 + FlagsFor(h) == first
  {
    assert first == first / 2 * 2 + first % 2;
    assert first / 2 == first / 8 * 4 + first / 2 % 4;
    assert first / 8 == first / 16 * 2 + first / 8 % 2;
  }

  lemma Split2(high: nat, low: nat)
    requires low < 2
    ensures (high * 2 + low) / 2 == high && (high * 2 + low) % 2 == low
  {
  }

  lemma Split4(high: nat, low: nat)
    requires low < 4
    ensures (high * 4 + low) / 4 == high && (high * 4 + low) % 4 == low
  {
  }

  lemma Split8(high: nat, low: nat)
    requires low < 8
    ensures (high * 8 + low) / 8 == high
  {
  }

  lemma Split16(high: nat, low: nat)
    requires low < 16
    ensures (high * 16 + low) / 16 == high
  {
  }

  lemma BitFields(kind: nat, dup: nat, qos: nat, retain: nat)
    requires dup < 2 && qos < 4 && retain < 2
    ensures
      var first := kind * 16 + (dup * 8 + qos * 2 + retain);
      first / 16 == kind && first / 8 % 2 == dup && first / 2 % 4 == qos && first % 2 == retain
  {
    var first := kind * 16 + (dup * 8 + qos * 2 + retain);
    Split16(kind, dup * 8 + qos * 2 + retain);
    var top := kind * 2 + dup;
    assert first == top * 8 + (qos * 2 + retain);
    Split8(top, qos * 2 + retain);
    Split2(kind, dup);
    var mid := top * 4 + qos;
    assert first == mid * 2 + retain;
    Split2(mid, retain);
    Split4(top, qos);
  }

  lemma HeaderRoundTrip(header: FixedHeader)
    ensures HeaderOf(header.kind * 16 + FlagsFor(header), header.remainingLength) == header
  {
    BitFields(header.kind, if header.dup then 1 else 0, header.qos, if header.retain then 1 else 0);
  }

  /** Framing is undone by taking, whatever is behind the packet. */
  lemma TakeUndoesEncode(header: FixedHeader, body: seq<Byte>, x: seq<Byte>)
    requires |body| <= MAX_REMAINING_LENGTH
    ensures
      var wire := EncodePacket(header, body);
      TakePacket(wire + x) == Taken.Frame(Packet(header.(remainingLength := |body|), body), |wire|)
  {
    var wire := EncodePacket(header, body);
    var field := LengthField(|body|);
    var first: Byte := header.kind * 16 + FlagsFor(header);
    var buffer := wire + x;
    assert buffer[0] == first;
    assert buffer[1..] == field + (body + x);
    RemainingLengthRoundTrip(|body|, body + x);
    HeaderRoundTrip(header.(remainingLength := |body|));
    assert buffer[1 + |field|..1 + |field| + |body|] == body;
  }

  /** Re-framing a packet reproduces its bytes exactly when its length field was the shortest one. */
  lemma ReframingIsExactForMinimalLengths(buffer: seq<Byte>)
    requires TakePacket(buffer).Frame?
    ensures
      var t := TakePacket(buffer);
      var n := LengthAt(buffer[1..], 0).value.1;
      EncodePacket(t.value.header, t.value.body) == buffer[..t.size] <==> n == 1 || buffer[n] != 0
  {
    var t := TakePacket(buffer);
    var (remaining, n) := LengthAt(buffer[1..], 0).value;
    DecodedFieldIsMinimal(buffer[1..], 0);
    FirstByteRoundTrip(buffer[0], remaining);
    var field := LengthField(remaining);
    var wire := EncodePacket(t.value.header, t.value.body);
    assert |t.value.body| == remaining;
    assert wire == [buffer[0]] + field + t.value.body;
    assert buffer[1..][n - 1] == buffer[n];
    assert buffer[..t.size] == [buffer[0]] + buffer[1..][..n] + t.value.body;
    if n > 1 && buffer[n] == 0 {
      assert |field| < n;
      assert |wire| < t.size;
    }
  }

  /**
   The receive loop of the client: any list of framed packets with an unfinished
   packet behind it, arriving in any pieces, comes out as that list with the tail kept.
   */
  lemma StreamRoundTrip(packets: seq<Packet>, tail: seq<Byte>, pieces: seq<seq<Byte>>)
    requires forall p :: p in packets ==> |p.body| <= MAX_REMAINING_LENGTH && p.header.remainingLength == |p.body|
    requires TakePacket(tail).Incomplete?
    requires Flatten(pieces) == Flatten(Wires(packets)) + tail
    ensures Receive(TakePacket, [], pieces) == Drained(packets, tail)
  {
    TakePacketStable();
    var wire := Wires(packets);
    forall i, x | 0 <= i < |wire| ensures TakePacket(wire[i] + x) == Taken.Frame(packets[i], |wire[i]|) {
      assert packets[i] in packets;
      TakeUndoesEncode(packets[i].header, packets[i].body, x);
      assert packets[i].header.(remainingLength := |packets[i].body|) == packets[i].header;
    }
    TakeAllEncoded(TakePacket, wire, packets, tail);
    SplitInvariance(TakePacket, [], pieces);
    assert [] + Flatten(pieces) == Flatten(pieces);
  }

  function Wires(packets: seq<Packet>): (wires: seq<seq<Byte>>)
    ensures |wires| == |packets|
    ensures forall i :: 0 <= i < |packets| ==> wires[i] == EncodePacket(packets[i].header, packets[i].body)
  {
    if packets == [] then [] else [EncodePacket(packets[0].header, packets[0].body)] + Wires(packets[1..])
  }

  // ---------------------------------------------------------------------------
  // PUBLISH and the acknowledgements
  // ---------------------------------------------------------------------------

  /** The two-byte length is the size truncated to sixteen bits. */
  function StringField(value: seq<Byte>): seq<Byte>
  {
    Uint16(|value| % 0x1_0000) + value
  }

  /** A length-prefixed string at `offset`, and the offset behind it. */
  function ReadString(buffer: seq<Byte>, offset: nat): (r: Option<(seq<Byte>, nat)>)
    ensures r.Some? ==> offset + 2 <= r.value.1 <= |buffer| && |r.value.0| == r.value.1 - offset - 2
  {
    if offset + 2 > |buffer| then None
    else
      var length := Word(buffer[offset], buffer[offset + 1]);
      var start := offset + 2;
      if start + length > |buffer| then None
      else Some((buffer[start..start + length], start + length))
  }

  function PublishBody(packetId: U16, topic: seq<Byte>, payload: seq<Byte>, qos: QosBits): seq<Byte>
  {
    StringField(topic) + (if qos > 0 then Uint16(packetId) else []) + payload
  }

  function EncodePublish(packetId: U16, topic: seq<Byte>, payload: seq<Byte>, qos: QosBits, retain: bool, dup: bool): seq<Byte>
  {
    EncodePacket(FixedHeader(PUBLISH, dup, qos, retain, 0), PublishBody(packetId, topic, payload, qos))
  }

  function ParsePublish(header: FixedHeader, body: seq<Byte>): Option<PublishMessage>
  {
    if header.qos > 2 then None
    else
      match ReadString(body, 0)
      case None => None
      case Some((topic, offset)) =>
        if header.qos > 0 then
          if offset + 2 > |body| then None
          else Some(PublishMessage(topic, Word(body[offset], body[offset + 1]), header.qos, header.retain, body[offset + 2..]))
        else Some(PublishMessage(topic, 0, header.qos, header.retain, body[offset..]))
  }

  function ParsePacketId(body: seq<Byte>): Option<U16>
  {
    if |body| != 2 then None else Some(Word(body[0], body[1]))
  }

  function PacketIdAck(kind: Nibble, packetId: U16): seq<Byte>
  {
    Frame(kind, if kind == PUBREL then 2 else 0, Uint16(packetId))
  }

  /** A topic is read back exactly when its length survived being written in two bytes. */
  lemma ReadUndoesAppend(value: seq<Byte>, behind: seq<Byte>)
    ensures |value| < 0x1_0000 ==> ReadString(StringField(value) + behind, 0) == Some((value, |value| + 2))
    ensures |value| >= 0x1_0000 ==>
              var r := ReadString(StringField(value) + behind, 0);
              r.Some? && |r.value.0| < |value|
  {
    var buffer := StringField(value) + behind;
    assert buffer[0] == StringField(value)[0] && buffer[1] == StringField(value)[1];
    assert Word(buffer[0], buffer[1]) == |value| % 0x1_0000;
    if |value| < 0x1_0000 {
      assert buffer[2..2 + |value|] == value;
    }
  }

  lemma ParseUndoesBody(header: FixedHeader, packetId: U16, topic: seq<Byte>, payload: seq<Byte>)
    ensures ParsePublish(header, PublishBody(packetId, topic, payload, header.qos))
            == Some(PublishMessage(topic, if header.qos > 0 then packetId else 0, header.qos, header.retain, payload))
            <==> |topic| < 0x1_0000 && header.qos <= 2
  {
    var body := PublishBody(packetId, topic, payload, header.qos);
    var behind := (if header.qos > 0 then Uint16(packetId) else []) + payload;
    ConcatAssoc(StringField(topic), if header.qos > 0 then Uint16(packetId) else [], payload);
    assert body == StringField(topic) + behind;
    ReadUndoesAppend(topic, behind);
    if |topic| < 0x1_0000 && header.qos <= 2 {
      var offset := |topic| + 2;
      assert body[offset..] == behind;
      if header.qos > 0 {
        assert body[offset] == behind[0] && body[offset + 1] == behind[1];
        assert body[offset + 2..] == behind[2..] == payload;
      } else {
        assert behind == payload;
      }
    }
  }

  /** Parsing undoes encoding for every QoS of the protocol, and exactly for the topics two bytes can count. */
  lemma ParseUndoesPublish(packetId: U16, topic: seq<Byte>, payload: seq<Byte>, qos: QosBits, retain: bool, dup: bool, x: seq<Byte>)
    requires |PublishBody(packetId, topic, payload, qos)| <= MAX_REMAINING_LENGTH
    ensures
      var wire := EncodePublish(packetId, topic, payload, qos, retain, dup);
      var t := TakePacket(wire + x);
      && t.Frame? && t.size == |wire|
      && t.value.header.kind == PUBLISH && t.value.header.qos == qos && t.value.header.dup == dup
      && (ParsePublish(t.value.header, t.value.body)
          == Some(PublishMessage(topic, if qos > 0 then packetId else 0, qos, retain, payload))
          <==> |topic| < 0x1_0000 && qos <= 2)
  {
    var header := FixedHeader(PUBLISH, dup, qos, retain, 0);
    var body := PublishBody(packetId, topic, payload, qos);
    TakeUndoesEncode(header, body, x);
    ParseUndoesBody(header.(remainingLength := |body|), packetId, topic, payload);
  }

  lemma ParseUndoesAck(kind: Nibble, packetId: U16, x: seq<Byte>)
    ensures
      var wire := PacketIdAck(kind, packetId);
      var t := TakePacket(wire + x);
      && t.Frame? && t.size == |wire|
      && t.value.header.kind == kind
      && ParsePacketId(t.value.body) == Some(packetId)
  {
    var header := FixedHeader(kind, false, if kind == PUBREL then 1 else 0, false, 0);
    TakeUndoesEncode(header, Uint16(packetId), x);
  }

  // ---------------------------------------------------------------------------
  // The octets themselves
  // ---------------------------------------------------------------------------

  /** Sections 3.4 to 3.7: the four acknowledgements, octet by octet. */
  lemma AcknowledgementOctets(packetId: U16)
    ensures PacketIdAck(PUBACK, packetId) == [0x40, 2, packetId / 256, packetId % 256]
    ensures PacketIdAck(PUBREC, packetId) == [0x50, 2, packetId / 256, packetId % 256]
    ensures PacketIdAck(PUBREL, packetId) == [0x62, 2, packetId / 256, packetId % 256]
    ensures PacketIdAck(PUBCOMP, packetId) == [0x70, 2, packetId / 256, packetId % 256]
  {
    assert LengthField(2) == [2];
  }

  /** Section 3.3: a PUBLISH short enough for one length octet, octet by octet. */
  lemma PublishOctets(packetId: U16, topic: seq<Byte>, payload: seq<Byte>, qos: QosBits, retain: bool, dup: bool)
    requires |topic| + |payload| + 4 < 128
    ensures
      var id := if qos > 0 then [packetId / 256, packetId % 256] else [];
      EncodePublish(packetId, topic, payload, qos, retain, dup)
      == [0x30 + (if dup then 8 else 0) + 2 * qos as int + (if retain then 1 else 0), 2 + |topic| + |id| + |payload|, 0, |topic|]
         + topic + id + payload
  {
    var id := if qos > 0 then [packetId / 256, packetId % 256] else [];
    var body := PublishBody(packetId, topic, payload, qos);
    assert StringField(topic) == [0, |topic|] + topic;
    assert |body| == 2 + |topic| + |id| + |payload|;
    assert LengthField(|body|) == [|body|];
  }

  /** One octet of the field in front of the rest of it. */
  lemma LengthStep(buffer: seq<Byte>, depth: nat)
    requires LengthAt(buffer, depth).Some?
    ensures depth < 4
    ensures buffer[0] < 128 ==> LengthAt(buffer, depth) == Some((buffer[0] as int, 1))
    ensures buffer[0] >= 128 ==>
              && LengthAt(buffer[1..], depth + 1).Some?
              && var rest := LengthAt(buffer[1..], depth + 1).value;
                 LengthAt(buffer, depth) == Some((buffer[0] as int - 128 + 128 * rest.0, rest.1 + 1))
  {
  }

  /** Section 2.2.3: seven bits an octet, the least significant first, and the top bit on all but the last. */
  lemma LengthOctets(buffer: seq<Byte>)
    requires LengthAt(buffer, 0).Some?
    ensures
      var (value, n) := LengthAt(buffer, 0).value;
      match n
      case 1 => buffer[0] < 128 && value == buffer[0]
      case 2 => buffer[0] >= 128 > buffer[1] && value == (buffer[0] as int - 128) + 128 * buffer[1] as int
      case 3 => buffer[0] >= 128 && buffer[1] >= 128 > buffer[2]
                && value == (buffer[0] as int - 128) + 128 * (buffer[1] as int - 128) + 16384 * buffer[2] as int
      case _ => n == 4 && buffer[0] >= 128 && buffer[1] >= 128 && buffer[2] >= 128 > buffer[3]
                && value == (buffer[0] as int - 128) + 128 * (buffer[1] as int - 128)
                            + 16384 * (buffer[2] as int - 128) + 2097152 * buffer[3] as int
  {
    hide LengthAt;
    LengthStep(buffer, 0);
    if buffer[0] >= 128 {
      var b1 := buffer[1..];
      LengthStep(b1, 1);
      if b1[0] >= 128 {
        var b2 := b1[1..];
        assert b2[0] == buffer[2];
        LengthStep(b2, 2);
        if b2[0] >= 128 {
          var b3 := b2[1..];
          assert b3[0] == buffer[3];
          LengthStep(b3, 3);
          if b3[0] >= 128 {
            LengthStep(b3[1..], 4);
          }
        }
      }
    }
  }
}

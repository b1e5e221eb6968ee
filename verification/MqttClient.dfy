/**
 The inbound half of the MQTT client: the receive buffer, the packet loop, and the
 handlers of the PUBLISH exchanges.
 */
module MqttClient {
  import opened Wrappers
  import opened Bytes
  import opened Framing
  import opened MqttPacket

  const MAX_BUFFERED_BYTES: nat := 64 * 1024

  /**
   The messages a QoS 2 exchange has not released yet, by packet id, and the
   messages handed to the application, in order. What a message is does not matter
   to the handshake, so it is a parameter.
   */
  datatype Inbox<M> = Inbox(held: map<U16, M>, delivered: seq<M>) {

    /** A repeat under an id already held keeps the first copy. */
    function Store(id: U16, m: M): Inbox<M>
    {
      if id in held then this else this.(held := held[id := m])
    }

    /** Hands over the message held under an id, if there is one. */
    function Release(id: U16): Inbox<M>
    {
      if id in held then Inbox(held - {id}, delivered + [held[id]]) else this
    }

    function Deliver(m: M): Inbox<M>
    {
      this.(delivered := delivered + [m])
    }
  }

  datatype Session = Session(
    up: bool,                     // the transport is still there
    rx: seq<Byte>,
    inbox: Inbox<PublishMessage>,
    sent: seq<seq<Byte>>,         // packets given to the transport, in order
    acked: seq<U16>,              // ids reported to the application as taken by the broker
    errors: nat)

  function Report(s: Session): Session
  {
    s.(errors := s.errors + 1)
  }

  function Send(s: Session, packet: seq<Byte>): Session
  {
    if s.up then s.(sent := s.sent + [packet]) else s
  }

  /** Ending the connection forgets everything a session was holding. */
  function TornDown(s: Session): Session
  {
    s.(up := false, rx := [], inbox := s.inbox.(held := map[]))
  }

  function OnPublish(s: Session, p: Packet): Session
  {
    if p.header.qos > 2 then TornDown(Report(s))
    else
      match ParsePublish(p.header, p.body)
      case None => Report(s)
      case Some(m) =>
        if p.header.qos == 2 then
          Send(s.(inbox := s.inbox.Store(m.packetId, m)), PacketIdAck(PUBREC, m.packetId))
        else
          var acked := if p.header.qos == 1 then Send(s, PacketIdAck(PUBACK, m.packetId)) else s;
          acked.(inbox := acked.inbox.Deliver(m))
  }

  function OnPubrec(s: Session, p: Packet): Session
  {
    match ParsePacketId(p.body)
    case None => Report(s)
    case Some(id) => Send(s, PacketIdAck(PUBREL, id))
  }

  function OnPubrel(s: Session, p: Packet): Session
  {
    match ParsePacketId(p.body)
    case None => Report(s)
    case Some(id) =>
      var answered := Send(s, PacketIdAck(PUBCOMP, id));
      answered.(inbox := answered.inbox.Release(id))
  }

  function OnPublishComplete(s: Session, p: Packet): Session
  {
    match ParsePacketId(p.body)
    case None => Report(s)
    case Some(id) => s.(acked := s.acked + [id])
  }

  function OnPacket(s: Session, p: Packet): (r: Session)
    ensures r.rx == s.rx || (r.rx == [] && !r.up)
  {
    if p.header.kind == PUBLISH then OnPublish(s, p)
    else if p.header.kind == PUBACK || p.header.kind == PUBCOMP then OnPublishComplete(s, p)
    else if p.header.kind == PUBREC then OnPubrec(s, p)
    else if p.header.kind == PUBREL then OnPubrel(s, p)
    else s
  }

  /** The packet loop: take a packet, handle it, until no whole packet is left. */
  function Drain(s: Session): Session
    decreases |s.rx|
  {
    match TakePacket(s.rx)
    case Frame(p, n) => Drain(OnPacket(s.(rx := s.rx[n..]), p))
    case _ => s
  }

  function OnData(s: Session, data: seq<Byte>): Session
  {
    if |s.rx| + |data| > MAX_BUFFERED_BYTES then TornDown(Report(s))
    else Drain(s.(rx := s.rx + data))
  }

  class SoftwareMqttClient {
    var up: bool
    var rxBuffer: seq<Byte>
    var pendingQos2: map<U16, PublishMessage>
    var sent: seq<seq<Byte>>
    var delivered: seq<PublishMessage>
    var acked: seq<U16>
    var errors: nat

    function View(): Session
      reads this
    {
      Session(up, rxBuffer, Inbox(pendingQos2, delivered), sent, acked, errors)
    }

    /** A session that has just been established. */
    constructor ()
      ensures View() == Session(true, [], Inbox(map[], []), [], [], 0)
    {
      up := true;
      rxBuffer := [];
      pendingQos2 := map[];
      sent, delivered, acked := [], [], [];
      errors := 0;
    }

    method ReportError()
      modifies this`errors
      ensures View() == Report(old(View()))
    {
      errors := errors + 1;
    }

    method SendPacket(packet: seq<Byte>)
      modifies this`sent
      ensures View() == Send(old(View()), packet)
    {
      if up {
        sent := sent + [packet];
      }
    }

    method Teardown()
      modifies this
      ensures View() == TornDown(old(View()))
    {
      up := false;
      rxBuffer := [];
      pendingQos2 := map[];
    }

    method HandlePublish(p: Packet)
      modifies this
      ensures View() == OnPublish(old(View()), p)
    {
      if p.header.qos > 2 {
        ReportError();
        Teardown();
        return;
      }
      var message := ParsePublish(p.header, p.body);
      if message == None {
        ReportError();
        return;
      }
      var m := message.value;
      if p.header.qos == 2 {
        if m.packetId !in pendingQos2 {
          pendingQos2 := pendingQos2[m.packetId := m];
        }
        SendPacket(PacketIdAck(PUBREC, m.packetId));
        return;
      }
      if p.header.qos == 1 {
        SendPacket(PacketIdAck(PUBACK, m.packetId));
      }
      delivered := delivered + [m];
    }

    method HandlePubrec(p: Packet)
      modifies this
      ensures View() == OnPubrec(old(View()), p)
    {
      var id := ParsePacketId(p.body);
      if id == None {
        ReportError();
        return;
      }
      SendPacket(PacketIdAck(PUBREL, id.value));
    }

    method HandlePubrel(p: Packet)
      modifies this
      ensures View() == OnPubrel(old(View()), p)
    {
      var id := ParsePacketId(p.body);
      if id == None {
        ReportError();
        return;
      }
      var message: Option<PublishMessage> := None;
      if id.value in pendingQos2 {
        message := Some(pendingQos2[id.value]);
        pendingQos2 := pendingQos2 - {id.value};
      }
      SendPacket(PacketIdAck(PUBCOMP, id.value));
      if message.Some? {
        delivered := delivered + [message.value];
      }
    }

    method HandlePublishComplete(p: Packet)
      modifies this
      ensures View() == OnPublishComplete(old(View()), p)
    {
      var id := ParsePacketId(p.body);
      if id == None {
        ReportError();
        return;
      }
      acked := acked + [id.value];
    }

    method HandlePacket(p: Packet)
      modifies this
      ensures View() == OnPacket(old(View()), p)
    {
      if p.header.kind == PUBLISH {
        HandlePublish(p);
      } else if p.header.kind == PUBACK || p.header.kind == PUBCOMP {
        HandlePublishComplete(p);
      } else if p.header.kind == PUBREC {
        HandlePubrec(p);
      } else if p.header.kind == PUBREL {
        HandlePubrel(p);
      }
    }

    method OnTransportData(data: seq<Byte>)
      modifies this
      ensures View() == OnData(old(View()), data)
    {
      rxBuffer := rxBuffer + data;
      if |rxBuffer| > MAX_BUFFERED_BYTES {
        rxBuffer := [];
        ReportError();
        Teardown();
        return;
      }
      ghost var start := View();
      while true
        invariant Drain(start) == Drain(View())
        decreases |rxBuffer|
      {
        var taken := TakePacket(rxBuffer);
        if !taken.Frame? {
          return;
        }
        rxBuffer := rxBuffer[taken.size..];
        HandlePacket(taken.value);
      }
    }
  }

  // ---------------------------------------------------------------------------
  // A whole stream
  // ---------------------------------------------------------------------------

  /** The handlers run over a list of packets. */
  function HandleAll(s: Session, packets: seq<Packet>): Session
    decreases |packets|
  {
    if packets == [] then s else HandleAll(OnPacket(s, packets[0]), packets[1..])
  }

  function OnAll(s: Session, pieces: seq<seq<Byte>>): Session
    decreases |pieces|
  {
    if pieces == [] then s else OnAll(OnData(s, pieces[0]), pieces[1..])
  }

  /** No packet of the list ends the connection. */
  predicate Peaceful(packets: seq<Packet>)
  {
    forall p :: p in packets ==> p.header.kind == PUBLISH ==> p.header.qos <= 2
  }

  /** A handler that does not end the connection neither reads nor writes the buffer. */
  lemma OnPacketKeepsBuffer(s: Session, p: Packet, rx: seq<Byte>)
    requires Peaceful([p])
    ensures OnPacket(s.(rx := rx), p) == OnPacket(s, p).(rx := rx)
    ensures OnPacket(s, p).up == s.up
  {
    assert p in [p];
  }

  lemma {:induction false} HandleAllAppend(s: Session, a: seq<Packet>, b: seq<Packet>)
    ensures HandleAll(s, a + b) == HandleAll(HandleAll(s, a), b)
    decreases |a|
  {
    if a == [] {
      assert a + b == b;
    } else {
      assert (a + b)[1..] == a[1..] + b;
      HandleAllAppend(OnPacket(s, a[0]), a[1..], b);
    }
  }

  /** One drain of the buffer handles exactly the packets the buffer holds and keeps the rest. */
  lemma {:induction false} DrainHandlesPackets(s: Session)
    requires Peaceful(TakeAll(TakePacket, s.rx).frames)
    ensures var d := TakeAll(TakePacket, s.rx);
            Drain(s) == HandleAll(s, d.frames).(rx := d.rest)
    decreases |s.rx|
  {
    TakePacketStable();
    if TakePacket(s.rx).Frame? {
      var Frame(p, n) := TakePacket(s.rx);
      var rest := s.rx[n..];
      var d := TakeAll(TakePacket, rest);
      var frames := [p] + d.frames;
      assert frames[0] == p && frames[1..] == d.frames;
      assert Peaceful([p]) by { assert frames[0] in frames; }
      assert Peaceful(d.frames) by { forall q | q in d.frames ensures q in frames {} }
      OnPacketKeepsBuffer(s, p, rest);
      OnPacketKeepsBuffer(s, p, s.rx);
      DrainHandlesPackets(OnPacket(s.(rx := rest), p));
      HandleAllIgnoresBuffer(OnPacket(s, p), d.frames, rest);
    } else {
      assert s.(rx := s.rx) == s;
    }
  }

  lemma {:induction false} HandleAllIgnoresBuffer(s: Session, packets: seq<Packet>, rx: seq<Byte>)
    requires Peaceful(packets)
    ensures HandleAll(s.(rx := rx), packets) == HandleAll(s, packets).(rx := rx)
    decreases |packets|
  {
    if packets != [] {
      assert packets[0] in packets;
      OnPacketKeepsBuffer(s, packets[0], rx);
      HandleAllIgnoresBuffer(OnPacket(s, packets[0]), packets[1..], rx);
    }
  }

  /**
   Any cut of a stream that stays within the buffer limit has the effect of handling
   its packets in order; the bytes of an unfinished packet stay in the buffer.
   */
  lemma {:induction false} AnyCutHandlesTheStream(s: Session, pieces: seq<seq<Byte>>)
    requires !TakePacket(s.rx).Frame?
    requires WithinLimit(TakePacket, s.rx, pieces, MAX_BUFFERED_BYTES)
    requires Peaceful(Receive(TakePacket, s.rx, pieces).frames)
    ensures var d := TakeAll(TakePacket, s.rx + Flatten(pieces));
            OnAll(s, pieces) == HandleAll(s, d.frames).(rx := d.rest)
    decreases |pieces|
  {
    TakePacketStable();
    SplitInvariance(TakePacket, s.rx, pieces);
    if pieces == [] {
      assert s.rx + [] == s.rx;
      assert s.(rx := s.rx) == s;
    } else {
      var first := s.(rx := s.rx + pieces[0]);
      var d := TakeAll(TakePacket, first.rx);
      var e := Receive(TakePacket, d.rest, pieces[1..]);
      assert Peaceful(d.frames) by { forall q | q in d.frames ensures q in d.frames + e.frames {} }
      assert Peaceful(e.frames) by { forall q | q in e.frames ensures q in d.frames + e.frames {} }
      DrainHandlesPackets(first);
      HandleAllIgnoresBuffer(s, d.frames, first.rx);
      var next := OnData(s, pieces[0]);
      assert next == HandleAll(s, d.frames).(rx := d.rest);
      NothingWholeIsLeft(TakePacket, first.rx);
      AnyCutHandlesTheStream(next, pieces[1..]);
      SplitInvariance(TakePacket, d.rest, pieces[1..]);
      HandleAllIgnoresBuffer(HandleAll(s, d.frames), e.frames, d.rest);
      HandleAllAppend(s, d.frames, e.frames);
    }
  }

  /** A session ends over the buffer limit exactly when an arrival does not fit behind the leftover of the others. */
  lemma {:induction false} OverflowExactlyBeyondLimit(s: Session, pieces: seq<seq<Byte>>)
    requires s.up && !TakePacket(s.rx).Frame?
    requires Peaceful(Receive(TakePacket, s.rx, pieces).frames)
    ensures OnAll(s, pieces).up <==> WithinLimit(TakePacket, s.rx, pieces, MAX_BUFFERED_BYTES)
    decreases |pieces|
  {
    TakePacketStable();
    if pieces != [] {
      var first := s.(rx := s.rx + pieces[0]);
      var next := OnData(s, pieces[0]);
      var d := TakeAll(TakePacket, first.rx);
      var e := Receive(TakePacket, d.rest, pieces[1..]);
      assert Peaceful(d.frames) by { forall q | q in d.frames ensures q in d.frames + e.frames {} }
      assert Peaceful(e.frames) by { forall q | q in e.frames ensures q in d.frames + e.frames {} }
      if |s.rx| + |pieces[0]| <= MAX_BUFFERED_BYTES {
        DrainHandlesPackets(first);
        NothingWholeIsLeft(TakePacket, first.rx);
        HandleAllStaysUp(first, d.frames);
        OverflowExactlyBeyondLimit(next, pieces[1..]);
      } else {
        StaysDown(next, pieces[1..]);
      }
    }
  }

  lemma {:induction false} HandleAllStaysUp(s: Session, packets: seq<Packet>)
    requires Peaceful(packets)
    ensures HandleAll(s, packets).up == s.up
    decreases |packets|
  {
    if packets != [] {
      assert packets[0] in packets;
      OnPacketKeepsBuffer(s, packets[0], s.rx);
      HandleAllStaysUp(OnPacket(s, packets[0]), packets[1..]);
    }
  }

  lemma {:induction false} DrainStaysDown(s: Session)
    requires !s.up
    ensures !Drain(s).up
    decreases |s.rx|
  {
    if TakePacket(s.rx).Frame? {
      var Frame(p, n) := TakePacket(s.rx);
      DrainStaysDown(OnPacket(s.(rx := s.rx[n..]), p));
    }
  }

  /** Nothing that arrives brings a torn-down session back. */
  lemma {:induction false} StaysDown(s: Session, pieces: seq<seq<Byte>>)
    requires !s.up
    ensures !OnAll(s, pieces).up
    decreases |pieces|
  {
    if pieces != [] {
      DrainStaysDown(s.(rx := s.rx + pieces[0]));
      StaysDown(OnData(s, pieces[0]), pieces[1..]);
    }
  }

  /** A QoS 2 message sent again before its PUBREL is handed over once, as it came the first time. */
  lemma FirstCopyIsDelivered(s: Session, first: Packet, again: Packet, release: Packet, m: PublishMessage, n: PublishMessage)
    requires first.header.kind == again.header.kind == 3 && first.header.qos == again.header.qos == 2 && release.header.kind == 6
    requires ParsePublish(first.header, first.body) == Some(m) && ParsePublish(again.header, again.body) == Some(n)
    requires m.packetId == n.packetId && m.packetId !in s.inbox.held && ParsePacketId(release.body) == Some(m.packetId)
    ensures var t := OnPacket(OnPacket(OnPacket(s, first), again), release);
            && t.inbox.delivered == s.inbox.delivered + [m]
            && t.inbox.held == s.inbox.held
            && (s.up ==> t.sent == s.sent + [PacketIdAck(5, m.packetId)] + [PacketIdAck(5, m.packetId)] + [PacketIdAck(7, m.packetId)])
  {
    hide ParsePublish, PacketIdAck;
    assert s.inbox.held[m.packetId := m] - {m.packetId} == s.inbox.held;
  }

  // ---------------------------------------------------------------------------
  // What a teardown forgets
  // ---------------------------------------------------------------------------

  /** A PUBLISH of the list carries the message. */
  ghost predicate Published(packets: seq<Packet>, m: PublishMessage)
  {
    exists p :: p in packets && p.header.kind == 3 && ParsePublish(p.header, p.body) == Some(m)
  }

  /** From `s` to `t` no message is delivered or held but those held before and those the list publishes. */
  ghost predicate FromList(s: Session, packets: seq<Packet>, t: Session)
  {
    && s.inbox.delivered <= t.inbox.delivered
    && (forall m :: m in t.inbox.delivered[|s.inbox.delivered|..] ==> m in s.inbox.held.Values || Published(packets, m))
    && (forall m :: m in t.inbox.held.Values ==> m in s.inbox.held.Values || Published(packets, m))
  }

  lemma PublishIsFromList(s: Session, p: Packet)
    requires p.header.kind == 3
    ensures FromList(s, [p], OnPublish(s, p))
  {
    assert p in [p];
    if p.header.qos <= 2 && ParsePublish(p.header, p.body).Some? {
      var m := ParsePublish(p.header, p.body).value;
      assert Published([p], m);
      var held := s.inbox.held;
      forall k | m.packetId !in held && k in held[m.packetId := m].Values ensures k == m || k in held.Values {
        var id :| id in held[m.packetId := m] && held[m.packetId := m][id] == k;
        assert id != m.packetId ==> id in held && held[id] == k;
      }
    }
  }

  lemma ReleaseIsFromHeld(s: Session, p: Packet)
    ensures FromList(s, [p], OnPubrel(s, p))
  {
    match ParsePacketId(p.body)
    case None =>
    case Some(id) =>
      var held := s.inbox.held;
      if id in held {
        assert held[id] in held.Values;
        forall k | k in (held - {id}).Values ensures k in held.Values {
          var i :| i in held - {id} && (held - {id})[i] == k;
          assert i in held && held[i] == k;
        }
      }
  }

  lemma PacketIsFromList(s: Session, p: Packet)
    ensures FromList(s, [p], OnPacket(s, p))
  {
    hide OnPublish, OnPubrel;
    if p.header.kind == PUBLISH {
      PublishIsFromList(s, p);
    } else {
      ReleaseIsFromHeld(s, p);
      NothingFromNothing(s);
    }
  }

  lemma FromListThen(s: Session, packets: seq<Packet>, t: Session, more: seq<Packet>, u: Session)
    requires FromList(s, packets, t) && FromList(t, more, u)
    ensures FromList(s, packets + more, u)
  {
    var d0, d1, d2 := s.inbox.delivered, t.inbox.delivered, u.inbox.delivered;
    assert d2[|d0|..] == d1[|d0|..] + d2[|d1|..];
    forall m | Published(packets, m) ensures Published(packets + more, m) {
      var p :| p in packets && p.header.kind == 3 && ParsePublish(p.header, p.body) == Some(m);
      assert p in packets + more;
    }
    forall m | Published(more, m) ensures Published(packets + more, m) {
      var p :| p in more && p.header.kind == 3 && ParsePublish(p.header, p.body) == Some(m);
      assert p in packets + more;
    }
  }

  lemma {:induction false} HandleAllFromList(s: Session, packets: seq<Packet>)
    ensures FromList(s, packets, HandleAll(s, packets))
    decreases |packets|
  {
    hide OnPacket, FromList;
    if packets == [] {
      NothingFromNothing(s);
    } else {
      PacketIsFromList(s, packets[0]);
      HandleAllFromList(OnPacket(s, packets[0]), packets[1..]);
      FromListThen(s, [packets[0]], OnPacket(s, packets[0]), packets[1..], HandleAll(s, packets));
      assert [packets[0]] + packets[1..] == packets;
    }
  }

  lemma NothingFromNothing(s: Session)
    ensures FromList(s, [], s)
  {
  }

  /**
   What was held when the connection went down is never delivered, whether or not another
   one takes its place: every later delivery is of a PUBLISH that arrived since.
   */
  lemma TeardownForgetsWhatWasHeld(s: Session, again: bool, pieces: seq<seq<Byte>>)
    requires WithinLimit(TakePacket, [], pieces, MAX_BUFFERED_BYTES)
    requires Peaceful(TakeAll(TakePacket, Flatten(pieces)).frames)
    ensures
      var packets := TakeAll(TakePacket, Flatten(pieces)).frames;
      var t := OnAll(TornDown(s).(up := again), pieces);
      && s.inbox.delivered <= t.inbox.delivered
      && forall m :: m in t.inbox.delivered[|s.inbox.delivered|..] ==> Published(packets, m)
  {
    hide HandleAll, OnAll, Published;
    var next := TornDown(s).(up := again);
    TakePacketStable();
    SplitInvariance(TakePacket, [], pieces);
    assert [] + Flatten(pieces) == Flatten(pieces);
    var packets := TakeAll(TakePacket, Flatten(pieces)).frames;
    AnyCutHandlesTheStream(next, pieces);
    HandleAllFromList(next, packets);
  }
}

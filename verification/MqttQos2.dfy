/**
 The inbound QoS 2 exchange (MQTT 3.1.1, section 4.3.3) as a protocol: a broker, this
 client, and a first-in first-out channel each way, on one connection.

 The broker may repeat a PUBLISH until it sees a PUBREC and a PUBREL until it sees a
 PUBCOMP, takes an id again only after that PUBCOMP, and ignores an acknowledgement
 its state does not expect. Messages of QoS 0 and 1, and the acknowledgements of what
 the client publishes itself, travel in between. A message is named by its position
 in `started`; nothing on the wire carries that name.
 */
module MqttQos2 {
  import opened Wrappers
  import opened Bytes
  import opened Framing
  import opened MqttPacket
  import opened MqttClient

  datatype Down =
    | Publish(id: U16, qos: QosBits, tag: nat, dup: bool)
    | Pubrel(id: U16)
    | OwnPubrec(id: U16)        // answers a PUBLISH of the client's own

  datatype Up =
    | Puback(id: U16)
    | Pubrec(id: U16)
    | Pubcomp(id: U16)
    | OwnPubrel(id: U16)

  /** How far the broker is with the message that holds an id. */
  datatype Flight =
    | AwaitPubrec(tag: nat)
    | AwaitPubcomp(tag: nat)

  datatype State = State(
    started: seq<PublishMessage>,
    flights: map<U16, Flight>,
    down: seq<Down>,
    up: seq<Up>,
    inbox: Inbox<nat>,
    completed: set<nat>,        // the broker has seen the PUBCOMP
    received: seq<Down>,        // everything the client has handled, in order
    replied: seq<Up>)           // everything the client has sent back, in order

  datatype Step =
    | Start(m: PublishMessage)
    | RepeatPublish(id: U16)
    | RepeatPubrel(id: U16)
    | RepeatQos1(tag: nat)
    | AnswerOwnPublish(id: U16)
    | ClientReceives
    | BrokerReceives

  const Init := State([], map[], [], [], Inbox(map[], []), {}, [], [])

  /** A message the broker can put in one packet. */
  predicate Sendable(m: PublishMessage)
  {
    && m.qos <= 2
    && |m.topic| < 0x1_0000
    && (m.qos == 0 ==> m.packetId == 0)
    && |PublishBody(m.packetId, m.topic, m.payload, m.qos)| <= MAX_REMAINING_LENGTH
  }

  predicate Enabled(s: State, step: Step)
  {
    match step
    case Start(m) => Sendable(m) && (m.qos == 2 ==> m.packetId !in s.flights)
    case RepeatPublish(id) => id in s.flights && s.flights[id].AwaitPubrec?
    case RepeatPubrel(id) => id in s.flights && s.flights[id].AwaitPubcomp?
    case RepeatQos1(tag) => tag < |s.started| && s.started[tag].qos == 1
    case AnswerOwnPublish(_) => true
    case ClientReceives => s.down != []
    case BrokerReceives => s.up != []
  }

  /** What the client does with one packet: its new inbox and its reply. */
  function ClientHandles(inbox: Inbox<nat>, d: Down): (Inbox<nat>, seq<Up>)
  {
    match d
    case Publish(id, qos, tag, _) =>
      if qos == 2 then (inbox.Store(id, tag), [Pubrec(id)])
      else (inbox.Deliver(tag), if qos == 1 then [Puback(id)] else [])
    case Pubrel(id) => (inbox.Release(id), [Pubcomp(id)])
    case OwnPubrec(id) => (inbox, [OwnPubrel(id)])
  }

  /** What the broker does with one acknowledgement. */
  function BrokerHandles(s: State, u: Up): State
  {
    match u
    case Pubrec(id) =>
      if id in s.flights && s.flights[id].AwaitPubrec? then
        s.(flights := s.flights[id := AwaitPubcomp(s.flights[id].tag)], down := s.down + [Pubrel(id)])
      else s
    case Pubcomp(id) =>
      if id in s.flights && s.flights[id].AwaitPubcomp? then
        s.(flights := s.flights - {id}, completed := s.completed + {s.flights[id].tag})
      else s
    case _ => s
  }

  function Apply(s: State, step: Step): State
    requires Enabled(s, step)
  {
    match step
    case Start(m) =>
      var tag := |s.started|;
      s.(started := s.started + [m],
         flights := if m.qos == 2 then s.flights[m.packetId := AwaitPubrec(tag)] else s.flights,
         down := s.down + [Publish(m.packetId, m.qos, tag, false)])
    case RepeatPublish(id) => s.(down := s.down + [Publish(id, 2, s.flights[id].tag, true)])
    case RepeatPubrel(id) => s.(down := s.down + [Pubrel(id)])
    case RepeatQos1(tag) => s.(down := s.down + [Publish(s.started[tag].packetId, 1, tag, true)])
    case AnswerOwnPublish(id) => s.(down := s.down + [OwnPubrec(id)])
    case ClientReceives =>
      var (inbox, replies) := ClientHandles(s.inbox, s.down[0]);
      s.(inbox := inbox, down := s.down[1..], up := s.up + replies,
         received := s.received + [s.down[0]], replied := s.replied + replies)
    case BrokerReceives => BrokerHandles(s.(up := s.up[1..]), s.up[0])
  }

  /** A run takes its steps in order; a step that is not possible where it stands is passed over. */
  function Run(s: State, steps: seq<Step>): State
    decreases |steps|
  {
    if steps == [] then s
    else Run(if Enabled(s, steps[0]) then Apply(s, steps[0]) else s, steps[1..])
  }

  // ---------------------------------------------------------------------------
  // The invariant, one packet id at a time
  // ---------------------------------------------------------------------------

  predicate Publishes(d: Down, id: U16)
  {
    d.Publish? && d.qos == 2 && d.id == id
  }

  /** No packet of the second kind stands behind one of the first. */
  ghost predicate DownOrder(down: seq<Down>, id: U16, publishFirst: bool)
  {
    forall a, b :: 0 <= a < b < |down| ==>
      if publishFirst then !(down[a] == Pubrel(id) && Publishes(down[b], id))
      else !(Publishes(down[a], id) && down[b] == Pubrel(id))
  }

  ghost predicate UpOrder(up: seq<Up>, first: Up, second: Up)
  {
    forall a, b :: 0 <= a < b < |up| ==> !(up[a] == first && up[b] == second)
  }

  ghost predicate NoPublish(down: seq<Down>, id: U16)
  {
    forall k :: 0 <= k < |down| ==> !Publishes(down[k], id)
  }

  ghost predicate PublishesOnly(down: seq<Down>, id: U16, tag: nat)
  {
    forall k :: 0 <= k < |down| && Publishes(down[k], id) ==> down[k].tag == tag
  }

  ghost predicate OwnsTag(s: State, id: U16, tag: nat)
  {
    && tag < |s.started| && tag !in s.completed
    && s.started[tag].qos == 2 && s.started[tag].packetId == id
  }

  ghost predicate IdleOk(s: State, id: U16)
  {
    NoPublish(s.down, id) && Pubrec(id) !in s.up && id !in s.inbox.held
  }

  ghost predicate AwaitPubrecOk(s: State, id: U16, tag: nat)
  {
    && OwnsTag(s, id, tag) && PublishesOnly(s.down, id, tag)
    && DownOrder(s.down, id, false)
    && UpOrder(s.up, Pubrec(id), Pubcomp(id))
    && tag !in s.inbox.delivered
    && if id in s.inbox.held then s.inbox.held[id] == tag && Pubrel(id) !in s.down
       else Pubrec(id) !in s.up
  }

  ghost predicate AwaitPubcompOk(s: State, id: U16, tag: nat)
  {
    && OwnsTag(s, id, tag) && PublishesOnly(s.down, id, tag)
    && DownOrder(s.down, id, true)
    && UpOrder(s.up, Pubcomp(id), Pubrec(id))
    && if id in s.inbox.held then s.inbox.held[id] == tag && tag !in s.inbox.delivered && Pubcomp(id) !in s.up
       else tag in s.inbox.delivered && NoPublish(s.down, id)
  }

  ghost predicate IdOk(s: State, id: U16)
  {
    if id !in s.flights then IdleOk(s, id)
    else match s.flights[id]
         case AwaitPubrec(tag) => AwaitPubrecOk(s, id, tag)
         case AwaitPubcomp(tag) => AwaitPubcompOk(s, id, tag)
  }

  /** QoS 2 messages are handed over at most once, whatever else is. */
  ghost predicate AtMostOnce(s: State)
  {
    forall i, j :: 0 <= i < j < |s.inbox.delivered| && s.inbox.delivered[i] == s.inbox.delivered[j] ==>
      s.inbox.delivered[i] < |s.started| && s.started[s.inbox.delivered[i]].qos < 2
  }

  predicate Named(started: seq<PublishMessage>, d: Down)
  {
    d.Publish? ==> d.tag < |started| && started[d.tag].packetId == d.id && started[d.tag].qos == d.qos
  }

  /** Every tag anywhere names a message that was started, under its own id and QoS. */
  ghost predicate TagsOk(s: State)
  {
    && (forall m :: m in s.started ==> Sendable(m))
    && (forall d :: d in s.down ==> Named(s.started, d))
    && (forall d :: d in s.received ==> Named(s.started, d))
    && (forall t :: t in s.inbox.delivered ==> t < |s.started|)
    && (forall t :: t in s.completed ==> t < |s.started|)
  }

  ghost predicate Inv(s: State)
  {
    && (forall id :: IdOk(s, id))
    && AtMostOnce(s)
    && TagsOk(s)
    && (forall t :: t in s.completed ==> t in s.inbox.delivered)
  }

  lemma InvInit()
    ensures Inv(Init)
  {
  }

  lemma InvStart(s: State, m: PublishMessage)
    requires Inv(s) && Enabled(s, Start(m))
    ensures Inv(Apply(s, Start(m)))
  {
    var t := Apply(s, Start(m));
    forall id ensures IdOk(t, id) {
      assert IdOk(s, id);
    }
  }

  lemma InvRepeat(s: State, step: Step)
    requires step.RepeatPublish? || step.RepeatPubrel? || step.RepeatQos1? || step.AnswerOwnPublish?
    requires Inv(s) && Enabled(s, step)
    ensures Inv(Apply(s, step))
  {
    var t := Apply(s, step);
    if step.RepeatPublish? {
      assert IdOk(s, step.id);
    }
    forall id ensures IdOk(t, id) {
      assert IdOk(s, id);
    }
  }

  lemma IdOkClientReceives(s: State, id: U16)
    requires Inv(s) && s.down != []
    ensures IdOk(Apply(s, ClientReceives), id)
  {
    var d := s.down[0];
    assert IdOk(s, id) && IdOk(s, d.id);
    assert d in s.down && Named(s.started, d);
    assert d.Publish? ==> Sendable(s.started[d.tag]) by {
      assert d.Publish? ==> s.started[d.tag] in s.started;
    }
  }

  lemma AtMostOnceClientReceives(s: State)
    requires Inv(s) && s.down != []
    ensures AtMostOnce(Apply(s, ClientReceives))
  {
    var d := s.down[0];
    var before, after := s.inbox.delivered, Apply(s, ClientReceives).inbox.delivered;
    assert IdOk(s, d.id);
    assert d in s.down && Named(s.started, d);
    assert d.Publish? ==> Sendable(s.started[d.tag]) by {
      assert d.Publish? ==> s.started[d.tag] in s.started;
    }
    assert d.Pubrel? && d.id in s.inbox.held ==> s.inbox.held[d.id] !in before;
    assert |after| == |before| || after == before + [after[|before|]];
    forall i, j | 0 <= i < j < |after| && after[i] == after[j]
      ensures after[i] < |s.started| && s.started[after[i]].qos < 2
    {
      assert after[i] == before[i];
      if j < |before| {
        assert before[i] == before[j];
      } else if d.Publish? {
        assert d.qos < 2 && after[j] == d.tag;
      } else {
        assert false;
      }
    }
  }

  lemma InvClientReceives(s: State)
    requires Inv(s) && s.down != []
    ensures Inv(Apply(s, ClientReceives))
  {
    var t := Apply(s, ClientReceives);
    var d := s.down[0];
    assert IdOk(s, d.id);
    assert d in s.down && Named(s.started, d);
    AtMostOnceClientReceives(s);
    forall id ensures IdOk(t, id) {
      IdOkClientReceives(s, id);
    }
  }

  lemma InvBrokerReceives(s: State)
    requires Inv(s) && s.up != []
    ensures Inv(Apply(s, BrokerReceives))
  {
    var t := Apply(s, BrokerReceives);
    var u := s.up[0];
    assert IdOk(s, u.id);
    forall id ensures IdOk(t, id) {
      assert IdOk(s, id);
    }
  }

  lemma InvStep(s: State, step: Step)
    requires Inv(s) && Enabled(s, step)
    ensures Inv(Apply(s, step))
  {
    match step
    case Start(m) => InvStart(s, m);
    case ClientReceives => InvClientReceives(s);
    case BrokerReceives => InvBrokerReceives(s);
    case _ => InvRepeat(s, step);
  }

  lemma {:induction false} InvRun(s: State, steps: seq<Step>)
    requires Inv(s)
    ensures Inv(Run(s, steps))
    decreases |steps|
  {
    if steps != [] {
      if Enabled(s, steps[0]) {
        InvStep(s, steps[0]);
      }
      InvRun(if Enabled(s, steps[0]) then Apply(s, steps[0]) else s, steps[1..]);
    }
  }

  // ---------------------------------------------------------------------------
  // Exactly once
  // ---------------------------------------------------------------------------

  function Count(log: seq<nat>, tag: nat): nat
  {
    if log == [] then 0 else (if log[0] == tag then 1 else 0) + Count(log[1..], tag)
  }

  lemma {:induction false} CountAbsent(log: seq<nat>, tag: nat)
    ensures tag !in log ==> Count(log, tag) == 0
    ensures tag in log ==> Count(log, tag) >= 1
  {
    if log != [] {
      CountAbsent(log[1..], tag);
    }
  }

  lemma {:induction false} CountUnique(log: seq<nat>, tag: nat)
    requires forall i, j :: 0 <= i < j < |log| && log[i] == log[j] ==> log[i] != tag
    ensures Count(log, tag) <= 1
  {
    if log != [] {
      var rest := log[1..];
      CountUnique(rest, tag);
      CountAbsent(rest, tag);
      if log[0] == tag {
        forall k | 0 <= k < |rest| ensures rest[k] != tag {
          assert rest[k] == log[k + 1];
        }
      }
    }
  }

  /**
   Over every run, for any mix of ids, repeats and interleaving: a QoS 2 message is
   handed over at most once, and exactly once by the time the broker has its PUBCOMP.
   */
  lemma ExactlyOnce(steps: seq<Step>, tag: nat)
    ensures
      var s := Run(Init, steps);
      && (tag < |s.started| && s.started[tag].qos == 2 ==> Count(s.inbox.delivered, tag) <= 1)
      && (tag in s.completed ==> tag < |s.started| && Count(s.inbox.delivered, tag) == 1)
  {
    InvInit();
    InvRun(Init, steps);
    var s := Run(Init, steps);
    if tag < |s.started| && s.started[tag].qos == 2 {
      CountUnique(s.inbox.delivered, tag);
    }
    CompletedAreQos2(Init, steps);
    if tag in s.completed {
      CountAbsent(s.inbox.delivered, tag);
    }
  }

  ghost predicate CompletedQos2(s: State)
  {
    forall t :: t in s.completed ==> t < |s.started| && s.started[t].qos == 2
  }

  lemma {:induction false} CompletedAreQos2(s: State, steps: seq<Step>)
    requires Inv(s) && CompletedQos2(s)
    ensures CompletedQos2(Run(s, steps))
    decreases |steps|
  {
    if steps != [] {
      var t := if Enabled(s, steps[0]) then Apply(s, steps[0]) else s;
      if Enabled(s, steps[0]) {
        InvStep(s, steps[0]);
        if steps[0].BrokerReceives? {
          assert IdOk(s, s.up[0].id);
        }
      }
      CompletedAreQos2(t, steps[1..]);
    }
  }

  // ---------------------------------------------------------------------------
  // No message is ever stuck
  // ---------------------------------------------------------------------------

  function Unacknowledged(flights: map<U16, Flight>): set<U16>
  {
    set id | id in flights && flights[id].AwaitPubrec?
  }

  /** What is still to be read; every delivery on either channel lowers it. */
  function Backlog(s: State): nat
  {
    4 * |Unacknowledged(s.flights)| + 2 * |s.down| + |s.up|
  }

  lemma BacklogFalls(s: State, step: Step)
    requires step.ClientReceives? || step.BrokerReceives?
    requires Enabled(s, step)
    ensures Backlog(Apply(s, step)) < Backlog(s)
  {
    var t := Apply(s, step);
    if step.BrokerReceives? {
      var id := s.up[0].id;
      if s.up[0].Pubrec? && id in s.flights && s.flights[id].AwaitPubrec? {
        assert Unacknowledged(t.flights) == Unacknowledged(s.flights) - {id};
      } else {
        assert Unacknowledged(t.flights) == Unacknowledged(s.flights);
      }
    }
  }

  lemma {:induction false} RunAppend(s: State, a: seq<Step>, b: seq<Step>)
    ensures Run(s, a + b) == Run(Run(s, a), b)
    decreases |a|
  {
    if a == [] {
      assert a + b == b;
    } else {
      assert (a + b)[1..] == a[1..] + b;
      RunAppend(if Enabled(s, a[0]) then Apply(s, a[0]) else s, a[1..], b);
    }
  }

  /** Reading both channels dry takes finitely many deliveries and starts nothing new. */
  lemma {:induction false} ReadDry(s: State) returns (steps: seq<Step>)
    requires Inv(s)
    ensures var t := Run(s, steps);
            && Inv(t) && t.down == [] && t.up == [] && t.started == s.started
            && s.completed <= t.completed && t.flights.Keys <= s.flights.Keys
            && (forall id :: id in s.flights ==>
                  if id in t.flights then t.flights[id].tag == s.flights[id].tag else s.flights[id].tag in t.completed)
    decreases Backlog(s)
  {
    if s.down == [] && s.up == [] {
      steps := [];
    } else {
      var step := if s.down != [] then ClientReceives else BrokerReceives;
      var next := Apply(s, step);
      BacklogFalls(s, step);
      InvStep(s, step);
      var rest := ReadDry(next);
      steps := [step] + rest;
      assert steps[1..] == rest;
      assert Run(s, steps) == Run(next, rest);
    }
  }

  /**
   From every reachable state the exchange of any message in flight can be finished:
   no history of repeats and half-read channels leaves one stuck.
   */
  lemma CanAlwaysFinish(s: State, id: U16) returns (steps: seq<Step>)
    requires Inv(s) && id in s.flights
    ensures s.flights[id].tag in Run(s, steps).completed
  {
    var dry := ReadDry(s);
    var t := Run(s, dry);
    if id !in t.flights {
      return dry;
    }
    var finish := FinishFromDry(t, id);
    RunAppend(s, dry, finish);
    steps := dry + finish;
  }

  lemma FinishFromDry(t: State, id: U16) returns (steps: seq<Step>)
    requires Inv(t) && t.down == [] && t.up == [] && id in t.flights
    ensures t.flights[id].tag in Run(t, steps).completed
  {
    assert IdOk(t, id);
    match t.flights[id]
    case AwaitPubcomp(tag) =>
      var a := Apply(t, RepeatPubrel(id));
      var b := Apply(a, ClientReceives);
      assert b.up == [Pubcomp(id)] && b.flights == t.flights;
      var c := Apply(b, BrokerReceives);
      steps := [RepeatPubrel(id), ClientReceives, BrokerReceives];
      assert Run(a, steps[1..]) == Run(b, steps[2..]) == Run(c, steps[3..]) == c;
    case AwaitPubrec(tag) =>
      var a := Apply(t, RepeatPublish(id));
      var b := Apply(a, ClientReceives);
      assert b.up == [Pubrec(id)] && b.flights == t.flights;
      var c := Apply(b, BrokerReceives);
      assert c.down == [Pubrel(id)] && c.flights[id] == AwaitPubcomp(tag);
      var d := Apply(c, ClientReceives);
      assert d.up == [Pubcomp(id)] && d.flights == c.flights;
      var e := Apply(d, BrokerReceives);
      steps := [RepeatPublish(id), ClientReceives, BrokerReceives, ClientReceives, BrokerReceives];
      assert Run(a, steps[1..]) == Run(b, steps[2..]) == Run(c, steps[3..]) == Run(d, steps[4..]) == Run(e, steps[5..]) == e;
  }

  // ---------------------------------------------------------------------------
  // The protocol and the client that runs on bytes
  // ---------------------------------------------------------------------------

  /** The packet a broker puts on the wire; no reachable PUBLISH names a message that was not started. */
  function PacketOf(started: seq<PublishMessage>, d: Down): Packet
  {
    match d
    case Publish(id, qos, tag, dup) =>
      var m := if tag < |started| then started[tag] else PublishMessage([], id, qos, false, []);
      var body := PublishBody(id, m.topic, m.payload, qos);
      Packet(FixedHeader(PUBLISH, dup, qos, m.retain, |body|), body)
    case Pubrel(id) => Packet(FixedHeader(PUBREL, false, 1, false, 2), Uint16(id))
    case OwnPubrec(id) => Packet(FixedHeader(PUBREC, false, 0, false, 2), Uint16(id))
  }

  function PacketsOf(started: seq<PublishMessage>, ds: seq<Down>): (packets: seq<Packet>)
    ensures |packets| == |ds|
    ensures forall i :: 0 <= i < |ds| ==> packets[i] == PacketOf(started, ds[i])
  {
    if ds == [] then [] else [PacketOf(started, ds[0])] + PacketsOf(started, ds[1..])
  }

  function WireOf(u: Up): seq<Byte>
  {
    match u
    case Puback(id) => PacketIdAck(PUBACK, id)
    case Pubrec(id) => PacketIdAck(PUBREC, id)
    case Pubcomp(id) => PacketIdAck(PUBCOMP, id)
    case OwnPubrel(id) => PacketIdAck(PUBREL, id)
  }

  /** The session holds, has handed over and has sent what the protocol says, message for message. */
  ghost predicate Mirrors(session: Session, started: seq<PublishMessage>, inbox: Inbox<nat>, replied: seq<Up>)
  {
    && session.up && session.errors == 0
    && session.inbox.held.Keys == inbox.held.Keys
    && (forall id :: id in inbox.held ==> inbox.held[id] < |started| && session.inbox.held[id] == started[inbox.held[id]])
    && |session.inbox.delivered| == |inbox.delivered|
    && (forall i :: 0 <= i < |inbox.delivered| ==>
          inbox.delivered[i] < |started| && session.inbox.delivered[i] == started[inbox.delivered[i]])
    && |session.sent| == |replied|
    && (forall i :: 0 <= i < |replied| ==> session.sent[i] == WireOf(replied[i]))
  }

  /** What the byte-level handlers do with a packet of the protocol. */
  lemma HandlerOutcome(session: Session, started: seq<PublishMessage>, d: Down)
    requires session.up && Named(started, d) && forall m :: m in started ==> Sendable(m)
    ensures
      OnPacket(session, PacketOf(started, d)) ==
      match d
      case Publish(id, qos, tag, _) =>
        if qos == 2 then session.(inbox := session.inbox.Store(id, started[tag]), sent := session.sent + [PacketIdAck(PUBREC, id)])
        else if qos == 1 then session.(inbox := session.inbox.Deliver(started[tag]), sent := session.sent + [PacketIdAck(PUBACK, id)])
        else session.(inbox := session.inbox.Deliver(started[tag]))
      case Pubrel(id) => session.(inbox := session.inbox.Release(id), sent := session.sent + [PacketIdAck(PUBCOMP, id)])
      case OwnPubrec(id) => session.(sent := session.sent + [PacketIdAck(PUBREL, id)])
  {
    var p := PacketOf(started, d);
    match d
    case Publish(id, qos, tag, dup) =>
      var m := started[tag];
      assert m in started && Sendable(m);
      ParseUndoesBody(p.header, id, m.topic, m.payload);
      assert ParsePublish(p.header, p.body) == Some(m);
    case Pubrel(id) =>
      assert ParsePacketId(p.body) == Some(id);
    case OwnPubrec(id) =>
      assert ParsePacketId(p.body) == Some(id);
  }

  lemma PacketMirrors(session: Session, started: seq<PublishMessage>, inbox: Inbox<nat>, replied: seq<Up>, d: Down)
    requires Mirrors(session, started, inbox, replied)
    requires Named(started, d) && forall m :: m in started ==> Sendable(m)
    ensures var (inbox', replies) := ClientHandles(inbox, d);
            Mirrors(OnPacket(session, PacketOf(started, d)), started, inbox', replied + replies)
  {
    HandlerOutcome(session, started, d);
    var next := OnPacket(session, PacketOf(started, d));
    var (inbox', replies) := ClientHandles(inbox, d);
    if d.Publish? {
      assert started[d.tag] in started;
    }
    assert |replies| == 1 ==> next.sent == session.sent + [WireOf(replies[0])];
    assert |replies| == 0 ==> next.sent == session.sent;
  }

  /** What the client's half of a run amounts to. */
  function ClientRun(inbox: Inbox<nat>, replied: seq<Up>, ds: seq<Down>): (Inbox<nat>, seq<Up>)
    decreases |ds|
  {
    if ds == [] then (inbox, replied)
    else
      var (inbox', replies) := ClientHandles(inbox, ds[0]);
      ClientRun(inbox', replied + replies, ds[1..])
  }

  lemma {:induction false} ClientRunSnoc(inbox: Inbox<nat>, replied: seq<Up>, ds: seq<Down>, d: Down)
    ensures
      var (inbox', replied') := ClientRun(inbox, replied, ds);
      var (inbox'', replies) := ClientHandles(inbox', d);
      ClientRun(inbox, replied, ds + [d]) == (inbox'', replied' + replies)
    decreases |ds|
  {
    if ds == [] {
      assert (ds + [d])[1..] == [];
    } else {
      assert (ds + [d])[1..] == ds[1..] + [d];
      var (next, replies) := ClientHandles(inbox, ds[0]);
      ClientRunSnoc(next, replied + replies, ds[1..], d);
    }
  }

  lemma {:induction false} RunIsClientRun(s: State, steps: seq<Step>)
    requires ClientRun(Inbox(map[], []), [], s.received) == (s.inbox, s.replied)
    ensures var t := Run(s, steps); ClientRun(Inbox(map[], []), [], t.received) == (t.inbox, t.replied)
    decreases |steps|
  {
    if steps != [] {
      var t := if Enabled(s, steps[0]) then Apply(s, steps[0]) else s;
      if steps[0].ClientReceives? && s.down != [] {
        ClientRunSnoc(Inbox(map[], []), [], s.received, s.down[0]);
      }
      RunIsClientRun(t, steps[1..]);
    }
  }

  lemma {:induction false} SessionMirrors(session: Session, started: seq<PublishMessage>, inbox: Inbox<nat>, replied: seq<Up>, ds: seq<Down>)
    requires Mirrors(session, started, inbox, replied)
    requires forall d :: d in ds ==> Named(started, d)
    requires forall m :: m in started ==> Sendable(m)
    ensures var (inbox', replied') := ClientRun(inbox, replied, ds);
            Mirrors(HandleAll(session, PacketsOf(started, ds)), started, inbox', replied')
    decreases |ds|
  {
    if ds != [] {
      assert ds[0] in ds;
      PacketMirrors(session, started, inbox, replied, ds[0]);
      var (next, replies) := ClientHandles(inbox, ds[0]);
      assert PacketsOf(started, ds)[1..] == PacketsOf(started, ds[1..]);
      SessionMirrors(OnPacket(session, PacketsOf(started, ds)[0]), started, next, replied + replies, ds[1..]);
    }
  }

  /**
   The client on bytes does what the protocol says. Whatever the run, if the packets
   it has received arrive as bytes cut in any way within the buffer limit, the
   session hands over exactly the protocol's messages and sends exactly its replies -
   so what `ExactlyOnce` says of tags holds of the messages the application sees.
   */
  lemma BytesFollowTheProtocol(steps: seq<Step>, tail: seq<Byte>, pieces: seq<seq<Byte>>)
    requires TakePacket(tail).Incomplete?
    requires var s := Run(Init, steps); Flatten(pieces) == Flatten(Wires(PacketsOf(s.started, s.received))) + tail
    requires WithinLimit(TakePacket, [], pieces, MAX_BUFFERED_BYTES)
    ensures
      var s := Run(Init, steps);
      var session := OnAll(Session(true, [], Inbox(map[], []), [], [], 0), pieces);
      Mirrors(session, s.started, s.inbox, s.replied) && session.rx == tail
  {
    var s := Run(Init, steps);
    InvInit();
    InvRun(Init, steps);
    var fresh0 := Session(true, [], Inbox(map[], []), [], [], 0);
    var packets := PacketsOf(s.started, s.received);
    PacketsAreWhole(s.started, s.received);
    TakePacketStable();
    StreamRoundTrip(packets, tail, pieces);
    assert Receive(TakePacket, [], pieces).frames == packets;
    SplitInvariance(TakePacket, [], pieces);
    AnyCutHandlesTheStream(fresh0, pieces);
    RunIsClientRun(Init, steps);
    SessionMirrors(fresh0, s.started, Inbox(map[], []), [], s.received);
  }

  lemma PacketsAreWhole(started: seq<PublishMessage>, ds: seq<Down>)
    requires forall d :: d in ds ==> Named(started, d)
    requires forall m :: m in started ==> Sendable(m)
    ensures forall p :: p in PacketsOf(started, ds) ==> |p.body| <= MAX_REMAINING_LENGTH && p.header.remainingLength == |p.body|
    ensures Peaceful(PacketsOf(started, ds))
  {
    var packets := PacketsOf(started, ds);
    forall p | p in packets
      ensures |p.body| <= MAX_REMAINING_LENGTH && p.header.remainingLength == |p.body|
      ensures p.header.kind == PUBLISH ==> p.header.qos <= 2
    {
      var i :| 0 <= i < |packets| && packets[i] == p;
      var d := ds[i];
      assert d in ds;
      if d.Publish? {
        assert started[d.tag] in started;
      }
    }
  }
}

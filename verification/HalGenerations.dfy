/** Over every run, the clients of one generation of a cid see only that generation's bytes. */
module HalGenerations {
  import opened Wrappers
  import opened Bytes
  import opened HalRouter

  /** A byte, with the generation of its cid it was dispatched in. */
  datatype Octet = Octet(value: Byte, generation: nat)

  /**
   One cid. `awaited` says that it was taken for a client that has not subscribed yet;
   `since` and `ended` are what was dispatched for it since its hold was last voided.
   */
  datatype Lane = Lane(generation: nat, awaited: bool, since: seq<Octet>, ended: bool)

  /** One subscription: whose generation it was for, and what was dispatched for it. */
  datatype Client = Client(cid: int, generation: nat, stream: seq<Octet>)

  datatype System = System(hal: Hal<Octet>, lanes: map<int, Lane>, clients: map<nat, Client>)

  function LaneOf(s: System, cid: int): Lane
  {
    if cid in s.lanes then s.lanes[cid] else Lane(0, false, [], false)
  }

  function Tagged(data: seq<Byte>, generation: nat): (t: seq<Octet>)
    ensures |t| == |data| && forall i :: 0 <= i < |t| ==> t[i] == Octet(data[i], generation)
  {
    seq(|data|, i requires 0 <= i < |data| => Octet(data[i], generation))
  }

  /**
   Each event is atomic. A cid is retaken only when the client it was taken for has
   subscribed or given up, and has withdrawn.
   */
  datatype Event =
    | Take(cid: int)
    | OpenFails(cid: int)
    | DataLine(cid: int, data: seq<Byte>)
    | CloseLine(cid: int)
    | Subscribe(cid: int)
    | Unsubscribe(handle: nat)
    | CloseSocket(cid: int)

  predicate Enabled(s: System, e: Event)
  {
    match e
    case Take(cid) => cid !in s.hal.used && !LaneOf(s, cid).awaited && !Routed(s.hal, cid)
    case OpenFails(cid) => LaneOf(s, cid).awaited
    case Subscribe(cid) => LaneOf(s, cid).awaited && !Routed(s.hal, cid)
    case CloseSocket(cid) => !LaneOf(s, cid).awaited && !Routed(s.hal, cid)
    case _ => true
  }

  function WithLane(s: System, cid: int, lane: Lane): System
  {
    s.(lanes := s.lanes[cid := lane])
  }

  /** Extends the record of what was dispatched for the client that listens to a cid. */
  function Streamed(s: System, cid: int, data: seq<Octet>): System
    requires OneRoutePerCid(s.hal)
  {
    if Routed(s.hal, cid) && RouteOf(s.hal, cid) in s.clients then
      var h := RouteOf(s.hal, cid);
      s.(clients := s.clients[h := s.clients[h].(stream := s.clients[h].stream + data)])
    else s
  }

  function Step(s: System, e: Event): System
    requires OneRoutePerCid(s.hal) && Enabled(s, e)
  {
    match e
    case Take(cid) =>
      var lane := LaneOf(s, cid);
      WithLane(s, cid, Lane(lane.generation + 1, true, [], false)).(hal := Taken(s.hal, cid))
    case OpenFails(cid) =>
      WithLane(s, cid, LaneOf(s, cid).(awaited := false, since := [], ended := false)).(hal := Released(s.hal, cid))
    case DataLine(cid, data) =>
      var lane := LaneOf(s, cid);
      var octets := Tagged(data, lane.generation);
      Streamed(WithLane(s, cid, lane.(since := lane.since + octets)), cid, octets).(hal := DataDispatched(s.hal, cid, octets))
    case CloseLine(cid) =>
      WithLane(s, cid, LaneOf(s, cid).(since := [], ended := true)).(hal := CloseReported(s.hal, cid))
    case Subscribe(cid) =>
      var lane := LaneOf(s, cid);
      WithLane(s, cid, lane.(awaited := false)).(
        hal := Subscribed(s.hal, cid),
        clients := s.clients[s.hal.nextSubscription := Client(cid, lane.generation, lane.since)])
    case Unsubscribe(handle) =>
      s.(hal := Unsubscribed(s.hal, handle))
    case CloseSocket(cid) =>
      s.(hal := SocketClosed(s.hal, cid))
  }

  /** The bytes an inbox holds. */
  function Received(inbox: seq<Delivery<Octet>>): seq<Octet>
  {
    if inbox == [] then []
    else Received(inbox[..|inbox| - 1]) + match inbox[|inbox| - 1] case Data(d) => d case Closed => []
  }

  /** Nothing comes after a close. */
  predicate CloseIsLast(inbox: seq<Delivery<Octet>>)
  {
    forall i :: 0 <= i < |inbox| - 1 ==> inbox[i].Data?
  }

  predicate IsClosed(inbox: seq<Delivery<Octet>>)
  {
    inbox != [] && inbox[|inbox| - 1].Closed?
  }

  /** All octets carry the generation. */
  predicate Of(data: seq<Octet>, generation: nat)
  {
    forall o <- data :: o.generation == generation
  }

  /**
   What a client may see: only its own generation's bytes, a prefix of what was
   dispatched, all of it unless the hold was cut short at exactly its cap and the client
   told that the connection ended.
   */
  predicate SeesItsOwn(inbox: seq<Delivery<Octet>>, client: Client)
  {
    && Of(client.stream, client.generation)
    && Received(inbox) <= client.stream
    && CloseIsLast(inbox)
    && (Received(inbox) != client.stream ==> |Received(inbox)| == MAX_UNDELIVERED_BYTES && IsClosed(inbox))
  }

  function Cap(data: seq<Octet>): seq<Octet>
  {
    if |data| > MAX_UNDELIVERED_BYTES then data[..MAX_UNDELIVERED_BYTES] else data
  }

  /** The hold of an awaited cid is what was dispatched since it was voided, up to the cap. */
  predicate LaneOk(s: System, cid: int)
  {
    var lane := LaneOf(s, cid);
    && Of(lane.since, lane.generation)
    && (lane.awaited ==>
          && !Routed(s.hal, cid)
          && HeldFor(s.hal, cid) == Undelivered(Cap(lane.since), |lane.since| > MAX_UNDELIVERED_BYTES, lane.ended))
  }

  /** A client that still listens has seen everything dispatched for it. */
  predicate RouteOk(s: System, h: nat)
    requires h in s.hal.routes
  {
    && h in s.clients && h in s.hal.inbox
    && var client := s.clients[h];
       && client.cid == s.hal.routes[h]
       && client.generation == LaneOf(s, client.cid).generation
       && Received(s.hal.inbox[h]) == client.stream
       && !IsClosed(s.hal.inbox[h])
  }

  ghost predicate Inv(s: System)
  {
    && OneRoutePerCid(s.hal)
    && (forall cid :: LaneOk(s, cid))
    && (forall h :: h in s.hal.routes ==> RouteOk(s, h))
    && (forall h :: h in s.clients ==> h < s.hal.nextSubscription && h in s.hal.inbox && SeesItsOwn(s.hal.inbox[h], s.clients[h]))
  }

  lemma ReceivedSnoc(inbox: seq<Delivery<Octet>>, d: Delivery<Octet>)
    ensures Received(inbox + [d]) == Received(inbox) + match d case Data(x) => x case Closed => []
  {
    assert (inbox + [d])[..|inbox|] == inbox;
  }

  lemma RouteIs(s: Hal<Octet>, h: nat, cid: int)
    requires OneRoutePerCid(s) && h in s.routes && s.routes[h] == cid
    ensures Routed(s, cid) && RouteOf(s, cid) == h
  {
  }

  lemma HeldIsCapped(held: Undelivered<Octet>, since: seq<Octet>, data: seq<Octet>)
    requires held.data == Cap(since) && held.truncated == (|since| > MAX_UNDELIVERED_BYTES)
    ensures Held(held, data) == Undelivered(Cap(since + data), |since + data| > MAX_UNDELIVERED_BYTES, held.closed)
  {
    if |since| > MAX_UNDELIVERED_BYTES {
      assert Cap(since + data) == Cap(since) + data[..0];
    } else if |since + data| > MAX_UNDELIVERED_BYTES {
      assert Cap(since + data) == since + data[..MAX_UNDELIVERED_BYTES - |since|];
    }
  }

  /** The inbox of a client that is still listening gets one more piece of data. */
  lemma DataIsSeen(inbox: seq<Delivery<Octet>>, client: Client, data: seq<Octet>)
    requires SeesItsOwn(inbox, client) && Received(inbox) == client.stream && !IsClosed(inbox) && Of(data, client.generation)
    ensures var longer := client.(stream := client.stream + data);
            SeesItsOwn(inbox + [Data(data)], longer) && Received(inbox + [Data(data)]) == longer.stream && !IsClosed(inbox + [Data(data)])
  {
    hide Received;
    ReceivedSnoc(inbox, Data(data));
    assert CloseIsLast(inbox) && !IsClosed(inbox) ==> forall i :: 0 <= i < |inbox| ==> inbox[i].Data?;
  }

  lemma CloseIsSeen(inbox: seq<Delivery<Octet>>, client: Client)
    requires Of(client.stream, client.generation) && CloseIsLast(inbox) && !IsClosed(inbox)
    requires Received(inbox) <= client.stream
    requires Received(inbox) != client.stream ==> |Received(inbox)| == MAX_UNDELIVERED_BYTES
    ensures SeesItsOwn(inbox + [Closed], client)
  {
    hide Received;
    ReceivedSnoc(inbox, Closed);
    assert Received(inbox) + [] == Received(inbox);
    assert CloseIsLast(inbox) && !IsClosed(inbox) ==> forall i :: 0 <= i < |inbox| ==> inbox[i].Data?;
  }

  lemma TakeKeepsInv(s: System, cid: int)
    requires Inv(s) && Enabled(s, Take(cid))
    ensures Inv(Step(s, Take(cid)))
  {
    hide SeesItsOwn, Received, IsClosed;
    var t := Step(s, Take(cid));
    forall c ensures LaneOk(t, c) {
      assert LaneOk(s, c);
    }
  }

  lemma OpenFailsKeepsInv(s: System, cid: int)
    requires Inv(s) && Enabled(s, OpenFails(cid))
    ensures Inv(Step(s, OpenFails(cid)))
  {
    hide SeesItsOwn, Received, IsClosed;
    var t := Step(s, OpenFails(cid));
    assert LaneOk(s, cid);
    forall c ensures LaneOk(t, c) {
      assert LaneOk(s, c);
    }
  }

  lemma DataKeepsInv(s: System, cid: int, data: seq<Byte>)
    requires Inv(s)
    ensures Inv(Step(s, DataLine(cid, data)))
  {
    hide SeesItsOwn, Received, IsClosed, Held, Cap;
    var t := Step(s, DataLine(cid, data));
    var lane := LaneOf(s, cid);
    var octets := Tagged(data, lane.generation);
    assert LaneOk(s, cid);
    assert Of(octets, lane.generation);
    if Routed(s.hal, cid) {
      var h := RouteOf(s.hal, cid);
      assert RouteOk(s, h);
      DataIsSeen(s.hal.inbox[h], s.clients[h], octets);
      assert t.clients[h] == s.clients[h].(stream := s.clients[h].stream + octets);
      assert t.hal.inbox[h] == s.hal.inbox[h] + [Data(octets)];
    } else if lane.awaited {
      HeldIsCapped(HeldFor(s.hal, cid), lane.since, octets);
    }
    forall c ensures LaneOk(t, c) {
      assert LaneOk(s, c);
    }
    forall h | h in t.hal.routes ensures RouteOk(t, h) {
      assert RouteOk(s, h);
    }
  }

  lemma CloseKeepsInv(s: System, cid: int)
    requires Inv(s)
    ensures Inv(Step(s, CloseLine(cid)))
  {
    hide SeesItsOwn, Received, IsClosed, Cap;
    var t := Step(s, CloseLine(cid));
    assert LaneOk(s, cid);
    NothingIsWhole();
    if Routed(s.hal, cid) {
      var h := RouteOf(s.hal, cid);
      assert RouteOk(s, h);
      ListenerSeesClose(s, h);
      assert RouteOf(Released(s.hal, cid), cid) == h;
    }
    forall c ensures LaneOk(t, c) {
      assert LaneOk(s, c);
    }
    forall h | h in t.hal.routes ensures RouteOk(t, h) {
      assert RouteOk(s, h);
    }
  }

  lemma NothingIsWhole()
    ensures Cap([]) == []
  {
  }

  lemma ListenerSeesClose(s: System, h: nat)
    requires h in s.hal.routes && RouteOk(s, h) && SeesItsOwn(s.hal.inbox[h], s.clients[h])
    ensures SeesItsOwn(s.hal.inbox[h] + [Closed], s.clients[h])
  {
    CloseIsSeen(s.hal.inbox[h], s.clients[h]);
  }

  lemma DataReaches(s: Hal<Octet>, h: nat, cid: int, data: seq<Octet>)
    requires OneRoutePerCid(s) && h in s.routes && s.routes[h] == cid && s.inbox[h] == []
    ensures DataDispatched(s, cid, data) == s.(inbox := s.inbox[h := [Data(data)]])
  {
    RouteIs(s, h, cid);
    assert [] + [Data(data)] == [Data(data)];
  }

  lemma CloseReaches(s: Hal<Octet>, h: nat, cid: int)
    requires OneRoutePerCid(s) && h in s.routes && s.routes[h] == cid && cid !in s.undelivered
    ensures CloseDispatched(s, cid) == s.(inbox := s.inbox[h := s.inbox[h] + [Closed]], routes := s.routes - {h})
  {
    RouteIs(s, h, cid);
    assert s.undelivered - {cid} == s.undelivered;
  }

  function Opening(held: Undelivered<Octet>): seq<Delivery<Octet>>
  {
    if held.data == [] then [] else [Data(held.data)]
  }

  /** Everything the new subscription is handed. */
  function HandedOver(held: Undelivered<Octet>): seq<Delivery<Octet>>
  {
    Opening(held) + if held.closed || held.truncated then [Closed] else []
  }

  /** A new subscription that has been handed the held data. */
  function Fed(s: Hal<Octet>, cid: int): Hal<Octet>
  {
    var h := s.nextSubscription;
    Hal(s.used, s.routes[h := cid], s.undelivered - {cid}, h + 1, s.inbox[h := Opening(HeldFor(s, cid))])
  }

  lemma FirstData(s: Hal<Octet>, cid: int)
    requires OneRoutePerCid(s) && !Routed(s, cid)
    ensures OneRoutePerCid(Fed(s, cid)) && OneRoutePerCid(Registered(s, cid))
    ensures Fed(s, cid) ==
            if HeldFor(s, cid).data == [] then Registered(s, cid) else DataDispatched(Registered(s, cid), cid, HeldFor(s, cid).data)
  {
    hide DataDispatched;
    var h := s.nextSubscription;
    var r := Registered(s, cid);
    DataReaches(r, h, cid, HeldFor(s, cid).data);
    assert s.inbox[h := []][h := Opening(HeldFor(s, cid))] == s.inbox[h := Opening(HeldFor(s, cid))];
  }

  lemma ThenClose(s: Hal<Octet>, cid: int, d: Hal<Octet>)
    requires OneRoutePerCid(s) && !Routed(s, cid)
    requires d == Fed(s, cid) || d == SocketClosed(Fed(s, cid), cid)
    ensures OneRoutePerCid(d)
    ensures var h := s.nextSubscription;
            CloseDispatched(d, cid) ==
            Hal(d.used, s.routes - {h}, s.undelivered - {cid}, h + 1, s.inbox[h := Opening(HeldFor(s, cid)) + [Closed]])
  {
    hide CloseDispatched, HeldFor, Opening;
    var h := s.nextSubscription;
    FirstData(s, cid);
    assert d.undelivered == s.undelivered - {cid};
    CloseReaches(d, h, cid);
    assert s.routes[h := cid] - {h} == s.routes - {h};
    var opening := Opening(HeldFor(s, cid));
    assert s.inbox[h := opening][h := opening + [Closed]] == s.inbox[h := opening + [Closed]];
  }

  lemma SubscribedIs(s: Hal<Octet>, cid: int)
    requires OneRoutePerCid(s) && !Routed(s, cid)
    ensures var t, held, h := Subscribed(s, cid), HeldFor(s, cid), s.nextSubscription;
            && t.inbox == s.inbox[h := HandedOver(held)]
            && t.routes == (if held.closed || held.truncated then s.routes - {h} else s.routes[h := cid])
            && t.undelivered == s.undelivered - {cid}
            && t.nextSubscription == h + 1
            && OneRoutePerCid(t)
  {
    hide DataDispatched, CloseDispatched, HeldFor, Opening, SocketClosed, Registered;
    var held := HeldFor(s, cid);
    FirstData(s, cid);
    ThenClose(s, cid, Fed(s, cid));
    ThenClose(s, cid, SocketClosed(Fed(s, cid), cid));
    assert Opening(held) + [] == Opening(held);
  }

  lemma OpeningHolds(held: Undelivered<Octet>)
    ensures Received(Opening(held)) == held.data && CloseIsLast(Opening(held)) && !IsClosed(Opening(held))
  {
    ReceivedSnoc([], Data(held.data));
    assert [] + [Data(held.data)] == [Data(held.data)] && [] + held.data == held.data;
  }

  lemma HandOverIsSeen(lane: Lane, cid: int)
    requires Of(lane.since, lane.generation)
    ensures var held := Undelivered(Cap(lane.since), |lane.since| > MAX_UNDELIVERED_BYTES, lane.ended);
            && SeesItsOwn(HandedOver(held), Client(cid, lane.generation, lane.since))
            && (!held.closed && !held.truncated ==> Received(HandedOver(held)) == lane.since && !IsClosed(HandedOver(held)))
  {
    hide Received, Opening;
    var held := Undelivered(Cap(lane.since), |lane.since| > MAX_UNDELIVERED_BYTES, lane.ended);
    OpeningHolds(held);
    if held.closed || held.truncated {
      CloseIsSeen(Opening(held), Client(cid, lane.generation, lane.since));
    } else {
      assert Opening(held) + [] == Opening(held);
    }
  }

  lemma SubscribeKeepsInv(s: System, cid: int)
    requires Inv(s) && Enabled(s, Subscribe(cid))
    ensures Inv(Step(s, Subscribe(cid)))
  {
    hide SeesItsOwn, Received, IsClosed, Cap, Subscribed, HandedOver;
    assert LaneOk(s, cid);
    var t := Step(s, Subscribe(cid));
    var h := s.hal.nextSubscription;
    SubscribedIs(s.hal, cid);
    HandOverIsSeen(LaneOf(s, cid), cid);
    forall c ensures LaneOk(t, c) {
      assert LaneOk(s, c);
    }
    forall k | k in t.hal.routes ensures RouteOk(t, k) {
      if k != h {
        assert RouteOk(s, k);
      }
    }
  }

  lemma WithdrawKeepsInv(s: System, e: Event)
    requires Inv(s) && Enabled(s, e) && (e.Unsubscribe? || e.CloseSocket?)
    ensures Inv(Step(s, e))
  {
    hide SeesItsOwn, Received, IsClosed, Cap;
    var t := Step(s, e);
    forall c ensures LaneOk(t, c) {
      assert LaneOk(s, c);
    }
    forall k | k in t.hal.routes ensures RouteOk(t, k) {
      assert RouteOk(s, k);
    }
  }

  lemma StepKeepsInv(s: System, e: Event)
    requires Inv(s) && Enabled(s, e)
    ensures Inv(Step(s, e))
  {
    assert OneRoutePerCid(s.hal);
    hide Inv, Step, Enabled;
    match e
    case Take(cid) => TakeKeepsInv(s, cid);
    case OpenFails(cid) => OpenFailsKeepsInv(s, cid);
    case DataLine(cid, data) => DataKeepsInv(s, cid, data);
    case CloseLine(cid) => CloseKeepsInv(s, cid);
    case Subscribe(cid) => SubscribeKeepsInv(s, cid);
    case _ => WithdrawKeepsInv(s, e);
  }

  /** A run: each event comes when its step may be taken. */
  ghost predicate Runs(s: System, events: seq<Event>, t: System)
    decreases |events|
  {
    if events == [] then t == s
    else OneRoutePerCid(s.hal) && Enabled(s, events[0]) && Runs(Step(s, events[0]), events[1..], t)
  }

  const FRESH: System := System(Hal({}, map[], map[], 1, map[]), map[], map[])

  lemma FreshKeepsInv()
    ensures Inv(FRESH)
  {
  }

  lemma {:induction false} RunKeepsInv(s: System, events: seq<Event>, t: System)
    requires Inv(s) && Runs(s, events, t)
    ensures Inv(t)
    decreases |events|
  {
    hide Inv, Step, Enabled;
    if events != [] {
      StepKeepsInv(s, events[0]);
      RunKeepsInv(Step(s, events[0]), events[1..], t);
    }
  }

  /**
   Over every run: what a client has received is a prefix of the bytes dispatched for its
   cid since the hold was last voided, and none of them was dispatched in another
   generation of the cid. Nothing comes after its close. If anything is missing the
   client got exactly the hold's cap of bytes and then the close.
   */
  lemma GenerationsStayApart(events: seq<Event>, t: System, h: nat)
    requires Runs(FRESH, events, t) && h in t.clients
    ensures h in t.hal.inbox
    ensures var inbox, client := t.hal.inbox[h], t.clients[h];
            && Received(inbox) <= client.stream
            && Of(Received(inbox), client.generation)
            && (forall i :: 0 <= i < |inbox| ==> inbox[i].Closed? ==> i == |inbox| - 1)
            && (Received(inbox) != client.stream ==> |Received(inbox)| == MAX_UNDELIVERED_BYTES && inbox != [] && inbox[|inbox| - 1] == Closed)
  {
    hide Received, Runs;
    FreshKeepsInv();
    RunKeepsInv(FRESH, events, t);
  }

  /** A client that still listens has missed nothing. */
  lemma ListenersMissNothing(events: seq<Event>, t: System, h: nat)
    requires Runs(FRESH, events, t) && h in t.hal.routes
    ensures h in t.clients && h in t.hal.inbox && Received(t.hal.inbox[h]) == t.clients[h].stream
  {
    hide Received, Runs;
    FreshKeepsInv();
    RunKeepsInv(FRESH, events, t);
    assert RouteOk(t, h);
  }

  /** A handle that was given out and has no route any more. */
  predicate Gone(s: Hal<Octet>, h: nat)
  {
    h in s.inbox && h !in s.routes && h < s.nextSubscription
  }

  lemma GoneGetsNothing(s: System, e: Event, h: nat)
    requires Inv(s) && Enabled(s, e) && Gone(s.hal, h)
    ensures Gone(Step(s, e).hal, h) && Step(s, e).hal.inbox[h] == s.hal.inbox[h]
  {
    hide SeesItsOwn, Received, IsClosed, Cap, Subscribed, HandedOver, Held;
    match e
    case Subscribe(cid) =>
      assert LaneOk(s, cid);
      SubscribedIs(s.hal, cid);
    case _ =>
  }

  lemma {:induction false} GoneStaysGone(s: System, events: seq<Event>, t: System, h: nat)
    requires Inv(s) && Runs(s, events, t) && Gone(s.hal, h)
    ensures h in t.hal.inbox && t.hal.inbox[h] == s.hal.inbox[h]
    decreases |events|
  {
    hide Inv, Step, Enabled;
    if events != [] {
      StepKeepsInv(s, events[0]);
      GoneGetsNothing(s, events[0], h);
      GoneStaysGone(Step(s, events[0]), events[1..], t, h);
    }
  }

  /** Once a client has withdrawn, nothing of any later run reaches it. */
  lemma WithdrawnGetsNothing(events: seq<Event>, s: System, h: nat, more: seq<Event>, t: System)
    requires Runs(FRESH, events, s) && h in s.clients
    requires Runs(s, [Unsubscribe(h)] + more, t)
    ensures h in s.hal.inbox && h in t.hal.inbox && t.hal.inbox[h] == s.hal.inbox[h]
  {
    hide Inv, SeesItsOwn, Received;
    FreshKeepsInv();
    RunKeepsInv(FRESH, events, s);
    var u := Step(s, Unsubscribe(h));
    assert ([Unsubscribe(h)] + more)[1..] == more;
    StepKeepsInv(s, Unsubscribe(h));
    ClientsHaveInboxes(s, h);
    GoneStaysGone(u, more, t, h);
  }

  lemma ClientsHaveInboxes(s: System, h: nat)
    requires Inv(s) && h in s.clients
    ensures h in s.hal.inbox && h < s.hal.nextSubscription
  {
  }

  /** A failed open, a socket closed by the client and one closed by the module all leave a cid that can be taken again. */
  lemma EveryCidComesBack(s: System, e: Event, cid: int)
    requires Inv(s) && Enabled(s, e) && (e == OpenFails(cid) || e == CloseSocket(cid) || (e == CloseLine(cid) && !LaneOf(s, cid).awaited))
    ensures cid !in Step(s, e).hal.used && Enabled(Step(s, e), Take(cid))
    ensures cid in Step(Step(s, e), Take(cid)).hal.used && cid !in Step(Step(s, e), Take(cid)).hal.undelivered
  {
    hide SeesItsOwn, Received, IsClosed, Cap, HeldFor;
    assert LaneOk(s, cid);
    StepKeepsInv(s, e);
    GivenBackIsFree(s.hal, cid);
    if Routed(s.hal, cid) {
      ListenerIsServed(Released(s.hal, cid), cid, RouteOf(s.hal, cid), []);
    }
  }
}

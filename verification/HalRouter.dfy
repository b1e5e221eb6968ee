/**
 Routing of socket events to clients, and the hold for events that arrive before a client
 listens. The base class every module HAL builds on, with the ML307 as the module.
 */
module HalRouter {
  import opened Wrappers

  const MAX_UNDELIVERED_BYTES: nat := 4 * 1024

  /** What arrived for a cid that nobody had a route for yet. */
  datatype Undelivered<T> = Undelivered(data: seq<T>, truncated: bool, closed: bool)

  datatype Delivery<T> = Data(data: seq<T>) | Closed

  /** `inbox` is what each subscription's callbacks have been given, in order. */
  datatype Hal<T> = Hal(
    used: set<int>,
    routes: map<nat, int>,
    undelivered: map<int, Undelivered<T>>,
    nextSubscription: nat,
    inbox: map<nat, seq<Delivery<T>>>)

  predicate OneRoutePerCid<T>(s: Hal<T>)
  {
    && (forall h, k :: h in s.routes && k in s.routes && s.routes[h] == s.routes[k] ==> h == k)
    && (forall h :: h in s.routes ==> h < s.nextSubscription && h in s.inbox)
  }

  predicate Routed<T>(s: Hal<T>, cid: int)
  {
    exists h :: h in s.routes && s.routes[h] == cid
  }

  function RouteOf<T>(s: Hal<T>, cid: int): (h: nat)
    requires OneRoutePerCid(s) && Routed(s, cid)
    ensures h in s.routes && s.routes[h] == cid
  {
    var h :| h in s.routes && s.routes[h] == cid;
    h
  }

  // ---------------------------------------------------------------------------
  // What each call does
  // ---------------------------------------------------------------------------

  function HeldFor<T>(s: Hal<T>, cid: int): Undelivered<T>
  {
    if cid in s.undelivered then s.undelivered[cid] else Undelivered([], false, false)
  }

  /** The hold keeps what fits and drops the tail. */
  function Held<T>(h: Undelivered<T>, data: seq<T>): Undelivered<T>
  {
    var room := if |h.data| < MAX_UNDELIVERED_BYTES then MAX_UNDELIVERED_BYTES - |h.data| else 0;
    if room < |data| then Undelivered(h.data + data[..room], true, h.closed)
    else h.(data := h.data + data)
  }

  function Delivered<T>(s: Hal<T>, h: nat, d: Delivery<T>): Hal<T>
    requires h in s.inbox
  {
    s.(inbox := s.inbox[h := s.inbox[h] + [d]])
  }

  function DataDispatched<T>(s: Hal<T>, cid: int, data: seq<T>): Hal<T>
    requires OneRoutePerCid(s)
  {
    if Routed(s, cid) then Delivered(s, RouteOf(s, cid), Data(data))
    else s.(undelivered := s.undelivered[cid := Held(HeldFor(s, cid), data)])
  }

  function Discarded<T>(s: Hal<T>, cid: int): Hal<T>
  {
    s.(undelivered := s.undelivered - {cid})
  }

  function CloseDispatched<T>(s: Hal<T>, cid: int): Hal<T>
    requires OneRoutePerCid(s)
  {
    if Routed(s, cid) then
      var h := RouteOf(s, cid);
      Discarded(Delivered(s, h, Closed), cid).(routes := s.routes - {h})
    else s.(undelivered := s.undelivered[cid := HeldFor(s, cid).(closed := true)])
  }

  /** The pool takes a cid, or gives one back: either way nothing held for it survives. */
  function Taken<T>(s: Hal<T>, cid: int): Hal<T>
  {
    Discarded(s, cid).(used := s.used + {cid})
  }

  function Released<T>(s: Hal<T>, cid: int): Hal<T>
  {
    Discarded(s, cid).(used := s.used - {cid})
  }

  function SocketClosed<T>(s: Hal<T>, cid: int): Hal<T>
  {
    if cid in s.used then Released(s, cid) else s
  }

  /** +MIPCLOSE, or "disconn": the module ended the socket. */
  function CloseReported<T>(s: Hal<T>, cid: int): Hal<T>
    requires OneRoutePerCid(s)
  {
    CloseDispatched(Released(s, cid), cid)
  }

  function Registered<T>(s: Hal<T>, cid: int): Hal<T>
  {
    s.(routes := s.routes[s.nextSubscription := cid], nextSubscription := s.nextSubscription + 1,
       undelivered := s.undelivered - {cid}, inbox := s.inbox[s.nextSubscription := []])
  }

  /** Data first, then the close that was held, or the close a cut-short hold forces. */
  function Subscribed<T>(s: Hal<T>, cid: int): Hal<T>
    requires OneRoutePerCid(s) && !Routed(s, cid)
  {
    var held := HeldFor(s, cid);
    var r := Registered(s, cid);
    var d := if held.data == [] then r else DataDispatched(r, cid, held.data);
    if held.closed then CloseDispatched(d, cid)
    else if held.truncated then CloseDispatched(SocketClosed(d, cid), cid)
    else d
  }

  function Unsubscribed<T>(s: Hal<T>, handle: nat): Hal<T>
  {
    s.(routes := s.routes - {handle})
  }

  /** The one client with a route for the cid is given what arrives, and its route ends with the close. */
  lemma ListenerIsServed<T>(s: Hal<T>, cid: int, h: nat, data: seq<T>)
    requires OneRoutePerCid(s) && h in s.routes && s.routes[h] == cid
    ensures DataDispatched(s, cid, data) == s.(inbox := s.inbox[h := s.inbox[h] + [Data(data)]])
    ensures CloseDispatched(s, cid) ==
            s.(inbox := s.inbox[h := s.inbox[h] + [Closed]], routes := s.routes - {h}, undelivered := s.undelivered - {cid})
  {
    assert Routed(s, cid) && RouteOf(s, cid) == h;
  }

  /** With no route for the cid, no client is given anything; the first 4096 bytes are held, and that more came is noted. */
  lemma StrangerIsHeld<T>(s: Hal<T>, cid: int, data: seq<T>)
    requires OneRoutePerCid(s) && forall h :: h in s.routes ==> s.routes[h] != cid
    requires cid in s.undelivered && |s.undelivered[cid].data| <= 4096
    ensures var was, whole := s.undelivered[cid], s.undelivered[cid].data + data;
            DataDispatched(s, cid, data) ==
            s.(undelivered := s.undelivered[cid :=
                 Undelivered(if |whole| <= 4096 then whole else whole[..4096], was.truncated || |whole| > 4096, was.closed)])
    ensures CloseDispatched(s, cid) == s.(undelivered := s.undelivered[cid := s.undelivered[cid].(closed := true)])
  {
    var was := s.undelivered[cid];
    var whole := was.data + data;
    if |whole| > 4096 {
      assert whole[..4096] == was.data + data[..4096 - |was.data|];
    }
  }

  /** The first thing to arrive for such a cid starts an empty hold. */
  lemma StrangersHoldStartsEmpty<T>(s: Hal<T>, cid: int, data: seq<T>)
    requires OneRoutePerCid(s) && forall h :: h in s.routes ==> s.routes[h] != cid
    requires cid !in s.undelivered
    ensures DataDispatched(s, cid, data) ==
            DataDispatched(s.(undelivered := s.undelivered[cid := Undelivered([], false, false)]), cid, data)
    ensures CloseDispatched(s, cid) == s.(undelivered := s.undelivered[cid := Undelivered([], false, true)])
  {
    var e: Undelivered<T> := Undelivered([], false, false);
    var t := s.(undelivered := s.undelivered[cid := e]);
    assert !Routed(t, cid) && HeldFor(t, cid) == e == HeldFor(s, cid);
    assert t.undelivered[cid := Held(e, data)] == s.undelivered[cid := Held(e, data)];
  }

  /** A cid that was given back is free, and a taken one is not; of no other cid does either say anything. */
  lemma GivenBackIsFree<T>(s: Hal<T>, cid: int)
    ensures cid !in Released(s, cid).used && cid in Taken(s, cid).used
    ensures cid !in Released(s, cid).undelivered && cid !in Taken(s, cid).undelivered
    ensures forall other :: other != cid ==>
              && (other in Released(s, cid).used <==> other in s.used)
              && (other in Taken(s, cid).used <==> other in s.used)
  {
  }

  // ---------------------------------------------------------------------------
  // The HAL, field by field
  // ---------------------------------------------------------------------------

  const MAX_CONNECTIONS: nat := 6
  const CID_QUARANTINE: nat := 1000

  datatype Slot = Slot(used: bool, released: bool, releasedAt: nat)

  /** A free cid that was never released, or long enough ago. */
  predicate Settled(slot: Slot, now: nat)
  {
    !slot.used && (!slot.released || now - slot.releasedAt >= CID_QUARANTINE)
  }

  function UsedIn(slots: seq<Slot>): set<int>
  {
    set i | 0 <= i < |slots| && slots[i].used
  }

  lemma UsedAfter(slots: seq<Slot>, id: nat, slot: Slot)
    requires id < |slots|
    ensures UsedIn(slots[id := slot]) == if slot.used then UsedIn(slots) + {id} else UsedIn(slots) - {id}
  {
  }

  /** The first settled cid; if there is none, the free one released longest ago. */
  ghost predicate Picks(slots: seq<Slot>, first: nat, now: nat, chosen: Option<nat>)
  {
    match chosen
    case None => forall i :: first <= i < |slots| ==> slots[i].used
    case Some(c) =>
      && first <= c < |slots| && !slots[c].used
      && if Settled(slots[c], now) then forall i :: first <= i < c ==> !Settled(slots[i], now)
         else forall i :: first <= i < |slots| && !slots[i].used ==>
                !Settled(slots[i], now) && slots[c].releasedAt <= slots[i].releasedAt
  }

  method PickSlot(slots: seq<Slot>, first: nat, now: nat) returns (chosen: Option<nat>)
    ensures Picks(slots, first, now, chosen)
  {
    var oldest: Option<nat> := None;
    var i := first;
    while i < |slots|
      invariant forall k :: first <= k < i && k < |slots| ==> !Settled(slots[k], now)
      invariant oldest.None? ==> forall k :: first <= k < i && k < |slots| ==> slots[k].used
      invariant oldest.Some? ==> first <= oldest.value < i && oldest.value < |slots| && !slots[oldest.value].used
      invariant oldest.Some? ==>
                  forall k :: first <= k < i && k < |slots| && !slots[k].used ==> slots[oldest.value].releasedAt <= slots[k].releasedAt
    {
      var slot := slots[i];
      if !slot.used {
        if !slot.released || now - slot.releasedAt >= CID_QUARANTINE {
          return Some(i);
        }
        if oldest.None? || slot.releasedAt < slots[oldest.value].releasedAt {
          oldest := Some(i);
        }
      }
      i := i + 1;
    }
    return oldest;
  }

  class Ml307Hal<T> {
    const slots: array<Slot>
    var routes: map<nat, int>
    var undelivered: map<int, Undelivered<T>>
    var nextSubscription: nat
    ghost var inbox: map<nat, seq<Delivery<T>>>

    ghost function View(): Hal<T>
      reads this, slots
    {
      Hal(UsedIn(slots[..]), routes, undelivered, nextSubscription, inbox)
    }

    ghost predicate Valid()
      reads this, slots
    {
      slots.Length == MAX_CONNECTIONS && OneRoutePerCid(View())
    }

    constructor ()
      ensures Valid() && fresh(slots)
      ensures View() == Hal({}, map[], map[], 1, map[])
    {
      slots := new Slot[MAX_CONNECTIONS](_ => Slot(false, false, 0));
      routes, undelivered, nextSubscription, inbox := map[], map[], 1, map[];
    }

    method HoldLocked(cid: int, data: seq<T>)
      modifies this`undelivered
      ensures undelivered == old(undelivered)[cid := Held(HeldFor(old(View()), cid), data)]
    {
      var held := if cid in undelivered then undelivered[cid] else Undelivered([], false, false);
      var room := if |held.data| < MAX_UNDELIVERED_BYTES then MAX_UNDELIVERED_BYTES - |held.data| else 0;
      var take := if room < |data| then room else |data|;
      held := held.(data := held.data + data[..take]);
      if take < |data| {
        held := held.(truncated := true);
      } else {
        assert data[..take] == data;
      }
      undelivered := undelivered[cid := held];
    }

    method FindTcpRouteLocked(cid: int) returns (found: Option<nat>)
      requires Valid()
      ensures found == if Routed(View(), cid) then Some(RouteOf(View(), cid)) else None
    {
      var left := routes.Keys;
      while left != {}
        invariant left <= routes.Keys
        invariant forall h :: h in routes && h !in left ==> routes[h] != cid
        decreases |left|
      {
        var h :| h in left;
        if routes[h] == cid {
          return Some(h);
        }
        left := left - {h};
      }
      return None;
    }

    method DispatchTcpData(cid: int, data: seq<T>)
      requires Valid()
      modifies this`undelivered, this`inbox
      ensures Valid() && View() == DataDispatched(old(View()), cid, data)
    {
      var route := FindTcpRouteLocked(cid);
      match route
      case Some(h) => inbox := inbox[h := inbox[h] + [Data(data)]];
      case None => HoldLocked(cid, data);
    }

    method DispatchTcpClose(cid: int)
      requires Valid()
      modifies this`routes, this`undelivered, this`inbox
      ensures Valid() && View() == CloseDispatched(old(View()), cid)
    {
      ghost var before := View();
      ghost var target := if Routed(before, cid) then Some(RouteOf(before, cid)) else None;
      var routed := false;
      var left := routes.Keys;
      while left != {}
        invariant left <= before.routes.Keys
        invariant undelivered == before.undelivered
        invariant routed <==> target.Some? && target.value !in left
        invariant routes == if routed then before.routes - {target.value} else before.routes
        invariant inbox == if routed then before.inbox[target.value := before.inbox[target.value] + [Closed]] else before.inbox
        decreases |left|
      {
        var h :| h in left;
        assert before.routes[h] == cid <==> target == Some(h);
        if h in routes && routes[h] == cid {
          inbox := inbox[h := inbox[h] + [Closed]];
          routes := routes - {h};
          routed := true;
        }
        left := left - {h};
      }
      if routed {
        undelivered := undelivered - {cid};
      } else {
        var held := if cid in undelivered then undelivered[cid] else Undelivered([], false, false);
        undelivered := undelivered[cid := held.(closed := true)];
      }
    }

    method DiscardUndelivered(cid: int)
      modifies this`undelivered
      ensures View() == Discarded(old(View()), cid)
    {
      undelivered := undelivered - {cid};
    }

    method AllocateConnectionId(first: nat, now: nat) returns (chosen: Option<nat>)
      requires Valid()
      modifies slots, this`undelivered
      ensures Valid() && Picks(old(slots[..]), first, now, chosen)
      ensures View() == if chosen.Some? then Taken(old(View()), chosen.value) else old(View())
    {
      chosen := PickSlot(slots[..], first, now);
      if chosen.Some? {
        ghost var before := slots[..];
        var slot := slots[chosen.value].(used := true);
        UsedAfter(before, chosen.value, slot);
        slots[chosen.value] := slot;
        assert slots[..] == before[chosen.value := slot];
        DiscardUndelivered(chosen.value);
      }
    }

    method ReleaseConnectionId(id: int, now: nat)
      requires Valid()
      modifies slots, this`undelivered
      ensures Valid()
      ensures View() == if 0 <= id < MAX_CONNECTIONS then Released(old(View()), id) else old(View())
    {
      if id < 0 || id >= MAX_CONNECTIONS {
        return;
      }
      ghost var before := slots[..];
      UsedAfter(before, id, Slot(false, true, now));
      slots[id] := Slot(false, true, now);
      assert slots[..] == before[id := Slot(false, true, now)];
      DiscardUndelivered(id);
    }

    method TcpClose(id: int, now: nat)
      requires Valid()
      modifies slots, this`undelivered
      ensures Valid() && View() == SocketClosed(old(View()), id)
    {
      if id < 0 || id >= MAX_CONNECTIONS || !slots[id].used {
        return;
      }
      ReleaseConnectionId(id, now);
    }

    /** +MIPCLOSE and "disconn", for a cid the module can name. */
    method OnMipclose(id: nat, now: nat)
      requires Valid() && id < MAX_CONNECTIONS
      modifies this, slots
      ensures Valid() && View() == CloseReported(old(View()), id)
    {
      ReleaseConnectionId(id, now);
      DispatchTcpClose(id);
    }

    method SubscribeTcp(cid: int, now: nat) returns (handle: nat)
      requires Valid() && !Routed(View(), cid)
      modifies this, slots
      ensures Valid() && handle == old(nextSubscription)
      ensures View() == Subscribed(old(View()), cid)
    {
      handle := nextSubscription;
      nextSubscription := nextSubscription + 1;
      routes := routes[handle := cid];
      inbox := inbox[handle := []];
      var held: Undelivered<T> := Undelivered([], false, false);
      if cid in undelivered {
        held := undelivered[cid];
        undelivered := undelivered - {cid};
      }
      assert undelivered == old(undelivered) - {cid};
      assert View() == Registered(old(View()), cid);
      if held.data != [] {
        DispatchTcpData(cid, held.data);
      }
      if held.closed {
        DispatchTcpClose(cid);
      } else if held.truncated {
        TcpClose(cid, now);
        DispatchTcpClose(cid);
      }
    }

    method Unsubscribe(handle: nat)
      requires Valid()
      modifies this`routes
      ensures Valid() && (handle != 0 ==> View() == Unsubscribed(old(View()), handle))
      ensures handle == 0 ==> View() == old(View())
    {
      if handle == 0 {
        return;
      }
      routes := routes - {handle};
    }
  }
}

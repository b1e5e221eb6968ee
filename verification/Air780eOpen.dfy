/** Opening and closing one socket of the Air780E, with nobody else at work. */
module Air780eOpen {
  import opened Wrappers
  import opened Air780ePool

  /** What comes of AT+CIPSTART for a cid. `Unsent` never left, `Silent` ran into the timeout. */
  datatype Answer = ConnectOk | AlreadyConnect | ConnectFail | Silent | Unsent

  datatype OpenError = ModeBusy | SwitchFailed | NoResources | HeldElsewhere | Failed(answer: Answer)

  predicate Free(slots: seq<SocketSlot>, cid: int)
  {
    0 <= cid < |slots| && !slots[cid].used
  }

  function CountFree(slots: seq<SocketSlot>, n: nat): (count: nat)
    requires n <= |slots|
    ensures count <= n
    ensures count == n <==> forall c :: 0 <= c < n ==> Free(slots, c)
  {
    if n == 0 then 0 else CountFree(slots, n - 1) + if Free(slots, n - 1) then 1 else 0
  }

  /** The module turned the cid down because somebody else holds it. */
  ghost predicate HeldBefore(slots: seq<SocketSlot>, answer: nat -> Answer, n: nat)
  {
    forall c: nat :: c < n && Free(slots, c) ==> answer(c) == AlreadyConnect
  }

  /** The first free cid that is not held by somebody else. */
  ghost predicate Decides(slots: seq<SocketSlot>, answer: nat -> Answer, cid: nat)
  {
    Free(slots, cid) && answer(cid) != AlreadyConnect && HeldBefore(slots, answer, cid)
  }

  /** Free slots are blank, and each counter counts the slots that hold its mode. */
  ghost predicate Consistent(slots: seq<SocketSlot>, sslOpen: nat, plainOpen: nat, nextSerial: nat, switch: bool)
  {
    && (forall slot <- slots :: if slot.used then slot.holdsMode && slot.serial < nextSerial else slot == EMPTY_SLOT)
    && sslOpen == Holders(slots, true)
    && plainOpen == Holders(slots, false)
    && !(sslOpen > 0 && plainOpen > 0)
    && (sslOpen > 0 ==> switch)
    && (plainOpen > 0 ==> !switch)
  }

  lemma ConsistentWithMore(slots: seq<SocketSlot>, id: nat, slot: SocketSlot, sslOpen: nat, plainOpen: nat, serial: nat, nextSerial: nat, was: bool)
    requires Consistent(slots, sslOpen, plainOpen, serial, was) && id < |slots| && !slots[id].used
    requires slot.used && slot.holdsMode && serial <= nextSerial && slot.serial < nextSerial
    requires (if slot.ssl then plainOpen else sslOpen) == 0
    ensures Consistent(slots[id := slot], sslOpen + (if slot.ssl then 1 else 0), plainOpen + (if slot.ssl then 0 else 1), nextSerial, slot.ssl)
  {
    hide Holders;
    HoldersAfter(slots, id, slot, true);
    HoldersAfter(slots, id, slot, false);
  }

  lemma ConsistentWithLess(slots: seq<SocketSlot>, id: nat, sslOpen: nat, plainOpen: nat, nextSerial: nat, switch: bool)
    requires Consistent(slots, sslOpen, plainOpen, nextSerial, switch) && id < |slots|
    ensures Holds(slots[id], true) ==> sslOpen > 0
    ensures Holds(slots[id], false) ==> plainOpen > 0
    ensures Consistent(slots[id := EMPTY_SLOT],
                       if Holds(slots[id], true) then sslOpen - 1 else sslOpen,
                       if Holds(slots[id], false) then plainOpen - 1 else plainOpen, nextSerial, switch)
  {
    hide Holders;
    HoldersAfter(slots, id, EMPTY_SLOT, true);
    HoldersAfter(slots, id, EMPTY_SLOT, false);
  }

  lemma ConsistentSwitch(slots: seq<SocketSlot>, sslOpen: nat, plainOpen: nat, nextSerial: nat, switch: bool)
    requires Consistent(slots, sslOpen, plainOpen, nextSerial, switch)
    ensures (sslOpen > 0 ==> switch) && (plainOpen > 0 ==> !switch)
  {
  }

  lemma FreeIsBlank(slots: seq<SocketSlot>, cid: nat, sslOpen: nat, plainOpen: nat, nextSerial: nat, switch: bool)
    requires Consistent(slots, sslOpen, plainOpen, nextSerial, switch) && Free(slots, cid)
    ensures slots[cid] == EMPTY_SLOT
  {
    assert slots[cid] in slots;
  }

  lemma ConsistentLater(slots: seq<SocketSlot>, sslOpen: nat, plainOpen: nat, serial: nat, nextSerial: nat, was: bool, switch: bool)
    requires Consistent(slots, sslOpen, plainOpen, serial, was) && serial <= nextSerial
    requires sslOpen > 0 || plainOpen > 0 ==> switch == was
    ensures Consistent(slots, sslOpen, plainOpen, nextSerial, switch)
  {
    hide Holders;
  }

  class Air780eHal {
    const slots: array<SocketSlot>
    var sslOpen: nat
    var plainOpen: nat
    var nextSerial: nat
    ghost var switch: bool

    ghost function Open(ssl: bool): nat
      reads this
    {
      if ssl then sslOpen else plainOpen
    }

    ghost predicate Valid()
      reads this, slots
    {
      slots.Length == MAX_CONNECTIONS && Consistent(slots[..], sslOpen, plainOpen, nextSerial, switch)
    }

    constructor (module_: bool)
      ensures Valid() && fresh(slots)
      ensures forall c :: 0 <= c < MAX_CONNECTIONS ==> !slots[c].used
    {
      slots := new SocketSlot[MAX_CONNECTIONS](_ => EMPTY_SLOT);
      sslOpen, plainOpen, nextSerial, switch := 0, 0, 1, module_;
      new;
      NobodyHolds(slots[..], true);
      NobodyHolds(slots[..], false);
    }

    /** `works` says whether the switch commands and the read-back succeed. */
    method ReserveSocketForMode(ssl: bool, works: bool) returns (reserved: Option<OpenError>)
      modifies this`sslOpen, this`plainOpen, this`switch
      ensures reserved == if old(Open(!ssl)) > 0 then Some(ModeBusy)
                          else if old(Open(ssl)) == 0 && !works then Some(SwitchFailed)
                          else None
      ensures Open(!ssl) == old(Open(!ssl))
      ensures Open(ssl) == old(Open(ssl)) + if reserved == None then 1 else 0
      ensures reserved == None && old(Open(ssl)) == 0 ==> switch == ssl
      ensures old(Open(ssl)) > 0 || old(Open(!ssl)) > 0 ==> switch == old(switch)
    {
      var opposite := if ssl then plainOpen else sslOpen;
      if opposite > 0 {
        return Some(ModeBusy);
      }
      if (if ssl then sslOpen else plainOpen) == 0 {
        if !works {
          switch := *;
          return Some(SwitchFailed);
        }
        switch := ssl;
      }
      if ssl {
        sslOpen := sslOpen + 1;
      } else {
        plainOpen := plainOpen + 1;
      }
      return None;
    }

    method ReleaseSocketForMode(ssl: bool)
      modifies this`sslOpen, this`plainOpen
      ensures Open(!ssl) == old(Open(!ssl))
      ensures Open(ssl) == if old(Open(ssl)) > 0 then old(Open(ssl)) - 1 else 0
    {
      if ssl {
        if sslOpen > 0 {
          sslOpen := sslOpen - 1;
        }
      } else {
        if plainOpen > 0 {
          plainOpen := plainOpen - 1;
        }
      }
    }

    method AllocateConnectionId(avoid: seq<bool>) returns (chosen: Option<nat>)
      requires slots.Length == MAX_CONNECTIONS == |avoid|
      modifies slots, this`nextSerial
      ensures chosen.None? ==> slots[..] == old(slots[..]) && nextSerial == old(nextSerial)
      ensures chosen.None? <==> forall c :: 0 <= c < MAX_CONNECTIONS ==> old(slots[..])[c].used || avoid[c]
      ensures chosen.Some? ==>
                && chosen.value < MAX_CONNECTIONS && Free(old(slots[..]), chosen.value) && !avoid[chosen.value]
                && (forall c :: 0 <= c < chosen.value ==> old(slots[..])[c].used || avoid[c])
                && slots[..] == old(slots[..])[chosen.value := SocketSlot(true, false, false, false, old(nextSerial))]
                && nextSerial == old(nextSerial) + 1
    {
      for i := 0 to MAX_CONNECTIONS
        invariant slots[..] == old(slots[..]) && nextSerial == old(nextSerial)
        invariant forall c :: 0 <= c < i ==> old(slots[..])[c].used || avoid[c]
      {
        if slots[i].used {
          continue;
        }
        if avoid[i] {
          continue;
        }
        slots[i] := SocketSlot(true, false, false, false, nextSerial);
        nextSerial := nextSerial + 1;
        return Some(i);
      }
      return None;
    }

    /** The slot goes back, and the mode whose reservation it held is reported. */
    method RetireSlot(id: nat) returns (owned: Option<bool>)
      requires slots.Length == MAX_CONNECTIONS && id < MAX_CONNECTIONS
      modifies slots
      ensures slots[..] == if old(slots[id]).used then old(slots[..])[id := EMPTY_SLOT] else old(slots[..])
      ensures owned == if old(slots[id]).used && old(slots[id]).holdsMode then Some(old(slots[id]).ssl) else None
    {
      if !slots[id].used {
        return None;
      }
      owned := if slots[id].holdsMode then Some(slots[id].ssl) else None;
      slots[id] := EMPTY_SLOT;
    }

    method ReleaseConnectionId(id: nat)
      requires Valid() && id < MAX_CONNECTIONS
      modifies this`sslOpen, this`plainOpen, slots
      ensures Valid() && slots[..] == old(slots[..])[id := EMPTY_SLOT]
    {
      hide Holders;
      ghost var before := slots[..];
      ConsistentWithLess(before, id, sslOpen, plainOpen, nextSerial, switch);
      assert before[id] in before;
      var owned := RetireSlot(id);
      assert slots[..] == before[id := EMPTY_SLOT];
      assert owned == if Holds(before[id], true) then Some(true) else if Holds(before[id], false) then Some(false) else None;
      if owned.Some? {
        ReleaseSocketForMode(owned.value);
      }
    }

    /** AT+CIPSTART on an allocated cid: the slot is handed over, or it goes back. */
    method StartOn(id: nat, udp: bool, ssl: bool, answer: nat -> Answer) returns (outcome: Answer)
      requires slots.Length == MAX_CONNECTIONS && id < MAX_CONNECTIONS && slots[id].used && !slots[id].holdsMode
      modifies slots
      ensures outcome == answer(id)
      ensures slots[..] == old(slots[..])[id := if outcome == ConnectOk then SocketSlot(true, udp, ssl, true, old(slots[id]).serial) else EMPTY_SLOT]
    {
      ghost var before := slots[..];
      slots[id] := slots[id].(udp := udp);
      outcome := answer(id);
      if outcome == ConnectOk {
        slots[id] := slots[id].(ssl := ssl, holdsMode := true);
        assert slots[..] == before[id := slots[id]];
      } else {
        var owned := RetireSlot(id);
        assert slots[..] == before[id := EMPTY_SLOT];
      }
    }

    /**
     Asks the free cids in order until one is not held by somebody else. What the module
     says of that one is the outcome; if there is none, the cids are exhausted.
     */
    method OpenSocket(udp: bool, ssl: bool, works: bool, answer: nat -> Answer) returns (result: Result<nat, OpenError>)
      requires Valid()
      modifies this, slots
      ensures Valid()
      ensures result.Err? ==> slots[..] == old(slots[..]) && sslOpen == old(sslOpen) && plainOpen == old(plainOpen)
      ensures result.Ok? ==>
                && Decides(old(slots[..]), answer, result.value) && answer(result.value) == ConnectOk
                && slots[..] == old(slots[..])[result.value := SocketSlot(true, udp, ssl, true, slots[result.value].serial)]
                && old(nextSerial) <= slots[result.value].serial < nextSerial
                && Open(ssl) == old(Open(ssl)) + 1 && Open(!ssl) == old(Open(!ssl)) == 0
      ensures result == Err(ModeBusy) <==> old(Open(!ssl)) > 0
      ensures result == Err(SwitchFailed) <==> old(Open(!ssl)) == old(Open(ssl)) == 0 && !works
      ensures result.Err? && result.error.Failed? ==>
                exists cid :: Decides(old(slots[..]), answer, cid) && answer(cid) == result.error.answer != ConnectOk
      ensures result == Err(NoResources) || result == Err(HeldElsewhere) ==> HeldBefore(old(slots[..]), answer, MAX_CONNECTIONS)
      ensures result == Err(NoResources) ==> exists c :: 0 <= c < MAX_CONNECTIONS && old(slots[..])[c].used
      ensures result == Err(HeldElsewhere) ==> forall c :: 0 <= c < MAX_CONNECTIONS ==> !old(slots[..])[c].used
    {
      hide Holders, CountFree, HeldBefore, Decides, Consistent;
      var reserved := ReserveSocketForMode(ssl, works);
      if reserved.Some? {
        ConsistentLater(slots[..], sslOpen, plainOpen, nextSerial, nextSerial, old(switch), switch);
        return Err(reserved.value);
      }
      assert switch == ssl && old(Open(!ssl)) == 0 by {
        ConsistentSwitch(old(slots[..]), old(sslOpen), old(plainOpen), old(nextSerial), old(switch));
      }
      ghost var before := slots[..];
      ghost var past: nat := 0;
      NoneAsked(before, answer);
      var tried: seq<bool> := seq(MAX_CONNECTIONS, _ => false);
      for attempt := 0 to MAX_CONNECTIONS
        invariant slots[..] == before && old(nextSerial) <= nextSerial
        invariant sslOpen == old(sslOpen) + (if ssl then 1 else 0) && plainOpen == old(plainOpen) + if ssl then 0 else 1
        invariant switch == ssl
        invariant |tried| == MAX_CONNECTIONS && past <= MAX_CONNECTIONS
        invariant forall c :: 0 <= c < MAX_CONNECTIONS ==> (tried[c] <==> c < past && Free(before, c))
        invariant HeldBefore(before, answer, past)
        invariant CountFree(before, past) == attempt
      {
        var id := AllocateConnectionId(tried);
        if id.None? {
          ReleaseSocketForMode(ssl);
          ConsistentLater(before, sslOpen, plainOpen, old(nextSerial), nextSerial, old(switch), switch);
          AllTried(before, past, attempt, answer);
          return Err(NoResources);
        }
        CountSkips(before, past, id.value);
        var outcome := StartOn(id.value, udp, ssl, answer);
        assert slots[..] == before[id.value := slots[id.value]];
        if outcome == ConnectOk {
          ConsistentWithMore(before, id.value, slots[id.value], old(sslOpen), old(plainOpen), old(nextSerial), nextSerial, old(switch));
          Deciding(before, answer, past, id.value);
          return Ok(id.value);
        }
        FreeIsBlank(before, id.value, old(sslOpen), old(plainOpen), old(nextSerial), old(switch));
        assert slots[..] == before;
        if outcome != AlreadyConnect {
          ReleaseSocketForMode(ssl);
          ConsistentLater(before, sslOpen, plainOpen, old(nextSerial), nextSerial, old(switch), switch);
          Deciding(before, answer, past, id.value);
          return Err(Failed(outcome));
        }
        HeldOnce(before, answer, past, id.value);
        tried := tried[id.value := true];
        past := id.value + 1;
      }
      AllFree(before, past, answer);
      ReleaseSocketForMode(ssl);
      ConsistentLater(before, sslOpen, plainOpen, old(nextSerial), nextSerial, old(switch), switch);
      return Err(HeldElsewhere);
    }
  }

  lemma NoneAsked(slots: seq<SocketSlot>, answer: nat -> Answer)
    ensures HeldBefore(slots, answer, 0) && CountFree(slots, 0) == 0
  {
  }

  lemma Deciding(slots: seq<SocketSlot>, answer: nat -> Answer, past: nat, cid: nat)
    requires HeldBefore(slots, answer, past) && past <= cid && Free(slots, cid) && answer(cid) != AlreadyConnect
    requires forall c :: past <= c < cid ==> slots[c].used
    ensures Decides(slots, answer, cid)
  {
  }

  lemma HeldOnce(slots: seq<SocketSlot>, answer: nat -> Answer, past: nat, cid: nat)
    requires HeldBefore(slots, answer, past) && past <= cid && Free(slots, cid) && answer(cid) == AlreadyConnect
    requires forall c :: past <= c < cid ==> slots[c].used
    ensures HeldBefore(slots, answer, cid + 1)
  {
  }

  lemma AllTried(slots: seq<SocketSlot>, past: nat, attempt: nat, answer: nat -> Answer)
    requires past <= |slots| && attempt < |slots| && CountFree(slots, past) == attempt
    requires forall c :: past <= c < |slots| ==> slots[c].used
    requires HeldBefore(slots, answer, past)
    ensures exists c :: 0 <= c < |slots| && slots[c].used
    ensures HeldBefore(slots, answer, |slots|)
  {
    if past < |slots| {
      assert slots[past].used;
    }
  }

  lemma AllFree(slots: seq<SocketSlot>, past: nat, answer: nat -> Answer)
    requires past <= |slots| && CountFree(slots, past) == |slots| && HeldBefore(slots, answer, past)
    ensures forall c :: 0 <= c < |slots| ==> !slots[c].used
    ensures HeldBefore(slots, answer, |slots|)
  {
    assert past == |slots|;
    forall c | 0 <= c < |slots| ensures !slots[c].used {
      assert Free(slots, c);
    }
  }

  /** Nothing free lies between the cids asked so far and the next one. */
  lemma CountSkips(slots: seq<SocketSlot>, past: nat, next: nat)
    requires past <= next < |slots| && Free(slots, next)
    requires forall c :: past <= c < next ==> slots[c].used
    ensures CountFree(slots, next + 1) == CountFree(slots, past) + 1
    decreases next - past
  {
    if past < next {
      CountSkips(slots, past + 1, next);
    }
  }
}

/** The six cids of the Air780E and what the HAL records about each. */
module Air780ePool {
  const MAX_CONNECTIONS: nat := 6

  /**
   `ssl` and `holdsMode` say which module-wide reservation the slot owns, if any; `serial`
   tells two sockets on one cid apart.
   */
  datatype SocketSlot = SocketSlot(used: bool, udp: bool, ssl: bool, holdsMode: bool, serial: nat)

  const EMPTY_SLOT := SocketSlot(false, false, false, false, 0)

  predicate Holds(slot: SocketSlot, ssl: bool)
  {
    slot.used && slot.holdsMode && slot.ssl == ssl
  }

  function Holders(slots: seq<SocketSlot>, ssl: bool): nat
  {
    if slots == [] then 0 else Holders(slots[..|slots| - 1], ssl) + if Holds(slots[|slots| - 1], ssl) then 1 else 0
  }

  lemma {:induction false} HoldersAfter(slots: seq<SocketSlot>, i: nat, slot: SocketSlot, ssl: bool)
    requires i < |slots|
    ensures Holders(slots[i := slot], ssl) + (if Holds(slots[i], ssl) then 1 else 0)
         == Holders(slots, ssl) + (if Holds(slot, ssl) then 1 else 0)
    decreases |slots|
  {
    hide Holds;
    var n := |slots| - 1;
    if i < n {
      assert slots[i := slot][..n] == slots[..n][i := slot];
      HoldersAfter(slots[..n], i, slot, ssl);
    } else {
      assert slots[i := slot][..n] == slots[..n];
    }
  }

  lemma {:induction false} NobodyHolds(slots: seq<SocketSlot>, ssl: bool)
    requires forall slot :: slot in slots ==> !slot.used
    ensures Holders(slots, ssl) == 0
    decreases |slots|
  {
    if slots != [] {
      assert slots[|slots| - 1] in slots;
      NobodyHolds(slots[..|slots| - 1], ssl);
    }
  }
}

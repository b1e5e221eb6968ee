/**
 One TLS switch for the whole module, shared by every thread that opens or lets go of a
 socket. A step is one critical section, or one command as the module acts on it.
 */
module Air780eModes {
  import opened Air780ePool

  /**
   Where a thread stands.
     Switching, Switched: inside ReserveSocketForMode, with its mutex dropped
     Reserved: past it, no cid allocated
     Allocated: a cid taken, the socket not handed over
     Releasing: about to count a reservation as released
   */
  datatype Pc =
    | Idle
    | Switching(ssl: bool)
    | Switched(ssl: bool, ok: bool)
    | Reserved(ssl: bool)
    | Allocated(ssl: bool, cid: nat)
    | Releasing(ssl: bool)

  datatype State = State(
    sslOpen: nat,
    plainOpen: nat,
    switching: bool,
    module_: bool,
    slots: seq<SocketSlot>,
    nextSerial: nat,
    threads: seq<Pc>)

  function Open(s: State, ssl: bool): nat
  {
    if ssl then s.sslOpen else s.plainOpen
  }

  function WithOpen(s: State, ssl: bool, n: nat): State
  {
    if ssl then s.(sslOpen := n) else s.(plainOpen := n)
  }

  function At(s: State, t: nat, pc: Pc): State
    requires t < |s.threads|
  {
    s.(threads := s.threads[t := pc])
  }

  /** A slot as RetireSlot leaves it. */
  function Cleared(s: State, cid: nat): State
    requires cid < |s.slots|
  {
    if s.slots[cid].used then s.(slots := s.slots[cid := EMPTY_SLOT]) else s
  }

  // ---------------------------------------------------------------------------
  // Steps
  // ---------------------------------------------------------------------------

  datatype Event =
    | Reserve(t: nat, ssl: bool)
    | SwitchCommand(t: nat, value: bool)
    | ReadBack(t: nat, ok: bool)
    | SwitchDone(t: nat)
    | Allocate(t: nat, cid: nat)
    | HandOver(t: nat)
    | LetGo(t: nat, tryAnother: bool)
    | GiveUp(t: nat)
    | Retire(t: nat, cid: nat)
    | CountRelease(t: nat)

  /** A thread waits out a switch in progress; a read-back tells the truth. */
  predicate Enabled(s: State, e: Event)
  {
    && e.t < |s.threads|
    && match e
       case Reserve(t, _) => s.threads[t].Idle? && !s.switching
       case SwitchCommand(t, _) => s.threads[t].Switching?
       case ReadBack(t, ok) => s.threads[t].Switching? && (ok ==> s.module_ == s.threads[t].ssl)
       case SwitchDone(t) => s.threads[t].Switched?
       case Allocate(t, cid) => s.threads[t].Reserved? && cid < |s.slots| && !s.slots[cid].used
       case HandOver(t) => s.threads[t].Allocated? && s.threads[t].cid < |s.slots|
       case LetGo(t, _) => s.threads[t].Allocated? && s.threads[t].cid < |s.slots|
       case GiveUp(t) => s.threads[t].Reserved?
       case Retire(t, cid) => s.threads[t].Idle? && cid < |s.slots|
       case CountRelease(t) => s.threads[t].Releasing?
  }

  function Step(s: State, e: Event): State
    requires Enabled(s, e)
  {
    match e
    case Reserve(t, ssl) =>
      if Open(s, !ssl) > 0 then s
      else if Open(s, ssl) > 0 then At(WithOpen(s, ssl, Open(s, ssl) + 1), t, Reserved(ssl))
      else At(s.(switching := true), t, Switching(ssl))
    case SwitchCommand(_, value) => s.(module_ := value)
    case ReadBack(t, ok) => At(s, t, Switched(s.threads[t].ssl, ok))
    case SwitchDone(t) =>
      var pc := s.threads[t];
      if pc.ok then At(WithOpen(s, pc.ssl, Open(s, pc.ssl) + 1).(switching := false), t, Reserved(pc.ssl))
      else At(s.(switching := false), t, Idle)
    case Allocate(t, cid) =>
      At(s.(slots := s.slots[cid := SocketSlot(true, false, false, false, s.nextSerial)], nextSerial := s.nextSerial + 1),
         t, Allocated(s.threads[t].ssl, cid))
    case HandOver(t) =>
      var pc := s.threads[t];
      At(s.(slots := s.slots[pc.cid := s.slots[pc.cid].(ssl := pc.ssl, holdsMode := true)]), t, Idle)
    case LetGo(t, tryAnother) =>
      var pc := s.threads[t];
      At(Cleared(s, pc.cid), t, if tryAnother then Reserved(pc.ssl) else Releasing(pc.ssl))
    case GiveUp(t) => At(s, t, Releasing(s.threads[t].ssl))
    case Retire(t, cid) =>
      var slot := s.slots[cid];
      At(Cleared(s, cid), t, if slot.used && slot.holdsMode then Releasing(slot.ssl) else Idle)
    case CountRelease(t) =>
      var ssl := s.threads[t].ssl;
      At(if Open(s, ssl) > 0 then WithOpen(s, ssl, Open(s, ssl) - 1) else s, t, Idle)
  }

  function Initial(threads: nat, module_: bool): State
  {
    State(0, 0, false, module_, seq(MAX_CONNECTIONS, _ => EMPTY_SLOT), 1, seq(threads, _ => Idle))
  }

  ghost predicate Runs(s: State, events: seq<Event>, t: State)
    decreases |events|
  {
    if events == [] then t == s
    else Enabled(s, events[0]) && Runs(Step(s, events[0]), events[1..], t)
  }

  // ---------------------------------------------------------------------------
  // Who holds a reservation
  // ---------------------------------------------------------------------------

  /** A thread that is past ReserveSocketForMode and has not passed its reservation on. */
  predicate Owes(pc: Pc, ssl: bool)
  {
    (pc.Reserved? || pc.Allocated? || pc.Releasing?) && pc.ssl == ssl
  }

  function Owing(threads: seq<Pc>, ssl: bool): nat
  {
    if threads == [] then 0 else Owing(threads[..|threads| - 1], ssl) + if Owes(threads[|threads| - 1], ssl) then 1 else 0
  }

  lemma {:induction false} OwingAfter(threads: seq<Pc>, i: nat, pc: Pc, ssl: bool)
    requires i < |threads|
    ensures Owing(threads[i := pc], ssl) + (if Owes(threads[i], ssl) then 1 else 0)
         == Owing(threads, ssl) + (if Owes(pc, ssl) then 1 else 0)
    decreases |threads|
  {
    hide Owes;
    var n := |threads| - 1;
    if i < n {
      assert threads[i := pc][..n] == threads[..n][i := pc];
      OwingAfter(threads[..n], i, pc, ssl);
    } else {
      assert threads[i := pc][..n] == threads[..n];
    }
  }

  lemma {:induction false} OwingCounts(threads: seq<Pc>, i: nat, ssl: bool)
    requires i < |threads| && Owes(threads[i], ssl)
    ensures Owing(threads, ssl) > 0
    decreases |threads|
  {
    if i < |threads| - 1 {
      OwingCounts(threads[..|threads| - 1], i, ssl);
    }
  }

  /** How far a counter is ahead of the reservations anybody holds. */
  function Excess(s: State, ssl: bool): int
  {
    Open(s, ssl) - Holders(s.slots, ssl) - Owing(s.threads, ssl)
  }

  predicate Conserved(s: State)
  {
    Excess(s, true) == 0 && Excess(s, false) == 0
  }

  // ---------------------------------------------------------------------------
  // Exclusion
  // ---------------------------------------------------------------------------

  predicate MidSwitch(s: State, t: int)
  {
    0 <= t < |s.threads| && (s.threads[t].Switching? || s.threads[t].Switched?)
  }

  ghost predicate OneSwitcher(s: State)
  {
    && (s.switching <==> exists t :: MidSwitch(s, t))
    && (forall t, u :: MidSwitch(s, t) && MidSwitch(s, u) ==> t == u)
  }

  ghost predicate Inv(s: State)
  {
    && !(s.sslOpen > 0 && s.plainOpen > 0)
    && (s.switching ==> s.sslOpen == 0 && s.plainOpen == 0)
    && (s.sslOpen > 0 ==> s.module_)
    && (s.plainOpen > 0 ==> !s.module_)
    && OneSwitcher(s)
    && (forall t :: 0 <= t < |s.threads| && s.threads[t].Switched? && s.threads[t].ok ==> s.module_ == s.threads[t].ssl)
    && Excess(s, true) >= 0 && Excess(s, false) >= 0
  }

  /** A hand-over onto a slot somebody else retired, or took and filled; or giving such a slot back. */
  predicate Mislaid(s: State, e: Event)
    requires Enabled(s, e)
  {
    match e
    case HandOver(t) => var slot := s.slots[s.threads[t].cid]; !slot.used || slot.holdsMode
    case LetGo(t, _) => var slot := s.slots[s.threads[t].cid]; slot.used && slot.holdsMode
    case _ => false
  }

  function One(b: bool): int
  {
    if b then 1 else 0
  }

  lemma ThreadMoves(s: State, d: State, t: nat, ssl: bool)
    requires t < |s.threads| && |d.threads| == |s.threads| && d.threads == s.threads[t := d.threads[t]]
    requires d.slots == s.slots
    ensures Excess(d, ssl) == Excess(s, ssl) + (Open(d, ssl) - Open(s, ssl)) + One(Owes(s.threads[t], ssl)) - One(Owes(d.threads[t], ssl))
    ensures Owes(s.threads[t], ssl) && Excess(s, ssl) >= 0 ==> Open(s, ssl) > 0
  {
    hide Holders, Owing, Owes, Open;
    OwingAfter(s.threads, t, d.threads[t], ssl);
    if Owes(s.threads[t], ssl) {
      OwingCounts(s.threads, t, ssl);
    }
  }

  lemma SlotChanges(s: State, cid: nat, slot: SocketSlot, ssl: bool)
    requires cid < |s.slots|
    ensures Excess(s.(slots := s.slots[cid := slot]), ssl) == Excess(s, ssl) + One(Holds(s.slots[cid], ssl)) - One(Holds(slot, ssl))
  {
    hide Holders, Owing, Holds;
    HoldersAfter(s.slots, cid, slot, ssl);
  }

  /** How far each step moves a counter away from what is held. */
  lemma ThreadStepExcess(s: State, e: Event, ssl: bool)
    requires Enabled(s, e) && Excess(s, ssl) >= 0
    requires !e.Allocate? && !e.HandOver? && !e.LetGo? && !e.Retire?
    ensures Excess(Step(s, e), ssl) == Excess(s, ssl)
  {
    hide Excess;
    var d := Step(s, e);
    assert d.threads == s.threads[e.t := d.threads[e.t]];
    ThreadMoves(s, d, e.t, ssl);
  }

  lemma SlotStepExcess(s: State, e: Event, ssl: bool)
    requires Enabled(s, e) && (e.Allocate? || e.HandOver? || e.LetGo? || e.Retire?)
    ensures var before, after := Excess(s, ssl), Excess(Step(s, e), ssl);
            match e
            case HandOver(t) =>
              var slot, mine := s.slots[s.threads[t].cid], s.threads[t].ssl == ssl;
              after == before + (if !slot.used then One(mine) else One(Holds(slot, ssl)))
            case LetGo(t, _) => after == before + One(Holds(s.slots[s.threads[t].cid], ssl))
            case _ => after == before
  {
    hide Excess;
    var d := Step(s, e);
    var cid := if e.Allocate? || e.Retire? then e.cid else s.threads[e.t].cid;
    var m := s.(slots := d.slots);
    assert d.slots == s.slots[cid := d.slots[cid]];
    SlotChanges(s, cid, d.slots[cid], ssl);
    assert d.threads == m.threads[e.t := d.threads[e.t]];
    ThreadMoves(m, d, e.t, ssl);
    assert m == s.(slots := s.slots[cid := d.slots[cid]], nextSerial := m.nextSerial);
  }

  lemma StepExcess(s: State, e: Event, ssl: bool)
    requires Enabled(s, e) && Excess(s, ssl) >= 0
    ensures Excess(Step(s, e), ssl) >= Excess(s, ssl)
    ensures !Mislaid(s, e) ==> Excess(Step(s, e), ssl) == Excess(s, ssl)
  {
    hide Excess, Step;
    if e.Allocate? || e.HandOver? || e.LetGo? || e.Retire? {
      SlotStepExcess(s, e, ssl);
    } else {
      ThreadStepExcess(s, e, ssl);
    }
  }

  lemma MislaidLeaks(s: State, e: Event)
    requires Enabled(s, e) && Mislaid(s, e)
    ensures Excess(Step(s, e), true) + Excess(Step(s, e), false) > Excess(s, true) + Excess(s, false)
  {
    hide Excess, Step;
    SlotStepExcess(s, e, true);
    SlotStepExcess(s, e, false);
  }

  /** Only the switching thread can be between its two critical sections. */
  lemma StepKeepsOneSwitcher(s: State, e: Event)
    requires OneSwitcher(s) && Enabled(s, e)
    ensures OneSwitcher(Step(s, e))
  {
    hide Holders, Owing;
    var d := Step(s, e);
    assert d.threads == s.threads[e.t := d.threads[e.t]];
    assert forall u :: u != e.t ==> MidSwitch(d, u) == MidSwitch(s, u);
    assert MidSwitch(s, e.t) ==> s.switching;
    assert MidSwitch(d, e.t) ==> d.switching;
    if d.switching && !MidSwitch(d, e.t) {
      var u :| MidSwitch(s, u);
      assert MidSwitch(d, u);
    }
  }

  lemma StepKeepsInv(s: State, e: Event)
    requires Inv(s) && Enabled(s, e)
    ensures Inv(Step(s, e))
  {
    hide Excess, OneSwitcher;
    StepKeepsOneSwitcher(s, e);
    StepExcess(s, e, true);
    StepExcess(s, e, false);
    AloneWhileSwitching(s, e.t);
    var d := Step(s, e);
    forall u | 0 <= u < |d.threads| && d.threads[u].Switched? && d.threads[u].ok ensures d.module_ == d.threads[u].ssl {
      if u != e.t {
        assert MidSwitch(s, u);
      }
    }
  }

  lemma AloneWhileSwitching(s: State, t: nat)
    requires OneSwitcher(s) && t < |s.threads|
    ensures MidSwitch(s, t) ==> s.switching && forall u :: u != t ==> !MidSwitch(s, u)
  {
  }

  lemma {:induction false} NobodyOwes(threads: seq<Pc>, ssl: bool)
    requires forall pc :: pc in threads ==> pc.Idle?
    ensures Owing(threads, ssl) == 0
    decreases |threads|
  {
    if threads != [] {
      assert threads[|threads| - 1] in threads;
      NobodyOwes(threads[..|threads| - 1], ssl);
    }
  }

  lemma InitialInv(threads: nat, module_: bool)
    ensures Inv(Initial(threads, module_)) && Conserved(Initial(threads, module_))
  {
    hide Owing, Holders;
    var s := Initial(threads, module_);
    forall ssl: bool ensures Owing(s.threads, ssl) == 0 && Holders(s.slots, ssl) == 0 {
      NobodyOwes(s.threads, ssl);
      NobodyHolds(s.slots, ssl);
    }
  }

  lemma {:induction false} RunKeepsInv(s: State, events: seq<Event>, t: State)
    requires Inv(s) && Runs(s, events, t)
    ensures Inv(t)
    decreases |events|
  {
    hide Inv, Step, Enabled;
    if events != [] {
      assert Enabled(s, events[0]);
      StepKeepsInv(s, events[0]);
      RunKeepsInv(Step(s, events[0]), events[1..], t);
    }
  }

  /**
   Over all interleavings of openers and releasers: TLS and plaintext sockets are never
   counted at once, none is counted while the switch is moving, and whenever one is, the
   module's switch is in its mode.
   */
  lemma ModesExclude(threads: nat, module_: bool, events: seq<Event>, s: State)
    requires Runs(Initial(threads, module_), events, s)
    ensures !(s.sslOpen > 0 && s.plainOpen > 0)
    ensures s.switching ==> s.sslOpen == 0 && s.plainOpen == 0
    ensures s.sslOpen > 0 ==> s.module_
    ensures s.plainOpen > 0 ==> !s.module_
  {
    hide Initial, Excess, OneSwitcher;
    InitialInv(threads, module_);
    RunKeepsInv(Initial(threads, module_), events, s);
  }

  /** Every AT+CIPSTART, which goes out while a cid is allocated, finds the module in its mode. */
  lemma OpensGoOutInTheirMode(threads: nat, module_: bool, events: seq<Event>, s: State, t: nat)
    requires Runs(Initial(threads, module_), events, s)
    requires t < |s.threads| && !s.threads[t].Idle? && Owes(s.threads[t], s.threads[t].ssl)
    ensures Open(s, s.threads[t].ssl) > 0 && s.module_ == s.threads[t].ssl
  {
    hide Initial, OneSwitcher, Owes, Holders, Owing;
    InitialInv(threads, module_);
    RunKeepsInv(Initial(threads, module_), events, s);
    OwingCounts(s.threads, t, s.threads[t].ssl);
  }

  // ---------------------------------------------------------------------------
  // Conservation
  // ---------------------------------------------------------------------------

  /** Some event of the run hands over, or gives back, a slot that is not the thread's own. */
  ghost predicate Mislays(s: State, events: seq<Event>)
    decreases |events|
  {
    events != [] && Enabled(s, events[0]) && (Mislaid(s, events[0]) || Mislays(Step(s, events[0]), events[1..]))
  }

  lemma {:induction false} RunExcess(s: State, events: seq<Event>, t: State)
    requires Inv(s) && Runs(s, events, t)
    ensures Inv(t) && Excess(t, true) >= Excess(s, true) && Excess(t, false) >= Excess(s, false)
    ensures Excess(t, true) + Excess(t, false) == Excess(s, true) + Excess(s, false) <==> !Mislays(s, events)
    decreases |events|
  {
    hide Step, Enabled, Excess, Mislaid, OneSwitcher;
    if events != [] {
      var e := events[0];
      assert Enabled(s, e);
      StepKeepsInv(s, e);
      RunExcess(Step(s, e), events[1..], t);
      StepExcess(s, e, true);
      StepExcess(s, e, false);
      if Mislaid(s, e) {
        MislaidLeaks(s, e);
      }
    }
  }

  /**
   Each counter equals the slots that hold its mode plus the opens past their reservation
   plus the releases not yet counted, exactly when no hand-over of the run found its slot
   retired or retaken. So the guard in ReleaseSocketForMode never hides an underflow.
   */
  lemma ReservationsAreConservedExactly(threads: nat, module_: bool, events: seq<Event>, s: State)
    requires Runs(Initial(threads, module_), events, s)
    ensures Conserved(s) <==> !Mislays(Initial(threads, module_), events)
  {
    hide Initial, OneSwitcher, Holders, Owing;
    InitialInv(threads, module_);
    RunExcess(Initial(threads, module_), events, s);
  }

  /** The release that is counted is always there to count, in every run. */
  lemma NoReleaseUnderflows(threads: nat, module_: bool, events: seq<Event>, s: State, t: nat)
    requires Runs(Initial(threads, module_), events, s)
    requires t < |s.threads| && s.threads[t].Releasing?
    ensures Open(s, s.threads[t].ssl) > 0
  {
    OpensGoOutInTheirMode(threads, module_, events, s, t);
  }

  // --- what a caller has to avoid ---

  predicate OpenOn(s: State, t: int)
  {
    0 <= t < |s.threads| && s.threads[t].Allocated?
  }

  /** A cid retired while an open on it has not handed its socket over. */
  predicate RetiredEarly(s: State, e: Event)
  {
    e.Retire? && exists t :: 0 <= t < |s.threads| && OpenOn(s, t) && s.threads[t].cid == e.cid
  }

  /** Each open in flight has its own slot, and the slot has not been handed over. */
  ghost predicate OpensOwnTheirSlots(s: State)
  {
    && (forall t :: OpenOn(s, t) ==>
                      && s.threads[t].cid < |s.slots|
                      && s.slots[s.threads[t].cid].used
                      && !s.slots[s.threads[t].cid].holdsMode)
    && (forall t, u :: OpenOn(s, t) && OpenOn(s, u) && s.threads[t].cid == s.threads[u].cid ==> t == u)
  }

  lemma OthersKeepTheirSlots(s: State, e: Event, u: nat)
    requires OpensOwnTheirSlots(s) && Enabled(s, e) && !RetiredEarly(s, e)
    requires u != e.t && OpenOn(s, u)
    ensures var d := Step(s, e);
            && OpenOn(d, u) && d.threads[u] == s.threads[u] && |d.slots| == |s.slots|
            && d.slots[s.threads[u].cid] == s.slots[s.threads[u].cid]
  {
    if e.HandOver? || e.LetGo? {
      assert OpenOn(s, e.t);
    }
  }

  lemma OwnSlotKept(s: State, e: Event)
    requires OpensOwnTheirSlots(s) && Enabled(s, e)
    ensures var d := Step(s, e);
            OpenOn(d, e.t) ==>
              && d.threads[e.t].cid < |d.slots| && d.slots[d.threads[e.t].cid].used && !d.slots[d.threads[e.t].cid].holdsMode
              && (e.Allocate? && d.threads[e.t].cid == e.cid && !s.slots[e.cid].used)
    ensures !Mislaid(s, e)
  {
    if e.HandOver? || e.LetGo? {
      assert OpenOn(s, e.t);
    }
  }

  lemma OwningKept(s: State, e: Event)
    requires OpensOwnTheirSlots(s) && Enabled(s, e) && !RetiredEarly(s, e)
    ensures OpensOwnTheirSlots(Step(s, e)) && !Mislaid(s, e)
  {
    var d := Step(s, e);
    assert d.threads == s.threads[e.t := d.threads[e.t]];
    OwnSlotKept(s, e);
    forall u | u != e.t && OpenOn(d, u)
      ensures OpenOn(s, u) && d.threads[u] == s.threads[u] && |d.slots| == |s.slots| && d.slots[s.threads[u].cid] == s.slots[s.threads[u].cid]
    {
      assert OpenOn(s, u);
      OthersKeepTheirSlots(s, e, u);
    }
    hide Step, Mislaid, RetiredEarly, Enabled;
  }

  ghost predicate RetiresEarly(s: State, events: seq<Event>)
    decreases |events|
  {
    events != [] && Enabled(s, events[0]) && (RetiredEarly(s, events[0]) || RetiresEarly(Step(s, events[0]), events[1..]))
  }

  lemma {:induction false} WithoutEarlyRetireNothingIsMislaid(s: State, events: seq<Event>, t: State)
    requires OpensOwnTheirSlots(s) && Runs(s, events, t) && !RetiresEarly(s, events)
    ensures !Mislays(s, events)
    decreases |events|
  {
    hide Step, Enabled, OpensOwnTheirSlots, Mislaid, RetiredEarly;
    if events != [] {
      assert Enabled(s, events[0]);
      OwningKept(s, events[0]);
      WithoutEarlyRetireNothingIsMislaid(Step(s, events[0]), events[1..], t);
    }
  }

  /** If no peer close is finished between allocation and hand-over, reservations are conserved. */
  lemma ConservedWithoutEarlyRetire(threads: nat, module_: bool, events: seq<Event>, s: State)
    requires Runs(Initial(threads, module_), events, s) && !RetiresEarly(Initial(threads, module_), events)
    ensures Conserved(s)
  {
    hide Runs, RetiresEarly, Mislays;
    WithoutEarlyRetireNothingIsMislaid(Initial(threads, module_), events, s);
    ReservationsAreConservedExactly(threads, module_, events, s);
  }

  /**
   With one such close they are not: the caller is given a cid that is not in use, and the
   plaintext counter stays up with nobody left to bring it down.
   */
  lemma EarlyRetireLeaks()
    ensures var events := [Reserve(0, false), SwitchCommand(0, false), ReadBack(0, true), SwitchDone(0),
                           Allocate(0, 0), Retire(1, 0), HandOver(0)];
            exists s :: Runs(Initial(2, true), events, s) && s.plainOpen == 1 && s.threads == [Idle, Idle] && !s.slots[0].used
  {
    var s0 := Initial(2, true);
    var s1 := Step(s0, Reserve(0, false));
    var s2 := Step(s1, SwitchCommand(0, false));
    var s3 := Step(s2, ReadBack(0, true));
    var s4 := Step(s3, SwitchDone(0));
    var s5 := Step(s4, Allocate(0, 0));
    var s6 := Step(s5, Retire(1, 0));
    var s7 := Step(s6, HandOver(0));
    NoMore(s7);
    OneMore(s6, HandOver(0), [], s7);
    OneMore(s5, Retire(1, 0), [HandOver(0)], s7);
    OneMore(s4, Allocate(0, 0), [Retire(1, 0), HandOver(0)], s7);
    OneMore(s3, SwitchDone(0), [Allocate(0, 0), Retire(1, 0), HandOver(0)], s7);
    OneMore(s2, ReadBack(0, true), [SwitchDone(0), Allocate(0, 0), Retire(1, 0), HandOver(0)], s7);
    OneMore(s1, SwitchCommand(0, false), [ReadBack(0, true), SwitchDone(0), Allocate(0, 0), Retire(1, 0), HandOver(0)], s7);
    OneMore(s0, Reserve(0, false),
            [SwitchCommand(0, false), ReadBack(0, true), SwitchDone(0), Allocate(0, 0), Retire(1, 0), HandOver(0)], s7);
    assert s7.threads == [Idle, Idle];
  }

  lemma NoMore(s: State)
    ensures Runs(s, [], s)
  {
  }

  lemma OneMore(s: State, e: Event, events: seq<Event>, t: State)
    requires Enabled(s, e) && Runs(Step(s, e), events, t)
    ensures Runs(s, [e] + events, t)
  {
    assert ([e] + events)[1..] == events;
  }

  /** A leak is for good: no later step brings a counter back to what is held. */
  lemma LeaksNeverHeal(s: State, events: seq<Event>, t: State, ssl: bool)
    requires Inv(s) && Runs(s, events, t) && Excess(s, ssl) > 0
    ensures Excess(t, ssl) > 0 && Open(t, ssl) > 0
  {
    hide Holders, Owing;
    RunExcess(s, events, t);
  }

  // ---------------------------------------------------------------------------
  // One thread, uninterrupted
  // ---------------------------------------------------------------------------

  lemma ThenRuns(s: State, e: Event, d: State, events: seq<Event>, t: State)
    requires Enabled(s, e) && d == Step(s, e) && Runs(d, events, t)
    ensures Runs(s, [e] + events, t)
  {
    assert ([e] + events)[1..] == events;
  }

  lemma HandsOver(s: State, t: nat, ssl: bool, cid: nat)
    requires t < |s.threads| && s.threads[t] == Reserved(ssl) && cid < |s.slots| && !s.slots[cid].used
    ensures Runs(s, [Allocate(t, cid)] + ([HandOver(t)] + []),
                 s.(threads := s.threads[t := Idle], nextSerial := s.nextSerial + 1,
                    slots := s.slots[cid := SocketSlot(true, false, ssl, true, s.nextSerial)]))
  {
    var a := Step(s, Allocate(t, cid));
    var b := Step(a, HandOver(t));
    assert b.threads == s.threads[t := Idle];
    assert b.slots == s.slots[cid := SocketSlot(true, false, ssl, true, s.nextSerial)];
    ThenRuns(a, HandOver(t), b, [], b);
    ThenRuns(s, Allocate(t, cid), a, [HandOver(t)] + [], b);
  }

  /** With a socket of the mode open already, an opener counts itself in and leaves the switch alone. */
  lemma JoinsItsMode(s: State, t: nat, ssl: bool, cid: nat)
    requires t < |s.threads| && s.threads[t].Idle? && !s.switching && cid < |s.slots| && !s.slots[cid].used
    requires if ssl then s.sslOpen > 0 && s.plainOpen == 0 else s.plainOpen > 0 && s.sslOpen == 0
    ensures Runs(s, [Reserve(t, ssl)] + ([Allocate(t, cid)] + ([HandOver(t)] + [])),
                 s.(sslOpen := s.sslOpen + (if ssl then 1 else 0), plainOpen := s.plainOpen + (if ssl then 0 else 1),
                    nextSerial := s.nextSerial + 1, slots := s.slots[cid := SocketSlot(true, false, ssl, true, s.nextSerial)]))
  {
    hide Runs;
    var a := Step(s, Reserve(t, ssl));
    HandsOver(a, t, ssl, cid);
    assert a.threads[t := Idle] == s.threads;
    ThenRuns(s, Reserve(t, ssl), a, [Allocate(t, cid)] + ([HandOver(t)] + []),
             a.(threads := s.threads, nextSerial := s.nextSerial + 1,
                slots := s.slots[cid := SocketSlot(true, false, ssl, true, s.nextSerial)]));
  }

  /** With no socket open it moves the switch to its mode first. */
  lemma SwitchesToItsMode(s: State, t: nat, ssl: bool, cid: nat)
    requires t < |s.threads| && s.threads[t].Idle? && !s.switching && cid < |s.slots| && !s.slots[cid].used
    requires s.sslOpen == 0 && s.plainOpen == 0
    ensures Runs(s, [Reserve(t, ssl)] + ([SwitchCommand(t, ssl)] + ([ReadBack(t, true)] + ([SwitchDone(t)]
                      + ([Allocate(t, cid)] + ([HandOver(t)] + []))))),
                 s.(sslOpen := if ssl then 1 else 0, plainOpen := if ssl then 0 else 1, module_ := ssl,
                    nextSerial := s.nextSerial + 1, slots := s.slots[cid := SocketSlot(true, false, ssl, true, s.nextSerial)]))
  {
    hide Runs;
    var rest := [Allocate(t, cid)] + ([HandOver(t)] + []);
    var a := Step(s, Reserve(t, ssl));
    var b := Step(a, SwitchCommand(t, ssl));
    var c := Step(b, ReadBack(t, true));
    var d := Step(c, SwitchDone(t));
    HandsOver(d, t, ssl, cid);
    assert d.threads[t := Idle] == s.threads;
    var end := d.(threads := s.threads, nextSerial := s.nextSerial + 1,
                  slots := s.slots[cid := SocketSlot(true, false, ssl, true, s.nextSerial)]);
    ThenRuns(c, SwitchDone(t), d, rest, end);
    ThenRuns(b, ReadBack(t, true), c, [SwitchDone(t)] + rest, end);
    ThenRuns(a, SwitchCommand(t, ssl), b, [ReadBack(t, true)] + ([SwitchDone(t)] + rest), end);
    ThenRuns(s, Reserve(t, ssl), a, [SwitchCommand(t, ssl)] + ([ReadBack(t, true)] + ([SwitchDone(t)] + rest)), end);
  }

  /** And closing the socket takes the slot and the count back. */
  lemma GivesItBack(s: State, t: nat, cid: nat)
    requires t < |s.threads| && s.threads[t].Idle? && cid < |s.slots| && s.slots[cid].used && s.slots[cid].holdsMode
    requires if s.slots[cid].ssl then s.sslOpen > 0 else s.plainOpen > 0
    ensures var ssl := s.slots[cid].ssl;
            Runs(s, [Retire(t, cid)] + ([CountRelease(t)] + []),
                 s.(sslOpen := s.sslOpen - (if ssl then 1 else 0), plainOpen := s.plainOpen - (if ssl then 0 else 1),
                    slots := s.slots[cid := SocketSlot(false, false, false, false, 0)]))
  {
    var a := Step(s, Retire(t, cid));
    var b := Step(a, CountRelease(t));
    assert b.threads == s.threads;
    ThenRuns(a, CountRelease(t), b, [], b);
    ThenRuns(s, Retire(t, cid), a, [CountRelease(t)] + [], b);
  }

  /** Against a socket of the other mode it gets nowhere. */
  lemma OtherModeIsRefused(s: State, t: nat, ssl: bool)
    requires Enabled(s, Reserve(t, ssl)) && (if ssl then s.plainOpen else s.sslOpen) > 0
    ensures Step(s, Reserve(t, ssl)) == s
  {
  }
}

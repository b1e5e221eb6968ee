/**
 A peer's close, noted in one place and acted on in another, while cids change hands. A
 step is one critical section; the test and the retirement in FinishClosedCid are one.
 */
module Air780eClose {

  /** A cid in use carries the serial of its socket; 0 is no socket. */
  datatype Slot = Slot(used: bool, serial: nat)

  /**
     Noting: NotePeerClosed has read the serial and not yet recorded it
     Retiring: RetireSlot has cleared the slot and not yet the close note
     Finishing: FinishClosedCid has taken the note and not yet acted on it
     Dropping: the reader found the cid not in use and has not yet cleared its close note
   */
  datatype Pc = Idle | Noting(cid: nat, serial: nat) | Retiring(cid: nat) | Finishing(cid: nat, serial: nat) | Dropping(cid: nat)

  /** One socket: the cid it was on, and its serial. */
  datatype Socket = Socket(cid: nat, serial: nat)

  /** `handled`: sockets in use when a close line for their cid was handled. `finished`: sockets that were ended for it. */
  datatype State = State(
    slots: seq<Slot>,
    nextSerial: nat,
    closeSerial: seq<nat>,
    threads: seq<Pc>,
    sockets: set<Socket>,
    handled: set<Socket>,
    finished: seq<Socket>)

  datatype Event =
    | Allocate(t: nat, cid: nat)
    | CloseLine(t: nat, cid: nat)
    | RecordNote(t: nat)
    | Retire(t: nat, cid: nat)
    | ClearNote(t: nat)
    | TakeNote(t: nat, cid: nat)
    | Finish(t: nat)
    | SeeUnused(t: nat, cid: nat)
    | DropNote(t: nat)

  predicate Enabled(s: State, e: Event)
  {
    && e.t < |s.threads|
    && match e
       case Allocate(t, cid) => s.threads[t].Idle? && cid < |s.slots| && !s.slots[cid].used
       case CloseLine(t, cid) => s.threads[t].Idle? && cid < |s.slots|
       case RecordNote(t) => s.threads[t].Noting? && s.threads[t].cid < |s.closeSerial|
       case Retire(t, cid) => s.threads[t].Idle? && cid < |s.slots|
       case ClearNote(t) => s.threads[t].Retiring? && s.threads[t].cid < |s.closeSerial|
       case TakeNote(t, cid) => s.threads[t].Idle? && cid < |s.closeSerial|
       case Finish(t) => s.threads[t].Finishing? && s.threads[t].cid < |s.slots|
       case SeeUnused(t, cid) => s.threads[t].Idle? && cid < |s.slots|
       case DropNote(t) => s.threads[t].Dropping? && s.threads[t].cid < |s.closeSerial|
  }

  function At(s: State, t: nat, pc: Pc): State
    requires t < |s.threads|
  {
    s.(threads := s.threads[t := pc])
  }

  predicate OwnsSerial(s: State, cid: nat, serial: nat)
    requires cid < |s.slots|
  {
    serial != 0 && s.slots[cid].used && s.slots[cid].serial == serial
  }

  function Step(s: State, e: Event): State
    requires Enabled(s, e)
  {
    match e
    case Allocate(_, cid) =>
      s.(slots := s.slots[cid := Slot(true, s.nextSerial)], nextSerial := s.nextSerial + 1,
         sockets := s.sockets + {Socket(cid, s.nextSerial)})
    case CloseLine(t, cid) =>
      if !s.slots[cid].used then s
      else At(s.(handled := s.handled + {Socket(cid, s.slots[cid].serial)}), t, Noting(cid, s.slots[cid].serial))
    case RecordNote(t) =>
      At(s.(closeSerial := s.closeSerial[s.threads[t].cid := s.threads[t].serial]), t, Idle)
    case Retire(t, cid) =>
      if !s.slots[cid].used then s else At(s.(slots := s.slots[cid := Slot(false, 0)]), t, Retiring(cid))
    case ClearNote(t) =>
      At(s.(closeSerial := s.closeSerial[s.threads[t].cid := 0]), t, Idle)
    case TakeNote(t, cid) =>
      if s.closeSerial[cid] == 0 then s
      else At(s.(closeSerial := s.closeSerial[cid := 0]), t, Finishing(cid, s.closeSerial[cid]))
    case Finish(t) =>
      var pc := s.threads[t];
      if OwnsSerial(s, pc.cid, pc.serial) then
        At(s.(slots := s.slots[pc.cid := Slot(false, 0)], finished := s.finished + [Socket(pc.cid, pc.serial)]), t, Retiring(pc.cid))
      else At(s, t, Idle)
    case SeeUnused(t, cid) =>
      if s.slots[cid].used then s else At(s, t, Dropping(cid))
    case DropNote(t) =>
      At(s.(closeSerial := s.closeSerial[s.threads[t].cid := 0]), t, Idle)
  }

  function Initial(threads: nat): State
  {
    State(seq(6, _ => Slot(false, 0)), 1, seq(6, _ => 0), seq(threads, _ => Idle), {}, {}, [])
  }

  ghost predicate Runs(s: State, events: seq<Event>, t: State)
    decreases |events|
  {
    if events == [] then t == s
    else Enabled(s, events[0]) && Runs(Step(s, events[0]), events[1..], t)
  }

  /** Serials tell sockets apart. */
  ghost predicate SerialsOk(s: State)
  {
    && |s.slots| == |s.closeSerial| && s.nextSerial > 0
    && (forall x :: x in s.sockets ==> 0 < x.serial < s.nextSerial)
    && (forall x, y :: x in s.sockets && y in s.sockets && x.serial == y.serial ==> x == y)
    && (forall c :: 0 <= c < |s.slots| && s.slots[c].used ==> Socket(c, s.slots[c].serial) in s.sockets)
    && s.handled <= s.sockets
  }

  /** A note, recorded or in a thread's hands, names a socket whose close was handled. */
  ghost predicate NotesOk(s: State)
  {
    && (forall c :: 0 <= c < |s.closeSerial| && s.closeSerial[c] != 0 ==> Socket(c, s.closeSerial[c]) in s.handled)
    && (forall t :: 0 <= t < |s.threads| && (s.threads[t].Noting? || s.threads[t].Finishing?) ==>
                      Socket(s.threads[t].cid, s.threads[t].serial) in s.handled)
  }

  /** What was ended for a close was noted for it, is no longer in use, and was ended once. */
  ghost predicate FinishedOk(s: State)
  {
    && (forall i :: 0 <= i < |s.finished| ==> s.finished[i] in s.handled)
    && (forall i, c :: 0 <= i < |s.finished| && 0 <= c < |s.slots| && s.slots[c].used ==> s.finished[i] != Socket(c, s.slots[c].serial))
    && (forall i, j :: 0 <= i < j < |s.finished| ==> s.finished[i] != s.finished[j])
  }

  ghost predicate Inv(s: State)
  {
    SerialsOk(s) && NotesOk(s) && FinishedOk(s)
  }

  lemma StepKeepsSerials(s: State, e: Event)
    requires SerialsOk(s) && Enabled(s, e)
    ensures SerialsOk(Step(s, e)) && s.handled <= Step(s, e).handled
  {
  }

  lemma StepKeepsNotes(s: State, e: Event)
    requires NotesOk(s) && Enabled(s, e)
    ensures NotesOk(Step(s, e))
  {
  }

  lemma StepKeepsFinished(s: State, e: Event)
    requires Inv(s) && Enabled(s, e)
    ensures FinishedOk(Step(s, e))
  {
    var d := Step(s, e);
    assert |d.finished| <= |s.finished| + 1;
    if e.Allocate? {
      assert forall i :: 0 <= i < |s.finished| ==> s.finished[i] in s.sockets;
    }
  }

  lemma StepKeepsInv(s: State, e: Event)
    requires Inv(s) && Enabled(s, e)
    ensures Inv(Step(s, e))
  {
    hide SerialsOk, NotesOk, FinishedOk, Step;
    StepKeepsSerials(s, e);
    StepKeepsNotes(s, e);
    StepKeepsFinished(s, e);
  }

  lemma {:induction false} RunKeepsInv(s: State, events: seq<Event>, t: State)
    requires Inv(s) && Runs(s, events, t)
    ensures Inv(t)
    decreases |events|
  {
    hide Inv, Step, Enabled;
    if events != [] {
      assert Enabled(s, events[0]);
      StepKeepsInv(s, events[0]);
      RunKeepsInv(Step(s, events[0]), events[1..], t);
    }
  }

  /**
   Whatever the interleaving: a socket is ended for a peer's close only if a close line was
   handled while that very socket held its cid, and no socket is ended twice.
   */
  lemma CloseEndsOnlyItsSocket(threads: nat, events: seq<Event>, s: State)
    requires Runs(Initial(threads), events, s)
    ensures forall i :: 0 <= i < |s.finished| ==> s.finished[i] in s.handled
    ensures forall i, j :: 0 <= i < j < |s.finished| ==> s.finished[i] != s.finished[j]
  {
    RunKeepsInv(Initial(threads), events, s);
  }

  /** Step by step: what FinishClosedCid takes a cid from is the socket the line was about. */
  lemma FinishTakesTheNotedSocket(threads: nat, events: seq<Event>, s: State, t: nat)
    requires Runs(Initial(threads), events, s) && Enabled(s, Finish(t))
    ensures var d := Step(s, Finish(t));
            forall c :: 0 <= c < |s.slots| && d.slots[c] != s.slots[c] ==>
              && c == s.threads[t].cid && s.slots[c] == Slot(true, s.threads[t].serial)
              && Socket(c, s.slots[c].serial) in s.handled
              && d.finished == s.finished + [Socket(c, s.slots[c].serial)]
  {
    RunKeepsInv(Initial(threads), events, s);
  }

  /** A socket opened on the cid after the line was handled is another socket, and stays. */
  lemma LaterSocketsSurvive(threads: nat, before: seq<Event>, s: State, after: seq<Event>, d: State, old_: Socket, later: Socket)
    requires Runs(Initial(threads), before, s) && Runs(s, after, d)
    requires old_ in s.handled && later !in s.sockets && later in d.sockets
    requires later !in d.handled
    ensures later != old_ && later.serial > old_.serial && later !in d.finished
  {
    RunKeepsInv(Initial(threads), before, s);
    RunKeepsInv(s, after, d);
    SerialsGrow(s, after, d);
  }

  lemma {:induction false} SerialsGrow(s: State, events: seq<Event>, t: State)
    requires Inv(s) && Runs(s, events, t)
    ensures s.nextSerial <= t.nextSerial
    ensures forall x :: x in t.sockets ==> x in s.sockets || x.serial >= s.nextSerial
    decreases |events|
  {
    hide Inv;
    if events != [] {
      StepKeepsInv(s, events[0]);
      SerialsGrow(Step(s, events[0]), events[1..], t);
    }
  }

  /** Some thread is about to record, or to act on, a close of the socket on the cid. */
  predicate InHand(s: State, c: nat, t: int)
    requires c < |s.slots|
  {
    0 <= t < |s.threads| && (s.threads[t] == Noting(c, s.slots[c].serial) || s.threads[t] == Finishing(c, s.slots[c].serial))
  }

  /** The close of the socket on the cid is noted, or in some thread's hands. */
  ghost predicate Noted(s: State, c: nat)
    requires c < |s.slots| == |s.closeSerial|
  {
    s.closeSerial[c] == s.slots[c].serial || exists t :: InHand(s, c, t)
  }

  /**
   A handled close of a socket that stays in use is forgotten exactly when the note is all
   there is of it and it is written over by a call begun earlier: NotePeerClosed or
   RetireSlot for another socket of the cid, or the reader, which saw the cid free.
   */
  lemma NotesAreLostExactly(s: State, e: Event, c: nat)
    requires Inv(s) && Enabled(s, e) && c < |s.slots| && s.slots[c].used && Noted(s, c)
    requires Step(s, e).slots[c] == s.slots[c]
    ensures |Step(s, e).slots| == |Step(s, e).closeSerial| == |s.slots|
    ensures !Noted(Step(s, e), c) <==>
              (e.ClearNote? || e.RecordNote? || e.DropNote?) && s.threads[e.t].cid == c && !exists t :: InHand(s, c, t)
  {
    var d := Step(s, e);
    assert forall u :: u != e.t ==> InHand(d, c, u) == InHand(s, c, u);
    assert Socket(c, s.slots[c].serial) in s.sockets;
    if e.TakeNote? && e.cid == c && s.closeSerial[c] == s.slots[c].serial {
      assert InHand(d, c, e.t);
    }
    if e.RecordNote? && s.threads[e.t] == Noting(c, s.slots[c].serial) {
      assert InHand(s, c, e.t);
    }
    if exists t :: InHand(s, c, t) {
      var t :| InHand(s, c, t);
      assert t != e.t ==> InHand(d, c, t);
    }
  }

  /**
   The two sections of RetireSlot are not one: a note taken for the next socket on the cid
   between them is wiped, and that socket's close is never acted on.
   */
  lemma StaleClearLosesANote()
    ensures var events := [Allocate(0, 0), Retire(1, 0), Allocate(0, 0), CloseLine(2, 0), RecordNote(2), ClearNote(1)];
            exists s :: Runs(Initial(3), events, s) && s.slots[0] == Slot(true, 2) && Socket(0, 2) in s.handled
                        && s.closeSerial[0] == 0 && s.threads == [Idle, Idle, Idle] && s.finished == []
  {
    var s0 := Initial(3);
    var s1 := Step(s0, Allocate(0, 0));
    var s2 := Step(s1, Retire(1, 0));
    var s3 := Step(s2, Allocate(0, 0));
    assert s3.slots[0] == Slot(true, 2) && s3.threads == [Idle, Retiring(0), Idle] && s3.closeSerial[0] == 0;
    assert Runs(s0, [Allocate(0, 0), Retire(1, 0), Allocate(0, 0)], s3) by {
      NoMore(s3);
      OneMore(s2, Allocate(0, 0), [], s3);
      OneMore(s1, Retire(1, 0), [Allocate(0, 0)], s3);
      OneMore(s0, Allocate(0, 0), [Retire(1, 0), Allocate(0, 0)], s3);
    }
    var d := NoteIsWiped(s3);
    RunsJoin(s0, [Allocate(0, 0), Retire(1, 0), Allocate(0, 0)], s3, [CloseLine(2, 0), RecordNote(2), ClearNote(1)], d);
  }

  /**
   The reader's look at a cid and its clearing of the note are not one either: the cid it
   saw free is taken, the new socket's close is noted, and the reader then clears it.
   */
  lemma StaleLookLosesANote()
    ensures var events := [SeeUnused(1, 0), Allocate(0, 0), CloseLine(2, 0), RecordNote(2), DropNote(1)];
            exists s :: Runs(Initial(3), events, s) && s.slots[0] == Slot(true, 1) && Socket(0, 1) in s.handled
                        && s.closeSerial[0] == 0 && s.threads == [Idle, Idle, Idle] && s.finished == []
  {
    var s0 := Initial(3);
    var s1 := Step(s0, SeeUnused(1, 0));
    var s2 := Step(s1, Allocate(0, 0));
    assert s2.slots[0] == Slot(true, 1) && s2.threads == [Idle, Dropping(0), Idle];
    assert Runs(s0, [SeeUnused(1, 0), Allocate(0, 0)], s2) by {
      NoMore(s2);
      OneMore(s1, Allocate(0, 0), [], s2);
      OneMore(s0, SeeUnused(1, 0), [Allocate(0, 0)], s2);
    }
    var d := NoteIsDropped(s2);
    RunsJoin(s0, [SeeUnused(1, 0), Allocate(0, 0)], s2, [CloseLine(2, 0), RecordNote(2), DropNote(1)], d);
  }

  lemma NoteIsDropped(s: State) returns (d: State)
    requires |s.slots| == |s.closeSerial| == 6 && s.slots[0] == Slot(true, 1) && s.threads == [Idle, Dropping(0), Idle] && s.finished == []
    ensures Runs(s, [CloseLine(2, 0), RecordNote(2), DropNote(1)], d)
    ensures d.slots == s.slots && |d.closeSerial| == 6 && d.closeSerial[0] == 0 && d.threads == [Idle, Idle, Idle]
    ensures Socket(0, 1) in d.handled && d.finished == []
  {
    var a := Step(s, CloseLine(2, 0));
    assert a.threads[1] == Dropping(0) && a.threads[2] == Noting(0, 1);
    var b := Step(a, RecordNote(2));
    assert b.threads[1] == Dropping(0);
    d := Step(b, DropNote(1));
    NoMore(d);
    OneMore(b, DropNote(1), [], d);
    OneMore(a, RecordNote(2), [DropNote(1)], d);
    OneMore(s, CloseLine(2, 0), [RecordNote(2), DropNote(1)], d);
  }

  lemma NoteIsWiped(s: State) returns (d: State)
    requires |s.slots| == |s.closeSerial| == 6 && s.slots[0] == Slot(true, 2) && s.threads == [Idle, Retiring(0), Idle] && s.finished == []
    ensures Runs(s, [CloseLine(2, 0), RecordNote(2), ClearNote(1)], d)
    ensures d.slots == s.slots && |d.closeSerial| == 6 && d.closeSerial[0] == 0 && d.threads == [Idle, Idle, Idle]
    ensures Socket(0, 2) in d.handled && d.finished == []
  {
    var a := Step(s, CloseLine(2, 0));
    assert a.threads[1] == Retiring(0) && a.threads[2] == Noting(0, 2);
    var b := Step(a, RecordNote(2));
    assert b.threads[1] == Retiring(0);
    d := Step(b, ClearNote(1));
    NoMore(d);
    OneMore(b, ClearNote(1), [], d);
    OneMore(a, RecordNote(2), [ClearNote(1)], d);
    OneMore(s, CloseLine(2, 0), [RecordNote(2), ClearNote(1)], d);
  }

  lemma {:induction false} RunsJoin(s: State, first: seq<Event>, m: State, second: seq<Event>, t: State)
    requires Runs(s, first, m) && Runs(m, second, t)
    ensures Runs(s, first + second, t)
    decreases |first|
  {
    hide Step, Enabled;
    if first == [] {
      assert first + second == second;
    } else {
      assert (first + second)[1..] == first[1..] + second;
      RunsJoin(Step(s, first[0]), first[1..], m, second, t);
    }
  }

  lemma NoMore(s: State)
    ensures Runs(s, [], s)
  {
  }

  lemma OneMore(s: State, e: Event, events: seq<Event>, t: State)
    requires Enabled(s, e) && Runs(Step(s, e), events, t)
    ensures Runs(s, [e] + events, t)
  {
    assert ([e] + events)[1..] == events;
  }
}

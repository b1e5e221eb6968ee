/**
 The receive side of the Air780E: a module that announces every arrival once, a handler for
 its lines, and a reader that works in budgeted passes. A step is one critical section or
 one read; retiring a slot is one step, and so is a read with the dispatch of its bytes.
 */
module Air780eReceive {
  import opened Bytes

  const READ_CHUNK: nat := 720
  const MAX_DRAIN_PER_WAKE: nat := 8 * 1024

  /**
   One cid. In the module: `live` while reads are answered, `buffer` what is still to be
   read, `arrivals` and `closes` lines on their way. In the HAL: `pending`, and `note`, the
   serial a peer close was recorded for. `tookIn` and `delivered` are the current socket's.
   */
  datatype Cid = Cid(
    used: bool,
    serial: nat,
    live: bool,
    buffer: seq<Byte>,
    arrivals: nat,
    closes: nat,
    pending: bool,
    note: nat,
    tookIn: seq<Byte>,
    delivered: seq<Byte>)

  /**
     Pass: about to drain the next of the cids this pass took
     Reading: at the top of DrainOneCid's loop
     Asking: the cid was in use; the read command comes next
     Dropping: found the cid not in use; its close note is cleared next
     Ending, Acting: before the two halves of FinishClosedCid
     Rearming: stopped by the budget
   */
  datatype Reader =
    | Waiting
    | Pass(todo: seq<nat>)
    | Reading(cid: nat, drained: nat, todo: seq<nat>)
    | Asking(cid: nat, drained: nat, todo: seq<nat>)
    | Dropping(cid: nat, todo: seq<nat>)
    | Ending(cid: nat, todo: seq<nat>)
    | Acting(cid: nat, serial: nat, todo: seq<nat>)
    | Rearming(cid: nat, todo: seq<nat>)

  datatype Handler = Free | Noting(cid: nat, serial: nat)

  /** What the reader did, in order. `Dry` is a read that returned nothing or was refused. */
  datatype Act = Read(cid: nat, data: seq<Byte>) | Dry(cid: nat) | Closes(cid: nat, serial: nat)

  datatype State = State(cids: seq<Cid>, nextSerial: nat, reader: Reader, handler: Handler, log: seq<Act>)

  datatype Event =
    | TakesIn(cid: nat, data: seq<Byte>)
    | PeerCloses(cid: nat, drops: bool)
    | ArrivalLine(cid: nat)
    | CloseLine(cid: nat)
    | RecordNote
    | Allocate(cid: nat)
    | Retire(cid: nat)
    | ReaderSteps

  function Todo(r: Reader): seq<nat>
  {
    if r.Waiting? then [] else r.todo
  }

  /** The reader has a read of this cid ahead of it, or is about to raise its flag again. */
  predicate WillRead(r: Reader, cid: nat)
  {
    cid in Todo(r) || ((r.Reading? || r.Asking? || r.Rearming?) && r.cid == cid)
  }

  function PendingFrom(cids: seq<Cid>, i: nat): (todo: seq<nat>)
    requires i <= |cids|
    ensures forall c :: c in todo <==> i <= c < |cids| && cids[c].pending
    decreases |cids| - i
  {
    if i == |cids| then [] else (if cids[i].pending then [i] else []) + PendingFrom(cids, i + 1)
  }

  predicate Enabled(s: State, e: Event)
  {
    match e
    case TakesIn(c, _) => c < |s.cids| && s.cids[c].used && s.cids[c].live
    case PeerCloses(c, _) => c < |s.cids| && s.cids[c].used && s.cids[c].live
    case ArrivalLine(c) => c < |s.cids| && s.cids[c].arrivals > 0 && s.handler.Free?
    case CloseLine(c) => c < |s.cids| && s.cids[c].closes > 0 && s.handler.Free?
    case RecordNote => s.handler.Noting? && s.handler.cid < |s.cids|
    case Allocate(c) => c < |s.cids| && !s.cids[c].used
    case Retire(c) => c < |s.cids| && s.cids[c].used
    case ReaderSteps =>
      match s.reader
      case Waiting => true
      case Pass(todo) => todo != [] ==> todo[0] < |s.cids|
      case _ => s.reader.cid < |s.cids|
  }

  function With(s: State, c: nat, x: Cid): State
    requires c < |s.cids|
  {
    s.(cids := s.cids[c := x])
  }

  function Retired(x: Cid): Cid
  {
    x.(used := false, serial := 0, live := false, buffer := [], pending := false, note := 0)
  }

  function ReaderStep(s: State): State
    requires Enabled(s, ReaderSteps)
  {
    match s.reader
    case Waiting =>
      s.(reader := Pass(PendingFrom(s.cids, 0)),
         cids := seq(|s.cids|, i requires 0 <= i < |s.cids| => s.cids[i].(pending := false)))
    case Pass(todo) =>
      s.(reader := if todo == [] then Waiting else Reading(todo[0], 0, todo[1..]))
    case Reading(c, drained, todo) =>
      if drained >= MAX_DRAIN_PER_WAKE then s.(reader := Rearming(c, todo))
      else if !s.cids[c].used then s.(reader := Dropping(c, todo))
      else s.(reader := Asking(c, drained, todo))
    case Asking(c, drained, todo) =>
      var x := s.cids[c];
      if !x.live || x.buffer == [] then s.(reader := Ending(c, todo), log := s.log + [Dry(c)])
      else
        var n := if |x.buffer| < READ_CHUNK then |x.buffer| else READ_CHUNK;
        With(s, c, x.(buffer := x.buffer[n..], delivered := x.delivered + x.buffer[..n])).(
          reader := Reading(c, drained + n, todo), log := s.log + [Read(c, x.buffer[..n])])
    case Dropping(c, todo) =>
      With(s, c, s.cids[c].(note := 0)).(reader := Pass(todo))
    case Ending(c, todo) =>
      With(s, c, s.cids[c].(note := 0)).(
        reader := if s.cids[c].note == 0 then Pass(todo) else Acting(c, s.cids[c].note, todo))
    case Acting(c, serial, todo) =>
      if s.cids[c].used && s.cids[c].serial == serial then
        With(s, c, Retired(s.cids[c])).(reader := Pass(todo), log := s.log + [Closes(c, serial)])
      else s.(reader := Pass(todo))
    case Rearming(c, todo) =>
      With(s, c, s.cids[c].(pending := true)).(reader := Pass(todo))
  }

  function Step(s: State, e: Event): State
    requires Enabled(s, e)
  {
    match e
    case TakesIn(c, data) =>
      var x := s.cids[c];
      With(s, c, x.(buffer := x.buffer + data, tookIn := x.tookIn + data, arrivals := x.arrivals + 1))
    case PeerCloses(c, drops) =>
      var x := s.cids[c].(closes := s.cids[c].closes + 1);
      With(s, c, if drops then x.(live := false, buffer := []) else x)
    case ArrivalLine(c) =>
      With(s, c, s.cids[c].(arrivals := s.cids[c].arrivals - 1, pending := true))
    case CloseLine(c) =>
      With(s, c, s.cids[c].(closes := s.cids[c].closes - 1)).(
        handler := if s.cids[c].used then Noting(c, s.cids[c].serial) else Free)
    case RecordNote =>
      var c := s.handler.cid;
      With(s, c, s.cids[c].(note := s.handler.serial, pending := true)).(handler := Free)
    case Allocate(c) =>
      With(s, c, s.cids[c].(used := true, serial := s.nextSerial, live := true, buffer := [], tookIn := [], delivered := [])).(
        nextSerial := s.nextSerial + 1)
    case Retire(c) =>
      With(s, c, Retired(s.cids[c]))
    case ReaderSteps => ReaderStep(s)
  }

  function Initial(): State
  {
    State(seq(6, _ => Cid(false, 0, false, [], 0, 0, false, 0, [], [])), 1, Waiting, Free, [])
  }

  ghost predicate Runs(s: State, events: seq<Event>, t: State)
    decreases |events|
  {
    if events == [] then t == s
    else Enabled(s, events[0]) && Runs(Step(s, events[0]), events[1..], t)
  }

  // ---------------------------------------------------------------------------
  // What holds in every state
  // ---------------------------------------------------------------------------

  predicate NotStranded(x: Cid, willRead: bool)
  {
    x.used && x.buffer != [] ==> x.pending || x.arrivals > 0 || willRead
  }

  /** The current socket's bytes are delivered in order, and the rest is still in the module. */
  predicate InOrder(x: Cid)
  {
    && (x.used && x.live ==> x.tookIn == x.delivered + x.buffer)
    && (!x.live ==> x.buffer == [])
  }

  /** A close is acted on right after a read of the same cid that brought nothing. */
  predicate CloseFollowsDry(log: seq<Act>)
  {
    forall i :: 0 <= i < |log| && log[i].Closes? ==> i > 0 && log[i - 1] == Dry(log[i].cid)
  }

  ghost predicate CidsOk(s: State)
  {
    forall c :: 0 <= c < |s.cids| ==> NotStranded(s.cids[c], WillRead(s.reader, c)) && InOrder(s.cids[c])
  }

  ghost predicate InRange(s: State)
  {
    && (forall c :: c in Todo(s.reader) ==> c < |s.cids|)
    && (!s.reader.Waiting? && !s.reader.Pass? ==> s.reader.cid < |s.cids|)
  }

  predicate LogOk(s: State)
  {
    && CloseFollowsDry(s.log)
    && (s.reader.Ending? || s.reader.Acting? ==> s.log != [] && s.log[|s.log| - 1] == Dry(s.reader.cid))
  }

  ghost predicate Inv(s: State)
  {
    && |s.cids| == 6
    && CidsOk(s)
    && InRange(s)
    && LogOk(s)
    && (s.handler.Noting? ==> s.handler.cid < 6)
  }

  lemma OtherStepKeepsInv(s: State, e: Event)
    requires Inv(s) && Enabled(s, e) && !e.ReaderSteps?
    ensures Inv(Step(s, e))
  {
    hide CloseFollowsDry, WillRead;
    var t := Step(s, e);
    forall c | 0 <= c < |t.cids| ensures NotStranded(t.cids[c], WillRead(t.reader, c)) && InOrder(t.cids[c]) {
      assert NotStranded(s.cids[c], WillRead(s.reader, c)) && InOrder(s.cids[c]);
    }
  }

  lemma ReaderStaysInRange(s: State)
    requires InRange(s) && Enabled(s, ReaderSteps)
    ensures |ReaderStep(s).cids| == |s.cids| && InRange(ReaderStep(s))
  {
    var t := ReaderStep(s);
    forall c | c in Todo(t.reader) ensures c < |s.cids| {
      if s.reader.Waiting? {
        assert c in PendingFrom(s.cids, 0);
      } else {
        assert c in Todo(s.reader);
      }
    }
  }

  lemma ReaderStepKeepsLog(s: State)
    requires LogOk(s) && Enabled(s, ReaderSteps)
    ensures LogOk(ReaderStep(s))
  {
  }

  lemma CollectStrandsNothing(s: State)
    requires CidsOk(s) && s.reader.Waiting?
    ensures CidsOk(ReaderStep(s))
  {
    var t := ReaderStep(s);
    forall c | 0 <= c < |t.cids| ensures NotStranded(t.cids[c], WillRead(t.reader, c)) && InOrder(t.cids[c]) {
      assert NotStranded(s.cids[c], WillRead(s.reader, c)) && InOrder(s.cids[c]);
    }
  }

  lemma OneCidChanges(s: State, t: State, r: nat)
    requires CidsOk(s) && r < |s.cids| == |t.cids|
    requires forall c :: 0 <= c < |s.cids| && c != r ==> t.cids[c] == s.cids[c] && (WillRead(s.reader, c) ==> WillRead(t.reader, c))
    requires NotStranded(t.cids[r], WillRead(t.reader, r)) && InOrder(t.cids[r])
    ensures CidsOk(t)
  {
    forall c | 0 <= c < |t.cids| ensures NotStranded(t.cids[c], WillRead(t.reader, c)) && InOrder(t.cids[c]) {
      assert NotStranded(s.cids[c], WillRead(s.reader, c)) && InOrder(s.cids[c]);
    }
  }

  lemma PassStrandsNothing(s: State)
    requires CidsOk(s) && InRange(s) && s.reader.Pass? && Enabled(s, ReaderSteps)
    ensures CidsOk(ReaderStep(s))
  {
    hide NotStranded, InOrder;
    var t := ReaderStep(s);
    assert forall c :: WillRead(s.reader, c) ==> WillRead(t.reader, c);
    if s.reader.todo != [] {
      var r := s.reader.todo[0];
      assert WillRead(s.reader, r);
      OneCidChanges(s, t, r);
    }
  }

  lemma DrainStrandsNothing(s: State)
    requires CidsOk(s) && InRange(s) && !s.reader.Waiting? && !s.reader.Pass? && Enabled(s, ReaderSteps)
    ensures CidsOk(ReaderStep(s))
  {
    var t, r := ReaderStep(s), s.reader.cid;
    assert NotStranded(s.cids[r], WillRead(s.reader, r)) && InOrder(s.cids[r]);
    assert forall c :: c != r && WillRead(s.reader, c) ==> WillRead(t.reader, c);
    OneCidChanges(s, t, r);
  }

  lemma ReaderStepKeepsInv(s: State)
    requires Inv(s) && Enabled(s, ReaderSteps)
    ensures Inv(Step(s, ReaderSteps))
  {
    hide ReaderStep, NotStranded, InOrder, CloseFollowsDry, WillRead;
    ReaderStaysInRange(s);
    ReaderStepKeepsLog(s);
    HandlerUntouched(s);
    if s.reader.Waiting? {
      CollectStrandsNothing(s);
    } else if s.reader.Pass? {
      PassStrandsNothing(s);
    } else {
      DrainStrandsNothing(s);
    }
  }

  lemma HandlerUntouched(s: State)
    requires Enabled(s, ReaderSteps)
    ensures ReaderStep(s).handler == s.handler
  {
  }

  lemma {:induction false} RunKeepsInv(s: State, events: seq<Event>, t: State)
    requires Inv(s) && Runs(s, events, t)
    ensures Inv(t)
    decreases |events|
  {
    hide Inv, Step, Enabled;
    if events != [] {
      var e := events[0];
      assert Enabled(s, e);
      if e == ReaderSteps {
        ReaderStepKeepsInv(s);
      } else {
        OtherStepKeepsInv(s, e);
      }
      RunKeepsInv(Step(s, e), events[1..], t);
    }
  }

  // ---------------------------------------------------------------------------
  // Who has a cid
  // ---------------------------------------------------------------------------

  /** The step acted on a peer's close of the cid. */
  predicate ActsOnClose(s: State, e: Event, c: nat)
    requires Enabled(s, e)
  {
    |Step(s, e).log| > |s.log| && Step(s, e).log[|s.log|].Closes? && Step(s, e).log[|s.log|].cid == c
  }

  /** Of the run's Allocate, Retire and acted-on close of the cid, the last is the Allocate; `taken` says how it stood before. */
  predicate LastWasAllocate(s: State, events: seq<Event>, c: nat, taken: bool)
    decreases |events|
  {
    if events == [] || !Enabled(s, events[0]) then taken
    else
      var e := events[0];
      var now := if e == Allocate(c) then true else if e == Retire(c) || ActsOnClose(s, e, c) then false else taken;
      LastWasAllocate(Step(s, e), events[1..], c, now)
  }

  lemma StepTakesOrFrees(s: State, e: Event, c: nat)
    requires InRange(s) && Enabled(s, e) && c < |s.cids|
    ensures |Step(s, e).cids| == |s.cids|
    ensures Step(s, e).cids[c].used ==
            if e == Allocate(c) then true else if e == Retire(c) || ActsOnClose(s, e, c) then false else s.cids[c].used
  {
  }

  lemma {:induction false} RunTakesAndFrees(s: State, events: seq<Event>, t: State, c: nat)
    requires Inv(s) && Runs(s, events, t) && c < 6
    ensures Inv(t) && t.cids[c].used == LastWasAllocate(s, events, c, s.cids[c].used)
    decreases |events|
  {
    hide Step, Enabled, CidsOk, LogOk, ActsOnClose;
    if events != [] {
      var e := events[0];
      assert Enabled(s, e);
      StepTakesOrFrees(s, e, c);
      if e == ReaderSteps {
        ReaderStepKeepsInv(s);
      } else {
        OtherStepKeepsInv(s, e);
      }
      RunTakesAndFrees(Step(s, e), events[1..], t, c);
    }
  }

  /**
   Over every run a cid is in use exactly when the last thing that took or freed it was an
   allocation: a retirement and a close that was acted on both give it back.
   */
  lemma InUseExactlySinceAllocated(events: seq<Event>, s: State, c: nat)
    requires Runs(Initial(), events, s) && c < 6
    ensures c < |s.cids| && (s.cids[c].used <==> LastWasAllocate(Initial(), events, c, false))
  {
    hide Runs, LastWasAllocate;
    RunTakesAndFrees(Initial(), events, s, c);
  }

  /**
   In every reachable state, unread bytes of a cid in use have a wake-up behind them: its
   flag, an arrival line on its way, or a pass that is still to read it.
   */
  lemma NothingIsStranded(events: seq<Event>, s: State, c: nat)
    requires Runs(Initial(), events, s)
    requires c < |s.cids| && s.cids[c].used && s.cids[c].buffer != []
    ensures s.cids[c].pending || s.cids[c].arrivals > 0 || WillRead(s.reader, c)
  {
    RunKeepsInv(Initial(), events, s);
    assert NotStranded(s.cids[c], WillRead(s.reader, c));
  }

  /** Once every line is handled and the reader waits with no flag up, everything is delivered, in order. */
  lemma QuietMeansDelivered(events: seq<Event>, s: State, c: nat)
    requires Runs(Initial(), events, s)
    requires s.reader.Waiting? && c < |s.cids| && s.cids[c].used && !s.cids[c].pending && s.cids[c].arrivals == 0
    ensures s.cids[c].buffer == []
    ensures s.cids[c].live ==> s.cids[c].delivered == s.cids[c].tookIn
  {
    RunKeepsInv(Initial(), events, s);
    assert NotStranded(s.cids[c], WillRead(s.reader, c)) && InOrder(s.cids[c]);
  }

  /** At every moment what a client has been given is the head of what its socket took in. */
  lemma DeliveredInOrder(events: seq<Event>, s: State, c: nat)
    requires Runs(Initial(), events, s)
    requires c < |s.cids| && s.cids[c].used && s.cids[c].live
    ensures s.cids[c].tookIn == s.cids[c].delivered + s.cids[c].buffer
  {
    RunKeepsInv(Initial(), events, s);
    assert InOrder(s.cids[c]);
  }

  /** A noted close is acted on only after a read of its cid that returned nothing or was refused. */
  lemma CloseComesLast(events: seq<Event>, s: State, i: nat)
    requires Runs(Initial(), events, s)
    requires i < |s.log| && s.log[i].Closes?
    ensures i > 0 && s.log[i - 1] == Dry(s.log[i].cid)
  {
    hide Runs;
    RunKeepsInv(Initial(), events, s);
  }

  /** A dry read of a socket that still answers finds everything it took in delivered. */
  lemma DryMeansDelivered(events: seq<Event>, s: State)
    requires Runs(Initial(), events, s)
    requires s.reader.Asking? && s.reader.cid < |s.cids| && s.cids[s.reader.cid].used && s.cids[s.reader.cid].live
    requires Enabled(s, ReaderSteps) && Step(s, ReaderSteps).reader.Ending?
    ensures s.cids[s.reader.cid].delivered == s.cids[s.reader.cid].tookIn
  {
    RunKeepsInv(Initial(), events, s);
    assert InOrder(s.cids[s.reader.cid]);
  }
}

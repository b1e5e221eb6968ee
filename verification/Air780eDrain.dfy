/** The drain loop of the Air780E, run to its end with nobody else at work. */
module Air780eDrain {
  import opened Bytes
  import opened Air780eReceive

  /** One pass reads whole chunks until the budget is reached. */
  const PASS_BYTES: nat := 8640

  /** FinishClosedCid: a noted close of this very socket ends it. */
  function Finished(x: Cid): Cid
  {
    if x.note != 0 && x.used && x.serial == x.note then Retired(x) else x.(note := 0)
  }

  function Unread(x: Cid): Cid
  {
    if x.live then x.(delivered := x.delivered + x.buffer, buffer := []) else x
  }

  /** What a drain run to its end makes of a cid: read dry, and only then closed. */
  function Drained(x: Cid): Cid
  {
    if !x.pending then x
    else if !x.used then x.(pending := false, note := 0)
    else Finished(Unread(x.(pending := false)))
  }

  function PartlyRead(x: Cid, n: nat): Cid
    requires n <= |x.buffer|
  {
    x.(delivered := x.delivered + x.buffer[..n], buffer := x.buffer[n..])
  }

  function Total(cids: seq<Cid>): nat
  {
    if cids == [] then 0 else Total(cids[..|cids| - 1]) + |cids[|cids| - 1].buffer|
  }

  lemma {:induction false} TotalAfter(cids: seq<Cid>, i: nat, x: Cid)
    requires i < |cids|
    ensures Total(cids[i := x]) + |cids[i].buffer| == Total(cids) + |x.buffer|
    decreases |cids|
  {
    var n := |cids| - 1;
    if i < n {
      assert cids[i := x][..n] == cids[..n][i := x];
      TotalAfter(cids[..n], i, x);
    } else {
      assert cids[i := x][..n] == cids[..n];
    }
  }

  /** One turn of DrainOneCid with `drained` bytes behind it, and the flag raised if it stops short. */
  function Turn(x: Cid, drained: nat): Cid
    decreases |x.buffer|
  {
    if drained >= MAX_DRAIN_PER_WAKE then x.(pending := true)
    else if !x.used then x.(note := 0)
    else if !x.live || x.buffer == [] then Finished(x)
    else
      var n := if |x.buffer| < READ_CHUNK then |x.buffer| else READ_CHUNK;
      Turn(PartlyRead(x, n), drained + n)
  }

  lemma TurnReads(x: Cid, drained: nat)
    requires drained < MAX_DRAIN_PER_WAKE && x.used && x.live && x.buffer != []
    ensures var n := if |x.buffer| < READ_CHUNK then |x.buffer| else READ_CHUNK;
            Turn(x, drained) == Turn(PartlyRead(x, n), drained + n)
  {
  }

  lemma TurnStops(x: Cid, drained: nat)
    ensures Turn(x, drained) ==
            if drained >= MAX_DRAIN_PER_WAKE then x.(pending := true)
            else if !x.used then x.(note := 0)
            else if !x.live || x.buffer == [] then Finished(x)
            else Turn(x, drained)
  {
  }

  lemma DrainInParts(x: Cid, n: nat)
    requires x.used && x.live && n <= |x.buffer|
    ensures Drained(PartlyRead(x, n).(pending := true)) == Drained(x.(pending := true))
  {
    assert x.delivered + x.buffer[..n] + x.buffer[n..] == x.delivered + x.buffer;
  }

  lemma DrainedStays(x: Cid)
    ensures Drained(Drained(x)) == Drained(x) && !Drained(x).pending
  {
  }

  class Receiver {
    const cids: array<Cid>
    ghost var log: seq<Act>

    ghost predicate Valid()
      reads this, cids
    {
      cids.Length == 6 && CloseFollowsDry(log)
    }

    constructor ()
      ensures Valid() && fresh(cids)
    {
      cids := new Cid[6](_ => Cid(false, 0, false, [], 0, 0, false, 0, [], []));
      log := [];
    }

    method FinishClosedCid(id: nat)
      requires Valid() && id < 6 && log != [] && log[|log| - 1] == Dry(id)
      modifies this, cids
      ensures Valid() && cids[..] == old(cids[..])[id := Finished(old(cids[id]))]
      ensures var x := old(cids[id]);
              && cids[id].note == 0
              && (if x.used && x.note != 0 && x.note == x.serial then !cids[id].used && !cids[id].pending && log == old(log) + [Closes(id, x.serial)]
                  else cids[id] == x.(note := 0) && log == old(log))
    {
      var serial := cids[id].note;
      cids[id] := cids[id].(note := 0);
      if serial == 0 {
        return;
      }
      if !(cids[id].used && cids[id].serial == serial) {
        return;
      }
      cids[id] := Retired(cids[id]);
      log := log + [Closes(id, serial)];
    }

    /** True when the pass stopped at its budget and has to come back. */
    method DrainOneCid(id: nat) returns (more: bool)
      requires Valid() && id < 6
      requires !cids[id].live ==> cids[id].buffer == []
      modifies this, cids
      ensures Valid()
      ensures var x := old(cids[id]);
              && (more <==> x.used && x.live && |x.buffer| >= MAX_DRAIN_PER_WAKE)
              && cids[..] == old(cids[..])[id :=
                   if more then PartlyRead(x, if |x.buffer| < PASS_BYTES then |x.buffer| else PASS_BYTES)
                   else if !x.used then x.(note := 0)
                   else Finished(Unread(x))]
      ensures Turn(old(cids[id]), 0) == if more then cids[id].(pending := true) else cids[id]
    {
      hide Turn, Finished;
      ghost var x := cids[id];
      ghost var before := cids[..];
      var drained := 0;
      NothingReadYet(x);
      assert before[id := x] == before;
      while drained < MAX_DRAIN_PER_WAKE
        invariant Valid() && drained <= |x.buffer|
        invariant cids[..] == before[id := PartlyRead(x, drained)]
        invariant drained > 0 ==> x.used && x.live
        invariant drained < |x.buffer| ==> drained % READ_CHUNK == 0
        invariant drained <= PASS_BYTES
        invariant Turn(x, 0) == Turn(PartlyRead(x, drained), drained)
        decreases |x.buffer| - drained, if cids[id].used then 1 else 0
      {
        TurnStops(PartlyRead(x, drained), drained);
        if !cids[id].used {
          cids[id] := cids[id].(note := 0);
          assert cids[..] == before[id := x.(note := 0)];
          return false;
        }
        if !cids[id].live {
          log := log + [Dry(id)];
          assert Unread(x) == x;
          FinishClosedCid(id);
          assert cids[..] == before[id := Finished(Unread(x))];
          return false;
        }
        var left := cids[id].buffer;
        var returned := if |left| < READ_CHUNK then |left| else READ_CHUNK;
        if returned == 0 {
          log := log + [Dry(id)];
          assert PartlyRead(x, drained) == Unread(x);
          FinishClosedCid(id);
          assert cids[..] == before[id := Finished(Unread(x))];
          return false;
        }
        cids[id] := PartlyRead(cids[id], returned);
        log := log + [Read(id, left[..returned])];
        ReadOn(x, drained, returned);
        TurnReads(PartlyRead(x, drained), drained);
        drained := drained + returned;
      }
      TurnStops(PartlyRead(x, drained), drained);
      return true;
    }

    /** Repeats passes until no cid reports more. */
    method DrainPending()
      requires Valid()
      requires forall c :: 0 <= c < 6 && !cids[c].live ==> cids[c].buffer == []
      modifies this, cids
      ensures Valid()
      ensures forall c :: 0 <= c < 6 ==> cids[c] == Drained(old(cids[c]))
      ensures forall c :: 0 <= c < 6 && old(cids[c]).pending && old(cids[c]).used && old(cids[c]).live ==>
                cids[c].delivered == old(cids[c]).delivered + old(cids[c]).buffer && cids[c].buffer == []
      ensures forall c :: 0 <= c < 6 && old(cids[c]).pending && old(cids[c]).used ==>
                && !cids[c].pending && cids[c].note == 0
                && (cids[c].used <==> old(cids[c]).note == 0 || old(cids[c]).note != old(cids[c]).serial)
                && (cids[c].used ==> cids[c].serial == old(cids[c]).serial && cids[c].live == old(cids[c]).live)
                && (!cids[c].used ==> !cids[c].live && cids[c].buffer == [])
      ensures forall c :: 0 <= c < 6 && !old(cids[c]).pending ==> cids[c] == old(cids[c])
    {
      ghost var start := cids[..];
      while true
        invariant Valid()
        invariant forall c :: 0 <= c < 6 && !cids[c].live ==> cids[c].buffer == []
        invariant forall c :: 0 <= c < 6 ==> Drained(cids[c]) == Drained(start[c])
        decreases Total(cids[..]), if exists c :: 0 <= c < 6 && cids[c].pending then 1 else 0
      {
        ghost var atTop := cids[..];
        var todo := TakePending();
        if todo == [] {
          assert forall c :: 0 <= c < 6 ==> !atTop[c].pending;
          return;
        }
        assert todo[0] in todo && atTop[todo[0]].pending;
        DrainEach(todo, atTop);
      }
    }

    /** Takes the flags that are up, and lowers them. */
    method TakePending() returns (todo: seq<nat>)
      requires Valid()
      modifies cids
      ensures Valid()
      ensures forall c :: 0 <= c < 6 ==> cids[c] == old(cids[c]).(pending := false)
      ensures forall c :: c in todo <==> 0 <= c < 6 && old(cids[c]).pending
      ensures forall i, j :: 0 <= i < j < |todo| ==> todo[i] != todo[j]
      ensures Total(cids[..]) == Total(old(cids[..]))
    {
      todo := [];
      for i := 0 to 6
        invariant Valid()
        invariant forall c :: 0 <= c < i ==> cids[c] == old(cids[c]).(pending := false)
        invariant forall c :: i <= c < 6 ==> cids[c] == old(cids[c])
        invariant forall c :: c in todo <==> 0 <= c < i && old(cids[c]).pending
        invariant forall j, k :: 0 <= j < k < |todo| ==> todo[j] != todo[k]
        invariant Total(cids[..]) == Total(old(cids[..]))
      {
        ghost var before := cids[..];
        if cids[i].pending {
          TotalAfter(before, i, cids[i].(pending := false));
          cids[i] := cids[i].(pending := false);
          assert cids[..] == before[i := cids[i]];
          todo := todo + [i];
        }
      }
    }

    /** One pass over the cids taken, raising again the flag of each that has more. */
    method DrainEach(todo: seq<nat>, ghost atTop: seq<Cid>)
      requires Valid() && |atTop| == 6
      requires forall c :: c in todo <==> 0 <= c < 6 && atTop[c].pending
      requires forall i, j :: 0 <= i < j < |todo| ==> todo[i] != todo[j]
      requires forall c :: 0 <= c < 6 ==> cids[c] == atTop[c].(pending := false)
      requires forall c :: 0 <= c < 6 && !cids[c].live ==> cids[c].buffer == []
      requires Total(cids[..]) == Total(atTop)
      modifies this, cids
      ensures Valid()
      ensures forall c :: 0 <= c < 6 ==> Drained(cids[c]) == Drained(atTop[c])
      ensures forall c :: 0 <= c < 6 && !cids[c].live ==> cids[c].buffer == []
      ensures Total(cids[..]) <= Total(atTop)
      ensures Total(cids[..]) < Total(atTop) || forall c :: 0 <= c < 6 ==> !cids[c].pending
    {
      hide Drained, Total, CloseFollowsDry;
      assert todo[0..] == todo && forall k :: 0 <= k < |todo| ==> todo[k] in todo;
      for i := 0 to |todo|
        invariant Valid()
        invariant forall k :: i <= k < |todo| ==> todo[k] < 6 && cids[todo[k]] == atTop[todo[k]].(pending := false)
        invariant forall c :: 0 <= c < 6 && c !in todo[i..] ==> Drained(cids[c]) == Drained(atTop[c])
        invariant forall c :: 0 <= c < 6 && !cids[c].live ==> cids[c].buffer == []
        invariant Total(cids[..]) <= Total(atTop)
        invariant Total(cids[..]) < Total(atTop) || forall c :: 0 <= c < 6 ==> !cids[c].pending
      {
        var id := todo[i];
        assert id in todo && id in todo[i..];
        DrainTurn(id, atTop[id]);
        assert forall c :: c in todo[i..] ==> c == id || c in todo[i + 1..];
      }
    }

    /** A pass over one cid, and its flag raised again if the pass stopped short. */
    method DrainTurn(id: nat, ghost was: Cid)
      requires Valid() && id < 6
      requires was.pending && cids[id] == was.(pending := false)
      requires !was.live ==> was.buffer == []
      modifies this, cids
      ensures Valid()
      ensures forall c :: 0 <= c < 6 && c != id ==> cids[c] == old(cids[c])
      ensures cids[id] == Turn(old(cids[id]), 0)
      ensures Drained(cids[id]) == Drained(was)
      ensures !cids[id].live ==> cids[id].buffer == []
      ensures Total(cids[..]) <= Total(old(cids[..]))
      ensures Total(cids[..]) < Total(old(cids[..])) || !cids[id].pending
    {
      ghost var before := cids[..];
      var more := DrainOneCid(id);
      if more {
        ghost var n := if |was.buffer| < PASS_BYTES then |was.buffer| else PASS_BYTES;
        DrainInParts(was, n);
        cids[id] := cids[id].(pending := true);
      } else {
        DrainedStays(was);
      }
      assert cids[..] == before[id := cids[id]];
      TotalAfter(before, id, cids[id]);
      assert |cids[id].buffer| <= |before[id].buffer|;
    }
  }

  lemma NothingReadYet(x: Cid)
    ensures PartlyRead(x, 0) == x
  {
    assert x.delivered + x.buffer[..0] == x.delivered;
  }

  /** Two reads in a row are one longer read; and the budget is a whole number of chunks away. */
  lemma ReadOn(x: Cid, drained: nat, returned: nat)
    requires drained + returned <= |x.buffer|
    ensures PartlyRead(PartlyRead(x, drained), returned) == PartlyRead(x, drained + returned)
  {
    assert x.buffer[drained..][..returned] == x.buffer[drained..drained + returned];
    assert x.buffer[..drained] + x.buffer[drained..drained + returned] == x.buffer[..drained + returned];
    assert x.delivered + x.buffer[..drained] + x.buffer[drained..drained + returned] == x.delivered + x.buffer[..drained + returned];
  }

  // ---------------------------------------------------------------------------
  // The same loop, step by step among everything else
  // ---------------------------------------------------------------------------

  lemma OneMore(s: State, events: seq<Event>, t: State)
    requires Enabled(s, ReaderSteps) && Runs(Step(s, ReaderSteps), events, t)
    ensures Runs(s, [ReaderSteps] + events, t)
  {
    assert ([ReaderSteps] + events)[1..] == events;
  }

  lemma FinishSteps(s: State) returns (events: seq<Event>, t: State)
    requires s.reader.Ending? && s.reader.cid < |s.cids|
    ensures Runs(s, events, t) && forall e <- events :: e == ReaderSteps
    ensures t.cids == s.cids[s.reader.cid := Finished(s.cids[s.reader.cid])] && t.reader == Pass(s.reader.todo)
  {
    var a := Step(s, ReaderSteps);
    if a.reader.Acting? {
      t := Step(a, ReaderSteps);
      OneMore(a, [], t);
      OneMore(s, [ReaderSteps], t);
      events := [ReaderSteps] + [ReaderSteps];
    } else {
      t := a;
      OneMore(s, [], t);
      events := [ReaderSteps];
    }
  }

  /** Left alone, the reader of the step model makes of a cid what DrainOneCid makes of it. */
  lemma {:induction false} ReaderTakesTheSameTurn(s: State) returns (events: seq<Event>, t: State)
    requires s.reader.Reading? && s.reader.cid < |s.cids|
    ensures Runs(s, events, t) && forall e <- events :: e == ReaderSteps
    ensures t.cids == s.cids[s.reader.cid := Turn(s.cids[s.reader.cid], s.reader.drained)] && t.reader == Pass(s.reader.todo)
    decreases |s.cids[s.reader.cid].buffer|
  {
    hide Runs;
    var c, x := s.reader.cid, s.cids[s.reader.cid];
    var a := Step(s, ReaderSteps);
    var rest: seq<Event>;
    if a.reader.Rearming? || a.reader.Dropping? {
      t, rest := Step(a, ReaderSteps), [ReaderSteps];
      NoMore(t);
      OneMore(a, [], t);
      assert [ReaderSteps] + [] == rest;
    } else {
      var b := Step(a, ReaderSteps);
      var more: seq<Event>;
      if b.reader.Ending? {
        more, t := FinishSteps(b);
      } else {
        more, t := ReaderTakesTheSameTurn(b);
      }
      OneMore(a, more, t);
      rest := [ReaderSteps] + more;
    }
    OneMore(s, rest, t);
    events := [ReaderSteps] + rest;
  }

  lemma NoMore(s: State)
    ensures Runs(s, [], s)
  {
  }
}

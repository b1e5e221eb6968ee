/**
 Agreeing on a UART rate with a module that only hears at its own.

 `Link` is the environment: a host whose port may refuse a rate, and a module that
 may miss any command, answers only at the rate it is listening at, and reports that
 rate truthfully, as zero (automatic), or not at all.
 */
module BaudAlignment {
  import opened Wrappers
  import opened AtParser
  import opened Text

  const FACTORY_RATE: int := 115200
  const HIGHEST_KNOWN_RATE: int := 921600
  const CONFIRM_ATTEMPTS: nat := 4

  // ---------------------------------------------------------------------------
  // Answers
  // ---------------------------------------------------------------------------

  /** The line that carries the answer, found by name: other lines may be folded in ahead of it. */
  function IprLine(lines: seq<string>): Option<string>
  {
    if lines == [] then None
    else if StartsWith(TrimLeft(lines[0]), "+IPR") then Some(lines[0])
    else IprLine(lines[1..])
  }

  function ParseRate(line: string): Option<int>
  {
    ParseInt(StripKeyPrefix(line))
  }

  /** The rate an answer names, if it names one. */
  function Reported(lines: seq<string>): Option<int>
  {
    match IprLine(lines)
    case None => None
    case Some(line) => ParseRate(line)
  }

  predicate Truthful(lines: seq<string>, rate: int)
  {
    Reported(lines).Some? && Reported(lines).value > 0 ==> Reported(lines).value == rate
  }

  // ---------------------------------------------------------------------------
  // Whole numbers in a list of rates
  // ---------------------------------------------------------------------------

  predicate OccursAt(s: string, needle: string, p: nat)
  {
    p + |needle| <= |s| && s[p..p + |needle|] == needle
  }

  /** Digits that neither start nor end inside a longer number. */
  predicate MaximalRun(s: string, i: nat, j: nat)
  {
    && i < j <= |s| && AllDigits(s[i..j])
    && (i == 0 || !IsDigit(s[i - 1]))
    && (j == |s| || !IsDigit(s[j]))
  }

  predicate WholeAt(s: string, needle: string, p: nat)
  {
    OccursAt(s, needle, p) && MaximalRun(s, p, p + |needle|)
  }

  /** The first occurrence at or behind `from`, or the length of `s`. */
  function FindFrom(s: string, needle: string, from: nat): (at: nat)
    requires from <= |s| && needle != ""
    ensures from <= at <= |s|
    ensures at < |s| ==> OccursAt(s, needle, at)
    ensures forall q :: from <= q < at ==> !OccursAt(s, needle, q)
    decreases |s| - from
  {
    if from == |s| || OccursAt(s, needle, from) then from else FindFrom(s, needle, from + 1)
  }

  /** A number that starts inside an occurrence of another has a digit in front of it. */
  lemma NoWholeInside(s: string, needle: string, p: nat, q: nat)
    requires OccursAt(s, needle, p) && AllDigits(needle)
    requires p < q < p + |needle|
    ensures !WholeAt(s, needle, q)
  {
    assert s[q - 1] == s[p..p + |needle|][q - 1 - p];
  }

  /** Some whole number in the text is the decimal form of the rate. */
  ghost predicate Names(s: string, rate: nat)
  {
    exists i: nat, j: nat :: MaximalRun(s, i, j) && s[i..j] == Decimal(rate)
  }

  /**
   Whether an answer names a rate as a number of its own: exactly when some maximal run
   of digits in it is the decimal form of the rate. The search jumps over the whole of
   every occurrence it rejects, and misses nothing by it.
   */
  method ListsRate(supported: string, rate: nat) returns (listed: bool)
    ensures listed <==> Names(supported, rate)
  {
    var needle := Decimal(rate);
    var pos := FindFrom(supported, needle, 0);
    while pos < |supported|
      invariant pos <= |supported|
      invariant pos < |supported| ==> OccursAt(supported, needle, pos)
      invariant forall q :: 0 <= q < pos ==> !WholeAt(supported, needle, q)
      decreases |supported| - pos
    {
      var after := pos + |needle|;
      var starts := pos == 0 || !IsDigit(supported[pos - 1]);
      var ends := after >= |supported| || !IsDigit(supported[after]);
      if starts && ends {
        assert MaximalRun(supported, pos, after);
        return true;
      }
      assert !WholeAt(supported, needle, pos);
      forall q | pos < q < after ensures !WholeAt(supported, needle, q) {
        NoWholeInside(supported, needle, pos, q);
      }
      pos := FindFrom(supported, needle, after);
    }
    forall i: nat, j: nat | MaximalRun(supported, i, j) ensures supported[i..j] != needle {
      assert !WholeAt(supported, needle, i);
    }
    return false;
  }

  // ---------------------------------------------------------------------------
  // Candidates
  // ---------------------------------------------------------------------------

  predicate NoDuplicates(rates: seq<int>)
  {
    forall i, j :: 0 <= i < j < |rates| ==> rates[i] != rates[j]
  }

  /** The rates worth probing: the requested one first, then where an earlier session or the factory left the module. */
  method BaudRateCandidates(requested: int) returns (rates: seq<int>)
    ensures NoDuplicates(rates)
    ensures forall r :: r in rates <==> r > 0 && r in [requested, 921600, 115200]
    ensures requested > 0 ==> rates != [] && rates[0] == requested
  {
    var known := [requested, HIGHEST_KNOWN_RATE, FACTORY_RATE];
    rates := [];
    for i := 0 to 3
      invariant NoDuplicates(rates)
      invariant forall r :: r in rates <==> r > 0 && r in known[..i]
      invariant i == 0 ==> rates == []
      invariant i > 0 && requested > 0 ==> rates != [] && rates[0] == requested
    {
      var rate := known[i];
      assert known[..i + 1] == known[..i] + [rate];
      if rate > 0 && rate !in rates {
        rates := rates + [rate];
      }
    }
    assert known[..3] == known;
  }

  // ---------------------------------------------------------------------------
  // The link
  // ---------------------------------------------------------------------------

  /**
   What becomes of one operation on the link: whether a command and its answer get
   through, whether the module applies it, whether the port takes a new rate, and what
   the module would answer.
   */
  datatype Reaction = Reaction(heard: bool, applied: bool, moves: bool, lines: seq<string>)

  /** A write of the module's rate, as it really went. */
  datatype Write = Write(rate: int, applied: bool, acknowledged: bool)

  /** One candidate a search looked at: the operation that decided it, and whether the host got there. */
  datatype Visit = Visit(rate: int, moved: bool, turn: nat)

  /** The query was heard, and the answer is one a module at the rate would give. */
  predicate Answers(reaction: Reaction, rate: int)
  {
    reaction.heard && Truthful(reaction.lines, rate)
  }

  /** The port refused the move, or the module is elsewhere, or the query found no answer. */
  predicate Missed(x: Visit, moduleRate: int, reactions: nat -> Reaction)
  {
    if x.moved then !(x.rate == moduleRate && Answers(reactions(x.turn), moduleRate)) else !reactions(x.turn).moves
  }

  /** Some visit from `from` on looked at the rate and missed the module. */
  ghost predicate Looked(visits: seq<Visit>, from: nat, rate: int, moduleRate: int, reactions: nat -> Reaction)
  {
    exists i :: from <= i < |visits| && visits[i].rate == rate && Missed(visits[i], moduleRate, reactions)
  }

  lemma LookedStill(before: seq<Visit>, x: Visit, from: nat, moduleRate: int, reactions: nat -> Reaction)
    requires from <= |before|
    ensures forall c :: Looked(before, from, c, moduleRate, reactions) ==> Looked(before + [x], from, c, moduleRate, reactions)
    ensures Missed(x, moduleRate, reactions) ==> Looked(before + [x], from, x.rate, moduleRate, reactions)
  {
    hide Missed;
    var after := before + [x];
    assert after[|before|] == x;
    forall c | Looked(before, from, c, moduleRate, reactions) ensures Looked(after, from, c, moduleRate, reactions) {
      var i :| from <= i < |before| && before[i].rate == c && Missed(before[i], moduleRate, reactions);
      assert after[i] == before[i];
    }
  }

  /** A heard answer to AT+IPR? that names the rate. */
  predicate Confirms(reaction: Reaction, rate: int)
  {
    reaction.heard && Reported(reaction.lines) == Some(rate)
  }

  /** One of the operations from `first` up to `end` would confirm the rate. */
  ghost predicate Confirmed(reactions: nat -> Reaction, first: nat, end: nat, rate: int)
  {
    exists n :: first <= n < end && Confirms(reactions(n), rate)
  }

  predicate AcknowledgementLost(w: Write)
  {
    w.applied && !w.acknowledged
  }

  /** `reactions` is arbitrary: one for each operation, in order. */
  class Link {
    const reactions: nat -> Reaction
    var turn: nat
    var hostRate: int
    var moduleRate: int
    var lastMoveFailed: bool
    ghost var writes: seq<Write>
    ghost var visits: seq<Visit>

    constructor (host: int, device: int, reactions: nat -> Reaction)
      ensures hostRate == host && moduleRate == device && turn == 0 && writes == [] && visits == [] && this.reactions == reactions
    {
      this.reactions := reactions;
      visits := [];
      turn, hostRate, moduleRate, lastMoveFailed, writes := 0, host, device, false, [];
    }

    method SetBaudRate(rate: int) returns (ok: bool)
      modifies this`turn, this`hostRate, this`lastMoveFailed
      ensures ok == reactions(old(turn)).moves && turn == old(turn) + 1
      ensures hostRate == if ok then rate else old(hostRate)
      ensures lastMoveFailed == !ok
    {
      ok := reactions(turn).moves;
      turn := turn + 1;
      if ok {
        hostRate := rate;
      }
      lastMoveFailed := !ok;
    }

    /** AT+IPR?: answered exactly when it is heard by a module at the host's rate. */
    method Query() returns (answer: Option<seq<string>>)
      modifies this`turn
      ensures turn == old(turn) + 1
      ensures answer == if hostRate == moduleRate && Answers(reactions(old(turn)), moduleRate) then Some(reactions(old(turn)).lines) else None
    {
      var reaction := reactions(turn);
      turn := turn + 1;
      if hostRate == moduleRate && Answers(reaction, moduleRate) {
        return Some(reaction.lines);
      }
      return None;
    }

    /** AT+IPR=?: the rates the module says it accepts. */
    method QueryList() returns (answer: Option<seq<string>>)
      modifies this`turn
      ensures turn == old(turn) + 1
      ensures answer == if reactions(old(turn)).heard && hostRate == moduleRate then Some(reactions(old(turn)).lines) else None
    {
      var reaction := reactions(turn);
      turn := turn + 1;
      return if reaction.heard && hostRate == moduleRate then Some(reaction.lines) else None;
    }

    /** AT+IPR=<rate>: reaches the module only if the ends agree, then applied or not, and acknowledged or not. */
    method WriteRate(rate: int) returns (ok: bool)
      modifies this`turn, this`moduleRate, this`writes
      ensures turn == old(turn) + 1
      ensures var agree, reaction := hostRate == old(moduleRate), reactions(old(turn));
              writes == old(writes) + [Write(rate, agree && reaction.applied, agree && reaction.heard)]
      ensures var w := writes[|old(writes)|];
              ok == w.acknowledged && moduleRate == if w.applied then rate else old(moduleRate)
    {
      var reaction := reactions(turn);
      turn := turn + 1;
      ok := hostRate == moduleRate && reaction.heard;
      var applied := hostRate == moduleRate && reaction.applied;
      if applied {
        moduleRate := rate;
      }
      writes := writes + [Write(rate, applied, ok)];
    }

    predicate AlignedAt(rate: int)
      reads this
    {
      hostRate == rate && moduleRate == rate
    }

    method MoveHostTo(rate: int) returns (ok: bool)
      modifies this`turn, this`hostRate, this`lastMoveFailed
      ensures ok ==> hostRate == rate
      ensures !ok ==> hostRate == old(hostRate)
      ensures if old(hostRate) == rate then ok && turn == old(turn)
              else ok == reactions(old(turn)).moves && turn == old(turn) + 1
    {
      if hostRate == rate {
        return true;
      }
      ok := SetBaudRate(rate);
    }

    /** The search looked at every positive rate of the list, and missed the module there. */
    ghost predicate MissedAll(rates: seq<int>, from: nat)
      reads this
    {
      forall c <- rates :: c > 0 ==> Looked(visits, from, c, moduleRate, reactions)
    }

    /**
     A rate is returned only with both ends at it, and it is the first candidate at which
     the port can be put and the module answers: every positive candidate in front of it,
     and on an error every one of them, was looked at and missed. On an error the host is
     back at the rate it came with, unless the port refused that very move; the module is
     never written.
     */
    method FindModuleBaudRate(candidates: seq<int>) returns (r: Result<int, ()>)
      modifies this`turn, this`hostRate, this`lastMoveFailed, this`visits
      ensures r.Ok? ==> AlignedAt(r.value) && r.value > 0 && r.value in candidates
      ensures r.Err? ==> hostRate == old(hostRate) || lastMoveFailed
      ensures old(visits) <= visits && forall i :: |old(visits)| <= i < |visits| ==> visits[i].turn >= old(turn)
      ensures old(hostRate) <= 0 ==> r.Err?
      ensures old(hostRate) > 0 && r.Err? ==> MissedAll(candidates, |old(visits)|)
      ensures r.Ok? ==> exists i :: 0 <= i < |candidates| && candidates[i] == r.value && MissedAll(candidates[..i], |old(visits)|)
    {
      ghost var from := |visits|;
      var entryRate := hostRate;
      if entryRate <= 0 {
        return Err(());
      }
      var tried: seq<int> := [];
      var i := 0;
      while i < |candidates|
        invariant 0 <= i <= |candidates| && turn >= old(turn)
        invariant old(visits) <= visits && forall k :: from <= k < |visits| ==> visits[k].turn >= old(turn)
        invariant forall c <- candidates[..i] :: c > 0 ==> c in tried
        invariant forall c <- tried :: Looked(visits, from, c, moduleRate, reactions)
      {
        var rate := candidates[i];
        assert candidates[..i + 1] == candidates[..i] + [rate];
        i := i + 1;
        if rate <= 0 || rate in tried {
          continue;
        }
        tried := tried + [rate];
        ghost var at := turn;
        var moved := MoveHostTo(rate);
        if !moved {
          LookedStill(visits, Visit(rate, false, at), from, moduleRate, reactions);
          visits := visits + [Visit(rate, false, at)];
          continue;
        }
        at := turn;
        var lines := Query();
        if lines == None {
          LookedStill(visits, Visit(rate, true, at), from, moduleRate, reactions);
          visits := visits + [Visit(rate, true, at)];
          continue;
        }
        assert candidates[i - 1] == rate && MissedAll(candidates[..i - 1], from);
        var ipr := IprLine(lines.value);
        if ipr.Some? {
          var parsed := ParseRate(ipr.value);
          if parsed.Some? && parsed.value > 0 {
            return Ok(parsed.value);
          }
        }
        return Ok(rate);
      }
      assert candidates[..i] == candidates;
      var restored := SetBaudRate(entryRate);
      return Err(());
    }

    /** Probes a few times whether the module took the rate the host is at. */
    method ConfirmRate(desired: int) returns (confirmed: bool)
      requires hostRate == desired && desired > 0
      modifies this`turn
      ensures confirmed <==> moduleRate == desired && Confirmed(reactions, old(turn), old(turn) + 4, desired)
      ensures turn >= old(turn)
    {
      hide ParseRate;
      var attempt := 0;
      while attempt < CONFIRM_ATTEMPTS
        invariant 0 <= attempt <= CONFIRM_ATTEMPTS && turn == old(turn) + attempt
        invariant moduleRate == desired ==> !Confirmed(reactions, old(turn), old(turn) + attempt, desired)
      {
        var probe := Query();
        attempt := attempt + 1;
        if probe == None {
          continue;
        }
        var now := IprLine(probe.value);
        if now.Some? && ParseRate(now.value) == Some(desired) {
          assert Confirms(reactions(turn - 1), desired);
          return true;
        }
      }
      return false;
    }

    /** The module, asked what it accepts, answers with a line that names the rate. */
    ghost predicate Accepts(reaction: Reaction, rate: nat)
    {
      reaction.heard && IprLine(reaction.lines).Some? && Names(IprLine(reaction.lines).value, rate)
    }

    /**
     Sets the module's rate and follows it. Started with the ends in agreement, every
     rate it returns is one both ends are at, unless its first write was applied while
     the acknowledgement was lost, and never then. It writes exactly when the answer to
     AT+IPR=? names the rate. Once that write is acknowledged and the host has followed,
     the rate asked for is the answer, with no second write, exactly when one of the four
     probes is heard by a module that took it, and names it. Else the old rate is written
     back and the module is searched for; an error means it was missed at every candidate.
     */
    method SetModuleBaudRate(desired: int) returns (r: Result<int, ()>)
      requires hostRate == moduleRate
      modifies this
      ensures old(writes) <= writes
      ensures |writes| > |old(writes)| <==>
              desired > 0 && old(hostRate) > 0 && old(hostRate) != desired && Accepts(reactions(old(turn)), desired)
      ensures |writes| > |old(writes)| ==>
              writes[|old(writes)|] == Write(desired, reactions(old(turn) + 1).applied, reactions(old(turn) + 1).heard)
      ensures var lost := |writes| > |old(writes)| && AcknowledgementLost(writes[|old(writes)|]);
              && (r.Ok? ==> (AlignedAt(r.value) <==> !lost))
              && (lost ==> r == Ok(old(hostRate)) && hostRate == old(hostRate) && moduleRate == desired)
      ensures r.Ok? ==> r.value in [old(hostRate), desired, 921600, 115200]
      ensures |writes| == |old(writes)| ==> r == if desired > 0 && old(hostRate) > 0 then Ok(old(hostRate)) else Err(())
      ensures var n := |old(writes)|;
              |writes| > n && !(writes[n].acknowledged && reactions(old(turn) + 2).moves) ==>
                |writes| == n + 1 && r == if writes[n].acknowledged then Err(()) else Ok(old(hostRate))
      ensures var n, t := |old(writes)|, old(turn);
              |writes| > n && writes[n].acknowledged && reactions(t + 2).moves ==>
                if writes[n].applied && Confirmed(reactions, t + 3, t + 7, desired) then |writes| == n + 1 && r == Ok(desired)
                else
                  && |writes| == n + 2 && writes[n + 1].rate == old(hostRate)
                  && (r.Err? ==> MissedAll([desired, 921600, 115200], |old(visits)|))
    {
      hide IprLine, Confirmed, Looked, ParseRate, Names;
      var current := hostRate;
      if desired <= 0 || current <= 0 {
        return Err(());
      }
      if current == desired {
        return Ok(current);
      }
      var supported := QueryList();
      if supported == None {
        return Ok(current);
      }
      var ipr := IprLine(supported.value);
      if ipr == None {
        return Ok(current);
      }
      var listed := ListsRate(ipr.value, desired);
      if !listed {
        return Ok(current);
      }
      var set_ := WriteRate(desired);
      if !set_ {
        return Ok(current);
      }
      var moved := SetBaudRate(desired);
      if !moved {
        return Err(());
      }
      var confirmed := ConfirmRate(desired);
      if confirmed {
        return Ok(desired);
      }
      var ignored := WriteRate(current);
      var candidates := BaudRateCandidates(hostRate);
      var landed := FindModuleBaudRate(candidates);
      if landed.Err? {
        return Err(());
      }
      var followed := MoveHostTo(landed.value);
      if !followed {
        return Err(());
      }
      return Ok(landed.value);
    }
  }

  /** The line AT+IPR? is answered with, among others and behind blanks, is read as the rate it prints. */
  lemma {:induction false} ReportIsRead(before: seq<string>, blanks: string, rate: nat, after: seq<string>)
    requires forall line <- before :: |line| > 0 && line[0] != '+' && !Blank(line[0])
    requires Blanks(blanks)
    requires rate <= INT_MAX
    ensures Reported(before + ([blanks + "+IPR: " + Decimal(rate)] + after)) == Some(rate)
  {
    hide Decimal, ParseInt, Trim, Find;
    var line := blanks + "+IPR: " + Decimal(rate);
    var lines := before + ([line] + after);
    if before == [] {
      assert lines[0] == line;
      assert line == blanks + ("+IPR: " + Decimal(rate));
      LeftBlanksGo(blanks, "+IPR: " + Decimal(rate));
      assert ("+IPR: " + Decimal(rate))[..4] == "+IPR";
      RateBehindKey(blanks, rate);
    } else {
      assert before[0] in before && lines[0] == before[0];
      assert TrimLeft(before[0]) == before[0];
      assert lines[1..] == before[1..] + ([line] + after);
      ReportIsRead(before[1..], blanks, rate, after);
    }
  }

  lemma RateBehindKey(blanks: string, rate: nat)
    requires Blanks(blanks) && rate <= INT_MAX
    ensures ParseRate(blanks + "+IPR: " + Decimal(rate)) == Some(rate)
  {
    hide Decimal, ParseInt, Find;
    var line, digits := blanks + "+IPR: " + Decimal(rate), Decimal(rate);
    var at := |blanks| + 4;
    assert line[at] == ':';
    assert forall k :: 0 <= k < |blanks| ==> line[k] == blanks[k];
    assert Find(line, ':') == at;
    assert line[at + 1..] == " " + digits;
    LeftBlanksGo(" ", digits);
    assert IsDigit(digits[|digits| - 1]);
    assert Trim(" " + digits) == digits;
    ParseUndoesDecimal(rate);
  }

  /** An answer to AT+IPR=? that lists one rate. */
  function Listing(rate: nat): string
  {
    "+IPR: (" + (Decimal(rate) + ")")
  }

  lemma ListingNames(rate: nat)
    ensures IprLine([Listing(rate)]) == Some(Listing(rate)) && Names(Listing(rate), rate)
  {
    var s, n := Listing(rate), |Decimal(rate)|;
    assert s[..4] == "+IPR";
    assert s[7..7 + n] == Decimal(rate) && s[6] == '(' && s[7 + n] == ')';
    assert MaximalRun(s, 7, 7 + n);
  }

  /**
   The run that leaves the ends apart: asked, the module accepts the rate; told, it
   applies it, and its OK is lost. The answer is the old rate, where only the host is.
   */
  method LostAcknowledgementRun(current: nat, desired: nat) returns (answer: Result<int, ()>, host: int, device: int)
    requires current > 0 && desired > 0 && current != desired
    ensures answer == Ok(current) && host == current && device == desired
  {
    ListingNames(desired);
    var link := new Link(current, current, n => Reaction(n == 0, true, true, [Listing(desired)]));
    answer := link.SetModuleBaudRate(desired);
    host, device := link.hostRate, link.moduleRate;
  }
}

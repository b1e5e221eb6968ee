/**
 What the HTTP parser makes of a byte stream, independently of how it was cut.

 `Parse` reads a stream the plain way: a line ends at its first LF, a body is read a
 byte at a time. The parser reads whatever is at hand at once, and looks for a CRLF
 before it looks for a bare LF; the two agree, and the cut stops mattering, on every
 stream none of whose bare line ends is followed by a CRLF.
 */
module HttpStream {
  import opened Wrappers
  import opened Bytes
  import opened AtParser
  import opened Text
  import opened HttpParser

  // ---------------------------------------------------------------------------
  // The plain reading
  // ---------------------------------------------------------------------------

  /** The first line of `data`, which ends at its first LF; a CR in front of that LF belongs to the ending. */
  function PlainLine(data: string): (r: Option<(string, nat)>)
    ensures r.Some? ==> 0 < r.value.1 <= |data|
  {
    var lf := Find(data, '\n');
    if lf == |data| then None
    else Some((data[..if CrBefore(data, lf) then lf - 1 else lf], lf + 1))
  }

  predicate CrBefore(data: string, lf: nat)
    requires lf <= |data|
  {
    lf > 0 && data[lf - 1] == '\r'
  }

  function PlainStep(p: Parser, data: string): (t: Turn)
    requires !Done(p) && data != ""
    ensures t.Advance? ==> t.taken <= |data|
  {
    if LinePhase(p.phase) then
      match PlainLine(data)
      case None => Advance(p, 0)
      case Some((line, n)) => OnLine(p, line, n)
    else if p.phase == Body then OnBodyBytes(p, data[..1])
    else if p.phase == ChunkData then OnChunkBytes(p, data[..1])
    else OnChunkEnd(p, data)
  }

  function Parse(p: Parser, data: string): (o: Outcome)
    ensures o.Stopped? ==> |o.rest| <= |data|
    decreases |data|
  {
    if data == "" || Done(p) then Stopped(p, data)
    else
      match PlainStep(p, data)
      case Malformed(q) => Failed(q)
      case Advance(q, n) => if n == 0 then Stopped(q, data) else Parse(q, data[n..])
  }

  /** The counters of a reachable parser: a body being read by count has something left to read. */
  predicate Valid(p: Parser)
  {
    && (p.phase == Body ==> (p.hasLength <==> p.bodyRemaining > 0))
    && (p.phase == ChunkData ==> p.chunkRemaining > 0)
  }

  /** The bytes a reachable parser has kept: never a whole line, never a byte of a body. */
  predicate Quiet(p: Parser)
  {
    if LinePhase(p.phase) then '\n' !in p.bank
    else if p.phase == ChunkDataEnd then |p.bank| <= 1 && '\n' !in p.bank
    else p.bank == ""
  }

  /** The line at the front of `data` reads the same whether or not what follows has arrived. */
  predicate CleanLine(data: string)
  {
    var lf := Find(data, '\n');
    lf == |data| || CrBefore(data, lf) || FindCrlf(data) == |data|
  }

  /** Wherever a line starts in the stream, it is a clean one. Bodies are unrestricted. */
  predicate Clean(p: Parser, data: string)
    decreases |data|
  {
    data == "" || Done(p) ||
    ((LinePhase(p.phase) ==> CleanLine(data)) &&
     match PlainStep(p, data)
     case Malformed(_) => true
     case Advance(q, n) => n == 0 || Clean(q, data[n..]))
  }

  // ---------------------------------------------------------------------------
  // One line
  // ---------------------------------------------------------------------------

  lemma CleanLineReadsPlain(data: string)
    requires CleanLine(data)
    ensures TakeLine(data) == PlainLine(data)
  {
    var lf := Find(data, '\n');
    var crlf := FindCrlf(data);
    if lf < |data| && CrBefore(data, lf) {
      assert CrlfAt(data, lf - 1);
      assert crlf == lf - 1;
    }
  }

  lemma {:induction false} FindExtends(data: string, x: string, c: char)
    requires Find(data, c) < |data|
    ensures Find(data + x, c) == Find(data, c)
  {
    var k := Find(data, c);
    assert (data + x)[k] == c;
    assert forall j :: 0 <= j < k ==> (data + x)[j] == data[j];
  }

  /** A line reads the same however little of what follows it has arrived exactly when it is a clean one. */
  lemma LineIsCutProofExactlyWhenClean(data: string)
    requires '\n' in data
    ensures (forall k {:trigger data[..k]} :: Find(data, '\n') < k <= |data| ==> TakeLine(data[..k]) == TakeLine(data)) <==> CleanLine(data)
  {
    var lf := Find(data, '\n');
    assert lf < |data|;
    if CleanLine(data) {
      forall k {:trigger data[..k]} | lf < k <= |data| ensures TakeLine(data[..k]) == TakeLine(data) {
        CleanPrefix(data, k);
        PlainLineOfPrefix(data, k);
        CleanLineReadsPlain(data);
        CleanLineReadsPlain(data[..k]);
      }
    } else {
      var short := data[..lf + 1];
      PlainLineOfPrefix(data, lf + 1);
      NoCrlfUpToBareLf(data);
      CleanLineReadsPlain(short);
      var crlf := FindCrlf(data);
      assert data[crlf + 1] == '\n' && crlf + 1 != lf;
      assert TakeLine(data).value.1 == crlf + 2;
    }
  }

  lemma PlainLineOfPrefix(data: string, k: nat)
    requires Find(data, '\n') < k <= |data|
    ensures Find(data[..k], '\n') == Find(data, '\n')
    ensures PlainLine(data[..k]) == PlainLine(data)
  {
    var lf := Find(data, '\n');
    assert data[..k][lf] == '\n';
    assert forall j :: 0 <= j < lf ==> data[..k][j] == data[j];
    assert data[..k][..lf] == data[..lf];
    if CrBefore(data, lf) {
      assert data[..k][..lf - 1] == data[..lf - 1];
    }
  }

  lemma CleanPrefix(data: string, k: nat)
    requires CleanLine(data) && k <= |data|
    ensures CleanLine(data[..k])
  {
    var short := data[..k];
    var lf := Find(data, '\n');
    if lf < k {
      PlainLineOfPrefix(data, k);
      assert forall j :: 0 <= j < k && CrlfAt(short, j) ==> CrlfAt(data, j);
    } else {
      assert forall j :: 0 <= j < k ==> short[j] == data[j];
    }
  }

  lemma NoCrlfUpToBareLf(data: string)
    requires Find(data, '\n') < |data| && !CrBefore(data, Find(data, '\n'))
    ensures CleanLine(data[..Find(data, '\n') + 1])
  {
    var lf := Find(data, '\n');
    var short := data[..lf + 1];
    PlainLineOfPrefix(data, lf + 1);
    forall j | 0 <= j < |short| ensures !CrlfAt(short, j) {
      assert j + 1 < lf ==> data[j + 1] != '\n';
      assert j + 1 == lf ==> short[j] == data[lf - 1];
    }
  }

  // ---------------------------------------------------------------------------
  // The parser reads a clean stream plainly
  // ---------------------------------------------------------------------------

  /** What a body phase makes of a piece it takes whole. */
  function BodyAfter(p: Parser, piece: string): Parser
    requires p.phase == Body && (p.hasLength ==> |piece| <= p.bodyRemaining)
  {
    var left := if p.hasLength then p.bodyRemaining - |piece| else p.bodyRemaining;
    p.(body := p.body + piece, bodyRemaining := left, phase := if p.hasLength && left == 0 then Complete else Body)
  }

  function BodyTake(p: Parser, n: nat): nat
  {
    if p.hasLength then Min(n, p.bodyRemaining) else n
  }

  lemma BodyBytesTaken(p: Parser, data: string)
    requires p.phase == Body && Valid(p) && data != ""
    ensures var n := BodyTake(p, |data|); 0 < n <= |data| && OnBodyBytes(p, data) == Advance(BodyAfter(p, data[..n]), n)
  {
    hide ReadStatusLine, ReadHeader, ReadChunkSize, Contains, ToLower, ParseInt;
    assert data[..|data|] == data;
  }

  lemma FirstThenRest(body: string, data: string, n: nat)
    requires 0 < n <= |data|
    ensures data[1..][n - 1..] == data[n..]
    ensures (body + data[..1]) + data[1..][..n - 1] == body + data[..n]
  {
    assert data[..1] + data[1..][..n - 1] == data[..n];
  }

  lemma ParseBodyByte(p: Parser, data: string)
    requires p.phase == Body && Valid(p) && data != ""
    ensures Parse(p, data) == Parse(BodyAfter(p, data[..1]), data[1..])
  {
    hide ReadStatusLine, ReadHeader, ReadChunkSize, Contains, ToLower, ParseInt;
    BodyBytesTaken(p, data[..1]);
    assert data[..1][..1] == data[..1];
  }

  /** Reading body bytes together is reading them one by one. */
  lemma {:induction false} BodyBytesOneByOne(p: Parser, data: string, n: nat)
    requires p.phase == Body && Valid(p)
    requires 0 < n <= |data| && (p.hasLength ==> n <= p.bodyRemaining)
    ensures Parse(p, data) == Parse(BodyAfter(p, data[..n]), data[n..])
    decreases n
  {
    hide PlainStep;
    ParseBodyByte(p, data);
    if n > 1 {
      var q := BodyAfter(p, data[..1]);
      BodyBytesOneByOne(q, data[1..], n - 1);
      FirstThenRest(p.body, data, n);
      assert BodyAfter(q, data[1..][..n - 1]) == BodyAfter(p, data[..n]);
    }
  }

  lemma ParseChunkByte(p: Parser, data: string)
    requires p.phase == ChunkData && Valid(p) && data != ""
    ensures Parse(p, data) == Parse(TakeChunk(p, data[..1]), data[1..])
  {
    hide ReadStatusLine, ReadHeader, ReadChunkSize, Contains, ToLower, ParseInt;
    assert data[..1][..1] == data[..1];
  }

  lemma {:induction false} ChunkBytesOneByOne(p: Parser, data: string, n: nat)
    requires p.phase == ChunkData && Valid(p)
    requires 0 < n <= |data| && n <= p.chunkRemaining
    ensures Parse(p, data) == Parse(TakeChunk(p, data[..n]), data[n..])
    decreases n
  {
    hide PlainStep;
    ParseChunkByte(p, data);
    if n > 1 {
      var q := TakeChunk(p, data[..1]);
      ChunkBytesOneByOne(q, data[1..], n - 1);
      FirstThenRest(p.body, data, n);
    }
  }

  /** The turns a parser goes through keep its counters meaningful. */
  lemma StepKeepsValid(p: Parser, data: string)
    requires !Done(p) && Valid(p) && data != ""
    ensures Step(p, data).Advance? ==> Valid(Step(p, data).p)
  {
    hide ReadStatusLine, ReadHeader, ReadChunkSize, Contains, ToLower, ParseInt;
  }

  /** On a clean stream the parser and the plain reading come to the same end. */
  lemma {:induction false} LoopIsParse(p: Parser, data: string)
    requires Valid(p) && Clean(p, data)
    ensures Loop(p, data) == Parse(p, data)
    decreases |data|
  {
    if data == "" || Done(p) {
    } else if LinePhase(p.phase) {
      CleanLineReadsPlain(data);
      LoopIsParseAtLine(p, data);
    } else if p.phase == Body {
      var n := BodyTake(p, |data|);
      BodyBytesTaken(p, data);
      BodyBytesOneByOne(p, data, n);
      CleanBody(p, data, n);
      LoopIsParse(BodyAfter(p, data[..n]), data[n..]);
    } else if p.phase == ChunkData {
      var n := Min(|data|, p.chunkRemaining);
      ChunkBytesOneByOne(p, data, n);
      CleanChunk(p, data, n);
      LoopIsParse(TakeChunk(p, data[..n]), data[n..]);
    } else {
      match OnChunkEnd(p, data)
      case Malformed(_) =>
      case Advance(q, n) => if n > 0 { LoopIsParse(q, data[n..]); }
    }
  }

  lemma LoopIsParseAtLine(p: Parser, data: string)
    requires data != "" && !Done(p) && LinePhase(p.phase) && Valid(p) && Clean(p, data)
    requires TakeLine(data) == PlainLine(data)
    ensures Loop(p, data) == Parse(p, data)
    decreases |data|, 0
  {
    hide ReadStatusLine, ReadHeader, ReadChunkSize, Contains, ToLower, ParseInt;
    var t := PlainStep(p, data);
    assert t == Step(p, data);
    StepKeepsValid(p, data);
    if t.Advance? && t.taken > 0 {
      LoopIsParse(t.p, data[t.taken..]);
    }
  }

  lemma CleanByte(p: Parser, data: string)
    requires Valid(p) && Clean(p, data) && data != ""
    ensures p.phase == Body ==> Clean(BodyAfter(p, data[..1]), data[1..])
    ensures p.phase == ChunkData ==> Clean(TakeChunk(p, data[..1]), data[1..])
  {
    hide ReadStatusLine, ReadHeader, ReadChunkSize, Contains, ToLower, ParseInt;
    if p.phase == Body {
      BodyBytesTaken(p, data[..1]);
    }
    assert data[..1][..1] == data[..1];
  }

  lemma {:induction false} CleanBody(p: Parser, data: string, n: nat)
    requires p.phase == Body && Valid(p) && Clean(p, data)
    requires 0 < n <= |data| && (p.hasLength ==> n <= p.bodyRemaining)
    ensures Clean(BodyAfter(p, data[..n]), data[n..])
    decreases n
  {
    hide PlainStep;
    CleanByte(p, data);
    if n > 1 {
      var q := BodyAfter(p, data[..1]);
      CleanBody(q, data[1..], n - 1);
      FirstThenRest(p.body, data, n);
      assert BodyAfter(q, data[1..][..n - 1]) == BodyAfter(p, data[..n]);
    }
  }

  lemma {:induction false} CleanChunk(p: Parser, data: string, n: nat)
    requires p.phase == ChunkData && Valid(p) && Clean(p, data)
    requires 0 < n <= |data| && n <= p.chunkRemaining
    ensures Clean(TakeChunk(p, data[..n]), data[n..])
    decreases n
  {
    hide PlainStep;
    CleanByte(p, data);
    if n > 1 {
      var q := TakeChunk(p, data[..1]);
      CleanChunk(q, data[1..], n - 1);
      FirstThenRest(p.body, data, n);
    }
  }

  lemma CleanByteBack(p: Parser, data: string)
    requires Valid(p) && p.phase == ChunkData && data != ""
    requires Clean(TakeChunk(p, data[..1]), data[1..])
    ensures Clean(p, data)
  {
    assert data[..1][..1] == data[..1];
  }

  lemma {:induction false} CleanChunkBack(p: Parser, data: string, n: nat)
    requires p.phase == ChunkData && Valid(p)
    requires 0 < n <= |data| && n <= p.chunkRemaining
    ensures Clean(TakeChunk(p, data[..n]), data[n..]) ==> Clean(p, data)
    decreases n
  {
    hide PlainStep, Clean;
    if Clean(TakeChunk(p, data[..n]), data[n..]) {
      if n > 1 {
        var q := TakeChunk(p, data[..1]);
        FirstThenRest(p.body, data, n);
        CleanChunkBack(q, data[1..], n - 1);
      }
      CleanByteBack(p, data);
    }
  }

  // ---------------------------------------------------------------------------
  // Any cut
  // ---------------------------------------------------------------------------

  lemma PlainStepExtends(p: Parser, a: string, b: string)
    requires !Done(p) && a != ""
    ensures PlainStep(p, a).Malformed? || PlainStep(p, a).taken > 0 ==> PlainStep(p, a + b) == PlainStep(p, a)
  {
    hide ReadStatusLine, ReadHeader, ReadChunkSize, Contains, ToLower, ParseInt;
    if LinePhase(p.phase) {
      if Find(a, '\n') < |a| {
        assert (a + b)[..|a|] == a;
        FindExtends(a, b, '\n');
        PlainLineOfPrefix(a + b, |a|);
      }
    } else {
      assert (a + b)[..1] == a[..1];
    }
  }

  /** Reading a stream on from where a first part of it left off. */
  function Resume(o: Outcome, b: string): Outcome
  {
    match o
    case Failed(q) => o
    case Stopped(q, rest) => if Done(q) then Stopped(q, rest + b) else Parse(q, rest + b)
  }

  lemma {:induction false} ParseResumes(p: Parser, a: string, b: string)
    requires Valid(p)
    ensures Parse(p, a + b) == Resume(Parse(p, a), b)
    decreases |a|
  {
    hide ReadStatusLine, ReadHeader, ReadChunkSize, Contains, ToLower, ParseInt;
    if Done(p) || a == "" {
      assert a == "" ==> a + b == b;
    } else {
      PlainStepExtends(p, a, b);
      match PlainStep(p, a)
      case Malformed(_) =>
      case Advance(q, n) =>
        if n > 0 {
          assert (a + b)[n..] == a[n..] + b;
          PlainStepKeepsValid(p, a);
          ParseResumes(q, a[n..], b);
        } else {
          StuckKeepsParser(p, a);
        }
    }
  }

  lemma PlainStepKeepsValid(p: Parser, data: string)
    requires !Done(p) && Valid(p) && data != ""
    ensures PlainStep(p, data).Advance? ==> Valid(PlainStep(p, data).p)
  {
    hide ReadStatusLine, ReadHeader, ReadChunkSize, Contains, ToLower, ParseInt;
  }

  lemma StuckKeepsParser(p: Parser, a: string)
    requires !Done(p) && a != "" && Valid(p)
    requires PlainStep(p, a).Advance? && PlainStep(p, a).taken == 0
    ensures PlainStep(p, a).p == p
    ensures Parse(p, a) == Stopped(p, a)
    ensures LinePhase(p.phase) || p.phase == ChunkDataEnd
  {
    hide ReadStatusLine, ReadHeader, ReadChunkSize, Contains, ToLower, ParseInt;
  }

  function WithBank(t: Turn, bank: string): Turn
  {
    match t
    case Malformed(q) => Malformed(q.(bank := bank))
    case Advance(q, n) => Advance(q.(bank := bank), n)
  }

  lemma OnLineIgnoresBank(p: Parser, line: string, n: nat, bank: string)
    requires LinePhase(p.phase)
    ensures OnLine(p.(bank := bank), line, n) == WithBank(OnLine(p, line, n), bank)
  {
    hide ReadStatusLine, ReadHeader, ReadChunkSize, Contains, ToLower, ParseInt;
  }

  lemma PlainStepIgnoresBank(p: Parser, data: string, bank: string)
    requires !Done(p) && data != ""
    ensures PlainStep(p.(bank := bank), data) == WithBank(PlainStep(p, data), bank)
  {
    if LinePhase(p.phase) {
      if PlainLine(data).Some? {
        var (line, n) := PlainLine(data).value;
        OnLineIgnoresBank(p, line, n, bank);
      }
    }
  }

  /** The bank is the front of the data, not an input of its own. */
  lemma {:induction false} ParseIgnoresBank(p: Parser, data: string, bank: string)
    ensures Parse(p.(bank := bank), data) ==
            match Parse(p, data)
            case Failed(q) => Failed(q.(bank := bank))
            case Stopped(q, rest) => Stopped(q.(bank := bank), rest)
    ensures Clean(p.(bank := bank), data) == Clean(p, data)
    decreases |data|
  {
    hide PlainStep;
    if data != "" && !Done(p) {
      PlainStepIgnoresBank(p, data, bank);
      match PlainStep(p, data)
      case Malformed(_) =>
      case Advance(q, n) => if n > 0 { ParseIgnoresBank(q, data[n..], bank); }
    }
  }

  /** What a call leaves behind of the outcome of its loop. */
  function Settled(o: Outcome): Parser
  {
    match o
    case Failed(q) => q.(phase := Error, bank := "")
    case Stopped(q, rest) => q.(bank := if Done(q) then "" else rest)
  }

  lemma {:induction false} CleanResumes(p: Parser, a: string, b: string)
    requires Valid(p) && Clean(p, a + b)
    ensures Clean(p, a)
    ensures match Parse(p, a)
            case Failed(_) => true
            case Stopped(q, rest) => Valid(q) && (Done(q) || Clean(q, rest + b))
    decreases |a|
  {
    hide ReadStatusLine, ReadHeader, ReadChunkSize, Contains, ToLower, ParseInt;
    if Done(p) || a == "" {
      assert a == "" ==> a + b == b;
    } else {
      PlainStepExtends(p, a, b);
      assert (a + b)[..|a|] == a;
      if LinePhase(p.phase) {
        CleanPrefix(a + b, |a|);
      }
      match PlainStep(p, a)
      case Malformed(_) =>
      case Advance(q, n) =>
        if n > 0 {
          assert (a + b)[n..] == a[n..] + b;
          PlainStepKeepsValid(p, a);
          CleanResumes(q, a[n..], b);
        } else {
          StuckKeepsParser(p, a);
        }
    }
  }

  /** A parser between calls: nothing can be made of the bytes it has kept. */
  predicate Resting(p: Parser)
  {
    Valid(p) && Quiet(p)
  }

  lemma RestingIsStuck(p: Parser)
    requires Resting(p)
    ensures Parse(p, p.bank) == Stopped(p, p.bank)
  {
    if p.bank != "" {
      assert '\n' !in p.bank && Find(p.bank, '\n') == |p.bank|;
    }
  }

  lemma FedIsParse(p: Parser, incoming: string)
    requires Resting(p) && Clean(p, p.bank + incoming)
    ensures Fed(p, incoming).0 == Settled(Parse(p, p.bank + incoming))
  {
    if Done(p) {
      assert p.bank + incoming == incoming;
    } else {
      LoopIsParse(p, p.bank + incoming);
    }
  }

  /**
   The parser does not depend on how the bytes were cut: over any list of arrivals its
   final state - phase, status, headers, emitted body, counters and banked remainder -
   is that of one call with the whole stream.
   */
  lemma {:induction false} SplitInvariance(p: Parser, pieces: seq<string>)
    requires Resting(p) && Clean(p, p.bank + Flatten(pieces))
    ensures FedAll(p, pieces) == Fed(p, Flatten(pieces)).0
    ensures FedAll(p, pieces) == Settled(Parse(p, p.bank + Flatten(pieces)))
    decreases |pieces|
  {
    FedIsParse(p, Flatten(pieces));
    if pieces == [] {
      assert p.bank + "" == p.bank;
      RestingIsStuck(p);
    } else {
      var a := p.bank + pieces[0];
      var b := Flatten(pieces[1..]);
      assert a + b == p.bank + Flatten(pieces);
      CleanResumes(p, a, b);
      ParseResumes(p, a, b);
      FedIsParse(p, pieces[0]);
      var q := Fed(p, pieces[0]).0;
      FedKeepsResting(p, pieces[0]);
      match Parse(p, a)
      case Failed(f) =>
        DoneStaysDone(q, pieces[1..]);
      case Stopped(r, rest) =>
        if Done(r) {
          DoneStaysDone(q, pieces[1..]);
        } else {
          ParseIgnoresBank(r, rest + b, rest);
          SplitInvariance(q, pieces[1..]);
          SettledIgnoresBank(Parse(r, rest + b), rest);
        }
    }
  }

  // ---------------------------------------------------------------------------
  // A byte at a time, on any stream at all
  // ---------------------------------------------------------------------------

  function Singly(data: string): (pieces: seq<string>)
    ensures Flatten(pieces) == data
  {
    if data == "" then [] else [data[..1]] + Singly(data[1..])
  }

  lemma LineEndedByOneByte(bank: string, c: char)
    requires '\n' !in bank
    ensures CleanLine(bank + [c])
    ensures PlainLine(bank + [c]).Some? ==> PlainLine(bank + [c]).value.1 == |bank| + 1
  {
    var data := bank + [c];
    assert forall k :: 0 <= k < |bank| ==> data[k] == bank[k] && bank[k] != '\n';
    assert forall k :: 0 <= k < |data| && CrlfAt(data, k) ==> k + 1 == |bank|;
  }

  /** Nothing can follow the one byte that may end what a resting parser has kept. */
  lemma ByteIsClean(p: Parser, c: char)
    requires Resting(p)
    ensures Clean(p, p.bank + [c])
  {
    hide ReadStatusLine, ReadHeader, ReadChunkSize, Contains, ToLower, ParseInt, Find, FindCrlf;
    if !Done(p) {
      var data := p.bank + [c];
      if LinePhase(p.phase) {
        LineEndedByOneByte(p.bank, c);
        if PlainLine(data).Some? {
          assert data[|data|..] == "";
        }
      } else if p.phase == ChunkDataEnd {
        assert OnChunkEnd(p, data).Advance? ==> OnChunkEnd(p, data).taken in [0, |data|];
        assert data[|data|..] == "";
      } else {
        assert data == [c] && data[..1] == data && data[1..] == "";
      }
    }
  }

  /**
   Fed a byte at a time the parser reads every stream plainly, clean or not. So a stream
   whose cut does not matter is one that a single call reads plainly too.
   */
  lemma {:induction false} ByteByByteIsPlain(p: Parser, data: string)
    requires Resting(p)
    ensures FedAll(p, Singly(data)) == Settled(Parse(p, p.bank + data))
    decreases |data|
  {
    hide ReadStatusLine, ReadHeader, ReadChunkSize, Contains, ToLower, ParseInt, Step, PlainStep;
    if data == "" {
      assert p.bank + "" == p.bank;
      RestingIsStuck(p);
    } else {
      var b := data[1..];
      var a := p.bank + data[..1];
      assert a == p.bank + [data[0]] && a + b == p.bank + data;
      ByteIsClean(p, data[0]);
      FedIsParse(p, data[..1]);
      ParseResumes(p, a, b);
      FedKeepsResting(p, data[..1]);
      var q := Fed(p, data[..1]).0;
      assert Singly(data)[1..] == Singly(b);
      match Parse(p, a)
      case Failed(f) =>
        DoneStaysDone(q, Singly(b));
      case Stopped(r, rest) =>
        if Done(r) {
          DoneStaysDone(q, Singly(b));
        } else {
          ParseIgnoresBank(r, rest + b, rest);
          ByteByByteIsPlain(q, b);
          SettledIgnoresBank(Parse(r, rest + b), rest);
        }
    }
  }

  /** Every way of cutting the stream leaves the parser as one call does. */
  ghost predicate CutProof(p: Parser, data: string)
  {
    forall pieces :: Flatten(pieces) == data ==> FedAll(p, pieces) == Fed(p, data).0
  }

  /** A stream whose cut does not matter is read plainly, in one call and in any other cut. */
  lemma CutProofMeansPlain(p: Parser, data: string)
    requires Resting(p) && CutProof(p, data)
    ensures forall pieces :: Flatten(pieces) == data ==> FedAll(p, pieces) == Settled(Parse(p, p.bank + data))
  {
    hide Fed, FedAll, Parse, Resting;
    ByteByByteIsPlain(p, data);
    assert Flatten(Singly(data)) == data;
  }

  lemma SettledIgnoresBank(o: Outcome, bank: string)
    ensures Settled(o) == Settled(match o case Failed(q) => Failed(q.(bank := bank)) case Stopped(q, rest) => Stopped(q.(bank := bank), rest))
  {
  }

  lemma {:induction false} DoneStaysDone(p: Parser, pieces: seq<string>)
    requires Done(p)
    ensures FedAll(p, pieces) == p
    decreases |pieces|
  {
    if pieces != [] {
      DoneStaysDone(p, pieces[1..]);
    }
  }

  // ---------------------------------------------------------------------------
  // Between calls, on any stream at all
  // ---------------------------------------------------------------------------

  /** A turn that takes nothing leaves bytes that nothing can be made of yet. */
  lemma StuckIsQuiet(p: Parser, data: string)
    requires !Done(p) && Valid(p) && data != ""
    requires Step(p, data).Advance? && Step(p, data).taken == 0
    ensures Step(p, data).p == p && Quiet(p.(bank := data))
  {
    hide ReadStatusLine, ReadHeader, ReadChunkSize, Contains, ToLower, ParseInt;
  }

  lemma {:induction false} LoopEnds(p: Parser, data: string)
    requires Valid(p)
    ensures match Loop(p, data)
            case Failed(_) => true
            case Stopped(q, rest) => Valid(q) && (Done(q) || Quiet(q.(bank := rest)))
    decreases |data|
  {
    hide OnLine, OnBodyBytes, OnChunkBytes, OnChunkEnd;
    if data != "" && !Done(p) {
      StepKeepsValid(p, data);
      if Step(p, data).Advance? {
        var Advance(q, n) := Step(p, data);
        if n > 0 {
          LoopEnds(q, data[n..]);
        } else {
          StuckIsQuiet(p, data);
        }
      }
    }
  }

  /** What a call leaves unread is the end of what it was given. */
  lemma {:induction false} LoopLeavesSuffix(p: Parser, data: string)
    ensures match Loop(p, data)
            case Failed(_) => true
            case Stopped(q, rest) => rest == data[|data| - |rest|..]
    decreases |data|
  {
    hide OnLine, OnBodyBytes, OnChunkBytes, OnChunkEnd;
    if data != "" && !Done(p) && Step(p, data).Advance? && Step(p, data).taken > 0 {
      LoopLeavesSuffix(Step(p, data).p, data[Step(p, data).taken..]);
    }
  }

  /** After every call the bank holds no LF, and nothing at all while a body is being read. */
  lemma FedKeepsResting(p: Parser, incoming: string)
    requires Resting(p)
    ensures Resting(Fed(p, incoming).0)
  {
    if !Done(p) {
      LoopEnds(p, p.bank + incoming);
    }
  }

  // ---------------------------------------------------------------------------
  // Where a response ends
  // ---------------------------------------------------------------------------

  /** The bytes a resting parser has kept are not enough for a turn; the next turn reads past them. */
  lemma FirstTurnPassesBank(p: Parser, incoming: string)
    requires !Done(p) && Resting(p)
    ensures var t := Step(p, p.bank + incoming); t.Advance? && t.taken > 0 ==> t.taken > |p.bank|
  {
    hide ReadStatusLine, ReadHeader, ReadChunkSize, Contains, ToLower, ParseInt;
    var data := p.bank + incoming;
    if LinePhase(p.phase) && TakeLine(data).Some? {
      var n := TakeLine(data).value.1;
      assert data[n - 1] == '\n';
      assert forall k :: 0 <= k < |p.bank| ==> data[k] == p.bank[k];
    }
  }

  /**
   The call that completes a response returns exactly where the response ends in its
   own argument: what it did not count is what the response did not use. This holds of
   every stream, clean or not.
   */
  lemma CompletingCallReturnsTheEnd(p: Parser, incoming: string)
    requires Resting(p) && !Done(p)
    requires Fed(p, incoming).0.phase == Complete
    ensures
      var (q, returned) := Fed(p, incoming);
      var o := Loop(p, p.bank + incoming);
      && returned.Some? && 0 < returned.value <= |incoming|
      && o.Stopped? && o.rest == incoming[returned.value..]
  {
    hide Step;
    var data := p.bank + incoming;
    FirstTurnPassesBank(p, incoming);
    LoopLeavesSuffix(p, data);
    CompletingTakesATurn(p, data);
    var o := Loop(p, data);
    assert data[|data| - |o.rest|..] == incoming[|incoming| - |o.rest|..];
  }

  lemma CompletingTakesATurn(p: Parser, data: string)
    requires !Done(p) && Valid(p) && Loop(p, data).Stopped? && Loop(p, data).p.phase == Complete
    ensures data != "" && Step(p, data).Advance? && Step(p, data).taken > 0
    ensures |Loop(p, data).rest| <= |data| - Step(p, data).taken
  {
    hide OnLine, OnBodyBytes, OnChunkBytes;
    if data != "" && Step(p, data).Advance? && Step(p, data).taken == 0 {
      StuckIsQuiet(p, data);
    }
  }

  /** The part of a stream the parser did not use. */
  function Unused(o: Outcome): Option<string>
  {
    match o
    case Failed(_) => None
    case Stopped(_, rest) => Some(rest)
  }

  /** What is made of the rest of a stream does not depend on how its first part was cut. */
  lemma AfterPieces(p: Parser, before: seq<string>, x: string)
    requires Resting(p) && p.bank == "" && Clean(p, Flatten(before) + x)
    requires !Done(FedAll(p, before))
    ensures
      var q := FedAll(p, before);
      && Resting(q) && Clean(q, q.bank + x)
      && Unused(Parse(p, Flatten(before) + x)) == Unused(Parse(q, q.bank + x))
  {
    hide PlainStep, Step;
    var front := Flatten(before);
    assert p.bank + front == front;
    CleanResumes(p, front, x);
    ParseResumes(p, front, x);
    SplitInvariance(p, before);
    FedAllKeepsResting(p, before);
    var o := Parse(p, front);
    ParseIgnoresBank(o.p, o.rest + x, o.rest);
  }

  /** The call that completes a response, with the rest of the stream still to come. */
  lemma EndOfThisCall(q: Parser, last: string, after: string)
    requires Resting(q) && !Done(q) && Clean(q, q.bank + (last + after))
    requires Fed(q, last).0.phase == Complete
    ensures var returned := Fed(q, last).1;
            && returned.Some? && returned.value <= |last|
            && Unused(Parse(q, q.bank + (last + after))) == Some(last[returned.value..] + after)
  {
    hide PlainStep, Step;
    assert q.bank + (last + after) == (q.bank + last) + after;
    CleanResumes(q, q.bank + last, after);
    ParseResumes(q, q.bank + last, after);
    CompletingCallReturnsTheEnd(q, last);
    LoopIsParse(q, q.bank + last);
  }

  /**
   However a clean stream is cut, the calls agree with one another on where the response
   ends: if the last piece of a cut completes it, its return value marks the same byte
   of the whole stream that reading the stream at once stops at.
   */
  lemma EndIsTheSameForEveryCut(p: Parser, before: seq<string>, last: string, after: string)
    requires Resting(p) && p.bank == ""
    requires Clean(p, Flatten(before) + (last + after))
    requires !Done(FedAll(p, before)) && Fed(FedAll(p, before), last).0.phase == Complete
    ensures var returned := Fed(FedAll(p, before), last).1;
            && returned.Some? && returned.value <= |last|
            && Unused(Parse(p, Flatten(before) + (last + after))) == Some(last[returned.value..] + after)
  {
    hide *;
    AfterPieces(p, before, last + after);
    EndOfThisCall(FedAll(p, before), last, after);
  }

  lemma {:induction false} FedAllKeepsResting(p: Parser, pieces: seq<string>)
    requires Resting(p)
    ensures Resting(FedAll(p, pieces))
    decreases |pieces|
  {
    if pieces != [] {
      FedKeepsResting(p, pieces[0]);
      FedAllKeepsResting(Fed(p, pieces[0]).0, pieces[1..]);
    }
  }

  lemma LfThenCrlfWhole(p: Parser)
    requires p.phase == Headers && p.bank == ""
    ensures Fed(p, "\n\r\n").0.phase == Error && !Clean(p, "\n\r\n")
  {
    var whole := "\n\r\n";
    assert CrlfAt(whole, 1) && !CrlfAt(whole, 0);
    assert FindCrlf(whole) == 1 && Find(whole, '\n') == 0;
    assert whole[..1] == ['\n'];
    assert TakeLine(whole) == Some((['\n'], 3));
    assert Find(['\n'], ':') == 1;
    assert p.bank + whole == whole;
    assert Step(p, whole) == Malformed(p);
  }

  lemma LfAlone(p: Parser)
    requires p.phase == Headers && p.bank == "" && !p.chunked && !p.hasLength
    ensures Fed(p, "\n").0 == OnBlankLine(p)
  {
    var first: string := "\n";
    assert FindCrlf(first) == 1 && Find(first, '\n') == 0;
    assert TakeLine(first) == Some(("", 1));
    assert p.bank + first == first;
    assert Step(p, first) == Advance(OnBlankLine(p), 1);
    assert first[1..] == "";
  }

  /**
   Without clean lines the cut does matter. A bare LF ends the header block when it
   arrives alone, and is part of a malformed header when a CRLF arrives with it.
   */
  lemma BareLfMakesTheCutMatter(p: Parser)
    requires p.phase == Headers && p.bank == "" && !p.chunked && !p.hasLength
    ensures FedAll(p, ["\n", "\r\n"]).phase == Body
    ensures Fed(p, "\n\r\n").0.phase == Error
    ensures !Clean(p, "\n\r\n")
  {
    LfThenCrlfWhole(p);
    LfAlone(p);
    var q := OnBlankLine(p);
    var second: string := "\r\n";
    assert q.bank + second == second;
    assert Step(q, second) == Advance(q.(body := q.body + second), 2);
    var r := Fed(q, second).0;
    assert r.phase == Body;
    var pieces := ["\n", second];
    assert pieces[1..] == [second] && [second][1..] == [];
    hide Fed;
    assert FedAll(p, pieces) == FedAll(q, [second]) == FedAll(r, []) == r;
  }
}

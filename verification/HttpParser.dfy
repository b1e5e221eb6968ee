/**
 The incremental HTTP/1.1 response parser. `Step` is one turn of the state machine on
 the bytes at hand, `Loop` what a call of Feed() does with them, and the class is the
 parser itself.
 */
module HttpParser {
  import opened Wrappers
  import opened AtParser
  import opened Text

  /** Size arithmetic wraps at the width of size_t; nothing below depends on which width that is. */
  type SizeModulus = m: nat | m == 0x1_0000_0000 || m == 0x1_0000_0000_0000_0000 witness 0x1_0000_0000

  const SIZE_MODULUS: SizeModulus

  datatype Phase =
    | StatusLine
    | Headers
    | Body
    | ChunkSize
    | ChunkData
    | ChunkDataEnd
    | ChunkTrailer
    | Complete
    | Error

  datatype Parser = Parser(
    phase: Phase,
    bank: string,                  // bytes kept from earlier calls
    major: int,
    minor: int,
    status: int,
    reason: string,
    headers: map<string, string>,
    body: string,                  // every body byte handed to the sink since the last reset
    contentLength: nat,
    hasLength: bool,
    chunked: bool,
    bodyRemaining: nat,
    chunkRemaining: nat)

  const Fresh := Parser(StatusLine, "", 0, 0, 0, "", map[], "", 0, false, false, 0, 0)

  predicate Done(p: Parser)
  {
    p.phase == Complete || p.phase == Error
  }

  predicate LinePhase(phase: Phase)
  {
    phase == StatusLine || phase == Headers || phase == ChunkSize || phase == ChunkTrailer
  }

  /** A line and the bytes it took, terminator included. A later CRLF is preferred to an earlier bare LF. */
  function TakeLine(data: string): (r: Option<(string, nat)>)
    ensures r.Some? ==> 0 < r.value.1 <= |data| && data[r.value.1 - 1] == '\n'
    ensures r.None? ==> '\n' !in data
  {
    var crlf := FindCrlf(data);
    if crlf < |data| then Some((data[..crlf], crlf + 2))
    else
      var lf := Find(data, '\n');
      if lf < |data| then Some((data[..lf], lf + 1)) else None
  }

  // ---------------------------------------------------------------------------
  // What each kind of line means
  // ---------------------------------------------------------------------------

  datatype StatusRead =
    | BadStatus
    | BadCode(major: int, minor: int)           // the version was good and is kept
    | GoodStatus(major: int, minor: int, code: int, reason: string)

  function ReadStatusLine(line: string): StatusRead
  {
    if !StartsWith(line, "HTTP/") then BadStatus
    else
      var rest := line[5..];
      var space := Find(rest, ' ');
      if space == |rest| then BadStatus
      else
        var version := rest[..space];
        var dot := Find(version, '.');
        if dot == |version| then BadStatus
        else
          var major, minor := ParseInt(version[..dot]), ParseInt(version[dot + 1..]);
          if major.None? || minor.None? then BadStatus
          else
            var remainder := Trim(rest[space + 1..]);
            var codeEnd := Find(remainder, ' ');
            var code := ParseInt(remainder[..codeEnd]);
            if code.None? then BadCode(major.value, minor.value)
            else GoodStatus(major.value, minor.value, code.value,
                            if codeEnd == |remainder| then "" else Trim(remainder[codeEnd + 1..]))
  }

  /** A header's name in lower case and its value. */
  function ReadHeader(line: string): Option<(string, string)>
  {
    var colon := Find(line, ':');
    if colon == |line| then None
    else
      var name := ToLower(Trim(line[..colon]));
      if name == "" then None else Some((name, Trim(line[colon + 1..])))
  }

  /** An int stored in a size_t: a negative one becomes a huge one. */
  function AsSize(n: int): nat
    requires INT_MIN <= n <= INT_MAX
  {
    if n < 0 then n + SIZE_MODULUS else n
  }

  function HexValue(field: string, value: nat): Option<nat>
    decreases |field|
  {
    if field == "" then Some(value)
    else
      match HexDigit(field[0])
      case None => None
      case Some(d) => HexValue(field[1..], (value * 16 + d) % SIZE_MODULUS)
  }

  /** The size field of a chunk-size line, without its extensions. */
  function SizeField(line: string): string
  {
    var field := Trim(line);
    var semi := Find(field, ';');
    if semi == |field| then field else Trim(field[..semi])
  }

  function ReadChunkSize(line: string): Option<nat>
  {
    var field := SizeField(line);
    if field == "" then None else HexValue(field, 0)
  }

  // ---------------------------------------------------------------------------
  // One turn
  // ---------------------------------------------------------------------------

  datatype Turn =
    | Advance(p: Parser, taken: nat)    // zero taken: more bytes are needed
    | Malformed(p: Parser)

  function OnStatusLine(p: Parser, line: string, n: nat): Turn
  {
    match ReadStatusLine(line)
    case BadStatus => Malformed(p)
    case BadCode(major, minor) => Malformed(p.(major := major, minor := minor))
    case GoodStatus(major, minor, code, reason) =>
      Advance(p.(major := major, minor := minor, status := code, reason := reason, phase := Headers), n)
  }

  function OnBlankLine(p: Parser): Parser
  {
    if p.chunked then p.(phase := ChunkSize)
    else if p.hasLength then
      p.(bodyRemaining := p.contentLength, phase := if p.contentLength == 0 then Complete else Body)
    else p.(phase := Body, bodyRemaining := 0)
  }

  function OnHeaderLine(p: Parser, line: string, n: nat): Turn
  {
    if line == "" then Advance(OnBlankLine(p), n)
    else
      match ReadHeader(line)
      case None => Malformed(p)
      case Some((name, value)) =>
        if name == "content-length" then
          match ParseInt(value)
          case None => Malformed(p)
          case Some(len) =>
            Advance(p.(contentLength := AsSize(len), hasLength := true, headers := p.headers[name := value]), n)
        else if name == "transfer-encoding" && Contains(ToLower(value), "chunked") then
          Advance(p.(chunked := true, headers := p.headers[name := value]), n)
        else Advance(p.(headers := p.headers[name := value]), n)
  }

  function OnSizeLine(p: Parser, line: string, n: nat): Turn
  {
    match ReadChunkSize(line)
    case None => Malformed(p)
    case Some(value) =>
      if value == 0 then Advance(p.(phase := ChunkTrailer), n)
      else Advance(p.(chunkRemaining := value, phase := ChunkData), n)
  }

  function OnTrailerLine(p: Parser, line: string, n: nat): Turn
  {
    Advance(if line == "" then p.(phase := Complete) else p, n)
  }

  function OnLine(p: Parser, line: string, n: nat): (t: Turn)
    requires LinePhase(p.phase)
    ensures t.Advance? ==> t.taken == n
  {
    if p.phase == StatusLine then OnStatusLine(p, line, n)
    else if p.phase == Headers then OnHeaderLine(p, line, n)
    else if p.phase == ChunkSize then OnSizeLine(p, line, n)
    else OnTrailerLine(p, line, n)
  }

  function Min(a: nat, b: nat): nat
  {
    if a <= b then a else b
  }

  function TakeChunk(p: Parser, piece: string): Parser
    requires |piece| <= p.chunkRemaining
  {
    var left := p.chunkRemaining - |piece|;
    p.(body := p.body + piece, chunkRemaining := left, phase := if left == 0 then ChunkDataEnd else p.phase)
  }

  function OnBodyBytes(p: Parser, data: string): Turn
  {
    if p.bodyRemaining == 0 && !p.hasLength then Advance(p.(body := p.body + data), |data|)
    else
      var take := Min(|data|, p.bodyRemaining);
      var left := p.bodyRemaining - take;
      Advance(p.(body := p.body + data[..take], bodyRemaining := left, phase := if left == 0 then Complete else p.phase), take)
  }

  function OnChunkBytes(p: Parser, data: string): Turn
  {
    var take := Min(|data|, p.chunkRemaining);
    Advance(TakeChunk(p, data[..take]), take)
  }

  function OnChunkEnd(p: Parser, data: string): Turn
  {
    if data != "" && data[0] == '\n' then Advance(p.(phase := ChunkSize), 1)
    else if |data| < 2 then Advance(p, 0)
    else if data[0] != '\r' || data[1] != '\n' then Malformed(p)
    else Advance(p.(phase := ChunkSize), 2)
  }

  function Step(p: Parser, data: string): (t: Turn)
    requires !Done(p)
    ensures t.Advance? ==> t.taken <= |data|
  {
    if LinePhase(p.phase) then
      match TakeLine(data)
      case None => Advance(p, 0)
      case Some((line, n)) => OnLine(p, line, n)
    else if p.phase == Body then OnBodyBytes(p, data)
    else if p.phase == ChunkData then OnChunkBytes(p, data)
    else OnChunkEnd(p, data)
  }

  // ---------------------------------------------------------------------------
  // A call of Feed()
  // ---------------------------------------------------------------------------

  datatype Outcome =
    | Stopped(p: Parser, rest: string)   // out of bytes, complete, or waiting for more
    | Failed(p: Parser)

  function Loop(p: Parser, data: string): (o: Outcome)
    ensures o.Stopped? ==> |o.rest| <= |data|
    decreases |data|
  {
    if data == "" || Done(p) then Stopped(p, data)
    else
      match Step(p, data)
      case Malformed(q) => Failed(q)
      case Advance(q, n) => if n == 0 then Stopped(q, data) else Loop(q, data[n..])
  }

  /** The parser after the call, and what the call returned: a count of the caller's own bytes, or an error. */
  function Fed(p: Parser, incoming: string): (Parser, Option<nat>)
  {
    if Done(p) then (p, Some(0))
    else
      var data := p.bank + incoming;
      match Loop(p, data)
      case Failed(q) => (q.(phase := Error, bank := ""), None)
      case Stopped(q, rest) =>
        var consumed := |data| - |rest|;
        (q.(bank := if Done(q) then "" else rest),
         Some(if consumed > |p.bank| then consumed - |p.bank| else 0))
  }

  /** The peer hung up. Only a body that runs to the end of the connection is completed by it. */
  function Finished(p: Parser): Parser
  {
    if p.phase == Body && !p.hasLength && !p.chunked then p.(phase := Complete) else p
  }

  function FedAll(p: Parser, pieces: seq<string>): Parser
    decreases |pieces|
  {
    if pieces == [] then p else FedAll(Fed(p, pieces[0]).0, pieces[1..])
  }

  // ---------------------------------------------------------------------------
  // The parser object
  // ---------------------------------------------------------------------------

  class HttpResponseParser {
    var phase: Phase
    var buffer: string
    var httpMajor: int
    var httpMinor: int
    var statusCode: int
    var reason: string
    var headers: map<string, string>
    var body: string
    var contentLength: nat
    var hasContentLength: bool
    var chunked: bool
    var bodyRemaining: nat
    var chunkRemaining: nat

    function View(): Parser
      reads this
    {
      Parser(phase, buffer, httpMajor, httpMinor, statusCode, reason, headers, body,
             contentLength, hasContentLength, chunked, bodyRemaining, chunkRemaining)
    }

    constructor ()
      ensures View() == Fresh
    {
      phase, buffer := StatusLine, "";
      httpMajor, httpMinor, statusCode, reason := 0, 0, 0, "";
      headers, body := map[], "";
      contentLength, hasContentLength, chunked := 0, false, false;
      bodyRemaining, chunkRemaining := 0, 0;
    }

    method Reset()
      modifies this
      ensures View() == Fresh
    {
      phase, buffer := StatusLine, "";
      httpMajor, httpMinor, statusCode, reason := 0, 0, 0, "";
      headers, body := map[], "";
      contentLength, hasContentLength, chunked := 0, false, false;
      bodyRemaining, chunkRemaining := 0, 0;
    }

    /** The turn that took the parser from `was` to where it is now. */
    ghost predicate Took(was: Parser, turn: Turn, step: Option<nat>)
      reads this
    {
      match turn
      case Advance(q, n) => View() == q && step == Some(n)
      case Malformed(q) => View() == q && step == None
    }

    method FeedStatusLine(data: string) returns (step: Option<nat>)
      requires phase == StatusLine
      modifies this
      ensures Took(old(View()), Step(old(View()), data), step)
    {
      hide ReadStatusLine, TakeLine;
      var taken := TakeLine(data);
      if taken == None {
        return Some(0);
      }
      var read := ReadStatusLine(taken.value.0);
      if read.BadStatus? {
        return None;
      }
      httpMajor, httpMinor := read.major, read.minor;
      if read.BadCode? {
        return None;
      }
      statusCode, reason := read.code, read.reason;
      phase := Headers;
      return Some(taken.value.1);
    }

    method FeedHeaders(data: string) returns (step: Option<nat>)
      requires phase == Headers
      modifies this
      ensures Took(old(View()), Step(old(View()), data), step)
    {
      hide ReadHeader, TakeLine, ToLower, Contains, ParseInt;
      var taken := TakeLine(data);
      if taken == None {
        return Some(0);
      }
      var line := taken.value.0;
      if line == "" {
        if chunked {
          phase := ChunkSize;
        } else if hasContentLength {
          bodyRemaining := contentLength;
          phase := if bodyRemaining == 0 then Complete else Body;
        } else {
          phase := Body;
          bodyRemaining := 0;
        }
        return Some(taken.value.1);
      }
      var header := ReadHeader(line);
      if header == None {
        return None;
      }
      var (name, value) := header.value;
      if name == "content-length" {
        var len := ParseInt(value);
        if len == None {
          return None;
        }
        contentLength := AsSize(len.value);
        hasContentLength := true;
      } else if name == "transfer-encoding" {
        if Contains(ToLower(value), "chunked") {
          chunked := true;
        }
      }
      headers := headers[name := value];
      return Some(taken.value.1);
    }

    method EmitBody(data: string)
      modifies this`body
      ensures body == old(body) + data
    {
      if data == "" {
        assert body + data == body;
        return;
      }
      body := body + data;
    }

    method FeedBody(data: string) returns (step: Option<nat>)
      requires phase == Body
      modifies this
      ensures Took(old(View()), Step(old(View()), data), step)
    {
      if bodyRemaining == 0 && !hasContentLength {
        EmitBody(data);
        return Some(|data|);
      }
      var take := Min(|data|, bodyRemaining);
      EmitBody(data[..take]);
      bodyRemaining := bodyRemaining - take;
      if bodyRemaining == 0 {
        phase := Complete;
      }
      return Some(take);
    }

    method FeedChunkSize(data: string) returns (step: Option<nat>)
      requires phase == ChunkSize
      modifies this
      ensures Took(old(View()), Step(old(View()), data), step)
    {
      hide TakeLine;
      var taken := TakeLine(data);
      if taken == None {
        return Some(0);
      }
      var field := SizeField(taken.value.0);
      if field == "" {
        return None;
      }
      var value: nat := 0;
      var i := 0;
      while i < |field|
        invariant 0 <= i <= |field|
        invariant HexValue(field, 0) == HexValue(field[i..], value)
      {
        var digit := HexDigit(field[i]);
        if digit == None {
          return None;
        }
        assert field[i..][1..] == field[i + 1..];
        value := (value * 16 + digit.value) % SIZE_MODULUS;
        i := i + 1;
      }
      if value == 0 {
        phase := ChunkTrailer;
      } else {
        chunkRemaining := value;
        phase := ChunkData;
      }
      return Some(taken.value.1);
    }

    method FeedChunkData(data: string) returns (step: Option<nat>)
      requires phase == ChunkData
      modifies this
      ensures Took(old(View()), Step(old(View()), data), step)
    {
      var take := Min(|data|, chunkRemaining);
      EmitBody(data[..take]);
      chunkRemaining := chunkRemaining - take;
      if chunkRemaining == 0 {
        phase := ChunkDataEnd;
      }
      return Some(take);
    }

    method FeedChunkDataEnd(data: string) returns (step: Option<nat>)
      requires phase == ChunkDataEnd
      modifies this
      ensures Took(old(View()), Step(old(View()), data), step)
    {
      if data != "" && data[0] == '\n' {
        phase := ChunkSize;
        return Some(1);
      }
      if |data| < 2 {
        return Some(0);
      }
      if data[0] != '\r' || data[1] != '\n' {
        return None;
      }
      phase := ChunkSize;
      return Some(2);
    }

    method FeedChunkTrailer(data: string) returns (step: Option<nat>)
      requires phase == ChunkTrailer
      modifies this
      ensures Took(old(View()), Step(old(View()), data), step)
    {
      hide TakeLine;
      var taken := TakeLine(data);
      if taken == None {
        return Some(0);
      }
      if taken.value.0 == "" {
        phase := Complete;
      }
      return Some(taken.value.1);
    }

    method OneStep(rest: string) returns (step: Option<nat>)
      requires !Done(View())
      modifies this
      ensures Took(old(View()), Step(old(View()), rest), step)
    {
      hide OnLine, TakeLine, OnBodyBytes, OnChunkBytes, OnChunkEnd;
      match phase
      case StatusLine => step := FeedStatusLine(rest);
      case Headers => step := FeedHeaders(rest);
      case Body => step := FeedBody(rest);
      case ChunkSize => step := FeedChunkSize(rest);
      case ChunkData => step := FeedChunkData(rest);
      case ChunkDataEnd => step := FeedChunkDataEnd(rest);
      case ChunkTrailer => step := FeedChunkTrailer(rest);
    }

    /** One turn, seen from the whole run of turns it belongs to. */
    method TakeTurn(rest: string) returns (step: Option<nat>)
      requires !Done(View()) && rest != ""
      modifies this
      ensures
        match step
        case None => Loop(old(View()), rest) == Failed(View())
        case Some(n) =>
          && n <= |rest|
          && Loop(old(View()), rest) == if n == 0 then Stopped(View(), rest) else Loop(View(), rest[n..])
    {
      step := OneStep(rest);
    }

    /** Returns how many of the caller's bytes were consumed, or None when the stream is not valid HTTP. */
    method Feed(incoming: string) returns (result: Option<nat>)
      modifies this
      ensures (View(), result) == Fed(old(View()), incoming)
    {
      hide Step;
      if phase == Complete || phase == Error {
        return Some(0);
      }
      ghost var was := View();
      var banked := |buffer|;
      var data := buffer + incoming;
      ghost var outcome := Loop(was, data);
      var consumed := 0;
      var waiting := false;
      while consumed < |data| && phase != Complete && phase != Error && !waiting
        invariant 0 <= consumed <= |data|
        invariant waiting ==> outcome == Stopped(View(), data[consumed..])
        invariant !waiting ==> outcome == Loop(View(), data[consumed..])
        decreases |data| - consumed, !waiting
      {
        var rest := data[consumed..];
        var step := TakeTurn(rest);
        if step == None {
          phase := Error;
          buffer := "";
          return None;
        }
        assert rest[step.value..] == data[consumed + step.value..];
        consumed := consumed + step.value;
        waiting := step.value == 0;
      }
      assert outcome == Stopped(View(), data[consumed..]);
      if phase == Complete || phase == Error {
        buffer := "";
      } else {
        buffer := data[consumed..];
      }
      return Some(if consumed > banked then consumed - banked else 0);
    }

    method Finish()
      modifies this`phase
      ensures View() == Finished(old(View()))
    {
      if phase == Complete || phase == Error {
        return;
      }
      if phase == Body && !hasContentLength && !chunked {
        phase := Complete;
      }
    }
  }
}

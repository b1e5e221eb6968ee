/**
 What it takes for a response body to be complete: the counted body, the body that
 runs to the end of the connection, and the chunked body (RFC 9112, section 7.1),
 together with the chunk frames the upload side prints.
 */
module HttpBody {
  import opened Wrappers
  import opened Bytes
  import opened AtParser
  import opened Text
  import opened HttpParser
  import opened HttpStream

  // ---------------------------------------------------------------------------
  // Accounting
  // ---------------------------------------------------------------------------

  /** Nothing is lost or invented between the counters and the bytes handed to the sink. */
  predicate Accounted(p: Parser)
  {
    && (p.phase == StatusLine || p.phase == Headers ==> p.body == "")
    && (p.phase == Body ==> !p.chunked && (p.hasLength ==> |p.body| + p.bodyRemaining == p.contentLength))
    && (p.phase == ChunkSize || p.phase == ChunkData || p.phase == ChunkDataEnd || p.phase == ChunkTrailer ==> p.chunked)
    && (p.phase == Complete && !p.chunked && p.hasLength ==> |p.body| == p.contentLength)
  }

  lemma StepKeepsAccount(p: Parser, data: string)
    requires !Done(p) && Valid(p) && Accounted(p) && data != ""
    ensures Step(p, data).Advance? ==> Accounted(Step(p, data).p)
    ensures Step(p, data).Advance? && Step(p, data).p.phase == Complete ==> Step(p, data).p.chunked || Step(p, data).p.hasLength
  {
    hide ReadStatusLine, ReadHeader, ReadChunkSize, Contains, ToLower, ParseInt;
  }

  lemma {:induction false} LoopKeepsAccount(p: Parser, data: string)
    requires Valid(p) && Accounted(p)
    ensures var o := Loop(p, data);
            && (o.Stopped? ==> Accounted(o.p))
            && (o.Stopped? && o.p.phase == Complete && p.phase != Complete ==> o.p.chunked || o.p.hasLength)
    decreases |data|
  {
    if data != "" && !Done(p) {
      StepKeepsAccount(p, data);
      StepKeepsValid(p, data);
      hide OnLine, OnBodyBytes, OnChunkBytes, OnChunkEnd;
      if Step(p, data).Advance? && Step(p, data).taken > 0 {
        LoopKeepsAccount(Step(p, data).p, data[Step(p, data).taken..]);
      }
    }
  }

  datatype Event = Arrives(data: string) | HangsUp

  function After(p: Parser, e: Event): Parser
  {
    match e
    case Arrives(data) => Fed(p, data).0
    case HangsUp => Finished(p)
  }

  function Over(p: Parser, events: seq<Event>): Parser
  {
    if events == [] then p else After(Over(p, events[..|events| - 1]), events[|events| - 1])
  }

  // ---------------------------------------------------------------------------
  // The chunked grammar
  // ---------------------------------------------------------------------------

  datatype Line = Line(text: string, crlf: bool)

  function Eol(crlf: bool): string
  {
    if crlf then "\r\n" else "\n"
  }

  function LineBytes(l: Line): string
  {
    l.text + Eol(l.crlf)
  }

  /** A CR in front of a bare LF would make it a CRLF. */
  predicate LineOk(l: Line)
  {
    '\n' !in l.text && (l.crlf || l.text == "" || l.text[|l.text| - 1] != '\r')
  }

  datatype Chunk = Chunk(size: Line, data: string, crlf: bool)

  predicate ChunkOk(c: Chunk)
  {
    LineOk(c.size) && c.data != "" && ReadChunkSize(c.size.text) == Some(|c.data|)
  }

  function ChunkBytes(c: Chunk): string
  {
    LineBytes(c.size) + (c.data + Eol(c.crlf))
  }

  /** Chunks, a last chunk of size zero, trailer lines, and the blank line that ends them. */
  datatype ChunkedBody = ChunkedBody(chunks: seq<Chunk>, last: Line, trailers: seq<Line>, blank: bool)

  predicate TrailerOk(l: Line)
  {
    LineOk(l) && l.text != ""
  }

  predicate BodyOk(b: ChunkedBody)
  {
    && (forall c :: c in b.chunks ==> ChunkOk(c))
    && LineOk(b.last) && ReadChunkSize(b.last.text) == Some(0)
    && (forall l :: l in b.trailers ==> TrailerOk(l))
  }

  function ChunksBytes(chunks: seq<Chunk>): string
  {
    if chunks == [] then "" else ChunkBytes(chunks[0]) + ChunksBytes(chunks[1..])
  }

  function TrailersBytes(trailers: seq<Line>, blank: bool): string
  {
    if trailers == [] then Eol(blank) else LineBytes(trailers[0]) + TrailersBytes(trailers[1..], blank)
  }

  function BodyBytes(b: ChunkedBody): string
  {
    ChunksBytes(b.chunks) + (LineBytes(b.last) + TrailersBytes(b.trailers, b.blank))
  }

  function Payload(chunks: seq<Chunk>): string
  {
    if chunks == [] then "" else chunks[0].data + Payload(chunks[1..])
  }

  // --- lines ---

  lemma PlainLineOf(l: Line, x: string)
    requires LineOk(l)
    ensures PlainLine(LineBytes(l) + x) == Some((l.text, |LineBytes(l)|))
    ensures l.crlf ==> CleanLine(LineBytes(l) + x)
  {
    var s := LineBytes(l) + x;
    var n := |l.text|;
    var lf := if l.crlf then n + 1 else n;
    assert s[..n] == l.text;
    assert s[lf] == '\n' && (l.crlf ==> s[n] == '\r');
    forall k | 0 <= k < lf ensures s[k] != '\n' {
      assert k < n ==> s[k] == l.text[k];
    }
    assert Find(s, '\n') == lf;
    if !l.crlf && n > 0 {
      assert s[n - 1] == l.text[n - 1];
    }
  }

  lemma LineFromPlain(s: string) returns (l: Line)
    requires PlainLine(s).Some?
    ensures LineOk(l) && PlainLine(s) == Some((l.text, |LineBytes(l)|)) && s[..|LineBytes(l)|] == LineBytes(l)
  {
    var lf := Find(s, '\n');
    l := Line(PlainLine(s).value.0, CrBefore(s, lf));
    assert LineBytes(l) == s[..lf + 1];
  }

  // --- one turn of the chunk states ---

  function AfterSize(p: Parser, size: nat): Parser
  {
    if size == 0 then p.(phase := ChunkTrailer) else p.(chunkRemaining := size, phase := ChunkData)
  }

  lemma SizeLineTurn(p: Parser, l: Line, x: string)
    requires p.phase == ChunkSize && LineOk(l) && ReadChunkSize(l.text).Some?
    ensures
      var size := ReadChunkSize(l.text).value;
      Parse(p, LineBytes(l) + x) ==
      Parse(AfterSize(p, size), x)
    ensures l.crlf && Clean(AfterSize(p, ReadChunkSize(l.text).value), x) ==> Clean(p, LineBytes(l) + x)
  {
    hide ReadChunkSize;
    PlainLineOf(l, x);
    assert (LineBytes(l) + x)[|LineBytes(l)|..] == x;
  }

  lemma TrailerLineTurn(p: Parser, l: Line, x: string)
    requires p.phase == ChunkTrailer && LineOk(l)
    ensures Parse(p, LineBytes(l) + x) == Parse(if l.text == "" then p.(phase := Complete) else p, x)
    ensures l.crlf && l.text == "" ==> Clean(p, LineBytes(l) + x)
  {
    PlainLineOf(l, x);
    assert (LineBytes(l) + x)[|LineBytes(l)|..] == x;
  }

  lemma DataTurn(p: Parser, data: string, x: string)
    requires p.phase == ChunkData && p.chunkRemaining == |data| > 0
    ensures var q := p.(body := p.body + data, chunkRemaining := 0, phase := ChunkDataEnd);
            Parse(p, data + x) == Parse(q, x) && (Clean(q, x) ==> Clean(p, data + x))
  {
    hide PlainStep;
    ChunkBytesOneByOne(p, data + x, |data|);
    CleanChunkBack(p, data + x, |data|);
    assert (data + x)[..|data|] == data && (data + x)[|data|..] == x;
  }

  lemma DataEndTurn(p: Parser, crlf: bool, x: string)
    requires p.phase == ChunkDataEnd
    ensures Parse(p, Eol(crlf) + x) == Parse(p.(phase := ChunkSize), x)
    ensures Clean(p.(phase := ChunkSize), x) ==> Clean(p, Eol(crlf) + x)
  {
    var s := Eol(crlf) + x;
    assert s[|Eol(crlf)|..] == x;
    assert s[0] == Eol(crlf)[0] && (crlf ==> s[1] == '\n');
  }

  lemma ChunkTurn(p: Parser, c: Chunk, x: string)
    requires p.phase == ChunkSize && ChunkOk(c)
    ensures var q := p.(body := p.body + c.data, chunkRemaining := 0);
            && Parse(p, ChunkBytes(c) + x) == Parse(q, x)
            && (c.size.crlf && Clean(q, x) ==> Clean(p, ChunkBytes(c) + x))
  {
    hide Parse, Clean, ReadChunkSize;
    var behind := c.data + (Eol(c.crlf) + x);
    assert ChunkBytes(c) + x == LineBytes(c.size) + behind;
    SizeLineTurn(p, c.size, behind);
    var q := p.(chunkRemaining := |c.data|, phase := ChunkData);
    DataTurn(q, c.data, Eol(c.crlf) + x);
    DataEndTurn(q.(body := p.body + c.data, chunkRemaining := 0, phase := ChunkDataEnd), c.crlf, x);
  }

  lemma ConsChunk(body: string, c: Chunk, rest: seq<Chunk>, x: string)
    ensures ChunksBytes([c] + rest) + x == ChunkBytes(c) + (ChunksBytes(rest) + x)
    ensures body + Payload([c] + rest) == (body + c.data) + Payload(rest)
  {
    hide ChunkBytes;
    assert ([c] + rest)[1..] == rest;
  }

  lemma {:induction false} ChunksTurn(p: Parser, chunks: seq<Chunk>, x: string)
    requires p.phase == ChunkSize && forall c :: c in chunks ==> ChunkOk(c)
    ensures Parse(p, ChunksBytes(chunks) + x) ==
            Parse(p.(body := p.body + Payload(chunks), chunkRemaining := if chunks == [] then p.chunkRemaining else 0), x)
    decreases |chunks|
  {
    hide Parse, Clean, ChunkBytes, ChunkOk;
    if chunks == [] {
      assert ChunksBytes(chunks) + x == x && p.body + "" == p.body;
      assert p.(body := p.body, chunkRemaining := p.chunkRemaining) == p;
    } else {
      assert chunks[0] in chunks && chunks == [chunks[0]] + chunks[1..];
      ConsChunk(p.body, chunks[0], chunks[1..], x);
      ChunkTurn(p, chunks[0], ChunksBytes(chunks[1..]) + x);
      ChunksTurn(p.(body := p.body + chunks[0].data, chunkRemaining := 0), chunks[1..], x);
    }
  }

  lemma ConsTrailer(l: Line, rest: seq<Line>, blank: bool, x: string)
    ensures TrailersBytes([l] + rest, blank) + x == LineBytes(l) + (TrailersBytes(rest, blank) + x)
  {
    hide LineBytes;
    assert ([l] + rest)[1..] == rest;
  }

  lemma {:induction false} TrailersTurn(p: Parser, trailers: seq<Line>, blank: bool, x: string)
    requires p.phase == ChunkTrailer && forall l :: l in trailers ==> TrailerOk(l)
    ensures Parse(p, TrailersBytes(trailers, blank) + x) == Stopped(p.(phase := Complete), x)
    decreases |trailers|
  {
    hide PlainStep, Clean;
    if trailers == [] {
      TrailerLineTurn(p, Line("", blank), x);
      assert LineBytes(Line("", blank)) == Eol(blank);
    } else {
      assert trailers[0] in trailers;
      var rest := TrailersBytes(trailers[1..], blank) + x;
      assert TrailersBytes(trailers, blank) + x == LineBytes(trailers[0]) + rest;
      TrailerLineTurn(p, trailers[0], rest);
      TrailersTurn(p, trailers[1..], blank, x);
    }
  }

  /** Everything the grammar derives is parsed to its payload, and nothing behind it is touched. */
  lemma ChunkedBodyIsParsed(p: Parser, b: ChunkedBody, x: string)
    requires p.phase == ChunkSize && BodyOk(b)
    ensures
      var o := Parse(p, BodyBytes(b) + x);
      o.Stopped? && o.p.phase == Complete && o.p.body == p.body + Payload(b.chunks) && o.rest == x
  {
    hide Parse, Clean, ReadChunkSize;
    var behind := LineBytes(b.last) + (TrailersBytes(b.trailers, b.blank) + x);
    assert BodyBytes(b) + x == ChunksBytes(b.chunks) + behind;
    ChunksTurn(p, b.chunks, behind);
    var q := p.(body := p.body + Payload(b.chunks), chunkRemaining := if b.chunks == [] then p.chunkRemaining else 0);
    SizeLineTurn(q, b.last, TrailersBytes(b.trailers, b.blank) + x);
    TrailersTurn(q.(phase := ChunkTrailer), b.trailers, b.blank, x);
  }

  // --- and nothing else is ---

  lemma {:induction false} TrailersFromParse(p: Parser, s: string) returns (trailers: seq<Line>, blank: bool)
    requires p.phase == ChunkTrailer && Parse(p, s).Stopped? && Parse(p, s).p.phase == Complete
    ensures forall l :: l in trailers ==> TrailerOk(l)
    ensures var o := Parse(p, s); s == TrailersBytes(trailers, blank) + o.rest && o.p.body == p.body
    decreases |s|
  {
    hide PlainStep, LineOk, LineBytes;
    var l := TrailerLineFromParse(p, s);
    var rest := s[|LineBytes(l)|..];
    assert s == LineBytes(l) + rest;
    TrailerLineTurn(p, l, rest);
    var left := Parse(p, s).rest;
    if l.text == "" {
      trailers, blank := [], l.crlf;
      BlankLineIsEol(l);
    } else {
      var more, end := TrailersFromParse(p, rest);
      trailers, blank := [l] + more, end;
      ConsTrailer(l, more, end, left);
    }
  }

  lemma BlankLineIsEol(l: Line)
    requires l.text == ""
    ensures LineBytes(l) == Eol(l.crlf)
  {
  }

  lemma TrailerLineFromParse(p: Parser, s: string) returns (l: Line)
    requires p.phase == ChunkTrailer && Parse(p, s).Stopped? && Parse(p, s).p.phase == Complete
    ensures LineOk(l) && 0 < |LineBytes(l)| <= |s| && s[..|LineBytes(l)|] == LineBytes(l)
  {
    assert PlainLine(s).Some?;
    l := LineFromPlain(s);
  }

  lemma ChunkFromParse(p: Parser, l: Line, s: string) returns (c: Chunk, rest: string)
    requires p.phase == ChunkSize && LineOk(l) && ReadChunkSize(l.text).Some? && ReadChunkSize(l.text).value > 0
    requires var o := Parse(p, LineBytes(l) + s); o.Stopped? && o.p.phase == Complete
    ensures ChunkOk(c) && LineBytes(l) + s == ChunkBytes(c) + rest
  {
    hide Parse, Clean, ReadChunkSize, LineOk, LineBytes;
    var size := ReadChunkSize(l.text).value;
    SizeLineTurn(p, l, s);
    var q := p.(chunkRemaining := size, phase := ChunkData);
    ReadsData(q, s);
    var data, behind := s[..size], s[size..];
    var r := p.(body := p.body + data, chunkRemaining := 0, phase := ChunkDataEnd);
    assert s == data + behind;
    DataTurn(q, data, behind);
    ReadsDataEnd(r, behind);
    var crlf := behind[0] == '\r';
    c := Chunk(l, data, crlf);
    rest := behind[|Eol(crlf)|..];
    assert behind == Eol(crlf) + rest;
    assert s == (data + Eol(crlf)) + rest;
    assert LineBytes(l) + ((data + Eol(crlf)) + rest) == ChunkBytes(c) + rest;
  }

  lemma ReadsData(q: Parser, s: string)
    requires q.phase == ChunkData && q.chunkRemaining > 0 && Parse(q, s).Stopped? && Parse(q, s).p.phase == Complete
    ensures q.chunkRemaining <= |s|
  {
    hide PlainStep;
    var taken := Min(q.chunkRemaining, |s|);
    assert s[|s|..] == "";
    if taken > 0 {
      ChunkBytesOneByOne(q, s, taken);
    }
  }

  lemma ReadsDataEnd(r: Parser, s: string)
    requires r.phase == ChunkDataEnd && Parse(r, s).Stopped? && Parse(r, s).p.phase == Complete
    ensures s != "" && (s[0] == '\n' || (|s| >= 2 && s[0] == '\r' && s[1] == '\n'))
  {
  }

  /** A chunked body that completes was one the grammar derives, and its payload is what was emitted. */
  lemma {:induction false} ChunkedBodyFromParse(p: Parser, s: string) returns (b: ChunkedBody)
    requires p.phase == ChunkSize && Parse(p, s).Stopped? && Parse(p, s).p.phase == Complete
    ensures BodyOk(b)
    ensures var o := Parse(p, s); s == BodyBytes(b) + o.rest && o.p.body == p.body + Payload(b.chunks)
    decreases |s|
  {
    hide Parse, Clean, ReadChunkSize, LineOk, LineBytes, ChunkBytes, ChunkOk, BodyBytes, Payload;
    var l := SizeLineFromParse(p, s);
    var behind := s[|LineBytes(l)|..];
    assert s == LineBytes(l) + behind;
    var left := Parse(p, s).rest;
    SizeLineTurn(p, l, behind);
    if ReadChunkSize(l.text).value == 0 {
      var trailers, blank := TrailersFromParse(p.(phase := ChunkTrailer), behind);
      b := ChunkedBody([], l, trailers, blank);
      NoChunks(p.body, b, left);
    } else {
      var c, rest := ChunkFromParse(p, l, behind);
      ChunkTurn(p, c, rest);
      ChunkIsNotEmpty(c);
      var q := p.(body := p.body + c.data, chunkRemaining := 0);
      var more := ChunkedBodyFromParse(q, rest);
      b := more.(chunks := [c] + more.chunks);
      PrependChunk(p.body, c, more, left);
    }
  }

  lemma NoChunks(body: string, b: ChunkedBody, left: string)
    requires b.chunks == []
    ensures BodyBytes(b) + left == LineBytes(b.last) + (TrailersBytes(b.trailers, b.blank) + left)
    ensures body + Payload(b.chunks) == body
  {
    hide LineBytes, TrailersBytes;
  }

  lemma ChunkIsNotEmpty(c: Chunk)
    ensures |ChunkBytes(c)| > 0
  {
  }

  lemma PrependChunk(body: string, c: Chunk, more: ChunkedBody, left: string)
    ensures var b := more.(chunks := [c] + more.chunks);
            && BodyBytes(b) + left == ChunkBytes(c) + (BodyBytes(more) + left)
            && body + Payload(b.chunks) == (body + c.data) + Payload(more.chunks)
  {
    hide ChunkBytes, ChunksBytes, LineBytes, TrailersBytes;
    var tail := LineBytes(more.last) + TrailersBytes(more.trailers, more.blank);
    ConsChunk(body, c, more.chunks, tail + left);
    assert (ChunksBytes(more.chunks) + tail) + left == ChunksBytes(more.chunks) + (tail + left);
    assert (ChunksBytes([c] + more.chunks) + tail) + left == ChunksBytes([c] + more.chunks) + (tail + left);
  }

  lemma SizeLineFromParse(p: Parser, s: string) returns (l: Line)
    requires p.phase == ChunkSize && Parse(p, s).Stopped? && Parse(p, s).p.phase == Complete
    ensures LineOk(l) && |LineBytes(l)| <= |s| && s[..|LineBytes(l)|] == LineBytes(l) && ReadChunkSize(l.text).Some?
  {
    assert PlainLine(s).Some?;
    l := LineFromPlain(s);
  }

  /**
   The same of a run: a chunked body that completes over any list of arrivals was one the
   grammar derives, its payload is what was emitted, and what follows it is untouched.
   */
  lemma ChunkedRunFromGrammar(p: Parser, pieces: seq<string>) returns (b: ChunkedBody, rest: string)
    requires Resting(p) && p.phase == ChunkSize && p.bank == "" && Clean(p, Flatten(pieces))
    requires FedAll(p, pieces).phase == Complete
    ensures BodyOk(b) && Flatten(pieces) == BodyBytes(b) + rest
    ensures FedAll(p, pieces).body == p.body + Payload(b.chunks)
  {
    hide Parse, Clean, FedAll, BodyBytes, Payload, BodyOk;
    assert p.bank + Flatten(pieces) == Flatten(pieces);
    SplitInvariance(p, pieces);
    b := ChunkedBodyFromParse(p, Flatten(pieces));
    rest := Parse(p, Flatten(pieces)).rest;
  }

  // ---------------------------------------------------------------------------
  // What completion takes, on any stream at all
  // ---------------------------------------------------------------------------

  predicate LineStart(s: string, i: nat)
  {
    i <= |s| && (i == 0 || s[i - 1] == '\n')
  }

  /** A line of its own that reads as the chunk size zero, from `i` to `j`. */
  predicate ZeroSizeAt(s: string, i: nat, j: nat, crlf: bool)
  {
    && LineStart(s, i) && i + |Eol(crlf)| <= j <= |s|
    && s[j - |Eol(crlf)|..j] == Eol(crlf)
    && ReadChunkSize(s[i..j - |Eol(crlf)|]) == Some(0)
  }

  predicate BlankAt(s: string, k: nat, crlf: bool)
  {
    LineStart(s, k) && k + |Eol(crlf)| <= |s| && s[k..k + |Eol(crlf)|] == Eol(crlf)
  }

  ghost predicate HasZeroSize(s: string)
  {
    exists i: nat, j: nat, crlf :: ZeroSizeAt(s, i, j, crlf)
  }

  /** A chunk-size line of zero, and behind it a blank line. */
  ghost predicate HasChunksEnd(s: string)
  {
    exists i: nat, j: nat, crlf, k: nat, blank :: ZeroSizeAt(s, i, j, crlf) && j <= k && BlankAt(s, k, blank)
  }

  lemma ZeroSizeStays(s: string, x: string, i: nat, j: nat, crlf: bool)
    requires ZeroSizeAt(s, i, j, crlf)
    ensures ZeroSizeAt(s + x, i, j, crlf)
  {
    hide ReadChunkSize;
    var e := j - |Eol(crlf)|;
    assert (s + x)[i..e] == s[i..e] && (s + x)[e..j] == s[e..j];
  }

  lemma EndStays(s: string, x: string)
    ensures HasZeroSize(s) ==> HasZeroSize(s + x)
    ensures HasChunksEnd(s) ==> HasChunksEnd(s + x)
  {
    hide ZeroSizeAt;
    if HasZeroSize(s) {
      var i: nat, j: nat, crlf: bool :| ZeroSizeAt(s, i, j, crlf);
      ZeroSizeStays(s, x, i, j, crlf);
    }
    if HasChunksEnd(s) {
      var i: nat, j: nat, crlf: bool, k: nat, blank: bool :| ZeroSizeAt(s, i, j, crlf) && j <= k && BlankAt(s, k, blank);
      ZeroSizeStays(s, x, i, j, crlf);
      assert (s + x)[k..k + |Eol(blank)|] == s[k..k + |Eol(blank)|];
      assert BlankAt(s + x, k, blank);
    }
  }

  /** What a parser has behind it, if `seen` is what it has used since the start of the response. */
  ghost predicate CameBy(p: Parser, seen: string)
  {
    && (LinePhase(p.phase) ==> LineStart(seen, |seen|))
    && (p.phase == ChunkTrailer ==> HasZeroSize(seen))
    && (p.phase == Complete && p.chunked ==> HasChunksEnd(seen))
  }

  lemma TakenLineBytes(data: string) returns (crlf: bool)
    requires TakeLine(data).Some?
    ensures var (line, n) := TakeLine(data).value; data[..n] == line + Eol(crlf)
  {
    hide Find, FindCrlf;
    var at := FindCrlf(data);
    crlf := at < |data|;
    if crlf {
      assert data[..at + 2] == data[..at] + "\r\n";
    } else {
      var lf := Find(data, '\n');
      assert data[..lf + 1] == data[..lf] + "\n";
    }
  }

  lemma LineCameBy(p: Parser, seen: string, line: string, crlf: bool, n: nat)
    requires LinePhase(p.phase) && Accounted(p) && CameBy(p, seen)
    requires OnLine(p, line, n).Advance?
    ensures CameBy(OnLine(p, line, n).p, seen + (line + Eol(crlf)))
  {
    hide ReadStatusLine, ReadHeader, ReadChunkSize, Contains, ToLower, ParseInt, HasZeroSize, HasChunksEnd;
    var s := seen + (line + Eol(crlf));
    var e := |seen| + |line|;
    EndStays(seen, line + Eol(crlf));
    assert s[e..] == Eol(crlf) && s[|s| - 1] == '\n' && s[|seen|..e] == line;
    assert LineStart(s, |seen|);
    if p.phase == ChunkSize && ReadChunkSize(line) == Some(0) {
      assert ZeroSizeAt(s, |seen|, |s|, crlf);
      ZeroSizeHas(s, |seen|, |s|, crlf);
    }
    if p.phase == ChunkTrailer && line == "" {
      BlankEnds(seen, crlf);
      assert line + Eol(crlf) == Eol(crlf);
    }
  }

  lemma ZeroSizeHas(s: string, i: nat, j: nat, crlf: bool)
    requires ZeroSizeAt(s, i, j, crlf)
    ensures HasZeroSize(s)
  {
  }

  lemma ZeroSizeFits(s: string, i: nat, j: nat, crlf: bool)
    requires ZeroSizeAt(s, i, j, crlf)
    ensures j <= |s|
  {
  }

  lemma BlankEnds(seen: string, blank: bool)
    requires HasZeroSize(seen) && LineStart(seen, |seen|)
    ensures HasChunksEnd(seen + Eol(blank))
  {
    hide ReadChunkSize, ZeroSizeAt;
    var s := seen + Eol(blank);
    var i: nat, j: nat, crlf: bool :| ZeroSizeAt(seen, i, j, crlf);
    ZeroSizeStays(seen, Eol(blank), i, j, crlf);
    ZeroSizeFits(seen, i, j, crlf);
    assert s[|seen|..] == Eol(blank);
    assert BlankAt(s, |seen|, blank);
  }

  lemma StepCameBy(p: Parser, seen: string, data: string)
    requires !Done(p) && Valid(p) && Accounted(p) && CameBy(p, seen) && data != ""
    requires Step(p, data).Advance? && Step(p, data).taken > 0
    ensures CameBy(Step(p, data).p, seen + data[..Step(p, data).taken])
  {
    hide TakeLine, OnLine, HasZeroSize, HasChunksEnd;
    if LinePhase(p.phase) {
      var (line, n) := TakeLine(data).value;
      var crlf := TakenLineBytes(data);
      LineCameBy(p, seen, line, crlf, n);
    } else {
      StepKeepsAccount(p, data);
      var n := Step(p, data).taken;
      assert p.phase == ChunkDataEnd ==> (seen + data[..n])[|seen| + n - 1] == '\n';
    }
  }

  lemma UsedTogether(seen: string, data: string, n: nat, left: nat)
    requires n + left <= |data|
    ensures seen + data[..n] + data[n..][..|data[n..]| - left] == seen + data[..|data| - left]
  {
    assert data[..n] + data[n..][..|data| - n - left] == data[..|data| - left];
  }

  lemma {:induction false} LoopCameBy(p: Parser, seen: string, data: string)
    requires Valid(p) && Accounted(p) && CameBy(p, seen)
    ensures var o := Loop(p, data); o.Stopped? ==> CameBy(o.p, seen + data[..|data| - |o.rest|])
    decreases |data|
  {
    hide Step, CameBy, Accounted;
    if data == "" || Done(p) {
      assert seen + data[..0] == seen;
    } else if Step(p, data).Advance? {
      var q, n := Step(p, data).p, Step(p, data).taken;
      if n == 0 {
        StuckIsQuiet(p, data);
        assert seen + data[..0] == seen;
      } else {
        StepCameBy(p, seen, data);
        StepKeepsAccount(p, data);
        StepKeepsValid(p, data);
        LoopCameBy(q, seen + data[..n], data[n..]);
        if Loop(q, data[n..]).Stopped? {
          UsedTogether(seen, data, n, |Loop(q, data[n..]).rest|);
        }
      }
    }
  }

  function Arrived(events: seq<Event>): string
  {
    if events == [] then ""
    else
      Arrived(events[..|events| - 1]) +
      match events[|events| - 1]
      case Arrives(data) => data
      case HangsUp => ""
  }

  /** Between calls: what has arrived is what has been used, and then what is banked. */
  ghost predicate Behind(p: Parser, stream: string)
  {
    && (p.phase == Complete && p.chunked ==> HasChunksEnd(stream))
    && (!Done(p) ==> exists seen :: stream == seen + p.bank && CameBy(p, seen))
  }

  lemma FedIs(p: Parser, data: string)
    ensures Done(p) ==> Fed(p, data).0 == p
    ensures !Done(p) ==>
              match Loop(p, p.bank + data)
              case Failed(_) => Fed(p, data).0.phase == Error
              case Stopped(q, rest) => Fed(p, data).0 == q.(bank := if Done(q) then "" else rest)
  {
    hide Loop;
  }

  lemma FedIsBehind(p: Parser, stream: string, data: string)
    requires Resting(p) && Accounted(p) && Behind(p, stream)
    ensures Behind(Fed(p, data).0, stream + data)
  {
    hide CameBy, Loop, HasChunksEnd, Accounted, Resting, Fed, Behind;
    FedIs(p, data);
    if Done(p) {
      DoneStaysBehind(p, stream, data);
    } else {
      var seen := UsedSoFar(p, stream);
      RestingIsValid(p);
      LoopCameBy(p, seen, p.bank + data);
      if Loop(p, p.bank + data).Stopped? {
        StoppedIsBehind(p, seen, p.bank + data);
        ConcatAssoc(seen, p.bank, data);
      } else {
        ErrorIsBehind(Fed(p, data).0, stream + data);
      }
    }
  }

  lemma UsedSoFar(p: Parser, stream: string) returns (seen: string)
    requires Behind(p, stream) && !Done(p)
    ensures stream == seen + p.bank && CameBy(p, seen)
  {
    hide CameBy, HasChunksEnd;
    seen :| stream == seen + p.bank && CameBy(p, seen);
  }

  lemma DoneStaysBehind(p: Parser, stream: string, data: string)
    requires Behind(p, stream) && Done(p)
    ensures Behind(p, stream + data)
  {
    hide CameBy, HasChunksEnd;
    EndStays(stream, data);
  }

  lemma ErrorIsBehind(p: Parser, stream: string)
    requires p.phase == Error
    ensures Behind(p, stream)
  {
    hide CameBy, HasChunksEnd;
  }

  lemma RestingIsValid(p: Parser)
    requires Resting(p)
    ensures Valid(p)
  {
  }

  lemma StoppedIsBehind(p: Parser, seen: string, all: string)
    requires var o := Loop(p, all); o.Stopped? && CameBy(o.p, seen + all[..|all| - |o.rest|])
    ensures var o := Loop(p, all);
            Behind(o.p.(bank := if Done(o.p) then "" else o.rest), seen + all)
  {
    hide CameBy, Loop, HasChunksEnd;
    var o := Loop(p, all);
    LoopLeavesSuffix(p, all);
    var used := seen + all[..|all| - |o.rest|];
    assert seen + all == used + o.rest;
    EndStays(used, o.rest);
    CompleteCameBy(o.p, used);
    BankIgnored(o.p, if Done(o.p) then "" else o.rest, used);
  }

  lemma CompleteCameBy(p: Parser, seen: string)
    requires CameBy(p, seen)
    ensures p.phase == Complete && p.chunked ==> HasChunksEnd(seen)
  {
  }

  lemma BankIgnored(p: Parser, bank: string, seen: string)
    requires CameBy(p, seen)
    ensures CameBy(p.(bank := bank), seen)
  {
  }

  /**
   Over every run from a fresh parser, whatever arrives and however it is cut: the body is
   accounted for, and the parser is complete only when a counted body has arrived in full,
   a chunked one has ended with a chunk-size line of zero and a blank line behind it, or
   the peer has hung up on a body that runs to the end of the connection.
   */
  lemma {:induction false} CompleteOnlyWhenWhole(events: seq<Event>)
    ensures
      var p := Over(Fresh, events);
      && Resting(p) && Accounted(p) && Behind(p, Arrived(events))
      && (p.phase == Complete ==>
            || (p.chunked && HasChunksEnd(Arrived(events)))
            || (!p.chunked && p.hasLength && |p.body| == p.contentLength)
            || (!p.chunked && !p.hasLength && HangsUp in events))
  {
    if events == [] {
      FreshIsBehind();
    } else {
      hide HasChunksEnd, CameBy, Behind, Resting, Accounted, Fed, Finished;
      var before := events[..|events| - 1];
      var e := events[|events| - 1];
      CompleteOnlyWhenWhole(before);
      var p, stream := Over(Fresh, before), Arrived(before);
      assert HangsUp in before ==> HangsUp in events;
      match e
      case HangsUp =>
        assert e in events && stream + "" == stream;
        HangUpIsBehind(p, stream);
      case Arrives(data) =>
        FedKeepsResting(p, data);
        FedIsBehind(p, stream, data);
        FedIsAccounted(p, data);
    }
    if Over(Fresh, events).phase == Complete {
      WholeWhenComplete(Over(Fresh, events), Arrived(events));
    }
  }

  lemma WholeWhenComplete(p: Parser, stream: string)
    requires Accounted(p) && Behind(p, stream) && p.phase == Complete
    ensures p.chunked ==> HasChunksEnd(stream)
    ensures !p.chunked && p.hasLength ==> |p.body| == p.contentLength
  {
  }

  lemma FedIsAccounted(p: Parser, data: string)
    requires Resting(p) && Accounted(p)
    ensures var q := Fed(p, data).0;
            Accounted(q) && (q.phase == Complete && p.phase != Complete ==> q.chunked || q.hasLength)
    ensures Done(p) ==> Fed(p, data).0 == p
  {
    hide Loop;
    if !Done(p) {
      LoopKeepsAccount(p, p.bank + data);
    }
  }

  lemma FreshIsBehind()
    ensures Behind(Fresh, "") && Resting(Fresh) && Accounted(Fresh)
  {
    assert "" == "" + Fresh.bank && CameBy(Fresh, "");
  }

  lemma HangUpIsBehind(p: Parser, stream: string)
    requires Resting(p) && Accounted(p) && Behind(p, stream)
    ensures var q := Finished(p);
            && Resting(q) && Accounted(q) && Behind(q, stream)
            && (if q.phase == Complete && p.phase != Complete then !q.chunked && !q.hasLength else q == p)
  {
  }

  // ---------------------------------------------------------------------------
  // The printer
  // ---------------------------------------------------------------------------

  /** One chunk of a request body as it goes out. */
  function ChunkFrame(piece: string): string
  {
    HexOf(|piece|) + "\r\n" + piece + "\r\n"
  }

  const TERMINATOR := "0\r\n\r\n"

  function Frames(pieces: seq<string>): string
  {
    if pieces == [] then "" else ChunkFrame(pieces[0]) + Frames(pieces[1..])
  }

  lemma {:induction false} HexValueSnoc(s: string, c: char, v: nat)
    requires HexDigit(c).Some?
    ensures HexValue(s + [c], v) ==
            match HexValue(s, v)
            case None => None
            case Some(w) => Some((w * 16 + HexDigit(c).value) % SIZE_MODULUS)
    decreases |s|
  {
    if s == "" {
      assert (s + [c])[1..] == "";
    } else {
      assert (s + [c])[1..] == s[1..] + [c];
      if HexDigit(s[0]).Some? {
        HexValueSnoc(s[1..], c, (v * 16 + HexDigit(s[0]).value) % SIZE_MODULUS);
      }
    }
  }

  lemma SmallMod(x: nat, m: nat)
    requires x < m
    ensures x % m == x
  {
  }

  lemma {:induction false} HexValueOfHex(n: nat)
    requires n < SIZE_MODULUS
    ensures HexValue(HexOf(n), 0) == Some(n)
  {
    SmallMod(n, SIZE_MODULUS);
    var c := HexChar(n % 16);
    if n < 16 {
      HexValueSnoc("", c, 0);
      assert "" + [c] == HexOf(n);
    } else {
      HexValueOfHex(n / 16);
      HexValueSnoc(HexOf(n / 16), c, 0);
      assert n / 16 * 16 + n % 16 == n;
    }
  }

  lemma {:induction false} TrimKeepsUnblank(s: string)
    requires forall c :: c in s ==> !Blank(c)
    ensures Trim(s) == s
  {
    assert s != "" ==> s[0] in s && s[|s| - 1] in s;
  }

  lemma SizeFieldOfHex(n: nat)
    ensures SizeField(HexOf(n)) == HexOf(n)
  {
    var s := HexOf(n);
    TrimKeepsUnblank(s);
    var semi := Find(s, ';');
    assert forall k :: 0 <= k < |s| ==> s[k] in s;
  }

  lemma ReadsHexSize(n: nat)
    requires n < SIZE_MODULUS
    ensures ReadChunkSize(HexOf(n)) == Some(n) && '\n' !in HexOf(n)
  {
    HexValueOfHex(n);
    SizeFieldOfHex(n);
    hide HexValue, SizeField;
  }

  /** The same number, its hexadecimal letters in any case. */
  lemma {:induction false} HexInAnyCase(field: string, shown: string, value: nat)
    requires SameUpToCase(shown, field) && forall c <- field :: HexDigit(c).Some?
    ensures HexValue(shown, value) == HexValue(field, value)
    decreases |field|
  {
    if field != "" {
      assert shown == [shown[0]] + shown[1..];
      assert field[0] in field && SameLetter(shown[0], field[0]) && HexDigit(shown[0]) == HexDigit(field[0]);
      HexInAnyCase(field[1..], shown[1..], (value * 16 + HexDigit(field[0]).value) % SIZE_MODULUS);
    }
  }

  lemma HexIsSolid(n: nat, shown: string)
    requires SameUpToCase(shown, HexOf(n))
    ensures shown != "" && Solid(shown) && ';' !in shown
  {
    hide HexOf;
    forall k | 0 <= k < |shown| ensures shown[k] != '\n' && shown[k] != ' ' && shown[k] != '\t' && shown[k] != ';' {
      assert HexOf(n)[k] in HexOf(n) && SameLetter(shown[k], HexOf(n)[k]);
    }
  }

  /**
   A chunk-size line is read as the size it shows: hexadecimal in any letter case, blanks
   around it, and an extension behind a semicolon, whatever it says.
   */
  lemma SizeLineIsRead(n: nat, shown: string, lead: string, gap: string, extension: Option<string>)
    requires n < SIZE_MODULUS && SameUpToCase(shown, HexOf(n)) && Blanks(lead) && Blanks(gap)
    ensures ReadChunkSize(lead + (shown + (gap + if extension.Some? then ";" + extension.value else ""))) == Some(n)
  {
    hide HexOf, HexValue, Trim, Find, SameUpToCase, Solid, Blanks;
    HexIsSolid(n, shown);
    HexInAnyCase(HexOf(n), shown, 0);
    HexValueOfHex(n);
    assert forall c <- HexOf(n) :: HexDigit(c).Some?;
    if extension.None? {
      assert gap + "" == gap;
      TrimmedIs(lead, shown, gap);
      NoSemicolon(shown);
    } else {
      SizeFieldBeforeExtension(shown, lead, gap, extension.value);
    }
  }

  lemma NoSemicolon(shown: string)
    requires ';' !in shown
    ensures Find(shown, ';') == |shown|
  {
    hide Find;
    assert forall k :: 0 <= k < |shown| ==> shown[k] in shown;
  }

  lemma SizeFieldBeforeExtension(shown: string, lead: string, gap: string, extension: string)
    requires Solid(shown) && shown != "" && ';' !in shown && Blanks(lead) && Blanks(gap)
    ensures SizeField(lead + (shown + (gap + (";" + extension)))) == shown
  {
    hide Trim, Find;
    var line := lead + (shown + (gap + (";" + extension)));
    var kept := TrimRight(";" + extension);
    TrimBehindMark(lead, shown + gap, ";" + extension);
    assert line == lead + ((shown + gap) + (";" + extension));
    var field := Trim(line);
    assert field == (shown + gap) + kept && kept[0] == ';';
    assert field[|shown + gap|] == ';';
    assert forall k :: 0 <= k < |shown| ==> field[k] == shown[k] && shown[k] in shown;
    assert forall k :: |shown| <= k < |shown + gap| ==> field[k] == gap[k - |shown|];
    assert Find(field, ';') == |shown + gap|;
    assert field[..|shown + gap|] == "" + (shown + gap);
    TrimmedIs("", shown, gap);
  }

  /** Trimming reaches the blanks in front, and behind a mark at most those at its end. */
  lemma TrimBehindMark(lead: string, front: string, behind: string)
    requires Blanks(lead) && front != "" && front[0] != ' ' && front[0] != '\t'
    requires behind != "" && behind[0] != ' ' && behind[0] != '\t'
    ensures Trim(lead + (front + behind)) == front + TrimRight(behind)
    ensures TrimRight(behind) != "" && TrimRight(behind)[0] == behind[0]
  {
    hide TrimLeft, TrimRight;
    LeftBlanksGo(lead, front + behind);
    TrimRightKeepsFront(front, behind);
  }

  lemma {:induction false} TrimRightKeepsFront(front: string, behind: string)
    requires behind != "" && behind[0] != ' ' && behind[0] != '\t'
    ensures TrimRight(front + behind) == front + TrimRight(behind)
    ensures TrimRight(behind) != "" && TrimRight(behind)[0] == behind[0]
    decreases |behind|
  {
    var s := front + behind;
    assert s[|s| - 1] == behind[|behind| - 1];
    if Blank(behind[|behind| - 1]) {
      assert s[..|s| - 1] == front + behind[..|behind| - 1];
      TrimRightKeepsFront(front, behind[..|behind| - 1]);
    }
  }

  lemma FrameIsChunk(piece: string)
    requires 0 < |piece| <= INT_MAX
    ensures var c := Chunk(Line(HexOf(|piece|), true), piece, true); ChunkOk(c) && ChunkBytes(c) == ChunkFrame(piece)
  {
    hide ReadChunkSize, HexOf;
    ReadsHexSize(|piece|);
    var size := HexOf(|piece|);
    assert size + "\r\n" + piece + "\r\n" == (size + "\r\n") + (piece + "\r\n");
  }

  function ChunksOf(pieces: seq<string>): seq<Chunk>
  {
    if pieces == [] then [] else [Chunk(Line(HexOf(|pieces[0]|), true), pieces[0], true)] + ChunksOf(pieces[1..])
  }

  lemma {:induction false} FramesAreChunks(pieces: seq<string>)
    requires forall s :: s in pieces ==> 0 < |s| <= INT_MAX
    ensures forall c :: c in ChunksOf(pieces) ==> ChunkOk(c) && c.size.crlf
    ensures ChunksBytes(ChunksOf(pieces)) == Frames(pieces)
    ensures Payload(ChunksOf(pieces)) == Flatten(pieces)
  {
    if pieces != [] {
      assert pieces[0] in pieces;
      FrameIsChunk(pieces[0]);
      FramesAreChunks(pieces[1..]);
      var first := Chunk(Line(HexOf(|pieces[0]|), true), pieces[0], true);
      assert ChunksOf(pieces)[0] == first && ChunksOf(pieces)[1..] == ChunksOf(pieces[1..]);
    }
  }

  lemma ZeroLine()
    ensures LineOk(Line("0", true)) && ReadChunkSize("0") == Some(0)
  {
    ReadsHexSize(0);
    assert HexOf(0) == "0";
  }

  /** The bytes of an upload are clean: every line of theirs ends in CRLF. */
  lemma {:induction false} FramesAreClean(p: Parser, chunks: seq<Chunk>, x: string)
    requires p.phase == ChunkSize && forall c :: c in chunks ==> ChunkOk(c) && c.size.crlf
    ensures Clean(p, ChunksBytes(chunks) + (TERMINATOR + x))
    decreases |chunks|
  {
    hide Parse, Clean, ReadChunkSize, ChunkOk, ChunkBytes;
    if chunks == [] {
      ZeroLine();
      var l, blank := Line("0", true), Line("", true);
      assert ChunksBytes(chunks) + (TERMINATOR + x) == LineBytes(l) + (LineBytes(blank) + x);
      TrailerLineTurn(p.(phase := ChunkTrailer), blank, x);
      SizeLineTurn(p, l, LineBytes(blank) + x);
    } else {
      assert chunks[0] in chunks;
      var rest := ChunksBytes(chunks[1..]) + (TERMINATOR + x);
      assert ChunksBytes(chunks) + (TERMINATOR + x) == ChunkBytes(chunks[0]) + rest;
      FramesAreClean(p.(body := p.body + chunks[0].data, chunkRemaining := 0), chunks[1..], x);
      ChunkTurn(p, chunks[0], rest);
    }
  }

  lemma FramesParse(p: Parser, pieces: seq<string>, x: string)
    requires p.phase == ChunkSize && forall s :: s in pieces ==> 0 < |s| <= INT_MAX
    ensures
      var stream := Frames(pieces) + (TERMINATOR + x);
      var o := Parse(p, stream);
      && Clean(p, stream)
      && o.Stopped? && o.p.phase == Complete && o.p.body == p.body + Flatten(pieces) && o.rest == x
  {
    hide Parse, Clean, ReadChunkSize, ChunkOk, ChunkBytes;
    FramesAreChunks(pieces);
    FramesAreClean(p, ChunksOf(pieces), x);
    ZeroLine();
    var b := ChunkedBody(ChunksOf(pieces), Line("0", true), [], true);
    assert LineBytes(b.last) + TrailersBytes([], true) == TERMINATOR;
    assert BodyBytes(b) + x == Frames(pieces) + (TERMINATOR + x);
    ChunkedBodyIsParsed(p, b, x);
  }

  /**
   The chunk printer and the parser undo each other. For any list of non-empty pieces,
   the frames and the terminator, cut anywhere and fed to a parser that is waiting for
   a chunk size, are consumed to the last byte, emit exactly the pieces, and leave the
   response complete. Payload bytes are unrestricted.
   */
  lemma PrinterAndParserUndoEachOther(p: Parser, pieces: seq<string>, cut: seq<string>)
    requires Resting(p) && p.phase == ChunkSize && p.bank == ""
    requires forall s :: s in pieces ==> 0 < |s| <= INT_MAX
    requires Flatten(cut) == Frames(pieces) + TERMINATOR
    ensures
      var q := FedAll(p, cut);
      q.phase == Complete && q.body == p.body + Flatten(pieces) && Unused(Parse(p, Flatten(cut))) == Some("")
  {
    hide Parse, Clean;
    FramesParse(p, pieces, "");
    assert Frames(pieces) + (TERMINATOR + "") == Flatten(cut);
    assert p.bank + Flatten(cut) == Flatten(cut);
    SplitInvariance(p, cut);
  }
}

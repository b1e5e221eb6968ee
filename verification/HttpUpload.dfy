/**
 What the HTTP client puts on a connection: request heads, chunks and terminators, and
 the latches that decide when each may be sent.
 */
module HttpUpload {
  // ---------------------------------------------------------------------------
  // The wire
  // ---------------------------------------------------------------------------

  /** One Send. A torn one put only part of its bytes on the wire. */
  datatype Item =
    | Plain(text: string)
    | Head(text: string)
    | Chunk(piece: string)
    | Terminator
    | TornRequest(bytes: string)
    | TornBody(bytes: string)

  datatype Phase = Between | InBody | Cut | Malformed

  /** How a server that reads the connection from its start sees the next item. */
  function Next(phase: Phase, item: Item): Phase
  {
    match phase
    case Between =>
      (match item
       case Plain(_) => Between
       case Head(_) => InBody
       case TornRequest(_) => Cut
       case _ => Malformed)
    case InBody =>
      (match item
       case Chunk(piece) => if piece == "" then Malformed else InBody
       case Terminator => Between
       case TornBody(_) => Cut
       case _ => Malformed)
    case Cut => Malformed
    case Malformed => Malformed
  }

  function PhaseOf(wire: seq<Item>): Phase
  {
    if wire == [] then Between else Next(PhaseOf(wire[..|wire| - 1]), wire[|wire| - 1])
  }

  predicate WellFormed(wire: seq<Item>)
  {
    PhaseOf(wire) != Malformed
  }

  datatype Sent = Request(text: string) | Upload(text: string, pieces: seq<string>)

  function Chunks(pieces: seq<string>): seq<Item>
  {
    if pieces == [] then [] else Chunks(pieces[..|pieces| - 1]) + [Chunk(pieces[|pieces| - 1])]
  }

  function ItemsOf(s: Sent): seq<Item>
  {
    match s
    case Request(text) => [Plain(text)]
    case Upload(text, pieces) => [Head(text)] + Chunks(pieces) + [Terminator]
  }

  function Items(requests: seq<Sent>): seq<Item>
  {
    if requests == [] then [] else Items(requests[..|requests| - 1]) + ItemsOf(requests[|requests| - 1])
  }

  /** The chunks since the last head. */
  function OpenPieces(wire: seq<Item>): seq<string>
  {
    if wire == [] then []
    else
      match wire[|wire| - 1]
      case Chunk(piece) => OpenPieces(wire[..|wire| - 1]) + [piece]
      case _ => []
  }

  /** What may stand behind the complete requests. */
  datatype Tail = Nothing | TornHead(bytes: string) | Open(text: string, pieces: seq<string>) | TornUpload(text: string, pieces: seq<string>, bytes: string)

  function TailItems(tail: Tail): seq<Item>
  {
    match tail
    case Nothing => []
    case TornHead(bytes) => [TornRequest(bytes)]
    case Open(text, pieces) => [Head(text)] + Chunks(pieces)
    case TornUpload(text, pieces, bytes) => [Head(text)] + Chunks(pieces) + [TornBody(bytes)]
  }

  /** No chunk of a request is empty: an empty chunk is the terminator. */
  predicate Sound(requests: seq<Sent>, tail: Tail)
  {
    && (forall s <- requests :: s.Upload? ==> "" !in s.pieces)
    && (tail.Open? || tail.TornUpload? ==> "" !in tail.pieces)
  }

  function TailPhase(tail: Tail): Phase
  {
    match tail
    case Nothing => Between
    case Open(_, _) => InBody
    case _ => Cut
  }

  lemma ItemsSnoc(requests: seq<Sent>, s: Sent)
    ensures Items(requests + [s]) == Items(requests) + ItemsOf(s)
  {
    assert (requests + [s])[..|requests|] == requests;
  }

  lemma ChunksSnoc(pieces: seq<string>, piece: string)
    ensures Chunks(pieces + [piece]) == Chunks(pieces) + [Chunk(piece)]
  {
    assert (pieces + [piece])[..|pieces|] == pieces;
  }

  lemma TailGrows(done: seq<Sent>, open: Tail, item: Item) returns (tail: Tail)
    requires Sound(done, open) && Next(TailPhase(open), item) != Malformed && TailPhase(open) != Cut
    requires !item.Plain? && !item.Terminator?
    ensures TailItems(tail) == TailItems(open) + [item]
    ensures Sound(done, tail) && TailPhase(tail) == Next(TailPhase(open), item)
    ensures tail.Open? ==> tail.pieces == if item.Chunk? then open.pieces + [item.piece] else []
  {
    hide Chunks;
    match item
    case Head(text) =>
      NoChunks();
      tail := Open(text, []);
    case Chunk(piece) =>
      ChunksSnoc(open.pieces, piece);
      tail := Open(open.text, open.pieces + [piece]);
      assert [Head(open.text)] + (Chunks(open.pieces) + [item]) == ([Head(open.text)] + Chunks(open.pieces)) + [item];
    case TornRequest(bytes) =>
      tail := TornHead(bytes);
    case TornBody(bytes) =>
      tail := TornUpload(open.text, open.pieces, bytes);
  }

  lemma RequestCompletes(done: seq<Sent>, open: Tail, item: Item) returns (requests: seq<Sent>)
    requires Sound(done, open) && Next(TailPhase(open), item) != Malformed && TailPhase(open) != Cut
    requires item.Plain? || item.Terminator?
    ensures Items(requests) == Items(done) + (TailItems(open) + [item])
    ensures Sound(requests, Nothing)
  {
    hide Chunks, Items;
    var s := if item.Plain? then Request(item.text) else Upload(open.text, open.pieces);
    ItemsSnoc(done, s);
    requests := done + [s];
    assert ItemsOf(s) == TailItems(open) + [item];
  }

  /** A well-formed wire is complete requests followed by at most one unfinished one. */
  lemma {:induction false} WireIsRequests(wire: seq<Item>) returns (requests: seq<Sent>, tail: Tail)
    requires WellFormed(wire)
    ensures wire == Items(requests) + TailItems(tail) && Sound(requests, tail)
    ensures PhaseOf(wire) == TailPhase(tail)
    ensures tail.Open? ==> tail.pieces == OpenPieces(wire)
    decreases |wire|
  {
    hide Items, TailItems, Sound;
    if wire == [] {
      requests, tail := [], Nothing;
      NothingIsSound();
    } else {
      var front, last := wire[..|wire| - 1], wire[|wire| - 1];
      assert wire == front + [last];
      var done, open := WireIsRequests(front);
      assert front + [last] == Items(done) + (TailItems(open) + [last]);
      if last.Plain? || last.Terminator? {
        tail := Nothing;
        requests := RequestCompletes(done, open, last);
        assert Items(requests) + [] == Items(requests);
        NothingIsSound();
      } else {
        requests := done;
        tail := TailGrows(done, open, last);
      }
    }
  }

  lemma NothingIsSound()
    ensures Items([]) == TailItems(Nothing) == [] && Sound([], Nothing)
  {
  }

  lemma NoChunks()
    ensures Chunks([]) == []
  {
  }

  // --- and every such list of items is a well-formed wire ---

  lemma PhaseSnoc(wire: seq<Item>, item: Item)
    ensures PhaseOf(wire + [item]) == Next(PhaseOf(wire), item)
  {
    assert (wire + [item])[..|wire|] == wire;
  }

  lemma {:induction false} ChunksKeepTheBodyOpen(wire: seq<Item>, text: string, pieces: seq<string>)
    requires PhaseOf(wire) == Between && "" !in pieces
    ensures PhaseOf(wire + ([Head(text)] + Chunks(pieces))) == InBody
    decreases |pieces|
  {
    hide PhaseOf;
    if pieces == [] {
      NoChunks();
      PhaseSnoc(wire, Head(text));
      assert [Head(text)] + Chunks(pieces) == [Head(text)];
    } else {
      var front, last := pieces[..|pieces| - 1], pieces[|pieces| - 1];
      ChunksKeepTheBodyOpen(wire, text, front);
      var open := wire + ([Head(text)] + Chunks(front));
      PhaseSnoc(open, Chunk(last));
      assert wire + ([Head(text)] + Chunks(pieces)) == open + [Chunk(last)];
    }
  }

  lemma {:induction false} RequestsLeaveNothingOpen(requests: seq<Sent>)
    requires Sound(requests, Nothing)
    ensures PhaseOf(Items(requests)) == Between
    decreases |requests|
  {
    hide PhaseOf, Chunks;
    if requests == [] {
      assert PhaseOf([]) == Between by {
        NothingSent();
      }
    } else {
      var front, last := requests[..|requests| - 1], requests[|requests| - 1];
      RequestsLeaveNothingOpen(front);
      match last
      case Request(text) =>
        PhaseSnoc(Items(front), Plain(text));
      case Upload(text, pieces) =>
        ChunksKeepTheBodyOpen(Items(front), text, pieces);
        var open := Items(front) + ([Head(text)] + Chunks(pieces));
        PhaseSnoc(open, Terminator);
        assert Items(front) + ItemsOf(last) == open + [Terminator];
    }
  }

  lemma NothingSent()
    ensures PhaseOf([]) == Between
  {
  }

  lemma RequestsAreWire(requests: seq<Sent>, tail: Tail)
    requires Sound(requests, tail)
    ensures PhaseOf(Items(requests) + TailItems(tail)) == TailPhase(tail)
  {
    hide PhaseOf, Chunks, Items;
    var done := Items(requests);
    RequestsLeaveNothingOpen(requests);
    match tail
    case Nothing =>
      assert done + [] == done;
    case TornHead(bytes) =>
      PhaseSnoc(done, TornRequest(bytes));
    case Open(text, pieces) =>
      ChunksKeepTheBodyOpen(done, text, pieces);
    case TornUpload(text, pieces, bytes) =>
      ChunksKeepTheBodyOpen(done, text, pieces);
      var open := done + ([Head(text)] + Chunks(pieces));
      PhaseSnoc(open, TornBody(bytes));
      assert done + TailItems(tail) == open + [TornBody(bytes)];
  }
}

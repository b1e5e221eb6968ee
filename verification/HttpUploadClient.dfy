/** The upload latches of the HTTP client, and what every run of it puts on the wire. */
module HttpUploadClient {
  import opened AtParser
  import opened Bytes
  import opened HttpUpload
  import HttpBody
  import HttpParser
  import HttpStream

  datatype Peer = Peer(tls: bool, host: string, port: int)

  datatype Error = NotSupported | NotConnected | InvalidArgument | ProtocolError | TransmitFailed | ConnectFailed

  datatype Reply = Done | Wrote(n: nat) | Refused(error: Error)

  /** What the transport makes of a Send; `n` bytes of one that fell short are on the wire. */
  datatype Send = Whole | Short(n: nat) | Failed(n: nat)

  /** A request head goes out whole or not at all as far as its Send reports. */
  datatype HeadSend = HeadSent | HeadFailed(n: nat)

  /** One connection attempt and one head, as the network answers them. */
  datatype Dial = Dial(peer: Peer, head: string, connects: bool, send: HeadSend)

  datatype Client = Client(
    keepAlive: bool,
    chunkedUpload: bool,
    uploadChunked: bool,
    uploadActive: bool,
    connected: bool,
    transport: bool,
    peer: Peer,
    closed: bool,
    answered: bool,
    wire: seq<Item>,
    past: seq<seq<Item>>,
    abandoned: bool)

  function Prefix(text: string, n: nat): string
  {
    if n < |text| then text[..n] else text
  }

  function WithTorn(wire: seq<Item>, item: Item, bytes: string): seq<Item>
  {
    if bytes == "" then wire else wire + [item]
  }

  // ---------------------------------------------------------------------------
  // What each call does to the state
  // ---------------------------------------------------------------------------

  /** The socket goes, and with it any upload on it. */
  function Dropped(c: Client): Client
  {
    c.(connected := false, uploadActive := false, uploadChunked := false, abandoned := false, transport := false, wire := [],
    past := if c.transport then c.past + [c.wire] else c.past)
  }

  predicate Reuses(c: Client, peer: Peer)
  {
    c.connected && c.transport && c.keepAlive && c.peer == peer
  }

  function Connected(c: Client, dial: Dial): (Client, bool)
  {
    if Reuses(c, dial.peer) then (c, true)
    else if !dial.connects then (Dropped(c), false)
    else (Dropped(c).(transport := true, connected := true, peer := dial.peer), true)
  }

  function Started(c: Client, dial: Dial, chunked: bool): (Client, Reply)
  {
    if c.uploadActive then (c, Refused(InvalidArgument))
    else
      var (d, ok) := Connected(c, dial);
      if !ok then (d, Refused(ConnectFailed))
      else
        var r := d.(answered := false, closed := false, uploadChunked := false, uploadActive := false);
        match dial.send
        case HeadSent => (r.(wire := r.wire + [if chunked then Head(dial.head) else Plain(dial.head)]), Done)
        case HeadFailed(n) =>
          var bytes := Prefix(dial.head, n);
          (Dropped(r.(wire := WithTorn(r.wire, TornRequest(bytes), bytes))), Refused(TransmitFailed))
  }

  /** Open, up to the head. `bodySet` and `expects` say what the caller configured. */
  function Opened(c: Client, dial: Dial, bodySet: bool, expects: bool): (Client, Reply)
  {
    if !c.chunkedUpload then Started(c, dial, false)
    else if bodySet || expects then (c, Refused(InvalidArgument))
    else
      var (d, reply) := Started(c, dial, true);
      if reply == Done then (d.(uploadChunked := true, uploadActive := true), Done) else (d, reply)
  }

  function Put(c: Client, item: Item, bytes: string, send: Send): (Client, bool)
  {
    match send
    case Whole => (c.(wire := c.wire + [item]), true)
    case Short(n) => (Dropped(c.(wire := WithTorn(c.wire, TornBody(Prefix(bytes, n)), Prefix(bytes, n)))), false)
    case Failed(n) => (Dropped(c.(wire := WithTorn(c.wire, TornBody(Prefix(bytes, n)), Prefix(bytes, n)))), false)
  }

  function Unwritable(c: Client): Error
  {
    if c.chunkedUpload then NotConnected else NotSupported
  }

  function Written(c: Client, piece: string, noBuffer: bool, send: Send): (Client, Reply)
  {
    if !c.uploadChunked then (c, Refused(Unwritable(c)))
    else if !c.uploadActive then (c, Refused(InvalidArgument))
    else if c.closed then (c, Refused(NotConnected))
    else if c.answered then (c.(uploadActive := false, abandoned := true), Refused(ProtocolError))
    else if piece == "" then (c, Wrote(0))
    else if noBuffer || |piece| > INT_MAX then (c, Refused(InvalidArgument))
    else if !c.transport then (c, Refused(NotConnected))
    else
      var (d, whole) := Put(c, Chunk(piece), HttpBody.ChunkFrame(piece), send);
      (d, if whole then Wrote(|piece|) else Refused(TransmitFailed))
  }

  /** `head` is the status of the response head that arrived in time, if one did. */
  function BodyEnded(c: Client, send: Send, headArrives: bool, redirects: bool): (Client, Reply)
  {
    if !c.uploadChunked then (c, Refused(Unwritable(c)))
    else if !c.uploadActive then (c, Refused(InvalidArgument))
    else if !c.transport then (c.(uploadActive := false), Refused(NotConnected))
    else
      var (d, whole) := Put(c.(uploadActive := false), Terminator, HttpBody.TERMINATOR, send);
      if !whole then (d, Refused(TransmitFailed))
      else if !headArrives then (Dropped(d), Refused(NotConnected))
      else if redirects then (Dropped(d.(answered := true)), Refused(ProtocolError))
      else (d.(answered := true), Done)
  }

  // ---------------------------------------------------------------------------
  // Runs
  // ---------------------------------------------------------------------------

  /**
   A call, or something the network does. Execute and every hop of a redirect chain are
   a Start and, where the client gives the socket up afterwards, a Drop.
   */
  datatype Event =
    | SetKeepAlive(on: bool)
    | SetChunkedUpload(on: bool)
    | Start(dial: Dial)
    | OpenRequest(dial: Dial, bodySet: bool, expects: bool)
    | Write(piece: string, noBuffer: bool, send: Send)
    | EndBody(send: Send, headArrives: bool, redirects: bool)
    | Drop
    | DataArrives(statusLine: bool)
    | PeerCloses

  function Step(c: Client, e: Event): (Client, Reply)
  {
    match e
    case SetKeepAlive(on) => (c.(keepAlive := on), Done)
    case SetChunkedUpload(on) => (c.(chunkedUpload := on), Done)
    case Start(dial) => Started(c, dial, false)
    case OpenRequest(dial, bodySet, expects) => Opened(c, dial, bodySet, expects)
    case Write(piece, noBuffer, send) => Written(c, piece, noBuffer, send)
    case EndBody(send, headArrives, redirects) => BodyEnded(c, send, headArrives, redirects)
    case Drop => (Dropped(c), Done)
    case DataArrives(statusLine) => (if c.transport then c.(answered := c.answered || statusLine) else c, Done)
    case PeerCloses => (if c.transport then c.(closed := true) else c, Done)
  }

  function Fresh(): Client
  {
    Client(false, false, false, false, false, false, Peer(false, "", 0), false, false, [], [], false)
  }

  function Run(events: seq<Event>): Client
  {
    if events == [] then Fresh() else Step(Run(events[..|events| - 1]), events[|events| - 1]).0
  }

  /** Every connection there ever was carries complete requests and at most one unfinished one. */
  predicate AllWellFormed(c: Client)
  {
    WellFormed(c.wire) && forall w <- c.past :: WellFormed(w)
  }

  /** The latches know where the open connection stands. */
  predicate Inv(c: Client)
  {
    && (c.connected ==> c.transport)
    && (!c.transport ==> c.wire == [] && !c.uploadActive && !c.uploadChunked && !c.abandoned)
    && (c.uploadActive ==> c.uploadChunked && !c.abandoned)
    && PhaseOf(c.wire) == if c.uploadActive || c.abandoned then InBody else Between
  }

  /** The dial a call makes, if its own checks let it get that far. */
  function Dials(c: Client, e: Event): (d: seq<Dial>)
  {
    match e
    case Start(dial) => if c.uploadActive then [] else [dial]
    case OpenRequest(dial, bodySet, expects) =>
      if c.uploadActive || (c.chunkedUpload && (bodySet || expects)) then [] else [dial]
    case _ => []
  }

  /**
   A request started on a kept connection whose upload was given up by a refused Write:
   its head lands inside the open body.
   */
  predicate Garbles(c: Client, e: Event)
  {
    && c.abandoned
    && Dials(c, e) != []
    && var dial := Dials(c, e)[0];
       Reuses(c, dial.peer) && (dial.send.HeadSent? || Prefix(dial.head, dial.send.n) != "")
  }

  lemma DroppedIsWell(c: Client)
    requires c.connected ==> c.transport
    requires !c.transport ==> c.wire == []
    ensures Inv(Dropped(c))
    ensures AllWellFormed(Dropped(c)) <==> AllWellFormed(c)
  {
    NothingSent();
    var d := Dropped(c);
    if c.transport {
      assert c.wire in d.past;
      assert forall w :: w in c.past ==> w in d.past;
      assert forall w :: w in d.past ==> w in c.past || w == c.wire;
    }
  }

  lemma StartedIsWell(c: Client, dial: Dial, chunked: bool)
    requires Inv(c) && AllWellFormed(c)
    ensures var d := Started(c, dial, chunked).0;
            && (AllWellFormed(d) <==> !(c.abandoned && !c.uploadActive && Reuses(c, dial.peer)
                                        && (dial.send.HeadSent? || Prefix(dial.head, dial.send.n) != "")))
            && (AllWellFormed(d) && !(chunked && Started(c, dial, chunked).1 == Done) ==> Inv(d))
            && (AllWellFormed(d) && chunked && Started(c, dial, chunked).1 == Done ==> Inv(d.(uploadChunked := true, uploadActive := true)))
  {
    hide PhaseOf, Prefix;
    DroppedIsWell(c);
    if !c.uploadActive && Connected(c, dial).1 {
      var r := Connected(c, dial).0.(answered := false, closed := false, uploadChunked := false, uploadActive := false);
      match dial.send
      case HeadSent =>
        PhaseSnoc(r.wire, if chunked then Head(dial.head) else Plain(dial.head));
      case HeadFailed(n) =>
        var bytes := Prefix(dial.head, n);
        PhaseSnoc(r.wire, TornRequest(bytes));
        DroppedIsWell(r.(wire := WithTorn(r.wire, TornRequest(bytes), bytes)));
    }
  }

  lemma PutIsWell(c: Client, item: Item, bytes: string, send: Send)
    requires c.transport && AllWellFormed(c) && PhaseOf(c.wire) == InBody && !c.abandoned
    requires match item case Chunk(piece) => piece != "" case Terminator => true case _ => false
    requires item.Terminator? <==> !c.uploadActive
    requires c.uploadActive ==> c.uploadChunked
    ensures var d := Put(c, item, bytes, send).0; AllWellFormed(d) && Inv(d)
  {
    hide PhaseOf, Prefix;
    PhaseSnoc(c.wire, item);
    if !send.Whole? {
      var torn := Prefix(bytes, send.n);
      PhaseSnoc(c.wire, TornBody(torn));
      DroppedIsWell(c.(wire := WithTorn(c.wire, TornBody(torn), torn)));
    }
  }

  /** One step keeps every wire well formed exactly when it does not start inside an open body. */
  lemma StepIsWellExactly(c: Client, e: Event)
    requires Inv(c) && AllWellFormed(c)
    ensures AllWellFormed(Step(c, e).0) <==> !Garbles(c, e)
    ensures AllWellFormed(Step(c, e).0) ==> Inv(Step(c, e).0)
  {
    hide PhaseOf, Prefix, Started, Put;
    match e
    case Start(dial) =>
      StartedIsWell(c, dial, false);
    case OpenRequest(dial, bodySet, expects) =>
      StartedIsWell(c, dial, c.chunkedUpload);
      OpenedLatches(c, dial);
    case Write(piece, noBuffer, send) =>
      if c.transport && c.uploadActive && piece != "" {
        PutIsWell(c, Chunk(piece), HttpBody.ChunkFrame(piece), send);
      }
    case EndBody(send, headArrives, redirects) =>
      if c.transport && c.uploadActive {
        var over := c.(uploadActive := false);
        PutIsWell(over, Terminator, HttpBody.TERMINATOR, send);
        var d := Put(over, Terminator, HttpBody.TERMINATOR, send).0;
        DroppedIsWell(d);
        DroppedIsWell(d.(answered := true));
      }
    case Drop => DroppedIsWell(c);
    case SetKeepAlive(_) =>
    case SetChunkedUpload(_) =>
    case DataArrives(_) =>
    case PeerCloses =>
  }

  lemma OpenedLatches(c: Client, dial: Dial)
    ensures var (d, reply) := Started(c, dial, true);
            reply == Done ==> AllWellFormed(d.(uploadChunked := true, uploadActive := true)) == AllWellFormed(d)
  {
  }

  /** The wires of `c` are still there in `d`, the open one perhaps longer, perhaps dropped. */
  predicate Keeps(c: Client, d: Client)
  {
    c.past <= d.past && if d.past == c.past then c.wire <= d.wire else |d.past| > |c.past| && c.wire <= d.past[|c.past|]
  }

  predicate Tidy(c: Client)
  {
    !c.transport ==> c.wire == []
  }

  lemma KeepsOn(a: Client, b: Client, c: Client)
    requires Keeps(a, b) && Keeps(b, c)
    ensures Keeps(a, c)
  {
  }

  lemma DroppingKeeps(c: Client, d: Client)
    requires Tidy(c) && d == Dropped(c)
    ensures Keeps(c, d) && Tidy(d)
  {
    if c.transport {
      assert d.past[|c.past|] == c.wire;
    }
  }

  lemma PuttingKeeps(c: Client, item: Item, bytes: string, send: Send)
    requires c.transport
    ensures var d := Put(c, item, bytes, send).0; Keeps(c, d) && Tidy(d)
  {
    hide Prefix;
    if !send.Whole? {
      var torn := c.(wire := WithTorn(c.wire, TornBody(Prefix(bytes, send.n)), Prefix(bytes, send.n)));
      assert Keeps(c, torn);
      DroppingKeeps(torn, Dropped(torn));
      KeepsOn(c, torn, Dropped(torn));
    }
  }

  lemma StartingKeeps(c: Client, dial: Dial, chunked: bool)
    requires Tidy(c)
    ensures var d := Started(c, dial, chunked).0; Keeps(c, d) && Tidy(d)
  {
    hide Prefix, Keeps;
    assert Keeps(c, c) by {
      SameKeeps(c);
    }
    DroppingKeeps(c, Dropped(c));
    if !c.uploadActive {
      var d := Connected(c, dial).0;
      KeepsWhenWired(c, Dropped(c), d);
      if Connected(c, dial).1 {
        var r := d.(answered := false, closed := false, uploadChunked := false, uploadActive := false);
        match dial.send
        case HeadSent =>
          var sent := r.(wire := r.wire + [if chunked then Head(dial.head) else Plain(dial.head)]);
          LongerKeeps(d, sent);
          KeepsOn(c, d, sent);
        case HeadFailed(n) =>
          var bytes := Prefix(dial.head, n);
          var torn := r.(wire := WithTorn(r.wire, TornRequest(bytes), bytes));
          LongerKeeps(d, torn);
          DroppingKeeps(torn, Dropped(torn));
          KeepsOn(d, torn, Dropped(torn));
          KeepsOn(c, d, Dropped(torn));
      }
    }
  }

  lemma SameKeeps(c: Client)
    ensures Keeps(c, c)
  {
  }

  lemma LongerKeeps(c: Client, d: Client)
    requires c.past == d.past && c.wire <= d.wire
    ensures Keeps(c, d)
  {
  }

  lemma KeepsWhenWired(c: Client, d: Client, e: Client)
    requires Keeps(c, d)
    ensures e.past == d.past && e.wire == d.wire ==> Keeps(c, e)
  {
  }

  /** What is on a wire stays on it. */
  lemma WiresOnlyGrow(c: Client, e: Event)
    requires Tidy(c)
    ensures Tidy(Step(c, e).0)
    ensures Keeps(c, Step(c, e).0)
  {
    hide Prefix, HttpBody.ChunkFrame, Started, Put;
    match e
    case Start(dial) =>
      StartingKeeps(c, dial, false);
    case OpenRequest(dial, bodySet, expects) =>
      StartingKeeps(c, dial, c.chunkedUpload);
      KeepsWhenWired(c, Started(c, dial, c.chunkedUpload).0, Step(c, e).0);
      StartedHasTransport(c, dial, c.chunkedUpload);
    case Write(piece, noBuffer, send) =>
      if c.transport {
        PuttingKeeps(c, Chunk(piece), HttpBody.ChunkFrame(piece), send);
      }
    case EndBody(send, headArrives, redirects) =>
      if c.transport {
        var over := c.(uploadActive := false);
        PuttingKeeps(over, Terminator, HttpBody.TERMINATOR, send);
        var d := Put(over, Terminator, HttpBody.TERMINATOR, send).0;
        KeepsWhenWired(over, d, d.(answered := true));
        DroppingKeeps(d, Dropped(d));
        DroppingKeeps(d.(answered := true), Dropped(d.(answered := true)));
        KeepsOn(over, d, Dropped(d));
        KeepsOn(over, d, Dropped(d.(answered := true)));
      }
    case Drop => DroppingKeeps(c, Dropped(c));
    case SetKeepAlive(_) =>
    case SetChunkedUpload(_) =>
    case DataArrives(_) =>
    case PeerCloses =>
  }

  lemma StartedHasTransport(c: Client, dial: Dial, chunked: bool)
    ensures Started(c, dial, chunked).1 == Done ==> Started(c, dial, chunked).0.transport
  {
  }

  lemma {:induction false} MalformedStays(wire: seq<Item>, longer: seq<Item>)
    requires wire <= longer && WellFormed(longer)
    ensures WellFormed(wire)
    decreases |longer|
  {
    if |wire| < |longer| {
      MalformedStays(wire, longer[..|longer| - 1]);
    } else {
      assert wire == longer;
    }
  }

  lemma NothingHeals(c: Client, e: Event)
    requires Tidy(c)
    requires AllWellFormed(Step(c, e).0)
    ensures AllWellFormed(c)
  {
    hide WellFormed, Step;
    WiresOnlyGrow(c, e);
    var d := Step(c, e).0;
    assert forall w :: w in c.past ==> w in d.past;
    if d.past == c.past {
      MalformedStays(c.wire, d.wire);
    } else {
      MalformedStays(c.wire, d.past[|c.past|]);
    }
  }

  lemma FreshIsWell()
    ensures Inv(Fresh()) && AllWellFormed(Fresh())
  {
  }

  lemma RunEnds(events: seq<Event>)
    requires events != []
    ensures Run(events) == Step(Run(events[..|events| - 1]), events[|events| - 1]).0
  {
  }

  lemma {:induction false} RunIsTidy(events: seq<Event>)
    ensures Tidy(Run(events))
    decreases |events|
  {
    hide Step;
    if events != [] {
      RunIsTidy(events[..|events| - 1]);
      WiresOnlyGrow(Run(events[..|events| - 1]), events[|events| - 1]);
    }
  }

  /** The run garbles no wire: none of its events starts a request inside an open body. */
  ghost predicate NeverGarbles(events: seq<Event>)
  {
    forall i :: 0 <= i < |events| ==> !Garbles(Run(events[..i]), events[i])
  }

  lemma NeverGarblesSnoc(front: seq<Event>, last: Event)
    ensures NeverGarbles(front + [last]) <==> NeverGarbles(front) && !Garbles(Run(front), last)
  {
    hide Garbles, Run;
    var events := front + [last];
    assert forall i :: 0 <= i < |front| ==> front[..i] == events[..i] && front[i] == events[i];
    assert events[..|front|] == front;
  }

  /**
   Over every run, whatever the caller and the network do: every connection carries
   complete requests followed by at most one unfinished one, exactly when no request was
   started on a kept connection whose body a refused Write had left open.
   */
  lemma {:induction false} WiresAreWellFormedExactly(events: seq<Event>)
    ensures AllWellFormed(Run(events)) <==> NeverGarbles(events)
    ensures AllWellFormed(Run(events)) ==> Inv(Run(events))
    decreases |events|
  {
    if events == [] {
      FreshIsWell();
    } else {
      hide Step, AllWellFormed, Inv, Garbles, Run, NeverGarbles, Tidy;
      var front, last := events[..|events| - 1], events[|events| - 1];
      WiresAreWellFormedExactly(front);
      RunEnds(events);
      assert front + [last] == events;
      NeverGarblesSnoc(front, last);
      if AllWellFormed(Run(front)) {
        StepIsWellExactly(Run(front), last);
      } else if AllWellFormed(Run(events)) {
        RunIsTidy(front);
        NothingHeals(Run(front), last);
      }
    }
  }

  /** A Write refused because the answer is already there, then a request on the kept socket. */
  lemma RefusedWriteThenRequestGarbles(head: string)
    ensures var dial := Dial(Peer(false, "h", 80), head, true, HeadSent);
            !AllWellFormed(Run([SetKeepAlive(true), SetChunkedUpload(true), OpenRequest(dial, false, false),
                                DataArrives(true), Write("x", false, Whole), Start(dial)]))
  {
    var dial := Dial(Peer(false, "h", 80), head, true, HeadSent);
    var events := [SetKeepAlive(true), SetChunkedUpload(true), OpenRequest(dial, false, false), DataArrives(true), Write("x", false, Whole), Start(dial)];
    RunStep(events, 0, Fresh());
    var a := Fresh().(keepAlive := true, chunkedUpload := true);
    RunStep(events, 1, Fresh().(keepAlive := true));
    RunStep(events, 2, a);
    var b := a.(uploadChunked := true, uploadActive := true, connected := true, transport := true, peer := dial.peer, wire := [Head(head)]);
    RunStep(events, 3, b);
    RunStep(events, 4, b.(answered := true));
    var c := b.(answered := true, uploadActive := false, abandoned := true);
    RunStep(events, 5, c);
    assert Garbles(c, Start(dial));
    assert !NeverGarbles(events);
    WiresAreWellFormedExactly(events);
  }

  lemma RunStep(events: seq<Event>, i: nat, c: Client)
    requires i < |events| && Run(events[..i]) == c
    ensures Run(events[..i + 1]) == Step(c, events[i]).0
  {
    assert events[..i + 1][..i] == events[..i];
  }

  // ---------------------------------------------------------------------------
  // What an upload carries
  // ---------------------------------------------------------------------------

  /** The pieces Write accepted since the last chunked request was opened. */
  function AcceptedPieces(events: seq<Event>): seq<string>
  {
    if events == [] then []
    else
      var front, last := events[..|events| - 1], events[|events| - 1];
      var reply := Step(Run(front), last).1;
      if last.OpenRequest? && reply == Done then []
      else if last.Write? && reply.Wrote? && reply.n > 0 then AcceptedPieces(front) + [last.piece]
      else AcceptedPieces(front)
  }

  lemma PiecesSnoc(wire: seq<Item>, item: Item)
    ensures OpenPieces(wire + [item]) == if item.Chunk? then OpenPieces(wire) + [item.piece] else []
  {
    assert (wire + [item])[..|wire|] == wire;
  }

  lemma StartedDisarms(c: Client, dial: Dial, chunked: bool)
    ensures var (d, reply) := Started(c, dial, chunked);
            && (d.uploadActive ==> d == c && reply != Done)
            && (reply == Done && chunked ==> OpenPieces(d.wire) == [])
  {
    hide OpenPieces, Prefix;
    PiecesSnoc(Connected(c, dial).0.wire, Head(dial.head));
  }

  lemma WrittenPieces(c: Client, piece: string, noBuffer: bool, send: Send)
    ensures var (d, reply) := Written(c, piece, noBuffer, send);
            d.uploadActive ==>
              c.uploadActive && OpenPieces(d.wire) == OpenPieces(c.wire) + if reply.Wrote? && reply.n > 0 then [piece] else []
  {
    hide OpenPieces, Prefix, HttpBody.ChunkFrame;
    PiecesSnoc(c.wire, Chunk(piece));
    assert OpenPieces(c.wire) + [] == OpenPieces(c.wire);
  }

  lemma StepKeepsPieces(c: Client, e: Event)
    ensures var (d, reply) := Step(c, e);
            d.uploadActive ==>
              && (c.uploadActive || (e.OpenRequest? && reply == Done))
              && OpenPieces(d.wire) ==
                 if e.OpenRequest? && reply == Done then []
                 else if e.Write? && reply.Wrote? && reply.n > 0 then OpenPieces(c.wire) + [e.piece]
                 else OpenPieces(c.wire)
  {
    hide OpenPieces, Prefix, Started, Written;
    match e
    case Start(dial) => StartedDisarms(c, dial, false);
    case OpenRequest(dial, _, _) => StartedDisarms(c, dial, c.chunkedUpload);
    case Write(piece, noBuffer, send) => WrittenPieces(c, piece, noBuffer, send);
    case _ =>
  }

  /**
   While an upload is open, the wire holds one chunk for each piece Write accepted since
   the head, in order and nothing else.
   */
  lemma {:induction false} OneChunkPerAcceptedWrite(events: seq<Event>)
    ensures Run(events).uploadActive ==> OpenPieces(Run(events).wire) == AcceptedPieces(events)
    decreases |events|
  {
    hide Step, OpenPieces;
    if events != [] {
      OneChunkPerAcceptedWrite(events[..|events| - 1]);
      StepKeepsPieces(Run(events[..|events| - 1]), events[|events| - 1]);
    }
  }

  /** The bytes of a Send. */
  function ItemBytes(item: Item): string
  {
    match item
    case Plain(text) => text
    case Head(text) => text
    case Chunk(piece) => HttpBody.ChunkFrame(piece)
    case Terminator => HttpBody.TERMINATOR
    case TornRequest(bytes) => bytes
    case TornBody(bytes) => bytes
  }

  lemma {:induction false} FramesSnoc(pieces: seq<string>, piece: string)
    ensures HttpBody.Frames(pieces + [piece]) == HttpBody.Frames(pieces) + HttpBody.ChunkFrame(piece)
  {
    hide HttpBody.ChunkFrame;
    if pieces == [] {
      assert [piece][1..] == [];
      assert HttpBody.Frames([]) == "";
    } else {
      assert (pieces + [piece])[1..] == pieces[1..] + [piece];
      FramesSnoc(pieces[1..], piece);
    }
  }

  lemma {:induction false} AcceptedPiecesFit(events: seq<Event>)
    ensures forall piece :: piece in AcceptedPieces(events) ==> 0 < |piece| <= INT_MAX
    decreases |events|
  {
    hide Put, Started, HttpBody.ChunkFrame, Run;
    if events != [] {
      AcceptedPiecesFit(events[..|events| - 1]);
    }
  }

  /** The wire an event of a run went to: still open, or the one it dropped. */
  function WireAfter(events: seq<Event>, e: Event): seq<Item>
  {
    var c, d := Run(events), Run(events + [e]);
    if |d.past| > |c.past| then d.past[|c.past|] else d.wire
  }

  lemma EndBodySends(events: seq<Event>, headArrives: bool, redirects: bool)
    requires Run(events).uploadActive && Run(events).uploadChunked && Run(events).transport
    ensures WireAfter(events, EndBody(Whole, headArrives, redirects)) == Run(events).wire + [Terminator]
  {
    hide Run;
    var c, e := Run(events), EndBody(Whole, headArrives, redirects);
    assert (events + [e])[..|events|] == events;
    RunEnds(events + [e]);
    var d := Step(c, e).0;
    assert d == Run(events + [e]);
    if |d.past| > |c.past| {
      assert d.past[|c.past|] == c.wire + [Terminator];
    }
  }

  /**
   EndBody whose terminator goes out, whatever becomes of the answer, leaves on its
   connection a complete request of exactly the accepted pieces behind complete requests.
   */
  lemma EndBodyCompletesTheUpload(events: seq<Event>, headArrives: bool, redirects: bool) returns (requests: seq<Sent>, text: string)
    requires AllWellFormed(Run(events)) && Run(events).uploadActive
    ensures Sound(requests, Nothing)
    ensures WireAfter(events, EndBody(Whole, headArrives, redirects)) == Items(requests + [Upload(text, AcceptedPieces(events))])
  {
    hide AllWellFormed, Items, Chunks, NeverGarbles, WireAfter, Run, AcceptedPieces, OpenPieces;
    WiresAreWellFormedExactly(events);
    OneChunkPerAcceptedWrite(events);
    EndBodySends(events, headArrives, redirects);
    var wire := Run(events).wire;
    OpenWireIsWell(Run(events));
    var tail: Tail;
    requests, tail := WireIsRequests(wire);
    text := tail.text;
    ItemsSnoc(requests, Upload(text, tail.pieces));
    assert wire + [Terminator] == Items(requests) + (TailItems(tail) + [Terminator]);
  }

  lemma OpenWireIsWell(c: Client)
    requires AllWellFormed(c)
    ensures WellFormed(c.wire)
  {
  }

  /** The bytes behind the last request head. */
  function LastBody(wire: seq<Item>): string
  {
    if wire == [] || wire[|wire| - 1].Head? then "" else LastBody(wire[..|wire| - 1]) + ItemBytes(wire[|wire| - 1])
  }

  lemma LastBodySnoc(wire: seq<Item>, item: Item)
    ensures LastBody(wire + [item]) == if item.Head? then "" else LastBody(wire) + ItemBytes(item)
  {
    assert (wire + [item])[..|wire|] == wire;
  }

  lemma {:induction false} ChunksBehindHead(front: seq<Item>, text: string, pieces: seq<string>)
    ensures LastBody(front + ([Head(text)] + Chunks(pieces))) == HttpBody.Frames(pieces)
    decreases |pieces|
  {
    hide LastBody, HttpBody.ChunkFrame;
    if pieces == [] {
      NoChunks();
      assert front + ([Head(text)] + []) == front + [Head(text)];
      LastBodySnoc(front, Head(text));
    } else {
      var before, last := pieces[..|pieces| - 1], pieces[|pieces| - 1];
      ChunksBehindHead(front, text, before);
      assert before + [last] == pieces;
      FramesSnoc(before, last);
      var wire := front + ([Head(text)] + Chunks(before));
      LastBodySnoc(wire, Chunk(last));
      assert front + ([Head(text)] + Chunks(pieces)) == wire + [Chunk(last)];
    }
  }

  /**
   End to end: the bytes behind the last head on that connection, cut anywhere, are read
   back by a chunked-body parser as the accepted pieces, and the parser is done.
   */
  lemma UploadIsReadBack(p: HttpParser.Parser, events: seq<Event>, headArrives: bool, redirects: bool, cut: seq<string>)
    requires HttpStream.Resting(p) && p.phase == HttpParser.ChunkSize && p.bank == ""
    requires AllWellFormed(Run(events)) && Run(events).uploadActive
    requires Flatten(cut) == LastBody(WireAfter(events, EndBody(Whole, headArrives, redirects)))
    ensures HttpParser.FedAll(p, cut).phase == HttpParser.Complete
    ensures HttpParser.FedAll(p, cut).body == p.body + Flatten(AcceptedPieces(events))
  {
    hide HttpParser.FedAll, AcceptedPieces, LastBody, Run, AllWellFormed, Items, Chunks, WireAfter, HttpBody.Frames;
    var pieces := AcceptedPieces(events);
    AcceptedPiecesFit(events);
    var requests, text := EndBodyCompletesTheUpload(events, headArrives, redirects);
    ItemsSnoc(requests, Upload(text, pieces));
    ChunksBehindHead(Items(requests), text, pieces);
    var open := Items(requests) + ([Head(text)] + Chunks(pieces));
    LastBodySnoc(open, Terminator);
    assert Items(requests) + ItemsOf(Upload(text, pieces)) == open + [Terminator];
    HttpBody.PrinterAndParserUndoEachOther(p, pieces, cut);
  }

  // ---------------------------------------------------------------------------
  // The client, field by field
  // ---------------------------------------------------------------------------

  /** Every method changes the state as the function above says, so every run above is a run of this class. */
  class SoftwareHttpClient {
    var keepAlive: bool
    var chunkedUpload: bool
    var uploadChunked: bool
    var uploadActive: bool
    var connected: bool
    var transport: bool
    var connectedPeer: Peer
    var closed: bool
    var answered: bool
    ghost var wire: seq<Item>
    ghost var past: seq<seq<Item>>
    ghost var abandoned: bool

    ghost function View(): Client
      reads this
    {
      Client(keepAlive, chunkedUpload, uploadChunked, uploadActive, connected, transport, connectedPeer, closed, answered, wire, past, abandoned)
    }

    constructor ()
      ensures View() == Fresh()
    {
      keepAlive, chunkedUpload, uploadChunked, uploadActive := false, false, false, false;
      connected, transport, connectedPeer, closed, answered := false, false, Peer(false, "", 0), false, false;
      wire, past, abandoned := [], [], false;
    }

    method DropTransport()
      modifies this
      ensures View() == Dropped(old(View()))
    {
      if transport {
        past := past + [wire];
        transport := false;
      }
      wire, abandoned := [], false;
      connected := false;
      uploadActive := false;
      uploadChunked := false;
    }

    method EnsureConnected(dial: Dial) returns (ok: bool)
      modifies this
      ensures (View(), ok) == Connected(old(View()), dial)
    {
      if connected && transport && keepAlive && connectedPeer == dial.peer {
        return true;
      }
      DropTransport();
      if !dial.connects {
        return false;
      }
      transport := true;
      connected := true;
      connectedPeer := dial.peer;
      return true;
    }

    method StartRequest(dial: Dial, chunked: bool) returns (reply: Reply)
      modifies this
      ensures (View(), reply) == Started(old(View()), dial, chunked)
    {
      hide Prefix;
      if uploadActive {
        return Refused(InvalidArgument);
      }
      var ok := EnsureConnected(dial);
      if !ok {
        return Refused(ConnectFailed);
      }
      answered := false;
      closed := false;
      uploadChunked := false;
      uploadActive := false;
      match dial.send
      case HeadFailed(n) =>
        wire := WithTorn(wire, TornRequest(Prefix(dial.head, n)), Prefix(dial.head, n));
        DropTransport();
        return Refused(TransmitFailed);
      case HeadSent =>
        wire := wire + [if chunked then Head(dial.head) else Plain(dial.head)];
        return Done;
    }

    /** The head of an Open: a plain request, or the start of a chunked upload. */
    method OpenHead(dial: Dial, bodySet: bool, expects: bool) returns (reply: Reply)
      modifies this
      ensures (View(), reply) == Opened(old(View()), dial, bodySet, expects)
    {
      hide Started;
      if !chunkedUpload {
        reply := StartRequest(dial, false);
        return;
      }
      if bodySet {
        return Refused(InvalidArgument);
      }
      if expects {
        return Refused(InvalidArgument);
      }
      reply := StartRequest(dial, true);
      if reply == Done {
        uploadChunked := true;
        uploadActive := true;
      }
    }

    method SendItem(item: Item, ghost bytes: string, send: Send) returns (whole: bool)
      modifies this
      ensures (View(), whole) == Put(old(View()), item, bytes, send)
    {
      hide Prefix;
      if send.Whole? {
        wire := wire + [item];
        return true;
      }
      wire := WithTorn(wire, TornBody(Prefix(bytes, send.n)), Prefix(bytes, send.n));
      DropTransport();
      return false;
    }

    method Write(piece: string, noBuffer: bool, send: Send) returns (reply: Reply)
      modifies this
      ensures (View(), reply) == Written(old(View()), piece, noBuffer, send)
    {
      hide Put, HttpBody.ChunkFrame;
      if !uploadChunked {
        if !chunkedUpload {
          return Refused(NotSupported);
        }
        return Refused(NotConnected);
      }
      if !uploadActive {
        return Refused(InvalidArgument);
      }
      if closed {
        return Refused(NotConnected);
      }
      if answered {
        uploadActive := false;
        abandoned := true;
        return Refused(ProtocolError);
      }
      if |piece| == 0 {
        return Wrote(0);
      }
      if noBuffer {
        return Refused(InvalidArgument);
      }
      if |piece| > INT_MAX {
        return Refused(InvalidArgument);
      }
      if !transport {
        return Refused(NotConnected);
      }
      var whole := SendItem(Chunk(piece), HttpBody.ChunkFrame(piece), send);
      if !whole {
        return Refused(TransmitFailed);
      }
      return Wrote(|piece|);
    }

    method EndBody(send: Send, headArrives: bool, redirects: bool) returns (reply: Reply)
      modifies this
      ensures (View(), reply) == BodyEnded(old(View()), send, headArrives, redirects)
    {
      hide Put;
      if !uploadChunked {
        if !chunkedUpload {
          return Refused(NotSupported);
        }
        return Refused(NotConnected);
      }
      if !uploadActive {
        return Refused(InvalidArgument);
      }
      uploadActive := false;
      if !transport {
        return Refused(NotConnected);
      }
      var whole := SendItem(Terminator, HttpBody.TERMINATOR, send);
      if !whole {
        return Refused(TransmitFailed);
      }
      if !headArrives {
        DropTransport();
        return Refused(NotConnected);
      }
      answered := true;
      if redirects {
        DropTransport();
        return Refused(ProtocolError);
      }
      return Done;
    }
  }
}

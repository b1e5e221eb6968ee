/** Which server the requests on one connection were meant for. */
module HttpUploadPeers {
  import opened Wrappers
  import opened HttpUpload
  import opened HttpUploadClient
  import HttpBody

  /** Where a request goes, for the events that start one. */
  function Target(e: Event): Option<Peer>
  {
    match e
    case Start(dial) => Some(dial.peer)
    case OpenRequest(dial, _, _) => Some(dial.peer)
    case _ => None
  }

  /** How much is on the k-th connection of a client. */
  function ItemsOn(c: Client, k: nat): nat
  {
    if k < |c.past| then |c.past[k]| else if k == |c.past| then |c.wire| else 0
  }

  /** The step `e` put a request, or the torn start of one, on connection `k`. */
  predicate PutsOn(c: Client, e: Event, k: nat)
  {
    Target(e).Some? && ItemsOn(Step(c, e).0, k) > ItemsOn(c, k)
  }

  predicate Carries(events: seq<Event>, i: nat, k: nat)
  {
    i < |events| && PutsOn(Run(events[..i]), events[i], k)
  }

  /** The socket is there whenever the client is connected, and without one nothing is on the wire. */
  predicate Sane(c: Client)
  {
    (c.connected ==> c.transport) && (!c.transport ==> c.wire == [])
  }

  /**
   From `c` to `d`, a connection goes or stays to the server it was dialled to; a request
   lands on the one there is, if it is kept and to the same server, or on the next.
   */
  ghost predicate Lands(c: Client, d: Client, target: Option<Peer>)
  {
    && Sane(d)
    && |c.past| <= |d.past|
    && (c.transport && |d.past| == |c.past| ==> d.transport && d.peer == c.peer)
    && (target.Some? ==>
          forall k: nat :: ItemsOn(d, k) > ItemsOn(c, k) ==>
            && |c.past| <= k <= |d.past|
            && (k == |c.past| && c.transport ==> c.keepAlive && c.peer == target.value)
            && (k == |d.past| ==> d.transport && d.peer == target.value))
  }

  lemma LandsAlike(c: Client, d: Client, e: Client, target: Option<Peer>)
    requires Lands(c, d, target)
    requires e.past == d.past && e.wire == d.wire && e.transport == d.transport && e.connected == d.connected && e.peer == d.peer
    ensures Lands(c, e, target)
  {
    assert forall k: nat :: ItemsOn(e, k) == ItemsOn(d, k);
  }

  lemma StartLands(c: Client, dial: Dial, chunked: bool)
    requires Sane(c)
    ensures Lands(c, Started(c, dial, chunked).0, Some(dial.peer))
  {
    hide Prefix;
    var d := Started(c, dial, chunked).0;
    assert c.transport ==> Dropped(c).past[|c.past|] == c.wire;
    assert forall k: nat :: k < |c.past| ==> ItemsOn(d, k) == ItemsOn(c, k);
  }

  lemma PutLands(c: Client, item: Item, bytes: string, send: Send)
    requires c.transport
    ensures Lands(c, Put(c, item, bytes, send).0, None)
  {
    hide Prefix;
  }

  lemma WriteLands(c: Client, piece: string, noBuffer: bool, send: Send)
    requires Sane(c)
    ensures Lands(c, Written(c, piece, noBuffer, send).0, None)
  {
    hide Prefix, HttpBody.ChunkFrame, Put;
    if c.transport {
      PutLands(c, Chunk(piece), HttpBody.ChunkFrame(piece), send);
    }
  }

  lemma EndBodyLands(c: Client, send: Send, headArrives: bool, redirects: bool)
    requires Sane(c)
    ensures Lands(c, BodyEnded(c, send, headArrives, redirects).0, None)
  {
    hide Prefix, Put;
    if c.transport {
      PutLands(c.(uploadActive := false), Terminator, HttpBody.TERMINATOR, send);
    }
  }

  lemma StepLands(c: Client, e: Event)
    requires Sane(c)
    ensures Lands(c, Step(c, e).0, Target(e))
  {
    hide Prefix, Started, Written, BodyEnded;
    match e
    case Start(dial) =>
      StartLands(c, dial, false);
    case OpenRequest(dial, _, _) =>
      StartLands(c, dial, c.chunkedUpload);
      var d, s := Step(c, e).0, Started(c, dial, c.chunkedUpload).0;
      if d != c {
        LandsAlike(c, s, d, Some(dial.peer));
      }
    case Write(piece, noBuffer, send) =>
      WriteLands(c, piece, noBuffer, send);
    case EndBody(send, headArrives, redirects) =>
      EndBodyLands(c, send, headArrives, redirects);
    case _ =>
  }

  /** What every earlier request on the connection in use was for. */
  ghost predicate OnItsPeer(events: seq<Event>)
  {
    && Sane(Run(events))
    && forall i: nat, k: nat :: Carries(events, i, k) ==>
         && k <= |Run(events).past|
         && (k == |Run(events).past| ==> Run(events).transport && Run(events).peer == Target(events[i]).value)
  }

  lemma CarriesBefore(events: seq<Event>, i: nat, k: nat)
    requires i < |events| - 1
    ensures Carries(events, i, k) <==> Carries(events[..|events| - 1], i, k)
  {
    assert events[..|events| - 1][..i] == events[..i];
  }

  lemma {:induction false} RunKeepsPeers(events: seq<Event>)
    ensures OnItsPeer(events)
    decreases |events|
  {
    hide Step, PutsOn, Lands;
    if events != [] {
      var before, e := events[..|events| - 1], events[|events| - 1];
      RunKeepsPeers(before);
      StepLands(Run(before), e);
      OneMoreKeepsPeers(events);
    }
  }

  lemma OneMoreKeepsPeers(events: seq<Event>)
    requires events != [] && OnItsPeer(events[..|events| - 1])
    requires Lands(Run(events[..|events| - 1]), Run(events), Target(events[|events| - 1]))
    ensures OnItsPeer(events)
  {
    hide Step;
    var before, e := events[..|events| - 1], events[|events| - 1];
    forall i: nat, k: nat | Carries(events, i, k)
      ensures k <= |Run(events).past|
      ensures k == |Run(events).past| ==> Run(events).transport && Run(events).peer == Target(events[i]).value
    {
      if i < |events| - 1 {
        CarriesBefore(events, i, k);
        assert Carries(before, i, k);
      } else {
        assert PutsOn(Run(before), e, k);
      }
    }
  }

  /**
   Over every run, whatever two requests share a connection are for one server: the same
   host, the same port and the same security.
   */
  lemma OneServerPerConnection(events: seq<Event>, i: nat, j: nat, k: nat)
    requires i < j && Carries(events, i, k) && Carries(events, j, k)
    ensures var (p, q) := (Target(events[i]).value, Target(events[j]).value);
            p.host == q.host && p.port == q.port && p.tls == q.tls
  {
    hide Step;
    var c := Run(events[..j]);
    RunKeepsPeers(events[..j]);
    assert events[..j][..i] == events[..i];
    assert Carries(events[..j], i, k);
    StepLands(c, events[j]);
    assert ItemsOn(Step(c, events[j]).0, k) > ItemsOn(c, k);
  }

  /** Under keep-alive a request for the server of the open connection goes onto that connection, dialled or not. */
  lemma SameServerReuses(c: Client, dial: Dial)
    requires c.connected && c.transport && c.keepAlive && !c.uploadActive && dial.send == HeadSent
    requires c.peer.host == dial.peer.host && c.peer.port == dial.peer.port && c.peer.tls == dial.peer.tls
    ensures var (d, reply) := Step(c, Start(dial));
            reply == Done && d.past == c.past && d.wire == c.wire + [Plain(dial.head)]
  {
  }

  /** In every other case the old connection is given up as it stands, and the request opens the next one. */
  lemma OtherwiseRedials(c: Client, dial: Dial)
    requires c.transport && !c.uploadActive && dial.connects && dial.send == HeadSent
    requires !c.keepAlive || !c.connected || c.peer.host != dial.peer.host || c.peer.port != dial.peer.port || c.peer.tls != dial.peer.tls
    ensures var (d, reply) := Step(c, Start(dial));
            reply == Done && d.past == c.past + [c.wire] && d.wire == [Plain(dial.head)] && d.peer == dial.peer
  {
  }
}

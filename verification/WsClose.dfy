/** How a WebSocket session ends: the code it reports and the close frame it sends (RFC 6455, section 5.5.1). */
module WsClose {
  import opened Wrappers
  import opened Bytes
  import opened Framing
  import opened WsFrame
  import opened WsClient

  /** A close frame from a server, octet by octet. */
  function CloseWire(payload: seq<Byte>): seq<Byte>
    requires |payload| <= 125
  {
    [0x88, |payload|] + payload
  }

  lemma CloseWireIsTaken(payload: seq<Byte>, behind: seq<Byte>)
    requires |payload| <= 125
    ensures TakeFrame(CloseWire(payload) + behind) == Taken.Frame(Frame.Frame(true, Close, payload), 2 + |payload|)
  {
    var f := Frame.Frame(true, Close, payload);
    TakeUndoesEncode(f, behind);
    assert Encoded(f, None).value == CloseWire(payload);
  }

  /** Nothing is left of a session that has ended, and of `was` nothing more was delivered. */
  predicate Ended(was: Session, s: Session)
  {
    && !s.open && s.rx == [] && !s.fragmentOpen && s.fragmentPayload == [] && !s.sendFragmentOpen
    && s.messages == was.messages && s.pongs == was.pongs
  }

  lemma EndedDrains(s: Session)
    requires s.rx == []
    ensures Drain(s) == s
  {
  }

  /**
   The peer closes: its code is the first two octets of the payload, or 1005 without any.
   The close is answered once, with the peer's own payload, unless this end closed first.
   What stands behind the frame in the buffer is never handled.
   */
  lemma PeerCloseIsAnswered(s: Session, payload: seq<Byte>, behind: seq<Byte>)
    requires s.open && |payload| <= 125 && |payload| != 1
    requires s.rx == CloseWire(payload) + behind
    ensures var d := Drain(s);
            && Ended(s, d) && d.errors == s.errors
            && d.closedWith == Some(if payload == [] then 1005 else payload[0] as int * 256 + payload[1] as int)
            && d.sent == s.sent + if s.closeSent then [] else [SentFrame(Frame.Frame(true, Close, payload))]
  {
    hide TakeFrame;
    CloseWireIsTaken(payload, behind);
    var f := Frame.Frame(true, Close, payload);
    EndedDrains(OnFrame(s.(rx := s.rx[2 + |payload|..]), f));
    assert s.sent + [] == s.sent;
  }

  /** A close frame of a single octet carries no code: it is an error, and the session ends with 1002. */
  lemma ShortCloseIsAnError(s: Session, octet: Byte, behind: seq<Byte>)
    requires s.open && s.rx == CloseWire([octet]) + behind
    ensures var d := Drain(s);
            && Ended(s, d) && d.errors == s.errors + 1
            && d.closedWith == Some(1002) && d.sent == s.sent + [SentClose(1002)]
  {
    hide TakeFrame;
    CloseWireIsTaken([octet], behind);
    EndedDrains(OnFrame(s.(rx := s.rx[3..]), Frame.Frame(true, Close, [octet])));
  }

  /** A frame that breaks the framing rules ends the session with 1002, an arrival that does not fit with 1009. */
  lemma ViolationsNameTheirCode(s: Session, data: seq<Byte>)
    requires s.open
    ensures |s.rx| + |data| > 65536 ==>
              var d := OnData(s, data);
              && Ended(s, d) && d.errors == s.errors + 1
              && d.closedWith == Some(1009) && d.sent == s.sent + [SentClose(1009)]
    ensures |s.rx| + |data| <= 65536 && TakeFrame(s.rx + data).Invalid? ==>
              var d := OnData(s, data);
              && Ended(s, d) && d.errors == s.errors + 1
              && d.closedWith == Some(1002) && d.sent == s.sent + [SentClose(1002)]
  {
    hide TakeFrame;
  }

  function Closes(sent: seq<Sent>): nat
  {
    if sent == [] then 0
    else
      var last := sent[|sent| - 1];
      Closes(sent[..|sent| - 1]) + if last.SentClose? || last.frame.opcode == Close then 1 else 0
  }

  lemma ClosesSnoc(sent: seq<Sent>, x: Sent)
    ensures Closes(sent + [x]) == Closes(sent) + if x.SentClose? || x.frame.opcode == Close then 1 else 0
  {
    assert (sent + [x])[..|sent|] == sent;
  }

  /** One close frame has gone out for a session that has ended, none for one that has not. */
  predicate OneEach(s: Session)
  {
    && Closes(s.sent) == (if s.open then 0 else 1)
    && (s.open ==> !s.closeSent)
    && (s.open <==> s.closedWith.None?)
  }

  lemma FrameKeepsOneEach(s: Session, f: Frame)
    requires OneEach(s)
    ensures OneEach(OnFrame(s, f))
  {
    hide Closes, Failed, OnCloseFrame, OnDataFrame;
    match f.opcode
    case Ping => ClosesSnoc(s.sent, SentFrame(Frame.Frame(true, Pong, f.payload)));
    case Pong =>
    case Close => CloseKeepsOneEach(s, f.payload);
    case _ => DataKeepsOneEach(s, f);
  }

  lemma FailureKeepsOneEach(s: Session, code: nat)
    requires OneEach(s)
    ensures OneEach(Failed(s, code))
  {
    hide Closes;
    ClosesSnoc(s.sent, SentClose(code));
  }

  lemma CloseKeepsOneEach(s: Session, payload: seq<Byte>)
    requires OneEach(s)
    ensures OneEach(OnCloseFrame(s, payload))
  {
    hide Closes, Failed;
    FailureKeepsOneEach(s, PROTOCOL_ERROR);
    ClosesSnoc(s.sent, SentFrame(Frame.Frame(true, Close, payload)));
  }

  lemma DataKeepsOneEach(s: Session, f: Frame)
    requires OneEach(s)
    ensures OneEach(OnDataFrame(s, f))
  {
    hide Closes, Failed;
    FailureKeepsOneEach(s, PROTOCOL_ERROR);
    FailureKeepsOneEach(s.(fragmentPayload := s.fragmentPayload + f.payload), MESSAGE_TOO_BIG);
  }

  lemma {:induction false} DrainKeepsOneEach(s: Session)
    requires OneEach(s)
    ensures OneEach(Drain(s))
    decreases |s.rx|
  {
    hide TakeFrame, OnFrame, Closes;
    match TakeFrame(s.rx)
    case Incomplete =>
    case Invalid =>
      ClosesSnoc(s.sent, SentClose(1002));
    case Frame(f, n) =>
      var rest := s.(rx := s.rx[n..]);
      FrameKeepsOneEach(rest, f);
      DrainKeepsOneEach(OnFrame(rest, f));
  }

  /**
   Whatever a server sends, in whatever pieces: a session that ends sends one close frame
   and reports one end, and one that goes on has done neither.
   */
  lemma {:induction false} OneCloseForEachEnd(s: Session, pieces: seq<seq<Byte>>)
    requires OneEach(s)
    ensures OneEach(OnAll(s, pieces))
    decreases |pieces|
  {
    hide Closes, Drain;
    if pieces != [] {
      ClosesSnoc(s.sent, SentClose(1009));
      if |s.rx| + |pieces[0]| <= MAX_MESSAGE_BYTES {
        DrainKeepsOneEach(s.(rx := s.rx + pieces[0]));
      }
      OneCloseForEachEnd(OnData(s, pieces[0]), pieces[1..]);
    }
  }
}

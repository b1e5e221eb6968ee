/**
 The message layer of the WebSocket client (RFC 6455, section 5.4): what SendFragment
 puts out, and how frames that arrive in any pieces become messages again. The
 connection is past its upgrade.
 */
module WsClient {
  import opened Wrappers
  import opened Bytes
  import opened Framing
  import opened WsFrame

  const MAX_MESSAGE_BYTES: nat := 64 * 1024

  // Close codes (RFC 6455, section 7.4.1).
  const PROTOCOL_ERROR: nat := 1002
  const NO_STATUS: nat := 1005
  const MESSAGE_TOO_BIG: nat := 1009

  datatype Sent =
    | SentFrame(frame: Frame)
    | SentClose(code: nat)

  datatype Session = Session(
    open: bool,                          // connected, and the transport is there
    rx: seq<Byte>,
    fragmentOpen: bool,
    fragmentBinary: bool,
    fragmentPayload: seq<Byte>,
    sendFragmentOpen: bool,
    closeSent: bool,
    messages: seq<(seq<Byte>, bool)>,    // on_message_: payload, and whether it is binary
    pongs: seq<seq<Byte>>,               // on_pong_
    closedWith: Option<nat>,             // on_disconnected_
    errors: nat,
    sent: seq<Sent>)

  const Opened := Session(true, [], false, false, [], false, false, [], [], None, 0, [])

  function Send(s: Session, x: Sent): Session
  {
    if s.open then s.(sent := s.sent + [x]) else s
  }

  function TornDown(s: Session, code: nat): Session
  {
    s.(open := false, rx := [], fragmentOpen := false, fragmentBinary := false, fragmentPayload := [],
       sendFragmentOpen := false, closeSent := false, closedWith := if s.open then Some(code) else s.closedWith)
  }

  /** Reports an error, says why with a close frame, and ends the connection. */
  function Failed(s: Session, code: nat): Session
  {
    TornDown(Send(s.(errors := s.errors + 1, closeSent := s.open || s.closeSent), SentClose(code)), code)
  }

  function OnDataFrame(s: Session, f: Frame): Session
  {
    if f.opcode == Continuation && !s.fragmentOpen then Failed(s, PROTOCOL_ERROR)
    else if f.opcode != Continuation && s.fragmentOpen then Failed(s, PROTOCOL_ERROR)
    else if f.opcode == Continuation then
      var whole := s.fragmentPayload + f.payload;
      if |whole| > MAX_MESSAGE_BYTES then Failed(s.(fragmentPayload := whole), MESSAGE_TOO_BIG)
      else if f.fin then
        s.(fragmentPayload := [], fragmentOpen := false, messages := s.messages + [(whole, s.fragmentBinary)])
      else s.(fragmentPayload := whole)
    else if f.fin then s.(messages := s.messages + [(f.payload, f.opcode == Binary)])
    else s.(fragmentOpen := true, fragmentBinary := f.opcode == Binary, fragmentPayload := f.payload)
  }

  function OnCloseFrame(s: Session, payload: seq<Byte>): Session
  {
    if |payload| == 1 then Failed(s, PROTOCOL_ERROR)
    else
      var code := if |payload| >= 2 then Word(payload[0], payload[1]) as int else NO_STATUS;
      var answered := if s.closeSent then s else Send(s.(closeSent := true), SentFrame(Frame.Frame(true, Close, payload)));
      TornDown(answered, code)
  }

  function OnFrame(s: Session, f: Frame): (r: Session)
    ensures r.rx == s.rx || r.rx == []
  {
    match f.opcode
    case Ping => Send(s, SentFrame(Frame.Frame(true, Pong, f.payload)))
    case Pong => s.(pongs := s.pongs + [f.payload])
    case Close => OnCloseFrame(s, f.payload)
    case _ => OnDataFrame(s, f)
  }

  function Drain(s: Session): Session
    decreases |s.rx|
  {
    match TakeFrame(s.rx)
    case Incomplete => s
    case Invalid => Failed(s, PROTOCOL_ERROR)
    case Frame(f, n) => Drain(OnFrame(s.(rx := s.rx[n..]), f))
  }

  function OnData(s: Session, data: seq<Byte>): Session
  {
    if |s.rx| + |data| > MAX_MESSAGE_BYTES then Failed(s, MESSAGE_TOO_BIG)
    else Drain(s.(rx := s.rx + data))
  }

  /** The caller's choice of kind counts for the opening fragment alone. */
  function FragmentOpcode(open: bool, binary: bool): Opcode
  {
    if open then Continuation else if binary then Binary else Text
  }

  /** The session after SendFragment, and whether the call was accepted. */
  function Fragmented(s: Session, data: seq<Byte>, binary: bool, fin: bool): (Session, bool)
  {
    if !s.open then (s, false)
    else (Send(s.(sendFragmentOpen := !fin), SentFrame(Frame.Frame(fin, FragmentOpcode(s.sendFragmentOpen, binary), data))), true)
  }

  class SoftwareWsClient {
    var open: bool
    var rxBuffer: seq<Byte>
    var fragmentOpen: bool
    var fragmentBinary: bool
    var fragmentPayload: seq<Byte>
    var sendFragmentOpen: bool
    var closeSent: bool
    var messages: seq<(seq<Byte>, bool)>
    var pongs: seq<seq<Byte>>
    var closedWith: Option<nat>
    var errors: nat
    var sent: seq<Sent>

    function View(): Session
      reads this
    {
      Session(open, rxBuffer, fragmentOpen, fragmentBinary, fragmentPayload, sendFragmentOpen, closeSent,
              messages, pongs, closedWith, errors, sent)
    }

    /** A connection whose upgrade has just been accepted. */
    constructor ()
      ensures View() == Opened
    {
      open := true;
      rxBuffer := [];
      fragmentOpen, fragmentBinary, fragmentPayload, sendFragmentOpen, closeSent := false, false, [], false, false;
      messages, pongs, closedWith, errors, sent := [], [], None, 0, [];
    }

    method SendFrame(f: Frame)
      modifies this`sent
      ensures View() == Send(old(View()), SentFrame(f))
    {
      if open {
        sent := sent + [SentFrame(f)];
      }
    }

    method SendFragment(data: seq<Byte>, binary: bool, fin: bool) returns (accepted: bool)
      modifies this
      ensures (View(), accepted) == Fragmented(old(View()), data, binary, fin)
    {
      if !open {
        return false;
      }
      var opcode := if sendFragmentOpen then Continuation else if binary then Binary else Text;
      sendFragmentOpen := !fin;
      SendFrame(Frame.Frame(fin, opcode, data));
      return true;
    }

    method Teardown(code: nat)
      modifies this
      ensures View() == TornDown(old(View()), code)
    {
      var wasOpen := open;
      open := false;
      rxBuffer := [];
      fragmentOpen, fragmentBinary, fragmentPayload := false, false, [];
      sendFragmentOpen, closeSent := false, false;
      if wasOpen {
        closedWith := Some(code);
      }
    }

    method Fail(code: nat)
      modifies this
      ensures View() == Failed(old(View()), code)
    {
      errors := errors + 1;
      if open {
        closeSent := true;
        sent := sent + [SentClose(code)];
      }
      Teardown(code);
    }

    method HandleDataFrame(f: Frame)
      requires !IsControl(f.opcode)
      modifies this
      ensures View() == OnDataFrame(old(View()), f)
    {
      if f.opcode == Continuation && !fragmentOpen {
        Fail(PROTOCOL_ERROR);
      } else if f.opcode != Continuation && fragmentOpen {
        Fail(PROTOCOL_ERROR);
      } else if f.opcode == Continuation {
        fragmentPayload := fragmentPayload + f.payload;
        if |fragmentPayload| > MAX_MESSAGE_BYTES {
          Fail(MESSAGE_TOO_BIG);
        } else if f.fin {
          messages := messages + [(fragmentPayload, fragmentBinary)];
          fragmentPayload := [];
          fragmentOpen := false;
        }
      } else if f.fin {
        messages := messages + [(f.payload, f.opcode == Binary)];
      } else {
        fragmentOpen := true;
        fragmentBinary := f.opcode == Binary;
        fragmentPayload := f.payload;
      }
    }

    method HandleCloseFrame(payload: seq<Byte>)
      modifies this
      ensures View() == OnCloseFrame(old(View()), payload)
    {
      if |payload| == 1 {
        Fail(PROTOCOL_ERROR);
        return;
      }
      var code := NO_STATUS;
      if |payload| >= 2 {
        code := Word(payload[0], payload[1]);
      }
      var alreadySent := closeSent;
      closeSent := true;
      if !alreadySent {
        SendFrame(Frame.Frame(true, Close, payload));
      }
      Teardown(code);
    }

    method HandleFrame(f: Frame)
      modifies this
      ensures View() == OnFrame(old(View()), f)
    {
      match f.opcode
      case Ping => SendFrame(Frame.Frame(true, Pong, f.payload));
      case Pong => pongs := pongs + [f.payload];
      case Close => HandleCloseFrame(f.payload);
      case _ => HandleDataFrame(f);
    }

    method OnTransportData(data: seq<Byte>)
      modifies this
      ensures View() == OnData(old(View()), data)
    {
      ghost var was := View();
      rxBuffer := rxBuffer + data;
      if |rxBuffer| > MAX_MESSAGE_BYTES {
        rxBuffer := [];
        Fail(MESSAGE_TOO_BIG);
        return;
      }
      DrainFrames();
    }

    method DrainFrames()
      modifies this
      ensures View() == Drain(old(View()))
    {
      ghost var start := View();
      while true
        invariant Drain(start) == Drain(View())
        decreases |rxBuffer|
      {
        var read := ReadFrame(rxBuffer);
        if read.Incomplete? {
          return;
        }
        if read.Invalid? {
          Fail(PROTOCOL_ERROR);
          return;
        }
        rxBuffer := rxBuffer[read.size..];
        HandleFrame(read.value);
      }
    }
  }

  // ---------------------------------------------------------------------------
  // What stays within bounds, whatever arrives
  // ---------------------------------------------------------------------------

  /** Neither buffer ever holds more than 64 KiB. */
  predicate Bounded(s: Session)
  {
    && |s.rx| <= MAX_MESSAGE_BYTES
    && |s.fragmentPayload| <= MAX_MESSAGE_BYTES
    && (forall m :: m in s.messages ==> |m.0| <= MAX_MESSAGE_BYTES)
  }

  lemma MoreMessages(before: seq<(seq<Byte>, bool)>, m: (seq<Byte>, bool))
    requires |m.0| <= MAX_MESSAGE_BYTES && forall k :: k in before ==> |k.0| <= MAX_MESSAGE_BYTES
    ensures forall k :: k in before + [m] ==> |k.0| <= MAX_MESSAGE_BYTES
  {
  }

  lemma OnDataFrameBounded(s: Session, f: Frame)
    requires Bounded(s) && |f.payload| <= MAX_MESSAGE_BYTES
    ensures Bounded(OnDataFrame(s, f))
  {
    if f.fin {
      var m := (if s.fragmentOpen then s.fragmentPayload + f.payload else f.payload, if s.fragmentOpen then s.fragmentBinary else f.opcode == Binary);
      if |m.0| <= MAX_MESSAGE_BYTES {
        MoreMessages(s.messages, m);
      }
    }
  }

  lemma OnFrameBounded(s: Session, f: Frame)
    requires Bounded(s) && |f.payload| <= MAX_MESSAGE_BYTES
    ensures Bounded(OnFrame(s, f))
  {
    hide OnDataFrame;
    OnDataFrameBounded(s, f);
  }

  lemma {:induction false} DrainBounded(s: Session)
    requires Bounded(s)
    ensures Bounded(Drain(s))
    decreases |s.rx|
  {
    if TakeFrame(s.rx).Frame? {
      var Frame(f, n) := TakeFrame(s.rx);
      assert |f.payload| <= n;
      hide TakeFrame, OnFrame;
      OnFrameBounded(s.(rx := s.rx[n..]), f);
      DrainBounded(OnFrame(s.(rx := s.rx[n..]), f));
    }
  }

  function OnAll(s: Session, pieces: seq<seq<Byte>>): Session
    decreases |pieces|
  {
    if pieces == [] then s else OnAll(OnData(s, pieces[0]), pieces[1..])
  }

  /** Whatever a server sends, in whatever pieces, the client never holds or delivers more than its limit. */
  lemma {:induction false} AlwaysBounded(s: Session, pieces: seq<seq<Byte>>)
    requires Bounded(s)
    ensures Bounded(OnAll(s, pieces))
    decreases |pieces|
  {
    if pieces != [] {
      if |s.rx| + |pieces[0]| <= MAX_MESSAGE_BYTES {
        DrainBounded(s.(rx := s.rx + pieces[0]));
      }
      AlwaysBounded(OnData(s, pieces[0]), pieces[1..]);
    }
  }

  // ---------------------------------------------------------------------------
  // Messages in, messages out
  // ---------------------------------------------------------------------------

  datatype Control =
    | PingOut(payload: seq<Byte>)
    | PongOut(payload: seq<Byte>)

  /** One call of SendFragment and the control frames sent in front of it. */
  datatype Part = Part(before: seq<Control>, data: seq<Byte>, binary: bool)

  /** A message as a sender cuts it: at least one part, the last of which is final. */
  type Message = parts: seq<Part> | parts != [] witness [Part([], [], false)]

  function ControlFrame(c: Control): Frame
  {
    match c
    case PingOut(p) => Frame.Frame(true, Ping, p)
    case PongOut(p) => Frame.Frame(true, Pong, p)
  }

  function ControlFrames(cs: seq<Control>): seq<Frame>
  {
    if cs == [] then [] else [ControlFrame(cs[0])] + ControlFrames(cs[1..])
  }

  /** The frames of the parts of one message, by the sender's own opcode rule. */
  function PartFrames(parts: seq<Part>, open: bool): seq<Frame>
    decreases |parts|
  {
    if parts == [] then []
    else
      var last := |parts| == 1;
      ControlFrames(parts[0].before)
      + ([Frame.Frame(last, FragmentOpcode(open, parts[0].binary), parts[0].data)] + PartFrames(parts[1..], !last))
  }

  function MessageFrames(ms: seq<Message>): seq<Frame>
  {
    if ms == [] then [] else PartFrames(ms[0], false) + MessageFrames(ms[1..])
  }

  function Content(parts: seq<Part>): seq<Byte>
  {
    if parts == [] then [] else parts[0].data + Content(parts[1..])
  }

  /** What the application is meant to be handed: each message whole, under the kind its first frame gave it. */
  function Deliveries(ms: seq<Message>): seq<(seq<Byte>, bool)>
  {
    if ms == [] then [] else [(Content(ms[0]), ms[0][0].binary)] + Deliveries(ms[1..])
  }

  function PingOf(c: Control): seq<Sent>
  {
    if c.PingOut? then [SentFrame(Frame.Frame(true, Pong, c.payload))] else []
  }

  function PongOf(c: Control): seq<seq<Byte>>
  {
    if c.PongOut? then [c.payload] else []
  }

  /** The pongs a run of control frames is owed. */
  function PingsOf(cs: seq<Control>): seq<Sent>
  {
    if cs == [] then [] else PingOf(cs[0]) + PingsOf(cs[1..])
  }

  function PongsOf(cs: seq<Control>): seq<seq<Byte>>
  {
    if cs == [] then [] else PongOf(cs[0]) + PongsOf(cs[1..])
  }

  function ControlsOf(parts: seq<Part>): seq<Control>
  {
    if parts == [] then [] else parts[0].before + ControlsOf(parts[1..])
  }

  function AllControls(ms: seq<Message>): seq<Control>
  {
    if ms == [] then [] else ControlsOf(ms[0]) + AllControls(ms[1..])
  }

  lemma {:induction false} PingsAppend(a: seq<Control>, b: seq<Control>)
    ensures PingsOf(a + b) == PingsOf(a) + PingsOf(b)
    ensures PongsOf(a + b) == PongsOf(a) + PongsOf(b)
  {
    hide PingOf, PongOf;
    if a == [] {
      assert a + b == b;
    } else {
      assert (a + b)[1..] == a[1..] + b;
      PingsAppend(a[1..], b);
      ConcatAssoc(PingOf(a[0]), PingsOf(a[1..]), PingsOf(b));
      ConcatAssoc(PongOf(a[0]), PongsOf(a[1..]), PongsOf(b));
    }
  }

  function HandleAll(s: Session, frames: seq<Frame>): Session
    decreases |frames|
  {
    if frames == [] then s else HandleAll(OnFrame(s, frames[0]), frames[1..])
  }

  lemma {:induction false} HandleAllAppend(s: Session, a: seq<Frame>, b: seq<Frame>)
    ensures HandleAll(s, a + b) == HandleAll(HandleAll(s, a), b)
    decreases |a|
  {
    if a == [] {
      assert a + b == b;
    } else {
      assert (a + b)[1..] == a[1..] + b;
      HandleAllAppend(OnFrame(s, a[0]), a[1..], b);
    }
  }

  /** The session after a run of control frames: each ping answered with its own payload. */
  function Answered(s: Session, cs: seq<Control>): Session
  {
    s.(sent := s.sent + PingsOf(cs), pongs := s.pongs + PongsOf(cs))
  }

  lemma ControlHandled(s: Session, c: Control)
    requires s.open
    ensures OnFrame(s, ControlFrame(c)) == s.(sent := s.sent + PingOf(c), pongs := s.pongs + PongOf(c))
  {
    assert s.sent + [] == s.sent && s.pongs + [] == s.pongs;
  }

  lemma {:induction false} ControlsHandled(s: Session, cs: seq<Control>)
    requires s.open
    ensures HandleAll(s, ControlFrames(cs)) == Answered(s, cs)
    decreases |cs|
  {
    hide OnFrame, ControlFrame, PingOf, PongOf;
    if cs == [] {
      assert s.sent + [] == s.sent && s.pongs + [] == s.pongs;
    } else {
      ControlHandled(s, cs[0]);
      var next := OnFrame(s, ControlFrame(cs[0]));
      ControlsHandled(next, cs[1..]);
      assert ControlFrames(cs)[0] == ControlFrame(cs[0]) && ControlFrames(cs)[1..] == ControlFrames(cs[1..]);
      ConcatAssoc(s.sent, PingOf(cs[0]), PingsOf(cs[1..]));
      ConcatAssoc(s.pongs, PongOf(cs[0]), PongsOf(cs[1..]));
    }
  }

  lemma AnsweredTwice(s: Session, a: seq<Control>, b: seq<Control>)
    ensures Answered(Answered(s, a), b) == Answered(s, a + b)
  {
    PingsAppend(a, b);
    ConcatAssoc(s.sent, PingsOf(a), PingsOf(b));
    ConcatAssoc(s.pongs, PongsOf(a), PongsOf(b));
  }

  /** One data frame of a message in progress that stays within the limit. */
  lemma FragmentHandled(s: Session, data: seq<Byte>, binary: bool, fin: bool)
    requires !s.fragmentOpen ==> s.fragmentPayload == []
    requires |s.fragmentPayload| + |data| <= MAX_MESSAGE_BYTES
    ensures
      var whole := s.fragmentPayload + data;
      var kind := if s.fragmentOpen then s.fragmentBinary else binary;
      var r := OnFrame(s, Frame.Frame(fin, FragmentOpcode(s.fragmentOpen, binary), data));
      if fin then
        r == s.(fragmentOpen := false, fragmentPayload := [], messages := s.messages + [(whole, kind)])
      else
        r == s.(fragmentOpen := true, fragmentPayload := whole, fragmentBinary := kind)
  {
    assert [] + data == data;
  }

  /** The kind a message is delivered under, and the kind left behind in the field that gathers it. */
  function Kind(s: Session, parts: seq<Part>): bool
    requires parts != []
  {
    if s.fragmentOpen then s.fragmentBinary else parts[0].binary
  }

  function LeftBinary(s: Session, parts: seq<Part>): bool
    requires parts != []
  {
    if s.fragmentOpen || |parts| == 1 then s.fragmentBinary else parts[0].binary
  }

  /** A message delivered whole, everything in between answered, and nothing left half gathered. */
  function Delivered(s: Session, parts: seq<Part>): Session
    requires parts != []
  {
    Answered(s, ControlsOf(parts)).(
      messages := s.messages + [(s.fragmentPayload + Content(parts), Kind(s, parts))],
      fragmentOpen := false, fragmentPayload := [], fragmentBinary := LeftBinary(s, parts))
  }

  /**
   The parts of one message, from wherever it stands: the message is delivered once,
   whole, under the kind of its opening frame, with every ping in between answered.
   */
  lemma {:induction false} PartsHandled(s: Session, parts: seq<Part>)
    requires s.open && parts != []
    requires !s.fragmentOpen ==> s.fragmentPayload == []
    requires |s.fragmentPayload| + |Content(parts)| <= MAX_MESSAGE_BYTES
    ensures HandleAll(s, PartFrames(parts, s.fragmentOpen)) == Delivered(s, parts)
    decreases |parts|
  {
    hide OnFrame, PingsOf, PongsOf;
    var part, rest := parts[0], parts[1..];
    var last := |parts| == 1;
    var frame := Frame.Frame(last, FragmentOpcode(s.fragmentOpen, part.binary), part.data);
    var more := PartFrames(rest, !last);
    HandleAllAppend(s, ControlFrames(part.before), [frame] + more);
    ControlsHandled(s, part.before);
    var answered := Answered(s, part.before);
    assert ([frame] + more)[0] == frame && ([frame] + more)[1..] == more;
    FragmentHandled(answered, part.data, part.binary, last);
    var next := OnFrame(answered, frame);
    assert HandleAll(s, PartFrames(parts, s.fragmentOpen)) == HandleAll(next, more);
    if last {
      assert Content(parts) == part.data + [] == part.data;
      assert ControlsOf(parts) == part.before + [] == part.before;
    } else {
      PartsHandled(next, rest);
      ConcatAssoc(s.fragmentPayload, part.data, Content(rest));
      AnsweredTwice(s, part.before, ControlsOf(rest));
      DeliveredLater(s, next, parts);
    }
  }

  lemma DeliveredLater(s: Session, next: Session, parts: seq<Part>)
    requires |parts| > 1
    requires next == Answered(s, parts[0].before).(
                       fragmentOpen := true, fragmentPayload := s.fragmentPayload + parts[0].data, fragmentBinary := Kind(s, parts))
    ensures Delivered(next, parts[1..]) == Delivered(s, parts)
  {
    hide PingsOf, PongsOf;
    var rest := parts[1..];
    ConcatAssoc(s.fragmentPayload, parts[0].data, Content(rest));
    AnsweredTwice(s, parts[0].before, ControlsOf(rest));
  }

  /** All of a conversation: what the application sees, what is answered, and nothing else. */
  ghost predicate Received(s: Session, t: Session, ms: seq<Message>)
  {
    && t.open && t.errors == s.errors && t.closedWith == s.closedWith && t.rx == s.rx
    && !t.fragmentOpen && t.fragmentPayload == []
    && t.messages == s.messages + Deliveries(ms)
    && t.sent == s.sent + PingsOf(AllControls(ms))
    && t.pongs == s.pongs + PongsOf(AllControls(ms))
  }

  lemma {:induction false} MessagesHandled(s: Session, ms: seq<Message>)
    requires s.open && !s.fragmentOpen && s.fragmentPayload == []
    requires forall m :: m in ms ==> |Content(m)| <= MAX_MESSAGE_BYTES
    ensures Received(s, HandleAll(s, MessageFrames(ms)), ms)
    decreases |ms|
  {
    hide OnFrame, PingsOf, PongsOf, PartFrames, Content, ControlsOf;
    if ms == [] {
      PingsAppend([], []);
      EmptyControls();
      assert s.messages + [] == s.messages && s.sent + [] == s.sent && s.pongs + [] == s.pongs;
    } else {
      assert ms[0] in ms;
      HandleAllAppend(s, PartFrames(ms[0], false), MessageFrames(ms[1..]));
      PartsHandled(s, ms[0]);
      var next := Delivered(s, ms[0]);
      MessagesHandled(next, ms[1..]);
      assert [] + Content(ms[0]) == Content(ms[0]);
      var first, controls := [(Content(ms[0]), ms[0][0].binary)], AllControls(ms[1..]);
      ConcatAssoc(s.messages, first, Deliveries(ms[1..]));
      PingsAppend(ControlsOf(ms[0]), controls);
      ConcatAssoc(s.sent, PingsOf(ControlsOf(ms[0])), PingsOf(controls));
      ConcatAssoc(s.pongs, PongsOf(ControlsOf(ms[0])), PongsOf(controls));
    }
  }

  lemma EmptyControls()
    ensures PingsOf([]) == [] && PongsOf([]) == []
  {
  }

  // ---------------------------------------------------------------------------
  // From the wire
  // ---------------------------------------------------------------------------

  /** The buffer is not something a frame that leaves the connection open looks at. */
  lemma OnFrameIgnoresBuffer(s: Session, f: Frame, rx: seq<Byte>)
    requires s.open
    ensures OnFrame(s, f).open ==> OnFrame(s.(rx := rx), f) == OnFrame(s, f).(rx := rx)
  {
    hide OnDataFrame, OnCloseFrame;
    OnDataFrameIgnoresBuffer(s, f, rx);
    CloseEnds(s, f.payload);
  }

  lemma OnDataFrameIgnoresBuffer(s: Session, f: Frame, rx: seq<Byte>)
    requires s.open
    ensures OnDataFrame(s, f).open ==> OnDataFrame(s.(rx := rx), f) == OnDataFrame(s, f).(rx := rx)
  {
    hide Failed;
    FailureEnds(s, PROTOCOL_ERROR);
    FailureEnds(s.(fragmentPayload := s.fragmentPayload + f.payload), MESSAGE_TOO_BIG);
  }

  lemma FailureEnds(s: Session, code: nat)
    ensures !Failed(s, code).open
  {
  }

  lemma CloseEnds(s: Session, payload: seq<Byte>)
    ensures !OnCloseFrame(s, payload).open
  {
  }

  lemma ClosedStaysClosed(s: Session, frames: seq<Frame>)
    requires !s.open
    ensures !HandleAll(s, frames).open
    decreases |frames|
  {
    if frames != [] {
      ClosedStaysClosed(OnFrame(s, frames[0]), frames[1..]);
    }
  }

  /** A conversation that stays open does not depend on the buffer either. */
  lemma {:induction false} HandleAllIgnoresBuffer(s: Session, frames: seq<Frame>, rx: seq<Byte>)
    requires s.open && HandleAll(s, frames).open
    ensures HandleAll(s.(rx := rx), frames) == HandleAll(s, frames).(rx := rx)
    decreases |frames|
  {
    hide OnFrame;
    if frames != [] {
      if !OnFrame(s, frames[0]).open {
        ClosedStaysClosed(OnFrame(s, frames[0]), frames[1..]);
      }
      OnFrameIgnoresBuffer(s, frames[0], rx);
      HandleAllIgnoresBuffer(OnFrame(s, frames[0]), frames[1..], rx);
    }
  }

  /** One drain handles the frames the buffer holds, as long as none of them ends the connection. */
  lemma {:induction false} DrainHandlesFrames(s: Session)
    requires var d := TakeAll(TakeFrame, s.rx); s.open && !TakeFrame(d.rest).Invalid? && HandleAll(s, d.frames).open
    ensures var d := TakeAll(TakeFrame, s.rx);
            Drain(s) == HandleAll(s, d.frames).(rx := d.rest)
    decreases |s.rx|
  {
    TakeFrameStable();
    hide OnFrame;
    if TakeFrame(s.rx).Frame? {
      var Frame(f, n) := TakeFrame(s.rx);
      var rest := s.rx[n..];
      var d := TakeAll(TakeFrame, rest);
      var frames := [f] + d.frames;
      assert frames[0] == f && frames[1..] == d.frames;
      if !OnFrame(s, f).open {
        ClosedStaysClosed(OnFrame(s, f), d.frames);
      }
      OnFrameIgnoresBuffer(s, f, rest);
      var next := OnFrame(s.(rx := rest), f);
      HandleAllIgnoresBuffer(OnFrame(s, f), d.frames, rest);
      DrainHandlesFrames(next);
    } else {
      assert s.(rx := s.rx) == s;
    }
  }

  /** Any cut of a stream that fits and keeps the connection open has the effect of its frames in order. */
  lemma {:induction false} AnyCutHandlesTheStream(s: Session, pieces: seq<seq<Byte>>)
    requires s.open && !TakeFrame(s.rx).Frame?
    requires WithinLimit(TakeFrame, s.rx, pieces, MAX_MESSAGE_BYTES)
    requires var d := TakeAll(TakeFrame, s.rx + Flatten(pieces));
             TakeFrame(d.rest).Incomplete? && HandleAll(s, d.frames).open
    ensures var d := TakeAll(TakeFrame, s.rx + Flatten(pieces));
            OnAll(s, pieces) == HandleAll(s, d.frames).(rx := d.rest)
    decreases |pieces|
  {
    TakeFrameStable();
    hide OnFrame;
    if pieces == [] {
      assert s.rx + [] == s.rx;
      assert s.(rx := s.rx) == s;
    } else {
      var first := s.rx + pieces[0];
      var behind := Flatten(pieces[1..]);
      ConcatAssoc(s.rx, pieces[0], behind);
      TakeAllExtends(TakeFrame, first, behind);
      var d := TakeAll(TakeFrame, first);
      var e := TakeAll(TakeFrame, d.rest + behind);
      HandleAllAppend(s, d.frames, e.frames);
      var mid := HandleAll(s, d.frames);
      if !mid.open {
        ClosedStaysClosed(mid, e.frames);
      }
      InvalidStays(d.rest, behind);
      NothingWholeIsLeft(TakeFrame, first);
      HandleAllIgnoresBuffer(s, d.frames, first);
      DrainHandlesFrames(s.(rx := first));
      HandleAllIgnoresBuffer(mid, e.frames, d.rest);
      AnyCutHandlesTheStream(mid.(rx := d.rest), pieces[1..]);
    }
  }

  lemma InvalidStays(rest: seq<Byte>, behind: seq<Byte>)
    requires TakeFrame(TakeAll(TakeFrame, rest + behind).rest).Incomplete?
    ensures !TakeFrame(rest).Invalid?
  {
    TakeFrameExtends(rest, behind);
  }

  /** The bytes of frames sent without a mask; a frame the encoder refuses puts nothing on the wire. */
  function Wires(frames: seq<Frame>): (wires: seq<seq<Byte>>)
    ensures |wires| == |frames|
    ensures forall i :: 0 <= i < |frames| && Encoded(frames[i], None).Some? ==> wires[i] == Encoded(frames[i], None).value
  {
    if frames == [] then []
    else [if Encoded(frames[0], None).Some? then Encoded(frames[0], None).value else []] + Wires(frames[1..])
  }

  predicate ControlOk(c: Control)
  {
    |c.payload| <= MAX_CONTROL_PAYLOAD
  }

  predicate MessageOk(m: Message)
  {
    && |Content(m)| <= MAX_MESSAGE_BYTES
    && forall c :: c in ControlsOf(m) ==> ControlOk(c)
  }

  predicate FrameOk(f: Frame)
  {
    Encoded(f, None).Some? && |f.payload| < LEADING_BIT
  }

  lemma {:induction false} ControlFramesOk(cs: seq<Control>)
    requires forall c :: c in cs ==> ControlOk(c)
    ensures forall f :: f in ControlFrames(cs) ==> FrameOk(f)
  {
    if cs != [] {
      assert ControlOk(cs[0]);
      ControlFramesOk(cs[1..]);
    }
  }

  lemma {:induction false} PartFramesOk(parts: seq<Part>, open: bool)
    requires |Content(parts)| <= MAX_MESSAGE_BYTES && forall c :: c in ControlsOf(parts) ==> ControlOk(c)
    ensures forall f :: f in PartFrames(parts, open) ==> FrameOk(f)
    decreases |parts|
  {
    if parts != [] {
      forall c | c in parts[0].before ensures ControlOk(c) {
        assert c in ControlsOf(parts);
      }
      forall c | c in ControlsOf(parts[1..]) ensures ControlOk(c) {
        assert c in ControlsOf(parts);
      }
      ControlFramesOk(parts[0].before);
      PartFramesOk(parts[1..], |parts| != 1);
      assert FrameOk(Frame.Frame(|parts| == 1, FragmentOpcode(open, parts[0].binary), parts[0].data));
    }
  }

  lemma {:induction false} MessageFramesOk(ms: seq<Message>)
    requires forall m :: m in ms ==> MessageOk(m)
    ensures forall f :: f in MessageFrames(ms) ==> FrameOk(f)
  {
    if ms != [] {
      assert ms[0] in ms;
      PartFramesOk(ms[0], false);
      MessageFramesOk(ms[1..]);
    }
  }

  /** The frames of whole messages, and of control frames that come behind the last of them. */
  function ConversationFrames(ms: seq<Message>, after: seq<Control>): seq<Frame>
  {
    MessageFrames(ms) + ControlFrames(after)
  }

  lemma ConversationHandled(ms: seq<Message>, after: seq<Control>)
    requires forall m :: m in ms ==> |Content(m)| <= MAX_MESSAGE_BYTES
    ensures var t := HandleAll(Opened, ConversationFrames(ms, after));
            && t.open && t.errors == 0 && t.closedWith == None && t.rx == []
            && t.messages == Deliveries(ms)
            && t.sent == PingsOf(AllControls(ms) + after)
            && t.pongs == PongsOf(AllControls(ms) + after)
  {
    hide OnFrame, PingsOf, PongsOf, Content, ControlsOf;
    HandleAllAppend(Opened, MessageFrames(ms), ControlFrames(after));
    MessagesHandled(Opened, ms);
    ControlsHandled(HandleAll(Opened, MessageFrames(ms)), after);
    PingsAppend(AllControls(ms), after);
    assert [] + PingsOf(AllControls(ms)) == PingsOf(AllControls(ms)) && [] + PongsOf(AllControls(ms)) == PongsOf(AllControls(ms));
  }

  /**
   End to end (RFC 6455, section 5.4). Any messages, cut into fragments by the opcode
   rule of SendFragment, with pings and pongs anywhere between and behind them, encoded
   without a mask, with an unfinished frame at the end, and arriving in any pieces that
   fit the receive buffer, are handed to the application once each, in order, whole,
   under the kind of their opening frame; each ping is answered with its own payload; the
   unfinished frame stays in the buffer; nothing else is sent, reported or closed.
   */
  lemma MessagesSurviveTheWire(ms: seq<Message>, after: seq<Control>, tail: seq<Byte>, pieces: seq<seq<Byte>>)
    requires (forall m :: m in ms ==> MessageOk(m)) && forall c :: c in after ==> ControlOk(c)
    requires TakeFrame(tail).Incomplete?
    requires Flatten(pieces) == Flatten(Wires(ConversationFrames(ms, after))) + tail
    requires WithinLimit(TakeFrame, [], pieces, MAX_MESSAGE_BYTES)
    ensures
      var t := OnAll(Opened, pieces);
      && t.open && t.errors == 0 && t.closedWith == None && t.rx == tail
      && t.messages == Deliveries(ms)
      && t.sent == PingsOf(AllControls(ms) + after)
      && t.pongs == PongsOf(AllControls(ms) + after)
  {
    hide OnFrame, PingsOf, PongsOf, OnData, Content, ControlsOf, FrameOk, HandleAll, TakeFrame;
    var frames := ConversationFrames(ms, after);
    var wire := Wires(frames);
    MessageFramesOk(ms);
    ControlFramesOk(after);
    TakeFrameStable();
    forall i, x | 0 <= i < |wire| ensures TakeFrame(wire[i] + x) == Taken.Frame(frames[i], |wire[i]|) {
      assert frames[i] in frames && FrameOk(frames[i]);
      WireIsTaken(frames, i, x);
    }
    NothingIsIncomplete();
    TakeAllEncoded(TakeFrame, wire, frames, tail);
    assert [] + Flatten(pieces) == Flatten(pieces);
    ConversationHandled(ms, after);
    AnyCutHandlesTheStream(Opened, pieces);
  }

  lemma WireIsTaken(frames: seq<Frame>, i: nat, x: seq<Byte>)
    requires i < |frames| && FrameOk(frames[i])
    ensures TakeFrame(Wires(frames)[i] + x) == Taken.Frame(frames[i], |Wires(frames)[i]|)
  {
    hide TakeFrame, Encoded;
    TakeUndoesEncode(frames[i], x);
  }

  lemma NothingIsIncomplete()
    ensures TakeFrame([]).Incomplete?
  {
  }
}

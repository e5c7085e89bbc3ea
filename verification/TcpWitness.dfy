/** A run that gets through: for any two initial sequence numbers the handshake completes and a
    message is delivered, so the results about all runs are about something. */
module TcpWitness {
  import opened Words
  import opened TcpFraming
  import opened TcpFlowModel
  import opened TcpSafety
  import opened TcpSystem
  import opened TcpSteps
  import opened TcpRuns
  import opened TcpTimer
  import opened TcpProgress

  // ---------------------------------------------------------------- what each endpoint does

  /** A SYN or SYN-ACK as we send it. */
  function SynSegment(isn: u32, ackNo: u32, flags: Flags): Segment {
    Segment(isn, ackNo, flags, WINDOW, MssOption(DEFAULT_MSS), [])
  }

  lemma OwnMss(mss: u16)
    ensures ParseMss(MssOption(DEFAULT_MSS), 0, mss) == DEFAULT_MSS
  {
    OptionsRoundTrip([], [], mss);
  }

  lemma Listens(f: Flow, isn: u32)
    requires f.Ok() && f.state == Listen
    ensures var g := f.InputSegment(SynSegment(isn, 0, SYN), 0);
            && g.state == SynReceived && g.rcv == Wrap(isn + 1) && g.nxt == Wrap(f.isn + 1)
            && g.tx == f.tx + [SynSegment(f.isn, Wrap(isn + 1), SYN_ACK)] && g.isn == f.isn
  {
    OwnMss(f.peerMss);
    hide Wrap, ParseMss, MssOption;
    f.SynInFlight();
  }

  /** An established flow with an empty buffer and nothing outstanding. */
  predicate Idle(f: Flow) {
    && f.state == Established && f.Ok() && f.buf == [] && f.una == f.nxt && !f.finPending && !f.finSent
    && f.wnd == WINDOW
  }

  lemma Answers(f: Flow, isn: u32)
    requires f.Ok() && f.state == SynSent && f.nxt == Wrap(f.isn + 1)
    ensures var g := f.InputSegment(SynSegment(isn, f.nxt, SYN_ACK), 0);
            && Idle(g) && g.peerMss == DEFAULT_MSS && g.rcv == Wrap(isn + 1) && g.nxt == f.nxt && g.isn == f.isn
            && g.tx == f.tx + [Segment(f.nxt, Wrap(isn + 1), ACK, WINDOW, [], [])]
  {
    OwnMss(f.peerMss);
    hide Wrap, ParseMss, MssOption, Flow.PumpSend;
    f.SynInFlight();
    PumpNothing(f.HandleSynSent(SynSegment(isn, f.nxt, SYN_ACK)), 0);
  }

  lemma Completes(f: Flow, s: Segment)
    requires f.Ok() && f.state == SynReceived
    requires s.ackNo == f.nxt && s.flags == ACK && s.payload == [] && s.wnd == WINDOW
    ensures var g := f.InputSegment(s, 0);
            Idle(g) && g.rcv == f.rcv && g.tx == f.tx && g.nxt == f.nxt
  {
    hide Wrap, Flow.PumpSend;
    Same(f.nxt);
    PumpNothing(f.HandleSynReceived(s), 0);
  }

  /** A message that fits a segment goes out in one. */
  lemma SendsWhole(f: Flow, m: Message)
    requires Idle(f) && f.peerMss == DEFAULT_MSS && 1 <= |m| <= DEFAULT_MSS - PREFIX
    ensures f.Accepts(|m|, [m]) && Flatten([m])[..|m|] == m
    ensures var g := f.OutputMessage(|m|, [m], 1);
            g.tx == f.tx + [Segment(f.nxt, f.rcv, ACK_PSH, WINDOW, [], Frame(m))] && g.state == Established
  {
    SmallWrap(PREFIX + |m|);
    assert Flatten([m]) == m by {
      assert [m][1..] == [];
    }
    var h := f.(freed := f.freed + 1, buf := Frame(m));
    assert f.buf + Frame(m) == Frame(m);
    PumpsWhole(h);
    hide Wrap, Flow.PumpSend, Frame, Flatten;
  }

  lemma PumpsWhole(f: Flow)
    requires f.Ok() && f.state == Established && f.una == f.nxt && 1 <= |f.buf| <= DEFAULT_MSS && f.wnd == WINDOW
    requires f.peerMss == DEFAULT_MSS && !f.finPending
    ensures f.PumpSend(1).tx == f.tx + [Segment(f.nxt, f.rcv, ACK_PSH, WINDOW, [], f.buf)]
    ensures f.PumpSend(1).state == Established
  {
    var edge := Wrap(f.una + f.wnd);
    Same(f.una);
    f.Room();
    EdgeDistance(f, edge);
    TurnBounds(f, edge);
    SendDataTurn(f, edge, 1);
    var g := Turn(f, edge);
    SendDataNone(g, edge);
    hide Wrap, SeqLt, Flow.SendData;
    assert f.SegLen(edge) == |f.buf|;
    assert f.buf[0..|f.buf|] == f.buf;
  }

  lemma ReceivesWhole(f: Flow, s: Segment)
    requires Idle(f) && s.flags == ACK_PSH && s.ackNo == f.una && s.seqNo == f.rcv && s.wnd == WINDOW
    requires 1 <= |s.payload| <= DEFAULT_MSS
    ensures f.InputSegment(s, 0).rcv == Wrap(f.rcv + |s.payload|) && f.InputSegment(s, 0).state == Established
  {
    hide Wrap, Flow.PumpSend, Consume;
    Same(f.una);
    PumpNothing(f.HandleEstablished(s), 0);
  }

  // ---------------------------------------------------------------- the run

  function NewEnd(isn: u32, cap: u32): End
    requires cap >= 1
  {
    End(NewFlow(isn, cap), 0, 0, [], [], false)
  }

  function Last(r: seq<System>): System
    requires r != []
  {
    r[|r| - 1]
  }

  /** The run `r` goes on with event `ev` at one endpoint. */
  lemma Extend(r: seq<System>, left: bool, ev: Event) returns (r': seq<System>)
    requires r != [] && Run(r) && Enabled(EndOf(Last(r), left), EndOf(Last(r), !left), ev)
    ensures r' != [] && Run(r') && r'[0] == r[0]
    ensures EndOf(Last(r'), left) == Do(EndOf(Last(r), left), EndOf(Last(r), !left), ev)
    ensures EndOf(Last(r'), !left) == EndOf(Last(r), !left)
  {
    hide Do, Enabled, InitEnd;
    var e, p := EndOf(Last(r), left), EndOf(Last(r), !left);
    var t := if left then System(Do(e, p, ev), p) else System(p, Do(e, p, ev));
    assert Next(Last(r), t);
    r' := r + [t];
    forall i | 0 <= i < |r'| - 1
      ensures Next(r'[i], r'[i + 1])
    {
      if i < |r| - 1 {
        assert r'[i] == r[i] && r'[i + 1] == r[i + 1];
      } else {
        assert r'[i] == Last(r) && r'[i + 1] == t;
      }
    }
  }

  /** While the streams are short nothing is stale: the run goes on with the delivery of any
      segment of the peer's log. */
  lemma Arrive(r: seq<System>, left: bool, i: nat) returns (r': seq<System>)
    requires r != [] && Run(r) && EndOf(Last(r), left).begun && i < |EndOf(Last(r), !left).f.tx|
    requires |EndOf(Last(r), left).Stream()| < 0x1_0000 && |EndOf(Last(r), !left).Stream()| < 0x1_0000
    ensures r' != [] && Run(r') && r'[0] == r[0] && EndOf(Last(r'), !left) == EndOf(Last(r), !left)
    ensures var e, p, e' := EndOf(Last(r), left), EndOf(Last(r), !left), EndOf(Last(r'), left);
            && e.f.Ok() && |p.f.tx[i].payload| < 0x1_0000 && e'.f == e.f.InputSegment(p.f.tx[i], 0)
            && e'.rcv == NewRcv(e, e'.f) && e'.sent == e.sent && e'.begun
  {
    hide Run, Inv, FrameAll, Flow.InputSegment, NewRcv, NewUna, Agrees, NotStale, Encode, Decode, StampOf, Wrap;
    var e, p := EndOf(Last(r), left), EndOf(Last(r), !left);
    RunEnd(r, |r| - 1, left);
    RunEnd(r, |r| - 1, !left);
    NothingLost(r, |r| - 1);
    AnySegmentArrives(r, |r| - 1, !left, i, [], 0);
    EarlyFresh(e, p, i);
    DecodeEncode(p.f.tx[i], []);
    r' := Extend(r, left, Deliver(i, [], 0));
  }

  lemma EarlyFresh(e: End, p: End, i: nat)
    requires Inv(p, e) && i < |p.f.tx| && i < |p.stamps| && Agrees(e, p) && Agrees(p, e)
    requires |e.Stream()| < 0x1_0000 && |p.Stream()| < 0x1_0000
    ensures NotStale(e, p.f.tx[i], p.stamps[i]) && |p.f.tx[i].payload| < 0x1_0000
  {
    hide Wrap, FrameAll, RecvState, SendState;
  }

  /** `a` has sent its SYN to the listener `b`. */
  predicate Opened(s: System) {
    && s.a.f.Ok() && s.a.f.state == SynSent && s.a.f.nxt == Wrap(s.a.f.isn + 1)
    && s.a.f.tx == [SynSegment(s.a.f.isn, 0, SYN)]
    && s.b.f.Ok() && s.b.f.state == Listen && s.b.f.tx == []
    && s.a.sent == [] && s.b.sent == [] && s.a.begun && s.b.begun
  }

  /** Both ends are established, nothing has been sent, and `a` has logged its SYN and its
      acknowledgement. */
  predicate Connected(s: System) {
    && Idle(s.a.f) && Idle(s.b.f) && s.a.f.peerMss == DEFAULT_MSS && s.a.f.rcv == s.b.f.nxt && s.b.f.rcv == s.a.f.nxt
    && s.a.sent == [] && s.b.sent == [] && |s.a.f.tx| == 2 && s.b.rcv == 1 && s.a.begun && s.b.begun
  }

  lemma Opens(isnA: u32, isnB: u32, capA: u32, capB: u32) returns (r: seq<System>)
    requires capA >= 1 && capB >= 1
    ensures r != [] && Run(r) && r[0] == System(NewEnd(isnA, capA), NewEnd(isnB, capB)) && Opened(Last(r))
  {
    hide Wrap, MssOption;
    r := [System(NewEnd(isnA, capA), NewEnd(isnB, capB))];
    r := Extend(r, true, Event.ActiveOpen);
    r := Extend(r, false, Event.PassiveOpen);
  }

  /** The SYN, the SYN-ACK and the acknowledgement arrive. */
  lemma ShakesHands(r0: seq<System>) returns (r: seq<System>)
    requires r0 != [] && Run(r0) && Opened(Last(r0))
    ensures r != [] && Run(r) && r[0] == r0[0] && Connected(Last(r))
  {
    hide Run, Wrap, FrameAll, Flow.InputSegment, Idle, MssOption, Flow.Ok;
    EmptyStream();
    Listens(Last(r0).b.f, Last(r0).a.f.isn);
    r := Arrive(r0, false, 0);
    Answers(Last(r).a.f, Last(r).b.f.isn);
    r := Arrive(r, true, 0);
    SmallWrap(0);
    Completes(Last(r).b.f, Last(r).a.f.tx[1]);
    r := Arrive(r, false, 1);
  }

  /** For every pair of initial sequence numbers and every message that fits a segment, some
      run establishes both ends and delivers the message. */
  lemma Delivers(isnA: u32, isnB: u32, capA: u32, capB: u32, m: Message) returns (r: seq<System>)
    requires capA >= 1 && capB >= 1 && 1 <= |m| <= DEFAULT_MSS - PREFIX
    ensures r != [] && Run(r) && r[0] == System(NewEnd(isnA, capA), NewEnd(isnB, capB))
    ensures Last(r).a.f.state == Established && Last(r).b.f.state == Established
    ensures Last(r).a.sent == [m] && Received(Last(r).b) == [m]
  {
    hide Run, Opened, Connected, InitEnd;
    r := Opens(isnA, isnB, capA, capB);
    r := ShakesHands(r);
    r := CarriesOver(r, m);
  }

  lemma CarriesOver(r0: seq<System>, m: Message) returns (r: seq<System>)
    requires r0 != [] && Run(r0) && Connected(Last(r0)) && 1 <= |m| <= DEFAULT_MSS - PREFIX
    ensures r != [] && Run(r) && r[0] == r0[0]
    ensures Last(r).a.f.state == Established && Last(r).b.f.state == Established
    ensures Last(r).a.sent == [m] && Received(Last(r).b) == [m]
  {
    hide Run, Wrap, Flow.InputSegment, Flow.OutputMessage, Frame, Flatten, Flow.Accepts, FrameAll, Received, StampOf,
      NewUna;
    var s := Last(r0);
    SendsWhole(s.a.f, m);
    r := Extend(r0, true, Event.Output(|m|, [m], 1));
    assert Last(r).a.sent == [m];
    OneFrame(m);
    EmptyStream();
    ReceivesWhole(s.b.f, Last(r).a.f.tx[2]);
    r := Arrive(r, false, 2);
    SmallWrap(s.b.f.rcv);
    Distance(s.b.f.rcv + |Frame(m)|, s.b.f.rcv);
    AllReceived(r, m);
  }

  lemma OneFrame(m: Message)
    requires 1 <= |m| <= DEFAULT_MSS - PREFIX
    ensures FrameAll([m]) == Frame(m) && |Frame(m)| == PREFIX + |m|
  {
    assert [m][1..] == [];
  }

  lemma AllReceived(r: seq<System>, m: Message)
    requires r != [] && Run(r) && Last(r).a.sent == [m] && |FrameAll([m])| < Last(r).b.rcv
    ensures Received(Last(r).b) == [m]
  {
    hide Run, Inv, FrameAll;
    RunInv(r, |r| - 1);
    assert [m][..1] == [m];
    InvComplete(Last(r).b, Last(r).a, 1);
    DeliveredIsPrefix(r, |r| - 1);
  }

  // ---------------------------------------------------------------- a run that closes

  /** A flow that has sent its FIN and nothing else, unacknowledged. */
  predicate FinOut(f: Flow, st: State) {
    && f.Ok() && f.state == st && f.buf == []
    && f.finPending && f.finSent && f.finSeq == f.una && f.nxt == Wrap(f.una + 1)
  }

  lemma ShutsDown(f: Flow)
    requires f.Ok() && f.CanAccept() && f.buf == [] && f.una == f.nxt && !f.finPending && !f.finSent
    ensures var g := f.ShutDown(1);
            && FinOut(g, if f.state == Established then FinWait1 else LastAck)
            && g.una == f.una && g.rcv == f.rcv && g.tx == f.tx + [Segment(f.nxt, f.rcv, FIN_ACK, WINDOW, [], [])]
  {
    hide Wrap, SeqLt, RxFields.Valid;
    Same(f.una);
    SmallWrap(f.una);
    f.Room();
  }

  /** The FIN arrives in ESTABLISHED. */
  lemma TakesFin(f: Flow, s: Segment)
    requires Idle(f) && s.flags == FIN_ACK && s.payload == [] && s.seqNo == f.rcv && s.ackNo == f.una
    ensures var g := f.InputSegment(s, 0);
            && g.Ok() && g.state == CloseWait && g.buf == [] && g.una == g.nxt == f.nxt && !g.finPending && !g.finSent
            && g.rcv == Wrap(f.rcv + 1) && g.tx == f.tx + [Segment(f.nxt, g.rcv, ACK, WINDOW, [], [])]
  {
    hide Wrap, RxFields.Valid, Flow.PumpSend;
    Same(f.una);
    SmallWrap(f.rcv);
    PumpNothing(f.HandleEstablished(s), 0);
  }

  /** Our FIN is acknowledged. */
  lemma FinIsAcked(f: Flow, s: Segment)
    requires FinOut(f, FinWait1) && s.flags == ACK && s.payload == [] && s.ackNo == f.nxt
    ensures var g := f.InputSegment(s, 0);
            && g.Ok() && g.state == FinWait2 && g.rcv == f.rcv && g.tx == f.tx && g.nxt == f.nxt
  {
    hide Wrap, Signed, SeqLt, SeqLeq, SeqGt, RxFields.Valid, Flow.PumpSend;
    var una: int := f.una;
    SmallWrap(una);
    SerialOrder(una + 1, una);
    SerialOrder(una + 1, una + 1);
    PumpIdle(f.HandleFinWait1(s), 0);
  }

  /** The peer's FIN arrives in FIN_WAIT_2. */
  lemma TakesLastFin(f: Flow, s: Segment)
    requires f.Ok() && f.state == FinWait2 && s.flags == FIN_ACK && s.payload == [] && s.seqNo == f.rcv
    ensures var g := f.InputSegment(s, 0);
            && g.Ok() && g.state == TimeWait && g.timeWait == TIME_WAIT_TICKS && g.rcv == Wrap(f.rcv + 1)
            && g.tx == f.tx + [Segment(f.nxt, g.rcv, ACK, WINDOW, [], [])]
  {
    hide Wrap, RxFields.Valid, Flow.PumpSend;
    SmallWrap(f.rcv);
    PumpIdle(f.HandleFinWait2(s), 0);
  }

  lemma LastAckCloses(f: Flow, s: Segment)
    requires FinOut(f, LastAck) && s.flags == ACK && s.payload == []
    ensures f.InputSegment(s, 0).state == Closed
  {
    hide Wrap, RxFields.Valid, Flow.PumpSend, Flow.AdvanceSndUna;
    PumpIdle(f.Dispatch(s), 0);
  }

  /** `a` has closed and `b` has answered: `a` in FIN_WAIT_2, `b` in CLOSE_WAIT. */
  predicate HalfClosed(s: System) {
    && s.a.f.Ok() && s.a.f.state == FinWait2 && s.a.f.rcv == s.b.f.nxt
    && s.b.f.Ok() && s.b.f.state == CloseWait && s.b.f.buf == [] && s.b.f.una == s.b.f.nxt
    && !s.b.f.finPending && !s.b.f.finSent
    && s.a.sent == [] && s.b.sent == [] && s.a.begun && s.b.begun
  }

  lemma HalfCloses(r0: seq<System>) returns (r: seq<System>)
    requires r0 != [] && Run(r0) && Connected(Last(r0))
    ensures r != [] && Run(r) && r[0] == r0[0] && HalfClosed(Last(r))
  {
    hide Run, Wrap, FrameAll, Flow.InputSegment, Flow.ShutDown, RxFields.Valid, StampOf, NewUna, NewRcv;
    EmptyStream();
    var s := Last(r0);
    ShutsDown(s.a.f);
    r := Extend(r0, true, Event.ShutDown(1));
    TakesFin(s.b.f, Last(r).a.f.tx[2]);
    r := Arrive(r, false, 2);
    FinIsAcked(Last(r).a.f, Last(r).b.f.tx[|s.b.f.tx|]);
    r := Arrive(r, true, |s.b.f.tx|);
  }

  /** `b` closes too. */
  lemma OtherCloses(r0: seq<System>) returns (r: seq<System>)
    requires r0 != [] && Run(r0) && HalfClosed(Last(r0))
    ensures r != [] && Run(r) && r[0] == r0[0] && Last(r).b.f.state == Closed
    ensures Last(r).a.f.Ok() && Last(r).a.f.state == TimeWait && Last(r).a.begun
  {
    hide Run, Wrap, FrameAll, Flow.InputSegment, Flow.ShutDown, RxFields.Valid, StampOf, NewUna, NewRcv;
    EmptyStream();
    var s := Last(r0);
    ShutsDown(s.b.f);
    r := Extend(r0, false, Event.ShutDown(1));
    TakesLastFin(Last(r).a.f, Last(r).b.f.tx[|s.b.f.tx|]);
    r := Arrive(r, true, |s.b.f.tx|);
    LastAckCloses(Last(r).b.f, Last(r).a.f.tx[|s.a.f.tx|]);
    r := Arrive(r, false, |s.a.f.tx|);
  }

  /** TIME_WAIT runs out. */
  lemma {:induction false} TimesOut(r0: seq<System>) returns (r: seq<System>)
    requires r0 != [] && Run(r0) && Last(r0).a.f.Ok() && Last(r0).a.f.state == TimeWait && Last(r0).a.begun
    ensures r != [] && Run(r) && r[0] == r0[0] && Last(r).a.f.state == Closed && Last(r).b == Last(r0).b
    decreases Last(r0).a.f.timeWait
  {
    hide Run, Wrap, Flow.PeriodicCheck, RxFields.Valid, StampOf, NewUna, NewRcv;
    TimeWaitEnds(Last(r0).a.f, 0);
    r := Extend(r0, true, Event.Tick(0));
    if Last(r).a.f.state != Closed {
      r := TimesOut(r);
    }
  }

  /** For every pair of initial sequence numbers some run opens the connection and closes it in
      both directions. */
  lemma Closes(isnA: u32, isnB: u32, capA: u32, capB: u32) returns (r: seq<System>)
    requires capA >= 1 && capB >= 1
    ensures r != [] && Run(r) && r[0] == System(NewEnd(isnA, capA), NewEnd(isnB, capB))
    ensures Last(r).a.f.state == Closed && Last(r).b.f.state == Closed
  {
    hide Run, Opened, Connected, HalfClosed, InitEnd;
    r := Opens(isnA, isnB, capA, capB);
    r := ShakesHands(r);
    r := HalfCloses(r);
    r := OtherCloses(r);
    r := TimesOut(r);
  }
}

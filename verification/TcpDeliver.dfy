/** The delivery of a segment, handler by handler. */
module TcpDeliver {
  import opened Words
  import opened TcpFraming
  import opened TcpFlowModel
  import opened TcpSafety
  import opened TcpSystem
  import opened TcpSteps

  /** A segment of the peer's log at positions `x` and `y`, not too old. */
  predicate Incoming(e: End, p: End, s: Segment, x: int, y: int) {
    && PktAt(p.f.isn, p.Stream(), p.f.finPending, e.f.isn, p.rcv, s, x, y)
    && e.rcv - TWO31 <= x && (s.flags.ack ==> e.una - TWO31 <= y)
    && !s.flags.rst
  }

  /** Where a handler stands after some of its steps: the stream position of the buffer is
      `una`, the peer's stream is received up to `rcv`, and what was sent is sound. */
  predicate Mid(e: End, p: End, g: Flow, una: int, rcv: int) {
    && g.isn == e.f.isn && e.f.tx <= g.tx && g.state == e.f.state != Closed && g.finPending == e.f.finPending
    && e.una <= una <= p.rcv && Wrap(g.una - e.f.una) == una - e.una
    && 1 <= e.rcv <= rcv <= e.rcv + DEFAULT_MSS && Wrap(g.rcv - e.f.rcv) == rcv - e.rcv
    && SendOk(g, una, e.Stream()) && RecvOk(g, rcv, p.f.isn, p.Stream()) && rcv <= 1 + |p.Stream()|
    && AllGood(g, |e.f.tx|, una, e.Stream(), p.f.isn, e.rcv, rcv)
  }

  /** The unacknowledged part of the peer's stream fits its send buffer. */
  lemma Ahead(p: End, e: End)
    requires Inv(p, e)
    ensures |p.Stream()| <= p.una + MAX_SEND_BUF
  {
    hide Wrap, Consume;
    if p.una == 0 {
      assert FrameAll([]) == [];
    } else {
      assert |p.f.buf| <= MAX_SEND_BUF;
    }
  }

  lemma MidStart(e: End, p: End)
    requires Inv(e, p) && Inv(p, e) && e.una >= 1
    requires e.f.state == Established || e.f.state == FinWait1 || e.f.state == FinWait2
    ensures Mid(e, p, e.f, e.una, e.rcv)
  {
    hide Wrap, Consume, FrameAll, PktAt;
    Same(e.f.una);
    Same(e.f.rcv);
  }

  /** The position after the acknowledgement number of `s` has been processed. */
  function AckedTo(e: End, s: Segment, y: int): int {
    if s.flags.ack && e.una < y <= e.una + e.f.InFlight() then y else e.una
  }

  function Acked(f: Flow, s: Segment): Flow
    requires f.Ok() && !f.Opening()
  {
    if s.flags.ack then f.AdvanceSndUna(s.ackNo) else f
  }

  lemma AckFlow(e: End, p: End, s: Segment, x: int, y: int)
    requires Inv(e, p) && Inv(p, e) && e.una >= 1 && Incoming(e, p, s, x, y)
    ensures var g := Acked(e.f, s);
            var una := AckedTo(e, s, y);
            && SendOk(g, una, e.Stream()) && e.una <= una <= p.rcv && Wrap(g.una - e.f.una) == una - e.una
            && una + g.InFlight() == e.una + e.f.InFlight()
            && g == e.f.(una := g.una, buf := g.buf, rexmits := g.rexmits, rtoOn := g.rtoOn, rtoLeft := g.rtoLeft)
  {
    hide Wrap, FrameAll, Inv, Flow.AdvanceSndUna;
    AckStart(e, p);
    PeerReached(e, p);
    Same(e.f.una);
    if s.flags.ack {
      Ahead(e, p);
      AckAdvances(e.f, e.una, e.Stream(), y);
    }
  }

  /** The peer has received what we dropped, and at most what there is. */
  lemma PeerReached(e: End, p: End)
    requires Inv(p, e)
    ensures e.una <= p.rcv <= |e.Stream()| + 2
  {
    hide Wrap, FrameAll, SendState, PktsInv, Consume;
  }

  lemma AckStart(e: End, p: End)
    requires Inv(e, p) && e.una >= 1
    ensures SendOk(e.f, e.una, e.Stream())
    ensures e.f.Ok() && !e.f.Opening()
  {
    hide Wrap, FrameAll, RecvState, PktsInv;
  }

  lemma MidAck(e: End, p: End, s: Segment, x: int, y: int, wnd: u16)
    requires Inv(e, p) && Inv(p, e) && e.una >= 1 && Incoming(e, p, s, x, y)
    requires e.f.state == Established || e.f.state == FinWait1
    ensures Mid(e, p, Acked(e.f, s).(wnd := wnd), AckedTo(e, s, y), e.rcv)
  {
    hide Wrap, Consume, FrameAll, PktAt, Flow.AdvanceSndUna;
    AckFlow(e, p, s, x, y);
    Same(e.f.rcv);
  }

  lemma MidSendAck(e: End, p: End, g: Flow, una: int, rcv: int)
    requires Mid(e, p, g, una, rcv)
    ensures Mid(e, p, g.SendAck(), una, rcv)
  {
    hide Wrap, Consume, FrameAll, PktAt;
    AckGood(g, |e.f.tx|, una, e.Stream(), p.f.isn, e.rcv, rcv);
  }

  function TakenTo(rcv: int, x: int, s: Segment): int {
    if s.payload != [] && x <= rcv < x + |s.payload| then x + |s.payload| else rcv
  }

  lemma MidTake(e: End, p: End, g: Flow, una: int, s: Segment, x: int, y: int)
    requires Inv(e, p) && Inv(p, e) && Mid(e, p, g, una, e.rcv) && Incoming(e, p, s, x, y) && s.payload != [] && g.Ok()
    requires |s.payload| < 0x1_0000
    ensures Mid(e, p, g.ProcessPayload(s.seqNo, s.payload).0, una, TakenTo(e.rcv, x, s))
  {
    hide Wrap, Consume, FrameAll, Flow.ProcessPayload, AllGood, Incoming, Inv, SendOk, RecvOk, Flow.Ok;
    RcvOf(e, p);
    InReach(e, p, s, x, y);
    RecvOf(g, e.rcv, p);
    var rcv := TakenTo(e.rcv, x, s);
    PayloadTaken(g, e.rcv, p.f.isn, p.sent, x, s.payload);
    var h := g.ProcessPayload(s.seqNo, s.payload).0;
    AllGoodLater(g, h, |e.f.tx|, una, e.Stream(), p.f.isn, e.rcv, e.rcv, rcv);
    SendOkSame(g, h, una, e.Stream());
  }

  lemma RcvOf(e: End, p: End)
    requires Inv(e, p) && e.rcv >= 1
    ensures e.f.rcv == Wrap(p.f.isn + e.rcv)
  {
    hide Wrap, Consume, FrameAll, PktAt;
  }

  lemma RecvOf(g: Flow, rcv: int, p: End)
    requires RecvOk(g, rcv, p.f.isn, p.Stream())
    ensures g.rcv == Wrap(p.f.isn + rcv)
  {
    hide Wrap, Consume, FrameAll;
  }

  lemma RecvOkSame(g: Flow, h: Flow, p: End)
    requires RecvOk(g, 1, p.f.isn, p.Stream()) && h.rcv == g.rcv && h.rx == g.rx
    ensures RecvOk(h, 1, p.f.isn, p.Stream())
  {
  }

  /** Receiving and closing do not touch the send side. */
  lemma SendOkSame(g: Flow, h: Flow, una: int, str: seq<u8>)
    requires SendOk(g, una, str)
    requires h == g.(rx := h.rx, rcv := h.rcv, tx := h.tx, state := h.state, timeWait := h.timeWait)
    requires || (h.state == g.state && h.timeWait == g.timeWait)
             || (!h.Opening() && h.timeWait <= TIME_WAIT_TICKS && g.state != Closed)
    ensures SendOk(h, una, str)
  {
    hide Wrap;
  }

  lemma MidPayload(e: End, p: End, g: Flow, una: int, s: Segment, x: int, y: int)
    requires Inv(e, p) && Inv(p, e) && Mid(e, p, g, una, e.rcv) && Incoming(e, p, s, x, y) && g.Ok()
    ensures Mid(e, p, g.TakePayload(s), una, TakenTo(e.rcv, x, s))
  {
    PayloadSize(e, p, s, x, y);
    hide Wrap, Consume, Inv, Mid, Incoming, Flow.ProcessPayload;
    if s.payload != [] {
      MidTake(e, p, g, una, s, x, y);
      MidSendAck(e, p, g.ProcessPayload(s.seqNo, s.payload).0, una, TakenTo(e.rcv, x, s));
    }
  }

  lemma PayloadSize(e: End, p: End, s: Segment, x: int, y: int)
    requires Incoming(e, p, s, x, y)
    ensures |s.payload| < 0x1_0000
  {
    hide Wrap;
  }

  lemma MidMoved(e: End, p: End, g: Flow, una: int, rcv: int)
    requires Inv(e, p) && Mid(e, p, g, una, rcv)
    requires g.CanSend() ==> una <= |e.Stream()| + 1
    ensures Moved(e, p, g, una, rcv, e.sent)
  {
    hide Wrap, Consume, FrameAll, PktAt;
  }

  // ---------------------------------------------------------------- FIN

  lemma StateOf(e: End, p: End)
    requires Inv(e, p) && e.rcv >= 1
    ensures !Unsynced(e.f.state) && AllSendable(e.sent)
  {
    hide Wrap, Consume, FrameAll, PktsInv, SendOk;
  }

  lemma TimeOf(g: Flow, una: int, str: seq<u8>)
    requires SendOk(g, una, str)
    ensures g.Ok() && g.timeWait <= TIME_WAIT_TICKS && (!g.finPending ==> una <= |str| + 1)
    ensures una >= 1 && g.una == Wrap(g.isn + una)
  {
    hide Wrap;
  }

  /** The FIN stands right behind the peer's stream; taking it moves `rcv` past it. */
  lemma MidFin(e: End, p: End, g: Flow, una: int, rcv: int, st: State, tw: nat)
    requires Inv(e, p) && Mid(e, p, g, una, rcv) && rcv == 1 + |p.Stream()| && p.f.finPending
    requires tw <= TIME_WAIT_TICKS && (st == TimeWait || (st == CloseWait && !g.finPending))
    ensures g.Ok()
    ensures Moved(e, p, g.(rcv := Wrap(g.rcv + 1)).SendAck().(state := st, timeWait := tw), una, rcv + 1, e.sent)
  {
    hide Wrap, Consume, FrameAll, AllGood, Inv, SendOk;
    StateOf(e, p);
    RcvOf(e, p);
    TimeOf(g, una, e.Stream());
    RcvMoves(p.f.isn, rcv, 1);
    RcvMoves(p.f.isn, e.rcv, rcv + 1 - e.rcv);
    var h := g.(rcv := Wrap(g.rcv + 1));
    var n, str := |e.f.tx|, e.Stream();
    SendOkSame(g, h.SendAck().(state := st, timeWait := tw), una, str);
    AllGoodLater(g, h, n, una, str, p.f.isn, e.rcv, rcv, rcv + 1);
    AckGood(h, n, una, str, p.f.isn, e.rcv, rcv + 1);
    AllGoodSame(h.SendAck(), h.SendAck().(state := st, timeWait := tw), n, una, str, p.f.isn, e.rcv, rcv + 1);
    assert p.Stream()[..Min(rcv, |p.Stream()|)] == p.Stream()[..Min(rcv - 1, |p.Stream()|)];
  }

  /** A FIN with a gap before it still ends FIN_WAIT_1 and FIN_WAIT_2. */
  lemma MidTimeWait(e: End, p: End, g: Flow, una: int, rcv: int)
    requires Inv(e, p) && Mid(e, p, g, una, rcv)
    ensures g.Ok() && Moved(e, p, g.SendAck().(state := TimeWait, timeWait := TIME_WAIT_TICKS), una, rcv, e.sent)
  {
    hide Wrap, Consume, FrameAll, AllGood, Inv, SendOk;
    StateOf(e, p);
    TimeOf(g, una, e.Stream());
    var n, str := |e.f.tx|, e.Stream();
    SendOkSame(g, g.SendAck().(state := TimeWait, timeWait := TIME_WAIT_TICKS), una, str);
    AckGood(g, n, una, str, p.f.isn, e.rcv, rcv);
    var h := g.SendAck().(state := TimeWait, timeWait := TIME_WAIT_TICKS);
    AllGoodSame(g.SendAck(), h, n, una, str, p.f.isn, e.rcv, rcv);
  }

  /** The sequence number of a FIN equals `rcv` exactly when everything before it is received. */
  lemma FinTest(e: End, p: End, s: Segment, x: int, y: int)
    requires Inv(e, p) && Inv(p, e) && Incoming(e, p, s, x, y) && s.flags.fin && e.rcv >= 1
    ensures s.payload == [] && x == 1 + |p.Stream()| && p.f.finPending
    ensures Wrap(s.seqNo + |s.payload|) == s.seqNo
    ensures s.seqNo == Wrap(p.f.isn + e.rcv) <==> e.rcv == 1 + |p.Stream()|
  {
    SmallWrap(s.seqNo);
    hide Wrap, Consume, FrameAll, SendOk, RecvOk;
    Ahead(p, e);
    OverlapPos(p.f.isn, e.rcv, x, 1);
  }

  // ---------------------------------------------------------------- handlers

  lemma SynPos(e: End, p: End, s: Segment, x: int, y: int)
    requires Incoming(e, p, s, x, y) && s.flags.syn
    ensures Wrap(s.seqNo + 1) == Wrap(p.f.isn + 1)
  {
    WrapParts(p.f.isn + 0, 1);
  }

  lemma SynAckPos(e: End, p: End, s: Segment, x: int, y: int)
    requires Inv(e, p) && Incoming(e, p, s, x, y) && s.flags.ack
    ensures p.rcv >= 1
  {
    hide Wrap, Inv;
  }

  /** The first SYN of the peer fixes the receive position for good. */
  lemma FirstSyn(g: Flow, p: End)
    requires g.rcv == Wrap(p.f.isn + 1) && g.rx == RxInit(g.rx.cap)
    ensures RecvOk(g, 1, p.f.isn, p.Stream())
  {
    hide Wrap, FrameAll;
    assert p.Stream()[..0] == [];
  }

  lemma DeliverPassive(e: End, p: End, s: Segment, x: int, y: int, g: Flow)
    requires Inv(e, p) && Inv(p, e) && e.begun && Incoming(e, p, s, x, y) && s.flags.syn
    requires Unsynced(e.f.state) && e.f.Ok()
    requires g == e.f.(peerMss := ParseMss(s.opts, 0, e.f.peerMss), rcv := Wrap(s.seqNo + 1)).SendSynAck()
                    .(state := SynReceived, rtoOn := g.rtoOn, rtoLeft := g.rtoLeft) && g.rtoLeft <= INITIAL_RTO
    ensures Moved(e, p, g, 0, 1, e.sent)
  {
    OpeningPos(e, p);
    SynPos(e, p, s, x, y);
    var f := e.f.(peerMss := ParseMss(s.opts, 0, e.f.peerMss), rcv := Wrap(s.seqNo + 1));
    SynAckGood(f, |e.f.tx|, p.f.isn);
    AllGoodSame(f.SendSynAck(), g, |e.f.tx|, 0, [], p.f.isn, 1, 1);
    FirstSyn(g, p);
    Same(e.f.una);
    e.f.SynInFlight();
    hide Wrap, Consume, FrameAll, PktAt, SendOk, RecvOk, ParseMss;
  }

  lemma DeliverSynAck(e: End, p: End, s: Segment, x: int, y: int)
    requires Inv(e, p) && Inv(p, e) && e.begun && Incoming(e, p, s, x, y) && s.flags.syn && s.flags.ack
    requires e.f.state == SynSent && e.f.Ok() && s.ackNo == e.f.nxt
    ensures Moved(e, p, e.f.HandleSynSent(s), 1, 1, e.sent)
  {
    hide Wrap, Consume, FrameAll, RecvOk, ParseMss, PktAt, PktsInv;
    OpeningPos(e, p);
    SynAckPos(e, p, s, x, y);
    SynPos(e, p, s, x, y);
    e.f.SynInFlight();
    var f := e.f.(rcv := Wrap(s.seqNo + 1), una := s.ackNo, wnd := s.wnd, peerMss := ParseMss(s.opts, 0, e.f.peerMss));
    var g := e.f.HandleSynSent(s);
    Same(f.una);
    AckGood(f, |e.f.tx|, 1, [], p.f.isn, 1, 1);
    AllGoodSame(f.SendAck(), g, |e.f.tx|, 1, [], p.f.isn, 1, 1);
    FirstSyn(g, p);
    assert SendOk(g, 1, []);
  }

  lemma DeliverSynSent(e: End, p: End, s: Segment, x: int, y: int) returns (una: int, rcv: int)
    requires Inv(e, p) && Inv(p, e) && e.begun && Incoming(e, p, s, x, y) && e.f.state == SynSent && e.f.Ok()
    ensures Moved(e, p, e.f.HandleSynSent(s), una, rcv, e.sent)
  {
    hide Inv, Incoming, Moved, Wrap, Consume, ParseMss;
    una, rcv := e.una, e.rcv;
    if s.flags.syn && s.flags.ack && s.ackNo == e.f.nxt {
      una, rcv := 1, 1;
      DeliverSynAck(e, p, s, x, y);
    } else if s.flags.syn && !s.flags.ack {
      una, rcv := 0, 1;
      DeliverPassive(e, p, s, x, y, e.f.HandleSynSent(s));
    } else {
      Quiet(e, p, e.f);
    }
  }

  // The flow right after the handshake's last ACK.
  function Completed(f: Flow, s: Segment): Flow {
    f.(state := Established, una := s.ackNo, wnd := s.wnd, rtoOn := false, rexmits := 0)
  }

  lemma HandshakePos(e: End, p: End, s: Segment, x: int, y: int)
    requires Inv(e, p) && Inv(p, e) && Incoming(e, p, s, x, y) && s.flags.ack && e.f.state == SynReceived
    ensures e.una == 0 && e.rcv == 1 && e.sent == [] && e.Stream() == [] && p.rcv >= 1
    ensures e.f.una == e.f.isn && e.f.nxt == Wrap(e.f.isn + 1) && e.f.buf == [] && !e.f.finPending && !e.f.finSent
  {
    hide Wrap, FrameAll, Inv, Incoming;
    OpeningPos(e, p);
    ReceivedPos(e, p);
    OpeningFlow(e, p);
    PeerSynced(e, p, s, x, y);
  }

  lemma OpeningFlow(e: End, p: End)
    requires Inv(e, p) && e.f.state == SynReceived
    ensures e.f.una == e.f.isn && e.f.nxt == Wrap(e.f.isn + 1) && e.f.buf == [] && !e.f.finPending && !e.f.finSent
  {
    hide Wrap, FrameAll, RecvState, PktsInv;
  }

  /** What acknowledges us comes from a peer that has our SYN. */
  lemma PeerSynced(e: End, p: End, s: Segment, x: int, y: int)
    requires Incoming(e, p, s, x, y) && s.flags.ack
    ensures p.rcv >= 1
  {
    hide Wrap, FrameAll;
  }

  lemma RecvOfInv(e: End, p: End)
    requires Inv(e, p) && e.rcv >= 1
    ensures RecvOk(e.f, e.rcv, p.f.isn, p.Stream())
  {
    hide Wrap, Consume, FrameAll, SendState, PktsInv;
  }

  lemma HandshakeDone(f: Flow, s: Segment)
    requires f.Ok() && f.state == SynReceived && s.ackNo == f.nxt == Wrap(f.isn + 1)
    ensures var g := Completed(f, s);
            g.Ok() && SendOk(g, 1, []) && Wrap(g.una - f.una) == 1
  {
    hide Wrap;
    f.SynInFlight();
    Same(s.ackNo);
  }

  lemma DoneMoved(e: End, p: End, g: Flow, rcv: int)
    requires Inv(e, p) && Inv(p, e) && e.f.state == SynReceived
    requires e.una == 0 && e.rcv == 1 && e.sent == [] && p.rcv >= 1
    requires g.state == Established && g.isn == e.f.isn && e.f.tx <= g.tx && !g.finPending && !g.finSent
    requires SendOk(g, 1, []) && RecvOk(g, rcv, p.f.isn, p.Stream()) && rcv <= 1 + |p.Stream()|
    requires 1 <= rcv <= 1 + DEFAULT_MSS && Wrap(g.rcv - e.f.rcv) == rcv - 1 && Wrap(g.una - e.f.una) == 1
    requires AllGood(g, |e.f.tx|, 1, [], p.f.isn, 1, rcv)
    ensures Moved(e, p, g, 1, rcv, e.sent)
  {
    hide Wrap, Consume, FrameAll, PktAt;
    EmptyStream();
  }

  /** Data on the ACK that completes the handshake is taken like any other. */
  lemma DeliverDone(e: End, p: End, s: Segment, x: int, y: int) returns (rcv: int)
    requires Inv(e, p) && Inv(p, e) && e.begun && Incoming(e, p, s, x, y) && e.f.state == SynReceived && e.f.Ok()
    requires |s.payload| < 0x1_0000 && s.flags.ack && s.ackNo == e.f.nxt
    ensures Moved(e, p, e.f.HandleSynReceived(s), 1, rcv, e.sent)
  {
    hide Wrap, Consume, FrameAll, Flow.ProcessPayload, Inv, Incoming, Moved, SendOk, Flow.Ok, Good, RecvOk;
    HandshakePos(e, p, s, x, y);
    RecvOfInv(e, p);
    HandshakeDone(e.f, s);
    var f := Completed(e.f, s);
    RecvOkSame(e.f, f, p);
    rcv := TakenTo(1, x, s);
    DonePayload(e, p, f, s, x, y);
    var g := f.ProcessPayload(s.seqNo, s.payload).0;
    assert AllGood(f, |e.f.tx|, 1, [], p.f.isn, 1, 1);
    AllGoodLater(f, g, |e.f.tx|, 1, [], p.f.isn, 1, 1, rcv);
    SendOkSame(f, g, 1, []);
    if f.ProcessPayload(s.seqNo, s.payload).1 {
      DoneAck(e, p, g, rcv);
    } else {
      DoneMoved(e, p, g, rcv);
    }
  }

  lemma DoneAck(e: End, p: End, g: Flow, rcv: int)
    requires Inv(e, p) && Inv(p, e) && e.f.state == SynReceived
    requires e.una == 0 && e.rcv == 1 && e.sent == [] && p.rcv >= 1
    requires g.state == Established && g.isn == e.f.isn && e.f.tx <= g.tx && !g.finPending && !g.finSent
    requires SendOk(g, 1, []) && RecvOk(g, rcv, p.f.isn, p.Stream()) && rcv <= 1 + |p.Stream()|
    requires 1 <= rcv <= 1 + DEFAULT_MSS && Wrap(g.rcv - e.f.rcv) == rcv - 1 && Wrap(g.una - e.f.una) == 1
    requires AllGood(g, |e.f.tx|, 1, [], p.f.isn, 1, rcv)
    ensures Moved(e, p, g.SendAck(), 1, rcv, e.sent)
  {
    hide Wrap, Consume, FrameAll, Inv, AllGood, Moved;
    AckGood(g, |e.f.tx|, 1, [], p.f.isn, 1, rcv);
    SendOkSame(g, g.SendAck(), 1, []);
    DoneMoved(e, p, g.SendAck(), rcv);
  }

  lemma DeliverSynReceived(e: End, p: End, s: Segment, x: int, y: int) returns (una: int, rcv: int)
    requires Inv(e, p) && Inv(p, e) && e.begun && Incoming(e, p, s, x, y) && e.f.state == SynReceived && e.f.Ok()
    requires |s.payload| < 0x1_0000
    ensures Moved(e, p, e.f.HandleSynReceived(s), una, rcv, e.sent)
  {
    hide Wrap, Consume, FrameAll, Flow.ProcessPayload, Inv, Incoming, Moved, Flow.Ok;
    if s.flags.ack && s.ackNo == e.f.nxt {
      una := 1;
      rcv := DeliverDone(e, p, s, x, y);
    } else {
      una, rcv := e.una, e.rcv;
      Quiet(e, p, e.f);
    }
  }

  /** What the overlap test needs to know of an incoming payload. */
  lemma InReach(e: End, p: End, s: Segment, x: int, y: int)
    requires Inv(e, p) && Inv(p, e) && Incoming(e, p, s, x, y) && s.payload != []
    ensures AllSendable(p.sent) && s.seqNo == Wrap(p.f.isn + x) && |s.payload| <= DEFAULT_MSS
    ensures StreamPart(FrameAll(p.sent), x, s.payload) && x - 1 + |s.payload| <= |FrameAll(p.sent)|
    ensures e.rcv - TWO31 <= x && x + |s.payload| < e.rcv + TWO31
  {
    hide Wrap, Consume, FrameAll, SendOk, RecvOk;
    Ahead(p, e);
  }

  lemma DonePayload(e: End, p: End, f: Flow, s: Segment, x: int, y: int)
    requires Inv(e, p) && Inv(p, e) && Incoming(e, p, s, x, y)
    requires e.rcv == 1 && f == Completed(e.f, s)
    requires f.Ok() && RecvOk(f, 1, p.f.isn, p.Stream()) && |s.payload| < 0x1_0000
    ensures var g := f.ProcessPayload(s.seqNo, s.payload).0;
            var rcv := TakenTo(1, x, s);
            && RecvOk(g, rcv, p.f.isn, p.Stream()) && Wrap(g.rcv - e.f.rcv) == rcv - 1
            && rcv <= 1 + |p.Stream()| && 1 <= rcv <= 1 + DEFAULT_MSS
            && g == f.(rx := g.rx, rcv := g.rcv)
  {
    hide Wrap, FrameAll, Inv, Incoming, RecvOk, RxFields.Valid, Flow.ProcessPayload, StreamPart;
    Same(e.f.rcv);
    if s.payload != [] {
      InReach(e, p, s, x, y);
      PayloadTaken(f, 1, p.f.isn, p.sent, x, s.payload);
    } else {
      NoPayload(f, s.seqNo);
    }
  }

  lemma NoPayload(f: Flow, seqNo: u32)
    requires f.Ok()
    ensures f.ProcessPayload(seqNo, []) == (f, false)
  {
    hide Wrap, RxFields.Valid;
  }

  lemma DeliverEstablished(e: End, p: End, s: Segment, x: int, y: int) returns (una: int, rcv: int)
    requires Inv(e, p) && Inv(p, e) && e.begun && Incoming(e, p, s, x, y) && e.f.state == Established && e.f.Ok()
    requires |s.payload| < 0x1_0000 && e.una >= 1
    ensures Moved(e, p, e.f.HandleEstablished(s), una, rcv, e.sent)
  {
    hide Inv, Mid, Incoming, Moved, Wrap, FrameAll, Flow.Ok, Flow.AdvanceSndUna, Flow.TakePayload, Flow.EstablishedFin;
    una, rcv := e.una, e.rcv;
    if s.flags.syn {
      MidStart(e, p);
      MidSendAck(e, p, e.f, una, rcv);
      EstablishedBound(e, p, e.f.SendAck(), una, rcv);
      MidMoved(e, p, e.f.SendAck(), una, rcv);
    } else {
      AckFlag(e, p, s, x, y);
      una, rcv := AckedTo(e, s, y), TakenTo(e.rcv, x, s);
      var g := Acked(e.f, s).(wnd := s.wnd);
      MidAck(e, p, s, x, y, s.wnd);
      MidOk(e, p, g, una, e.rcv);
      MidPayload(e, p, g, una, s, x, y);
      var h := g.TakePayload(s);
      EstablishedBound(e, p, h, una, rcv);
      if s.flags.fin {
        rcv := DeliverFin(e, p, h, una, s, x, y);
      } else {
        MidMoved(e, p, h, una, rcv);
      }
    }
  }

  lemma MidOk(e: End, p: End, g: Flow, una: int, rcv: int)
    requires Mid(e, p, g, una, rcv)
    ensures g.Ok() && g.state == e.f.state
  {
    hide Wrap, Consume, FrameAll, AllGood;
  }

  lemma AckFlag(e: End, p: End, s: Segment, x: int, y: int)
    requires Incoming(e, p, s, x, y) && !s.flags.syn
    ensures s.flags.ack
  {
    hide Wrap;
  }

  lemma EstablishedBound(e: End, p: End, g: Flow, una: int, rcv: int)
    requires Inv(e, p) && Mid(e, p, g, una, rcv) && e.f.state == Established
    ensures una <= |e.Stream()| + 1 && !g.finPending
  {
    hide Wrap, Consume, FrameAll, PktAt;
  }

  /** The FIN of an established peer. */
  lemma DeliverFin(e: End, p: End, g: Flow, una: int, s: Segment, x: int, y: int) returns (rcv: int)
    requires Inv(e, p) && Inv(p, e) && Incoming(e, p, s, x, y) && s.flags.fin && e.f.state == Established
    requires Mid(e, p, g, una, TakenTo(e.rcv, x, s)) && g.Ok() && g.state == Established
    ensures Moved(e, p, g.EstablishedFin(Wrap(s.seqNo + |s.payload|)), una, rcv, e.sent)
  {
    hide Inv, Mid, Incoming, Moved, Wrap, SeqLt, FrameAll, Flow.Ok;
    EstablishedBound(e, p, g, una, TakenTo(e.rcv, x, s));
    MidRcv(e, p, g, una, TakenTo(e.rcv, x, s));
    FinTest(e, p, s, x, y);
    if s.seqNo == g.rcv {
      rcv := e.rcv + 1;
      MidFin(e, p, g, una, e.rcv, CloseWait, g.timeWait);
    } else {
      rcv := e.rcv;
      MidSendAck(e, p, g, una, rcv);
      EstablishedBound(e, p, g.SendAck(), una, rcv);
      MidMoved(e, p, g, una, rcv);
      MidMoved(e, p, g.SendAck(), una, rcv);
    }
  }

  lemma MidRcv(e: End, p: End, g: Flow, una: int, rcv: int)
    requires Mid(e, p, g, una, rcv)
    ensures g.rcv == Wrap(p.f.isn + rcv) && e.rcv >= 1
    ensures g.Ok() && g.timeWait <= TIME_WAIT_TICKS && g.state == e.f.state
  {
    hide Wrap, Consume, FrameAll, PktAt;
  }

  /** The FIN of the peer in FIN_WAIT_1 or FIN_WAIT_2. */
  lemma DeliverPeerFin(e: End, p: End, g: Flow, una: int, s: Segment, x: int, y: int) returns (rcv: int)
    requires Inv(e, p) && Inv(p, e) && Incoming(e, p, s, x, y) && s.flags.fin
    requires Mid(e, p, g, una, TakenTo(e.rcv, x, s)) && g.Ok() && (g.state == FinWait1 || g.state == FinWait2)
    requires |s.payload| < 0x1_0000
    ensures Moved(e, p, g.PeerFin(s), una, rcv, e.sent)
  {
    hide Inv, Mid, Incoming, Moved, Wrap;
    MidRcv(e, p, g, una, TakenTo(e.rcv, x, s));
    FinTest(e, p, s, x, y);
    if s.seqNo == g.rcv {
      rcv := e.rcv + 1;
      MidFin(e, p, g, una, e.rcv, TimeWait, TIME_WAIT_TICKS);
    } else {
      rcv := e.rcv;
      MidTimeWait(e, p, g, una, rcv);
    }
  }

  /** FIN_WAIT_1 ends exactly when our FIN has been sent and acknowledged. */
  lemma CloseMoved(e: End, p: End, g: Flow, una: int, rcv: int)
    requires Inv(e, p) && Mid(e, p, g, una, rcv) && g.state == FinWait1
    ensures Moved(e, p, if g.finSent && !g.FinOutstanding() then g.(state := FinWait2) else g, una, rcv, e.sent)
  {
    hide Wrap, Consume, FrameAll, PktAt, SeqLt;
    if g.finSent {
      FinAcked(g, una, e.Stream());
    }
    if g.finSent && !g.FinOutstanding() {
      var h := g.(state := FinWait2);
      AllGoodSame(g, h, |e.f.tx|, una, e.Stream(), p.f.isn, e.rcv, rcv);
    }
  }

  lemma DeliverFinWait1(e: End, p: End, s: Segment, x: int, y: int) returns (una: int, rcv: int)
    requires Inv(e, p) && Inv(p, e) && e.begun && Incoming(e, p, s, x, y) && e.f.state == FinWait1 && e.f.Ok()
    requires |s.payload| < 0x1_0000 && e.una >= 1
    ensures Moved(e, p, e.f.HandleFinWait1(s), una, rcv, e.sent)
  {
    hide Inv, Mid, Incoming, Moved, Wrap, Flow.AdvanceSndUna;
    una, rcv := AckedTo(e, s, y), TakenTo(e.rcv, x, s);
    var g := Acked(e.f, s);
    MidAck(e, p, s, x, y, g.wnd);
    assert g.(wnd := g.wnd) == g;
    MidPayload(e, p, g, una, s, x, y);
    var h := g.TakePayload(s);
    if s.flags.fin {
      rcv := DeliverPeerFin(e, p, h, una, s, x, y);
    } else {
      CloseMoved(e, p, h, una, rcv);
    }
  }

  lemma DeliverFinWait2(e: End, p: End, s: Segment, x: int, y: int) returns (una: int, rcv: int)
    requires Inv(e, p) && Inv(p, e) && e.begun && Incoming(e, p, s, x, y) && e.f.state == FinWait2 && e.f.Ok()
    requires |s.payload| < 0x1_0000 && e.una >= 1
    ensures Moved(e, p, e.f.HandleFinWait2(s), una, rcv, e.sent)
  {
    hide Inv, Mid, Incoming, Moved, Wrap;
    una, rcv := e.una, TakenTo(e.rcv, x, s);
    MidStart(e, p);
    MidPayload(e, p, e.f, una, s, x, y);
    if s.flags.fin {
      rcv := DeliverPeerFin(e, p, e.f.TakePayload(s), una, s, x, y);
    } else {
      MidMoved(e, p, e.f.TakePayload(s), una, rcv);
    }
  }

  /** CLOSE_WAIT and LAST_ACK only look at the acknowledgement. */
  lemma DeliverAckOnly(e: End, p: End, s: Segment, x: int, y: int, st: State)
    requires Inv(e, p) && Inv(p, e) && e.begun && Incoming(e, p, s, x, y) && e.una >= 1 && e.f.Ok()
    requires (e.f.state == CloseWait && st == CloseWait) || (e.f.state == LastAck && st == Closed)
    ensures Moved(e, p, Acked(e.f, s).(state := st), AckedTo(e, s, y), e.rcv, e.sent)
  {
    hide Wrap, Consume, FrameAll, PktAt, Flow.AdvanceSndUna;
    AckFlow(e, p, s, x, y);
    Same(e.f.rcv);
  }
}

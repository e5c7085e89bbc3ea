/** Every event of the two-endpoint system keeps its invariant. */
module TcpSteps {
  import opened Words
  import opened Common
  import opened TcpFraming
  import opened TcpFlowModel
  import opened TcpSafety
  import opened TcpSystem

  // ---------------------------------------------------------------- building blocks

  lemma Same(x: u32)
    ensures Wrap(x - x) == 0
  {
  }

  lemma EmptyStream()
    ensures FrameAll([]) == []
  {
  }

  lemma OkOf(e: End, p: End)
    requires Inv(e, p)
    ensures e.f.Ok()
  {
  }

  /** `g` is `f` with other timers, notices and log, in the same state or closed. */
  predicate Touched(f: Flow, g: Flow) {
    && g.Ok() && (g.state == f.state || g.state == Closed)
    && g == f.(state := g.state, wnd := g.wnd, peerMss := g.peerMss, rtoLeft := g.rtoLeft, rtoOn := g.rtoOn,
               rexmits := g.rexmits, timeWait := g.timeWait, notices := g.notices, freed := g.freed, tx := g.tx)
  }

  lemma TouchedSends(f: Flow, g: Flow, una: int, sent: seq<Message>)
    requires Touched(f, g) && SendState(f, una, sent, true)
    ensures SendState(g, una, sent, true)
  {
    hide Wrap, FrameAll;
  }

  lemma TouchedReceives(f: Flow, g: Flow, una: int, rcv: int, p: End)
    requires Touched(f, g) && RecvState(f, una, rcv, p)
    ensures RecvState(g, una, rcv, p)
  {
    hide Wrap, FrameAll, Consume;
  }

  /** Both streams are as before. */
  lemma TouchedMoved(e: End, p: End, g: Flow)
    requires Inv(e, p) && Inv(p, e) && e.begun && Touched(e.f, g) && e.f.tx <= g.tx
    requires AllGood(g, |e.f.tx|, e.una, e.Stream(), p.f.isn, Lo(e), e.rcv)
    ensures Moved(e, p, g, e.una, e.rcv, e.sent)
  {
    hide Wrap, FrameAll, SendState, RecvState, PktsInv, AllGood;
    TouchedSends(e.f, g, e.una, e.sent);
    TouchedReceives(e.f, g, e.una, e.rcv, p);
    Same(e.f.una);
    Same(e.f.rcv);
    StillUnsynced(e, p);
  }

  /** Before the peer's SYN is known nothing has been received. */
  lemma StillUnsynced(e: End, p: End)
    requires Inv(e, p)
    ensures Unsynced(e.f.state) ==> e.rcv == 0
    ensures e.f.state == SynReceived ==> e.rcv == 1
  {
    hide Wrap, FrameAll, SendState, PktsInv, Consume;
  }

  /** An operation that sends nothing and leaves both streams alone. */
  lemma Quiet(e: End, p: End, g: Flow)
    requires Inv(e, p) && Inv(p, e) && e.begun
    requires g == e.f.(state := g.state, wnd := g.wnd, peerMss := g.peerMss, rtoLeft := g.rtoLeft, rtoOn := g.rtoOn,
                       rexmits := g.rexmits, timeWait := g.timeWait, notices := g.notices, freed := g.freed)
    requires g.Ok() && (g.state == e.f.state || g.state == Closed)
    ensures Moved(e, p, g, e.una, e.rcv, e.sent)
  {
    hide Inv, AllGood, Moved, Wrap;
    AllGoodNone(g, e.una, e.Stream(), p.f.isn, Lo(e), e.rcv);
    TouchedMoved(e, p, g);
  }

  lemma AllGoodNone(g: Flow, una: int, str: seq<u8>, pisn: u32, lo: int, hi: int)
    ensures AllGood(g, |g.tx|, una, str, pisn, lo, hi)
  {
  }

  /** A reset carries nothing. */
  lemma RstGood(g: Flow, n: nat, una: int, str: seq<u8>, pisn: u32, lo: int, hi: int)
    requires AllGood(g, n, una, str, pisn, lo, hi)
    ensures AllGood(g.SendRst(), n, una, str, pisn, lo, hi)
  {
    hide Wrap, SeqPos, AckPos;
    var h := g.SendRst();
    forall i | n <= i < |h.tx| ensures Good(h, una, str, pisn, lo, hi, h.tx[i]) {
      if i < |g.tx| {
        assert Good(g, una, str, pisn, lo, hi, g.tx[i]);
      }
    }
  }

  lemma RstMoved(e: End, p: End, g: Flow)
    requires Inv(e, p) && Inv(p, e) && e.begun
    requires g == e.f.SendRst().(state := Closed, rtoOn := g.rtoOn)
    ensures Moved(e, p, g, e.una, e.rcv, e.sent)
  {
    hide Inv, AllGood, Moved, Wrap;
    AllGoodNone(e.f, e.una, e.Stream(), p.f.isn, Lo(e), e.rcv);
    RstGood(e.f, |e.f.tx|, e.una, e.Stream(), p.f.isn, Lo(e), e.rcv);
    AllGoodSame(e.f.SendRst(), g, |e.f.tx|, e.una, e.Stream(), p.f.isn, Lo(e), e.rcv);
    OkOf(e, p);
    TouchedMoved(e, p, g);
  }

  /** `PumpSend` at the end of an operation. */
  lemma PumpMoved(e: End, p: End, g: Flow, una: int, rcv: int, sent: seq<Message>, b: nat)
    requires Inv(e, p) && Moved(e, p, g, una, rcv, sent)
    ensures Moved(e, p, g.PumpSend(b), una, rcv, sent)
  {
    hide Wrap, FrameAll, Consume, PktAt, AllGood, PktsInv, Flow.PumpSend;
    if g.CanSend() {
      PumpGood(g, b, |e.f.tx|, una, FrameAll(sent), p.f.isn, Lo(e), rcv);
      PumpFrame(g, b);
    } else {
      PumpIdle(g, b);
    }
  }

  lemma PumpIdle(g: Flow, b: nat)
    requires g.Ok() && !g.CanSend()
    ensures g.PumpSend(b) == g
  {
  }

  /** What `PumpSend` leaves alone. */
  lemma PumpFrame(g: Flow, b: nat)
    requires g.Ok()
    ensures var h := g.PumpSend(b);
            h == g.(tx := h.tx, nxt := h.nxt, finSent := h.finSent, finSeq := h.finSeq, rtoOn := h.rtoOn,
                    rtoLeft := h.rtoLeft)
            && g.tx <= h.tx
  {
    hide Wrap;
    SendDataLog(g, Wrap(g.una + g.wnd), b);
  }

  lemma {:induction false} SendDataLog(g: Flow, edge: u32, b: nat)
    requires g.Ok()
    ensures g.tx <= g.SendData(edge, b).tx
    decreases b
  {
    hide Wrap, SeqLt;
    g.Room();
    if b > 0 && SeqLt(g.nxt, g.BufferedEnd()) && SeqLt(g.nxt, edge) {
      SegLenBounds(g, edge);
      var n := g.SegLen(edge);
      g.Advance(n);
      SendDataLog(g.Emit(g.nxt, g.rcv, ACK_PSH, [], g.Slice(g.nxt, n)).(nxt := Wrap(g.nxt + n)), edge, b - 1);
    }
  }

  // ---------------------------------------------------------------- application events

  lemma SynGood(g: Flow, n: nat, pisn: u32, hi: int)
    requires n == |g.tx| && g.una == g.isn
    ensures AllGood(g.SendSyn(), n, 0, [], pisn, 1, hi)
  {
    hide Wrap, SeqPos, AckPos;
    SeqPosOf(g.isn, 0, 0);
    SmallWrap(g.isn);
    var h := g.SendSyn();
    assert Good(h, 0, [], pisn, 1, hi, h.tx[n]);
  }

  lemma OpenMoved(e: End, p: End, g: Flow)
    requires Inv(e, p) && Inv(p, e) && !e.begun && e.f.Fresh() && e.f.rexmits <= MAX_REXMIT
    requires g == e.f.InitiateHandshake() || g == e.f.StartPassiveOpen()
    ensures Moved(e, p, g, e.una, e.rcv, e.sent)
  {
    Same(e.f.una);
    Same(e.f.rcv);
    SynGood(e.f, |e.f.tx|, p.f.isn, e.rcv);
    AllGoodSame(e.f.SendSyn(), e.f.InitiateHandshake(), |e.f.tx|, 0, [], p.f.isn, 1, e.rcv);
    assert FrameAll([]) == [];
  }

  /** An accepted message extends the stream by its frame. */
  lemma AppendOk(g: Flow, una: int, ms: seq<Message>, m: Message)
    requires SendOk(g, una, FrameAll(ms)) && !g.finSent && |g.buf| + PREFIX + |m| <= MAX_SEND_BUF
    ensures SendOk(g.(buf := g.buf + Frame(m)), una, FrameAll(ms + [m]))
    ensures FrameAll(ms) <= FrameAll(ms + [m])
  {
    hide Wrap, Frame, FrameAll, RxFields.Valid;
    OneMoreFrame(ms, m);
    var str := FrameAll(ms);
    assert (str + Frame(m))[una - 1..] == str[una - 1..] + Frame(m);
  }

  lemma OneMoreFrame(ms: seq<Message>, m: Message)
    ensures FrameAll(ms + [m]) == FrameAll(ms) + Frame(m)
  {
    assert (ms + [m])[..|ms|] == ms;
  }

  lemma AppendMoved(e: End, p: End, g: Flow, m: Message)
    requires Inv(e, p) && Inv(p, e) && Sendable(m) && e.f.CanAccept() && |e.f.buf| + PREFIX + |m| <= MAX_SEND_BUF
    requires g == e.f.(freed := g.freed, buf := e.f.buf + Frame(m))
    ensures Moved(e, p, g, e.una, e.rcv, e.sent + [m])
  {
    hide Wrap, FrameAll, Consume, Frame, PktAt;
    Same(e.f.una);
    Same(e.f.rcv);
    AppendOk(e.f, e.una, e.sent, m);
    assert SendOk(g, e.una, FrameAll(e.sent + [m]));
    forall i | 0 <= i <= |e.sent| ensures Sendable((e.sent + [m])[i]) {
      assert i < |e.sent| ==> Sendable(e.sent[i]);
    }
  }

  lemma OutputMoved(e: End, p: End, n: u32, chain: seq<seq<u8>>, b: nat)
    requires Inv(e, p) && Inv(p, e) && 1 <= n <= MSG_MAX_LEN && e.f.Accepts(n, chain)
    ensures Moved(e, p, e.f.OutputMessage(n, chain, b), e.una, e.rcv, e.sent + [Flatten(chain)[..n]])
  {
    hide Wrap, FrameAll, Consume, Frame, PktAt, Moved, Inv, Flatten, Flow.PumpSend, Flow.InFlight;
    OkOf(e, p);
    SmallWrap(PREFIX + n);
    var m := Flatten(chain)[..n];
    var g := e.f.(freed := e.f.freed + |chain|, buf := e.f.buf + Frame(m));
    AppendMoved(e, p, g, m);
    PumpMoved(e, p, g, e.una, e.rcv, e.sent + [m], b);
  }

  lemma ShutMoved(e: End, p: End, b: nat)
    requires Inv(e, p) && Inv(p, e) && e.f.CanAccept()
    ensures Moved(e, p, e.f.ShutDown(b), e.una, e.rcv, e.sent)
  {
    hide Wrap, FrameAll, Consume, PktAt;
    Same(e.f.una);
    Same(e.f.rcv);
    var g := e.f.(finPending := true, state := if e.f.state == Established then FinWait1 else LastAck);
    assert Moved(e, p, g, e.una, e.rcv, e.sent);
    PumpMoved(e, p, g, e.una, e.rcv, e.sent, b);
  }

  // ---------------------------------------------------------------- timer events

  /** Restarting the timer changes nothing that matters here. */
  lemma TimerMoved(e: End, p: End, g: Flow)
    requires Inv(e, p) && Moved(e, p, g, e.una, e.rcv, e.sent)
    ensures Moved(e, p, g.(rtoLeft := INITIAL_RTO), e.una, e.rcv, e.sent)
  {
    hide Wrap, FrameAll, Consume, PktAt;
    AllGoodSame(g, g.(rtoLeft := INITIAL_RTO), |e.f.tx|, e.una, e.Stream(), p.f.isn, Lo(e), e.rcv);
  }

  lemma ResynMoved(e: End, p: End, g: Flow)
    requires Inv(e, p) && Inv(p, e) && e.begun && g == e.f.(rexmits := g.rexmits) && g.rexmits <= MAX_REXMIT
    requires g.state == SynSent
    ensures Moved(e, p, g.SendSyn(), e.una, e.rcv, e.sent)
  {
    hide Wrap, Consume, PktAt;
    Same(e.f.una);
    Same(e.f.rcv);
    SynGood(g, |e.f.tx|, p.f.isn, e.rcv);
    assert FrameAll([]) == [];
  }

  /** A SYN-ACK stands at position 0 and acknowledges the peer's SYN. */
  lemma SynAckGood(g: Flow, n: nat, pisn: u32)
    requires n == |g.tx| && g.una == g.isn && g.rcv == Wrap(pisn + 1)
    ensures AllGood(g.SendSynAck(), n, 0, [], pisn, 1, 1)
  {
    SeqPosOf(g.isn, 0, 0);
    SmallWrap(g.isn);
    AckPosOf(pisn, 1, 1);
    hide Wrap, SeqPos, AckPos;
    var h := g.SendSynAck();
    assert Good(h, 0, [], pisn, 1, 1, h.tx[n]);
  }

  lemma ReackMoved(e: End, p: End, g: Flow)
    requires Inv(e, p) && Inv(p, e) && e.begun && g == e.f.(rexmits := g.rexmits) && g.rexmits <= MAX_REXMIT
    requires g.state == SynReceived && e.rcv == 1
    ensures Moved(e, p, g.SendSynAck(), e.una, e.rcv, e.sent)
  {
    OpeningPos(e, p);
    hide Wrap, Consume, PktAt, SendOk, FrameAll;
    Same(e.f.una);
    Same(e.f.rcv);
    SynAckGood(g, |e.f.tx|, p.f.isn);
  }

  lemma RewindMoved(e: End, p: End, g: Flow, b: nat)
    requires Inv(e, p) && Inv(p, e) && e.begun && g == e.f.(rexmits := g.rexmits) && g.rexmits <= MAX_REXMIT
    requires g.Ok() && g.CanSend()
    ensures Moved(e, p, g.RetransmitUnacked(b), e.una, e.rcv, e.sent)
  {
    hide Wrap, Consume, PktAt, FrameAll;
    Same(e.f.una);
    Same(e.f.rcv);
    var h := g.(nxt := g.una, finSent := false);
    assert SendOk(h, e.una, e.Stream());
    assert Moved(e, p, h, e.una, e.rcv, e.sent);
    PumpMoved(e, p, h, e.una, e.rcv, e.sent, b);
  }

  lemma ProbeMoved(e: End, p: End, g: Flow, b: nat)
    requires Inv(e, p) && Inv(p, e) && e.begun && g == e.f.(rexmits := g.rexmits) && g.rexmits <= MAX_REXMIT
    requires g.Ok() && g.CanSend()
    ensures Moved(e, p, g.ZeroWindowProbe(b), e.una, e.rcv, e.sent)
  {
    hide Wrap, Consume, PktAt, FrameAll, AllGood, SeqLt;
    AllGoodNone(g, e.una, e.Stream(), p.f.isn, Lo(e), e.rcv);
    Same(e.f.una);
    Same(e.f.rcv);
    g.Room();
    if SeqLt(g.nxt, g.BufferedEnd()) && b > 0 {
      DataGood(g, |e.f.tx|, e.una, e.Stream(), p.f.isn, Lo(e), e.rcv, 1);
    }
  }

  lemma RetransmitMoved(e: End, p: End, g: Flow, b: nat)
    requires Inv(e, p) && Inv(p, e) && e.begun && g == e.f.(rexmits := g.rexmits) && g.rexmits <= MAX_REXMIT
    requires g.Ok() && g.state != Closed
    ensures Moved(e, p, g.Retransmit(b), e.una, e.rcv, e.sent)
  {
    if g.state == SynSent {
      hide Inv, Moved, Wrap;
      ResynMoved(e, p, g);
    } else if g.state == SynReceived {
      ReceivedPos(e, p);
      hide Inv, Moved, Wrap;
      ReackMoved(e, p, g);
    } else if g.CanSend() {
      hide Inv, Moved, Wrap;
      if g.wnd == 0 && SeqLt(g.nxt, g.BufferedEnd()) {
        ProbeMoved(e, p, g, b);
      } else {
        RewindMoved(e, p, g, b);
      }
    } else {
      Quiet(e, p, g);
    }
  }

  lemma OpeningPos(e: End, p: End)
    requires Inv(e, p) && e.f.Opening()
    ensures e.una == 0 && e.sent == [] && e.Stream() == []
  {
  }

  /** In SYN_RECEIVED exactly the peer's SYN has been received. */
  lemma ReceivedPos(e: End, p: End)
    requires Inv(e, p) && e.f.state == SynReceived
    ensures e.rcv == 1
  {
  }

  lemma TickMoved(e: End, p: End, b: nat)
    requires Inv(e, p) && Inv(p, e) && e.begun && e.f.Ok()
    ensures Moved(e, p, e.f.PeriodicCheck(b).0, e.una, e.rcv, e.sent)
  {
    hide Inv, Moved, Wrap, Consume, Flow.Retransmit;
    var f := e.f;
    if f.state == Closed || f.state == TimeWait || !f.rtoOn || f.rtoLeft > 0 || f.rexmits + 1 > MAX_REXMIT {
      Quiet(e, p, f.PeriodicCheck(b).0);
    } else {
      var g := f.(rexmits := f.rexmits + 1);
      RetransmitMoved(e, p, g, b);
      TimerMoved(e, p, g.Retransmit(b));
    }
  }
}

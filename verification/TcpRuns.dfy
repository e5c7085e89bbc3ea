/** Safety of whole runs of two TCP endpoints. */
module TcpRuns {
  import opened Words
  import opened TcpFraming
  import opened TcpFlowModel
  import opened TcpSafety
  import opened TcpSystem
  import opened TcpSteps
  import opened TcpDeliver

  // ---------------------------------------------------------------- one event

  lemma SyncedPos(e: End, p: End)
    requires Inv(e, p)
    ensures !e.f.Opening() && e.f.state != Closed ==> e.una >= 1
  {
  }

  lemma DispatchMoved(e: End, p: End, s: Segment, x: int, y: int) returns (una: int, rcv: int)
    requires Inv(e, p) && Inv(p, e) && e.begun && Incoming(e, p, s, x, y) && e.f.Ok() && |s.payload| < 0x1_0000
    ensures Moved(e, p, e.f.Dispatch(s), una, rcv, e.sent)
  {
    hide Inv, Incoming, Moved, Wrap, ParseMss, Flow.AdvanceSndUna, Flow.HandleSynSent, Flow.HandleSynReceived,
         Flow.HandleEstablished, Flow.HandleFinWait1, Flow.HandleFinWait2;
    SyncedPos(e, p);
    una, rcv := e.una, e.rcv;
    match e.f.state
    case Listen =>
      if s.flags.syn {
        una, rcv := 0, 1;
        DeliverPassive(e, p, s, x, y, e.f.HandleListen(s));
      } else {
        Quiet(e, p, e.f);
      }
    case SynSent => una, rcv := DeliverSynSent(e, p, s, x, y);
    case SynReceived => una, rcv := DeliverSynReceived(e, p, s, x, y);
    case Established => una, rcv := DeliverEstablished(e, p, s, x, y);
    case FinWait1 => una, rcv := DeliverFinWait1(e, p, s, x, y);
    case FinWait2 => una, rcv := DeliverFinWait2(e, p, s, x, y);
    case CloseWait =>
      if s.flags.ack {
        una := AckedTo(e, s, y);
        DeliverAckOnly(e, p, s, x, y, CloseWait);
        assert Acked(e.f, s).(state := CloseWait) == Acked(e.f, s);
      } else {
        Quiet(e, p, e.f);
      }
    case LastAck =>
      if s.flags.ack {
        una := AckedTo(e, s, y);
        DeliverAckOnly(e, p, s, x, y, Closed);
      } else {
        Quiet(e, p, e.f);
      }
    case TimeWait => Quiet(e, p, e.f);
    case Closed => RstMoved(e, p, e.f.SendRst());
  }

  lemma DeliverMoved(e: End, p: End, i: nat, pad: seq<u8>, b: nat) returns (una: int, rcv: int)
    requires Inv(e, p) && Inv(p, e) && Enabled(e, p, Deliver(i, pad, b))
    ensures Moved(e, p, e.f.InputPacket(Encode(p.f.tx[i], pad), b), una, rcv, e.sent)
  {
    hide Inv, Incoming, Moved, Wrap, Flow.Dispatch, Flow.PumpSend, Encode, Decode, NotStale;
    var s, st := p.f.tx[i], p.stamps[i];
    DecodeEncode(s, pad);
    if s.flags.rst {
      una, rcv := e.una, e.rcv;
      ResetOk(e.f);
      Quiet(e, p, e.f.(state := Closed));
    } else {
      IncomingOf(e, p, i);
      una, rcv := DispatchMoved(e, p, s, st.seqPos, st.ackPos);
      PumpMoved(e, p, e.f.Dispatch(s), una, rcv, e.sent, b);
    }
  }

  lemma ResetOk(f: Flow)
    requires f.Ok()
    ensures f.(state := Closed).Ok()
  {
    hide Wrap;
  }

  /** A segment of the log that is not stale comes in at its stamps. */
  lemma IncomingOf(e: End, p: End, i: nat)
    requires Inv(p, e) && i < |p.f.tx| && |p.stamps| == |p.f.tx| && !p.f.tx[i].flags.rst
    requires NotStale(e, p.f.tx[i], p.stamps[i])
    ensures Incoming(e, p, p.f.tx[i], p.stamps[i].seqPos, p.stamps[i].ackPos) && |p.f.tx[i].payload| < 0x1_0000
  {
    hide Wrap, FrameAll, RecvState, SendState;
  }

  /** Every event of one endpoint keeps both endpoints' invariants. */
  lemma EventKeepsInv(e: End, p: End, ev: Event)
    requires Inv(e, p) && Inv(p, e) && Enabled(e, p, ev)
    ensures Inv(Do(e, p, ev), p) && Inv(p, Do(e, p, ev))
  {
    hide Inv, Moved, After, Wrap, Consume, FrameAll, Flow.OutputMessage, Flow.ShutDown, Flow.InputPacket,
      Flow.PeriodicCheck;
    match ev
    case ActiveOpen =>
      OpenMoved(e, p, e.f.InitiateHandshake());
      Conclude(e, p, e.f.InitiateHandshake(), e.una, e.rcv, e.sent);
    case PassiveOpen =>
      OpenMoved(e, p, e.f.StartPassiveOpen());
      Conclude(e, p, e.f.StartPassiveOpen(), e.una, e.rcv, e.sent);
    case Output(n, chain, b) =>
      OutputKeepsInv(e, p, n, chain, b);
    case ShutDown(b) =>
      ShutDownKeepsInv(e, p, b);
    case Tick(b) =>
      TickMoved(e, p, b);
      Conclude(e, p, e.f.PeriodicCheck(b).0, e.una, e.rcv, e.sent);
    case Deliver(i, pad, b) =>
      var una, rcv := DeliverMoved(e, p, i, pad, b);
      Conclude(e, p, e.f.InputPacket(Encode(p.f.tx[i], pad), b), una, rcv, e.sent);
  }

  lemma OutputKeepsInv(e: End, p: End, n: u32, chain: seq<seq<u8>>, b: nat)
    requires Inv(e, p) && Inv(p, e) && Enabled(e, p, Output(n, chain, b))
    ensures var e' := Do(e, p, Output(n, chain, b));
            Inv(e', p) && Inv(p, e')
  {
    hide Inv, Moved, After, Wrap, Consume, FrameAll, Flow.PumpSend, Flatten, Flow.Accepts;
    var f := e.f.OutputMessage(n, chain, b);
    if e.f.Accepts(n, chain) {
      ChainLength(e.f, n, chain);
      OutputMoved(e, p, n, chain, b);
      Conclude(e, p, f, e.una, e.rcv, e.sent + [Flatten(chain)[..n]]);
    } else {
      Quiet(e, p, f);
      Conclude(e, p, f, e.una, e.rcv, e.sent);
    }
  }

  lemma ChainLength(f: Flow, n: u32, chain: seq<seq<u8>>)
    requires f.Accepts(n, chain)
    ensures n <= |Flatten(chain)|
  {
  }

  lemma ShutDownKeepsInv(e: End, p: End, b: nat)
    requires Inv(e, p) && Inv(p, e) && Enabled(e, p, ShutDown(b))
    ensures var e' := Do(e, p, ShutDown(b));
            Inv(e', p) && Inv(p, e')
  {
    hide Inv, Moved, After, Wrap, Consume, FrameAll, Flow.PumpSend;
    if e.f.CanAccept() {
      ShutMoved(e, p, b);
    } else {
      RstMoved(e, p, e.f.ShutDown(b));
    }
    Conclude(e, p, e.f.ShutDown(b), e.una, e.rcv, e.sent);
  }

  // ---------------------------------------------------------------- runs

  lemma InitInv(e: End, p: End)
    requires InitEnd(e) && InitEnd(p)
    ensures Inv(e, p)
  {
  }

  lemma StepKeepsInv(s: System, t: System)
    requires SysInv(s) && Next(s, t)
    ensures SysInv(t)
  {
    hide Inv, Do, Enabled;
    if ev :| Enabled(s.a, s.b, ev) && t == System(Do(s.a, s.b, ev), s.b) {
      EventKeepsInv(s.a, s.b, ev);
    } else {
      var ev :| Enabled(s.b, s.a, ev) && t == System(s.a, Do(s.b, s.a, ev));
      EventKeepsInv(s.b, s.a, ev);
    }
  }

  lemma {:induction false} RunInv(r: seq<System>, k: nat)
    requires Run(r) && k < |r|
    ensures SysInv(r[k])
  {
    hide Inv, Next;
    if k == 0 {
      InitInv(r[0].a, r[0].b);
      InitInv(r[0].b, r[0].a);
    } else {
      RunInv(r, k - 1);
      StepKeepsInv(r[k - 1], r[k - 1 + 1]);
    }
  }

  // ---------------------------------------------------------------- what the invariant says

  /** The messages an endpoint has passed to its application. */
  function Received(e: End): seq<Message> {
    Payloads(e.f.rx.delivered)
  }

  lemma InvDelivers(e: End, p: End)
    requires Inv(e, p) && Inv(p, e)
    ensures Received(e) <= p.sent
    ensures forall i :: 0 <= i < |e.f.rx.delivered| ==> FullTrain(e.f.rx.delivered[i], e.f.rx.cap)
  {
    hide Wrap, FrameAll, Consume, FullTrain, PktsInv;
    if e.rcv == 0 {
      assert Received(e) == [];
    } else {
      DeframePrefix(p.sent, Min(e.rcv - 1, |p.Stream()|), e.f.rx.cap);
    }
  }

  lemma InvComplete(e: End, p: End, d: nat)
    requires Inv(e, p) && Inv(p, e) && d <= |p.sent| && |FrameAll(p.sent[..d])| < e.rcv
    ensures d <= |Received(e)|
  {
    hide Wrap, FrameAll, Consume, PktsInv;
    FrameAllPrefix(p.sent, d);
    DeframeComplete(p.sent, Min(e.rcv - 1, |p.Stream()|), e.f.rx.cap, d);
  }

  /** Every message that the sender has seen acknowledged to its last byte has been passed to
      the peer's application. */
  lemma AckedIsDelivered(r: seq<System>, k: nat, left: bool, d: nat)
    requires Run(r) && k < |r| && d <= |EndOf(r[k], left).sent|
    requires |FrameAll(EndOf(r[k], left).sent[..d])| < EndOf(r[k], left).una
    ensures EndOf(r[k], left).sent[..d] <= Received(EndOf(r[k], !left))
  {
    hide Run, Inv, FrameAll, Agrees;
    var e, p := EndOf(r[k], left), EndOf(r[k], !left);
    RunEnd(r, k, left);
    RunEnd(r, k, !left);
    PeerHas(e, p);
    InvComplete(p, e, d);
    InvDelivers(p, e);
  }

  lemma PeerHas(e: End, p: End)
    requires Inv(e, p) && Inv(p, e)
    ensures e.una <= p.rcv
  {
  }

  /** In every run, what either application receives is a prefix, byte for byte, of what the
      other one's accepted messages are, in well-formed trains. */
  lemma DeliveredIsPrefix(r: seq<System>, k: nat)
    requires Run(r) && k < |r|
    ensures Received(r[k].a) <= r[k].b.sent && Received(r[k].b) <= r[k].a.sent
    ensures forall i :: 0 <= i < |r[k].a.f.rx.delivered| ==> FullTrain(r[k].a.f.rx.delivered[i], r[k].a.f.rx.cap)
    ensures forall i :: 0 <= i < |r[k].b.f.rx.delivered| ==> FullTrain(r[k].b.f.rx.delivered[i], r[k].b.f.rx.cap)
  {
    RunInv(r, k);
    hide Inv;
    InvDelivers(r[k].a, r[k].b);
    InvDelivers(r[k].b, r[k].a);
  }

  /** `p` has consumed everything `e` has dropped from its buffer, the buffer is exactly the
      accepted stream from `una` on, and both 32-bit numbers stand at their positions, counted
      from the initial sequence number that `e` chose. */
  predicate Agrees(e: End, p: End) {
    && 0 <= e.una <= p.rcv <= |e.Stream()| + 2
    && e.f.buf == e.Stream()[Min(if e.una >= 1 then e.una - 1 else 0, |e.Stream()|)..]
    && e.f.una == Wrap(e.f.isn + e.una)
    && (p.rcv >= 1 ==> p.f.rcv == Wrap(e.f.isn + p.rcv))
  }

  lemma InvAgrees(e: End, p: End)
    requires Inv(e, p) && Inv(p, e)
    ensures Agrees(e, p)
  {
    hide Wrap, Consume, FrameAll, PktAt;
    SmallWrap(e.f.isn);
    EmptyStream();
  }

  /** The sender never discards an octet that the peer has not consumed, and both sides agree
      on both initial sequence numbers as soon as they know them. */
  lemma NothingLost(r: seq<System>, k: nat)
    requires Run(r) && k < |r|
    ensures Agrees(r[k].a, r[k].b) && Agrees(r[k].b, r[k].a)
  {
    hide Run, Inv, Agrees;
    RunInv(r, k);
    InvAgrees(r[k].a, r[k].b);
    InvAgrees(r[k].b, r[k].a);
  }

  /** Segment `i` of the log of `e` carries the byte at position `pos` of the stream. */
  predicate Carries(e: End, i: nat, pos: int) {
    && i < |e.f.tx| && i < |e.stamps| && !e.f.tx[i].flags.rst
    && e.stamps[i].seqPos <= pos < e.stamps[i].seqPos + |e.f.tx[i].payload|
  }

  lemma InvOneStream(e: End, p: End, i: nat, pos: int)
    requires Inv(e, p) && Carries(e, i, pos)
    ensures 1 <= pos <= |e.Stream()|
    ensures e.f.tx[i].payload[pos - e.stamps[i].seqPos] == e.Stream()[pos - 1]
    ensures Wrap(e.f.tx[i].seqNo + (pos - e.stamps[i].seqPos)) == Wrap(e.f.isn + pos)
  {
    var s, x := e.f.tx[i], e.stamps[i].seqPos;
    assert PktAt(e.f.isn, e.Stream(), e.f.finPending, p.f.isn, e.rcv, s, x, e.stamps[i].ackPos);
    hide Inv, FrameAll;
    WrapParts(e.f.isn + x, pos - x);
    assert e.f.isn + x + (pos - x) == e.f.isn + pos;
  }

  /** Either endpoint of a system. */
  function EndOf(s: System, left: bool): End {
    if left then s.a else s.b
  }

  lemma RunEnd(r: seq<System>, k: nat, left: bool)
    requires Run(r) && k < |r|
    ensures Inv(EndOf(r[k], left), EndOf(r[k], !left))
  {
    hide Run, Inv;
    RunInv(r, k);
  }

  /** No sequence number ever carries two different bytes: over first transmissions, rewinds,
      probes and rolled-back sends, every logged data segment is a slice of one stream. */
  lemma OneByte(r: seq<System>, k: nat, left: bool, i: nat, j: nat, pos: int)
    requires Run(r) && k < |r| && Carries(EndOf(r[k], left), i, pos) && Carries(EndOf(r[k], left), j, pos)
    ensures var e := EndOf(r[k], left);
            && 1 <= pos <= |e.Stream()|
            && e.f.tx[i].payload[pos - e.stamps[i].seqPos] == e.f.tx[j].payload[pos - e.stamps[j].seqPos]
               == e.Stream()[pos - 1]
            && Wrap(e.f.tx[i].seqNo + (pos - e.stamps[i].seqPos)) == Wrap(e.f.isn + pos)
  {
    hide Run, Inv, Wrap, FrameAll;
    RunEnd(r, k, left);
    InvOneStream(EndOf(r[k], left), EndOf(r[k], !left), i, pos);
    InvOneStream(EndOf(r[k], left), EndOf(r[k], !left), j, pos);
  }

  lemma InvFin(e: End, p: End, i: nat)
    requires Inv(e, p) && i < |e.f.tx| && e.f.tx[i].flags.fin && !e.f.tx[i].flags.rst
    ensures e.f.tx[i].seqNo == Wrap(e.f.isn + 1 + |e.Stream()|) && !e.f.CanAccept()
  {
    var st := e.stamps[i];
    assert PktAt(e.f.isn, e.Stream(), e.f.finPending, p.f.isn, e.rcv, e.f.tx[i], st.seqPos, st.ackPos);
    hide Wrap, FrameAll, PktAt, RecvState;
  }

  /** Every segment ever sent can be delivered at any time to an opened peer that it is not
      too stale for: nothing else restricts the network. */
  lemma AnySegmentArrives(r: seq<System>, k: nat, left: bool, i: nat, pad: seq<u8>, b: nat)
    requires Run(r) && k < |r| && i < |EndOf(r[k], left).f.tx|
    ensures var p, e := EndOf(r[k], left), EndOf(r[k], !left);
            && |p.stamps| == |p.f.tx|
            && (Enabled(e, p, Deliver(i, pad, b)) <==> e.begun && NotStale(e, p.f.tx[i], p.stamps[i]))
  {
    hide Run, Inv;
    RunEnd(r, k, left);
    RunEnd(r, k, !left);
    OkOf(EndOf(r[k], !left), EndOf(r[k], left));
    SegmentFits(EndOf(r[k], left), EndOf(r[k], !left), i);
  }

  lemma SegmentFits(p: End, e: End, i: nat)
    requires Inv(p, e) && i < |p.f.tx|
    ensures |p.stamps| == |p.f.tx| && Fits(p.f.tx[i])
  {
    var st := p.stamps[i];
    assert PktAt(p.f.isn, p.Stream(), p.f.finPending, e.f.isn, p.rcv, p.f.tx[i], st.seqPos, st.ackPos);
    hide Wrap, FrameAll, PktsInv, RecvState, SendState;
  }

  /** Every FIN ever sent has the same sequence number, one past the last stream byte, and
      after it no message is accepted. */
  lemma OneFin(r: seq<System>, k: nat, left: bool, i: nat)
    requires Run(r) && k < |r| && i < |EndOf(r[k], left).f.tx|
    requires EndOf(r[k], left).f.tx[i].flags.fin && !EndOf(r[k], left).f.tx[i].flags.rst
    ensures var e := EndOf(r[k], left);
            e.f.tx[i].seqNo == Wrap(e.f.isn + 1 + |e.Stream()|) && !e.f.CanAccept()
  {
    hide Run, Inv, Wrap, FrameAll;
    RunEnd(r, k, left);
    InvFin(EndOf(r[k], left), EndOf(r[k], !left), i);
  }
}

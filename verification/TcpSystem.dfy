/** Two TCP endpoints and a network that drops, duplicates, delays and reorders. Every
    segment ever handed to an endpoint's transmit ring stays in its log, and a delivery may
    pick any segment of the peer's log at any time. */
module TcpSystem {
  import opened Words
  import opened Common
  import opened TcpFraming
  import opened TcpFlowModel
  import opened TcpSafety

  /** The unbounded positions of a logged segment. */
  datatype Stamp = Stamp(seqPos: int, ackPos: int)

  /** An endpoint with its history: `una` and `rcv` are the positions of `f.una` and `f.rcv`
      (`rcv` is 0 until the peer's SYN is known), `sent` are the messages accepted by
      `OutputMessage`, `stamps` the positions of the logged segments. No decision of the
      endpoint depends on its history. */
  datatype End = End(f: Flow, una: int, rcv: int, sent: seq<Message>, stamps: seq<Stamp>, begun: bool)
  {
    function Stream(): seq<u8> {
      FrameAll(sent)
    }
  }

  datatype System = System(a: End, b: End)

  datatype Event =
    | ActiveOpen
    | PassiveOpen
    | Output(msgLen: u32, chain: seq<seq<u8>>, budget: nat)
    | ShutDown(budget: nat)
    | Tick(budget: nat)
    | Deliver(i: nat, pad: seq<u8>, budget: nat)

  // ---------------------------------------------------------------- steps

  function NewUna(e: End, f: Flow): int {
    e.una + Wrap(f.una - e.f.una)
  }

  predicate Unsynced(s: State) {
    s == Listen || s == SynSent
  }

  /** The peer's SYN has position 0; from then on `rcv` moves as the 32-bit number does. */
  function NewRcv(e: End, f: Flow): int {
    if Unsynced(e.f.state) then (if Unsynced(f.state) || f.state == Closed then 0 else 1)
    else e.rcv + Wrap(f.rcv - e.f.rcv)
  }

  function StampOf(e: End, p: End, f: Flow, s: Segment): Stamp {
    Stamp(SeqPos(e.f.isn, NewUna(e, f), s.seqNo), AckPos(p.f.isn, NewRcv(e, f), s.ackNo))
  }

  /** The endpoint after an operation that left it in state `f`. */
  function After(e: End, p: End, f: Flow, sent: seq<Message>): End {
    End(f, NewUna(e, f), NewRcv(e, f), sent,
        seq(|f.tx|, i requires 0 <= i < |f.tx| => if i < |e.stamps| then e.stamps[i] else StampOf(e, p, f, f.tx[i])),
        true)
  }

  /** Segments reach the peer less than half the sequence space after they were sent: what
      the segment carries, and acknowledges if it does, is at most 2^31 behind. A reset is
      taken whatever its numbers are. */
  predicate NotStale(e: End, s: Segment, st: Stamp) {
    s.flags.rst || (e.rcv - TWO31 <= st.seqPos && (s.flags.ack ==> e.una - TWO31 <= st.ackPos))
  }

  /** When an event may happen at `e`: each flow is begun once, the application sends
      messages of legal length, and delivered segments come from the peer's log. */
  predicate Enabled(e: End, p: End, ev: Event) {
    && e.f.Ok()
    && match ev
       case ActiveOpen => !e.begun && e.f.Fresh() && e.f.rexmits <= MAX_REXMIT
       case PassiveOpen => !e.begun && e.f.Fresh() && e.f.rexmits <= MAX_REXMIT
       case Output(n, chain, _) => e.begun && 1 <= n <= MSG_MAX_LEN
       case ShutDown(_) => e.begun
       case Tick(_) => e.begun
       case Deliver(i, _, _) =>
         e.begun && i < |p.f.tx| && |p.stamps| == |p.f.tx| && Fits(p.f.tx[i]) && NotStale(e, p.f.tx[i], p.stamps[i])
  }

  function Do(e: End, p: End, ev: Event): End
    requires Enabled(e, p, ev)
  {
    match ev
    case ActiveOpen => After(e, p, e.f.InitiateHandshake(), e.sent)
    case PassiveOpen => After(e, p, e.f.StartPassiveOpen(), e.sent)
    case Output(n, chain, b) =>
      After(e, p, e.f.OutputMessage(n, chain, b),
            if e.f.Accepts(n, chain) then e.sent + [Flatten(chain)[..n]] else e.sent)
    case ShutDown(b) => After(e, p, e.f.ShutDown(b), e.sent)
    case Tick(b) => After(e, p, e.f.PeriodicCheck(b).0, e.sent)
    case Deliver(i, pad, b) => After(e, p, e.f.InputPacket(Encode(p.f.tx[i], pad), b), e.sent)
  }

  ghost predicate Next(s: System, t: System) {
    || (exists ev :: Enabled(s.a, s.b, ev) && t == System(Do(s.a, s.b, ev), s.b))
    || (exists ev :: Enabled(s.b, s.a, ev) && t == System(s.a, Do(s.b, s.a, ev)))
  }

  predicate InitEnd(e: End) {
    e.f.rx.cap >= 1 && e == End(NewFlow(e.f.isn, e.f.rx.cap), 0, 0, [], [], false)
  }

  ghost predicate Run(r: seq<System>) {
    && r != [] && InitEnd(r[0].a) && InitEnd(r[0].b)
    && forall i :: 0 <= i < |r| - 1 ==> Next(r[i], r[i + 1])
  }

  // ---------------------------------------------------------------- invariant

  /** Before its SYN is acknowledged an endpoint has nothing to send; afterwards the send
      side is as `SendOk` says, and data can only be sent while the FIN is unacknowledged. */
  predicate SendState(g: Flow, una: int, sent: seq<Message>, begun: bool) {
    && AllSendable(sent) && una >= 0
    && (if una == 0 then
          && g.Ok() && sent == [] && g.una == g.isn && g.buf == [] && !g.finPending && !g.finSent
          && (g.state == Closed || g.Opening())
          && (g.state == SynSent || g.state == SynReceived ==> g.nxt == Wrap(g.isn + 1))
          && (!begun ==> g.Fresh())
        else
          && begun && SendOk(g, una, FrameAll(sent))
          && (g.finPending ==> !g.CanAccept())
          && (g.CanSend() ==> una <= |FrameAll(sent)| + 1))
  }

  predicate RecvState(g: Flow, una: int, rcv: int, p: End) {
    if rcv == 0 then
      && una == 0 && (g.state == Closed || Unsynced(g.state)) && g.rx == RxInit(g.rx.cap)
    else
      && RecvOk(g, rcv, p.f.isn, p.Stream()) && !Unsynced(g.state)
      && rcv <= 1 + |p.Stream()| + (if p.f.finPending then 1 else 0)
      && (g.state == SynReceived ==> rcv == 1)
      && (g.state == SynReceived || g.state == Established || g.state == FinWait1 || g.state == FinWait2 ==>
            rcv <= 1 + |p.Stream()|)
  }

  predicate PktsInv(e: End, p: End) {
    && |e.stamps| == |e.f.tx|
    && forall i :: 0 <= i < |e.f.tx| ==> PktAt(e.f.isn, e.Stream(), e.f.finPending, p.f.isn, e.rcv, e.f.tx[i],
                                               e.stamps[i].seqPos, e.stamps[i].ackPos)
  }

  predicate Inv(e: End, p: End) {
    && SendState(e.f, e.una, e.sent, e.begun)
    && RecvState(e.f, e.una, e.rcv, p)
    && (!e.begun ==> e.rcv == 0)
    && p.una <= e.rcv
    && PktsInv(e, p)
  }

  predicate SysInv(s: System) {
    Inv(s.a, s.b) && Inv(s.b, s.a)
  }

  // ---------------------------------------------------------------- one step

  function Lo(e: End): int {
    if e.rcv >= 1 then e.rcv else 1
  }

  /** All that has to be shown of an operation that takes the flow of `e` to `g`. */
  predicate Moved(e: End, p: End, g: Flow, una: int, rcv: int, sent: seq<Message>) {
    && g.isn == e.f.isn && e.f.tx <= g.tx
    && e.una <= una <= p.rcv && una == NewUna(e, g)
    && e.rcv <= rcv < e.rcv + 0x1_0000 && rcv == NewRcv(e, g)
    && SendState(g, una, sent, true) && RecvState(g, una, rcv, p)
    && AllGood(g, |e.f.tx|, una, FrameAll(sent), p.f.isn, Lo(e), rcv)
    && FrameAll(e.sent) <= FrameAll(sent) && (e.f.finPending ==> g.finPending && sent == e.sent)
  }

  /** A longer stream still says the same about segments sent before. */
  lemma PktLonger(isn: u32, str: seq<u8>, str': seq<u8>, fin: bool, fin': bool, pisn: u32, hi: int, hi': int,
                  s: Segment, x: int, y: int)
    requires PktAt(isn, str, fin, pisn, hi, s, x, y)
    requires str <= str' && hi <= hi' && (fin ==> fin' && str' == str)
    ensures PktAt(isn, str', fin', pisn, hi', s, x, y)
  {
    hide Wrap;
    if s.payload != [] && !s.flags.rst {
      assert str[x - 1..x - 1 + |s.payload|] == str'[x - 1..x - 1 + |s.payload|];
    }
  }

  lemma OwnPackets(e: End, p: End, g: Flow, una: int, rcv: int, sent: seq<Message>)
    requires Inv(e, p) && Moved(e, p, g, una, rcv, sent)
    ensures PktsInv(After(e, p, g, sent), p)
  {
    hide Wrap, SeqPos, AckPos, PktAt, FrameAll, NewUna, NewRcv, SendState, RecvState;
    var e' := After(e, p, g, sent);
    forall i | 0 <= i < |g.tx|
      ensures PktAt(g.isn, FrameAll(sent), g.finPending, p.f.isn, rcv, g.tx[i],
                    e'.stamps[i].seqPos, e'.stamps[i].ackPos)
    {
      if i < |e.f.tx| {
        assert g.tx[i] == e.f.tx[i];
        PktLonger(e.f.isn, e.Stream(), FrameAll(sent), e.f.finPending, g.finPending, p.f.isn, e.rcv, rcv,
                  g.tx[i], e.stamps[i].seqPos, e.stamps[i].ackPos);
      } else {
        assert Good(g, una, FrameAll(sent), p.f.isn, Lo(e), rcv, g.tx[i]);
      }
    }
  }

  /** The peer's picture of the stream survives the stream's growth. */
  lemma PeerKeeps(e: End, p: End, e': End)
    requires Inv(e, p) && Inv(p, e)
    requires e'.f.isn == e.f.isn && e.Stream() <= e'.Stream()
    requires e.f.finPending ==> e'.f.finPending && e'.sent == e.sent
    requires e'.una <= p.rcv
    ensures Inv(p, e')
  {
    hide Wrap, FrameAll, Consume, SendOk;
    var str, str' := e.Stream(), e'.Stream();
    if p.rcv >= 1 {
      if p.rcv - 1 <= |str| {
        assert str'[..p.rcv - 1] == str[..p.rcv - 1];
      }
      assert RecvOk(p.f, p.rcv, e'.f.isn, str');
    }
  }

  lemma Conclude(e: End, p: End, g: Flow, una: int, rcv: int, sent: seq<Message>)
    requires Inv(e, p) && Inv(p, e) && Moved(e, p, g, una, rcv, sent)
    ensures var e' := After(e, p, g, sent);
            Inv(e', p) && Inv(p, e')
  {
    hide Wrap, FrameAll, Consume, SendOk, RecvOk, NewUna, NewRcv;
    OwnPackets(e, p, g, una, rcv, sent);
    PeerKeeps(e, p, After(e, p, g, sent));
  }
}

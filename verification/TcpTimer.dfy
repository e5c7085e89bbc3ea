/** The retransmission timer and the bounds on what `PumpSend` puts on the wire, for any
    endpoint and any input. */
module TcpTimer {
  import opened Words
  import opened TcpFraming
  import opened TcpFlowModel
  import opened TcpSafety
  import opened TcpSteps

  /** A call of the public interface. */
  datatype Call =
    | ActiveOpen
    | PassiveOpen
    | Input(p: Packet, budget: nat)
    | Output(msgLen: u32, chain: seq<seq<u8>>, budget: nat)
    | ShutDown(budget: nat)
    | Tick(budget: nat)

  predicate Legal(f: Flow, c: Call) {
    && f.Ok()
    && match c
       case ActiveOpen => f.Fresh() && f.rexmits <= MAX_REXMIT
       case PassiveOpen => f.Fresh() && f.rexmits <= MAX_REXMIT
       case Input(p, _) => p.Whole()
       case Output(n, _, _) => PREFIX + n < TWO32
       case ShutDown(_) => true
       case Tick(_) => true
  }

  function Apply(f: Flow, c: Call): (g: Flow)
    requires Legal(f, c)
    ensures g.Ok()
  {
    match c
    case ActiveOpen => f.InitiateHandshake()
    case PassiveOpen => f.StartPassiveOpen()
    case Input(p, b) => f.InputPacket(p, b)
    case Output(n, chain, b) => f.OutputMessage(n, chain, b)
    case ShutDown(b) => f.ShutDown(b)
    case Tick(b) => f.PeriodicCheck(b).0
  }

  // ---------------------------------------------------------------- armed while anything is outstanding

  /** An unanswered SYN or SYN-ACK, and buffered or in-flight sequence space, imply a running
      timer. */
  predicate Armed(f: Flow) {
    && (f.CanSend() && (f.buf != [] || f.InFlight() > 0) ==> f.rtoOn)
    && Shaking(f)
  }

  predicate Shaking(f: Flow) {
    f.state == SynSent || f.state == SynReceived ==> f.rtoOn
  }

  lemma DispatchShakes(f: Flow, s: Segment)
    requires f.Ok() && |s.payload| < 0x1_0000 && Shaking(f)
    ensures Shaking(f.Dispatch(s))
  {
    hide Wrap, SeqLt, SeqLeq, SeqGt, RxFields.Valid, Consume, ParseMss;
  }

  lemma PumpArms(f: Flow, b: nat)
    requires f.Ok() && Shaking(f)
    ensures Armed(f.PumpSend(b))
  {
    if f.CanSend() {
      var g := f.SendData(Wrap(f.una + f.wnd), b);
      var used := |g.tx| - |f.tx|;
      var h := g.SendFin(if used <= b then b - used else 0);
      h.Room();
      hide Wrap, SeqLt;
    }
  }

  lemma InputKeepsArmed(f: Flow, p: Packet, b: nat)
    requires f.Ok() && p.Whole() && Armed(f)
    ensures Armed(f.InputPacket(p, b))
  {
    hide Wrap, Flow.PumpSend, Flow.Dispatch;
    if Decode(p).Some? {
      var s := Decode(p).value;
      if !s.flags.rst {
        DispatchShakes(f, s);
        PumpArms(f.Dispatch(s), b);
        assert f.InputPacket(p, b) == f.Dispatch(s).PumpSend(b);
      }
    }
  }

  lemma OutputKeepsArmed(f: Flow, n: u32, chain: seq<seq<u8>>, b: nat)
    requires f.Ok() && PREFIX + n < TWO32 && Armed(f)
    ensures Armed(f.OutputMessage(n, chain, b))
  {
    hide Wrap, Flow.PumpSend, Frame, Flatten;
    SmallWrap(PREFIX + n);
    if f.Accepts(n, chain) {
      PumpArms(f.(freed := f.freed + |chain|, buf := f.buf + Frame(Flatten(chain)[..n])), b);
    }
  }

  lemma ShutDownKeepsArmed(f: Flow, b: nat)
    requires f.Ok() && Armed(f)
    ensures Armed(f.ShutDown(b))
  {
    hide Wrap, Flow.PumpSend;
    if f.CanAccept() {
      PumpArms(f.(finPending := true, state := if f.state == Established then FinWait1 else LastAck), b);
    }
  }

  /** Every public call, whatever its input, leaves the timer armed while sequence space is
      buffered or in flight. */
  lemma CallKeepsArmed(f: Flow, c: Call)
    requires Legal(f, c) && Armed(f)
    ensures Armed(Apply(f, c))
  {
    hide Wrap, Flow.InputPacket, Flow.OutputMessage, Flow.ShutDown, Flow.PeriodicCheck;
    match c
    case ActiveOpen =>
    case PassiveOpen =>
    case Input(p, b) => InputKeepsArmed(f, p, b);
    case Output(n, chain, b) => OutputKeepsArmed(f, n, chain, b);
    case ShutDown(b) => ShutDownKeepsArmed(f, b);
    case Tick(b) => TickKeepsArmed(f, b);
  }

  /** The timer is never stopped by a tick. */
  lemma RetransmitKeepsTimer(f: Flow, b: nat)
    requires f.Ok() && f.rtoOn
    ensures var g := f.Retransmit(b);
            g.rtoOn && g.rexmits == f.rexmits && g.state == f.state
  {
    hide Wrap;
    f.SynInFlight();
    Same(f.una);
    if f.CanSend() && !(f.wnd == 0 && SeqLt(f.nxt, f.BufferedEnd())) {
      PumpKeepsTimer(f.(nxt := f.una, finSent := false), b);
    }
  }

  lemma PumpKeepsTimer(f: Flow, b: nat)
    requires f.Ok() && f.rtoOn
    ensures var g := f.PumpSend(b);
            g.rtoOn && g.rtoLeft == f.rtoLeft && g.rexmits == f.rexmits && g.state == f.state
  {
    hide Wrap;
  }

  lemma TickKeepsArmed(f: Flow, b: nat)
    requires f.Ok() && Armed(f)
    ensures Armed(f.PeriodicCheck(b).0)
  {
    hide Wrap, Flow.Retransmit;
    if f.rtoOn && f.state != Closed && f.state != TimeWait && f.rtoLeft == 0 && f.rexmits < MAX_REXMIT {
      RetransmitKeepsTimer(f.(rexmits := f.rexmits + 1), b);
    }
  }

  predicate Schedule(f: Flow, cs: seq<Call>)
    decreases |cs|
  {
    cs == [] || (Legal(f, cs[0]) && Schedule(Apply(f, cs[0]), cs[1..]))
  }

  function Final(f: Flow, cs: seq<Call>): Flow
    requires Schedule(f, cs)
    decreases |cs|
  {
    if cs == [] then f else Final(Apply(f, cs[0]), cs[1..])
  }

  lemma {:induction false} ScheduleKeepsArmed(f: Flow, cs: seq<Call>)
    requires Schedule(f, cs) && Armed(f)
    ensures Armed(Final(f, cs))
    decreases |cs|
  {
    hide Armed, Apply, Legal;
    if cs != [] {
      CallKeepsArmed(f, cs[0]);
      ScheduleKeepsArmed(Apply(f, cs[0]), cs[1..]);
    }
  }

  /** From a new flow, after any schedule of calls with any packets, the retransmission timer
      runs whenever a SYN or SYN-ACK is unanswered, data is buffered or sequence space is in
      flight. */
  lemma AlwaysArmed(isn: u32, cap: nat, cs: seq<Call>)
    requires cap > 0 && Schedule(NewFlow(isn, cap), cs)
    ensures Armed(Final(NewFlow(isn, cap), cs))
  {
    hide Schedule, Final;
    ScheduleKeepsArmed(NewFlow(isn, cap), cs);
  }

  // ---------------------------------------------------------------- an unanswered flow gives up

  /** How many more ticks an armed flow that hears nothing lives. */
  function Lifetime(f: Flow): nat
    requires f.Ok()
  {
    if f.state == Closed then 0
    else if f.state == TimeWait then f.timeWait + 1
    else (MAX_REXMIT - f.rexmits) * (INITIAL_RTO + 1) + f.rtoLeft + 1
  }

  predicate Dying(f: Flow) {
    f.state == Closed || f.state == TimeWait || f.rtoOn
  }

  lemma TickAges(f: Flow, b: nat)
    requires f.Ok() && Dying(f)
    ensures var (g, keep) := f.PeriodicCheck(b);
            && g.Ok() && Dying(g)
            && if keep then 1 <= Lifetime(g) == Lifetime(f) - 1 else Lifetime(f) <= 1 && Lifetime(g) == 0
  {
    hide Wrap, Flow.Retransmit;
    if f.rtoOn && f.state != Closed && f.state != TimeWait && f.rtoLeft == 0 && f.rexmits < MAX_REXMIT {
      RetransmitKeepsTimer(f.(rexmits := f.rexmits + 1), b);
    }
  }

  /** Sending and closing do not prolong the life of a flow that hears nothing. */
  lemma CallAges(f: Flow, c: Call)
    requires Legal(f, c) && Dying(f) && (c.Output? || c.ShutDown?)
    ensures Dying(Apply(f, c)) && Lifetime(Apply(f, c)) <= Lifetime(f)
  {
    hide Wrap, Flow.PumpSend, Frame, Flatten;
    match c
    case Output(n, chain, b) =>
      SmallWrap(PREFIX + n);
      if f.Accepts(n, chain) {
        PumpKeepsTimer(f.(freed := f.freed + |chain|, buf := f.buf + Frame(Flatten(chain)[..n])), b);
      }
    case ShutDown(b) =>
      if f.CanAccept() {
        PumpKeepsTimer(f.(finPending := true, state := if f.state == Established then FinWait1 else LastAck), b);
      }
  }

  /** A schedule of calls without any received packet. */
  predicate Silent(f: Flow, cs: seq<Call>)
    decreases |cs|
  {
    || cs == []
    || (Legal(f, cs[0]) && (cs[0].Output? || cs[0].ShutDown? || cs[0].Tick?) && Silent(Apply(f, cs[0]), cs[1..]))
  }

  /** The number of ticks that still ask to keep the flow. */
  function Survived(f: Flow, cs: seq<Call>): nat
    requires Silent(f, cs)
    decreases |cs|
  {
    if cs == [] then 0
    else (if cs[0].Tick? && f.PeriodicCheck(cs[0].budget).1 then 1 else 0) + Survived(Apply(f, cs[0]), cs[1..])
  }

  lemma {:induction false} SurvivesAtMost(f: Flow, cs: seq<Call>)
    requires f.Ok() && Dying(f) && Silent(f, cs)
    ensures Survived(f, cs) <= Lifetime(f) && (Lifetime(f) >= 1 ==> Survived(f, cs) < Lifetime(f))
    decreases |cs|
  {
    hide Wrap, Flow.PeriodicCheck;
    if cs != [] {
      var g := Apply(f, cs[0]);
      if cs[0].Tick? {
        TickAges(f, cs[0].budget);
      } else {
        CallAges(f, cs[0]);
      }
      SurvivesAtMost(g, cs[1..]);
    }
  }

  /** An armed flow that receives nothing survives fewer than 44 ticks, however the
      application's sends and the close are mixed in: the 44th tick asks for removal. */
  lemma GivesUp(f: Flow, cs: seq<Call>)
    requires f.Ok() && Dying(f) && Silent(f, cs)
    ensures Survived(f, cs) < (MAX_REXMIT + 1) * (INITIAL_RTO + 1) == 44
  {
    hide Wrap, Silent, Survived;
    SurvivesAtMost(f, cs);
  }

  // ---------------------------------------------------------------- what PumpSend sends

  /** A data segment within the MSS, the buffer and the peer's window. */
  predicate Bounded(f: Flow, s: Segment) {
    && 1 <= |s.payload| <= Min(DEFAULT_MSS, f.peerMss)
    && Wrap(s.seqNo - f.una) + |s.payload| <= Min(|f.buf|, f.wnd)
  }

  /** How far `nxt` is from the window edge. */
  lemma EdgeDistance(f: Flow, edge: u32)
    requires f.Ok() && edge == Wrap(f.una + f.wnd)
    ensures SeqLt(f.nxt, edge) <==> f.InFlight() < f.wnd
    ensures f.InFlight() < f.wnd ==> Wrap(edge - f.nxt) == f.wnd - f.InFlight()
  {
    var o := f.InFlight();
    Offset(f.una, f.nxt);
    SerialOrder(f.una + o, f.una + f.wnd);
    if o < f.wnd {
      Distance(f.una + f.wnd, f.una + o);
    }
  }

  /** One turn of the data loop. */
  function Turn(f: Flow, edge: u32): Flow
    requires f.Ok() && SeqLt(f.nxt, f.BufferedEnd()) && SeqLt(f.nxt, edge)
  {
    SegLenBounds(f, edge);
    f.Emit(f.nxt, f.rcv, ACK_PSH, [], f.Slice(f.nxt, f.SegLen(edge))).(nxt := Wrap(f.nxt + f.SegLen(edge)))
  }

  lemma TurnBounds(f: Flow, edge: u32)
    requires f.Ok() && edge == Wrap(f.una + f.wnd) && SeqLt(f.nxt, f.BufferedEnd()) && SeqLt(f.nxt, edge)
    ensures var g := Turn(f, edge);
            && g.Ok() && g == f.(tx := g.tx, nxt := g.nxt) && |g.tx| == |f.tx| + 1 && f.tx <= g.tx
            && Bounded(f, g.tx[|f.tx|]) && f.InFlight() < g.InFlight()
  {
    hide Wrap, SeqLt;
    f.Room();
    EdgeDistance(f, edge);
    SegLenBounds(f, edge);
    f.Advance(f.SegLen(edge));
  }

  /** The loop is a turn and the rest of the loop. */
  lemma SendDataTurn(f: Flow, edge: u32, b: nat)
    requires f.Ok() && b > 0 && SeqLt(f.nxt, f.BufferedEnd()) && SeqLt(f.nxt, edge)
    requires Turn(f, edge).Ok()
    ensures f.SendData(edge, b) == Turn(f, edge).SendData(edge, b - 1)
  {
  }

  lemma SendDataNone(f: Flow, edge: u32)
    requires f.Ok()
    ensures f.SendData(edge, 0) == f
  {
  }

  lemma SendDataDone(f: Flow, edge: u32, b: nat)
    requires f.Ok() && !(SeqLt(f.nxt, f.BufferedEnd()) && SeqLt(f.nxt, edge))
    ensures f.SendData(edge, b) == f
  {
  }

  lemma {:induction false} SendDataBounds(f: Flow, edge: u32, b: nat)
    requires f.Ok() && edge == Wrap(f.una + f.wnd)
    ensures var g := f.SendData(edge, b);
            && f.tx <= g.tx
            && (forall i :: |f.tx| <= i < |g.tx| ==> Bounded(f, g.tx[i]))
    decreases b
  {
    f.Room();
    hide Wrap, SeqLt, Bounded;
    if b > 0 && SeqLt(f.nxt, f.BufferedEnd()) && SeqLt(f.nxt, edge) {
      var h := Turn(f, edge);
      TurnBounds(f, edge);
      SendDataBounds(h, edge, b - 1);
      var g := h.SendData(edge, b - 1);
      forall i | |f.tx| <= i < |g.tx| ensures Bounded(f, g.tx[i]) {
        if i == |f.tx| {
          assert g.tx[i] == h.tx[i];
        } else {
          BoundedSame(h, f, g.tx[i]);
        }
      }
    }
  }

  lemma BoundedSame(f: Flow, g: Flow, s: Segment)
    requires Bounded(f, s) && g.una == f.una && g.buf == f.buf && g.wnd == f.wnd && g.peerMss == f.peerMss
    ensures Bounded(g, s)
  {
    hide Wrap;
  }

  /** With a packet for every unsent byte, the loop stops only at the end of the buffered
      data or of the window. */
  lemma {:induction false} SendDataDrains(f: Flow, edge: u32, b: nat)
    requires f.Ok() && edge == Wrap(f.una + f.wnd) && b >= |f.buf| - f.InFlight()
    ensures f.SendData(edge, b).InFlight() >= Min(|f.buf|, f.wnd)
    decreases b
  {
    f.Room();
    EdgeDistance(f, edge);
    hide Wrap, SeqLt;
    if b > 0 && SeqLt(f.nxt, f.BufferedEnd()) && SeqLt(f.nxt, edge) {
      TurnBounds(f, edge);
      SendDataDrains(Turn(f, edge), edge, b - 1);
    }
  }

  lemma FinOnly(g: Flow, b: nat)
    requires g.Ok()
    ensures var h := g.SendFin(b).ArmTimer();
            && g.tx <= h.tx && (forall i :: |g.tx| <= i < |h.tx| ==> h.tx[i].flags.fin)
            && h.InFlight() >= g.InFlight()
  {
    hide Wrap;
    g.Room();
    if g.nxt == g.BufferedEnd() {
      g.Advance(1);
    }
  }

  /** Every data segment `PumpSend` sends has between 1 and min(1400, peer MSS) bytes and ends
      no later than the buffered data and the peer's window; and with packets to spare it
      sends everything the window allows. */
  lemma PumpBounds(f: Flow, b: nat)
    requires f.Ok() && f.CanSend()
    ensures var g := f.PumpSend(b);
            && f.tx <= g.tx
            && (forall i :: |f.tx| <= i < |g.tx| && !g.tx[i].flags.fin ==> Bounded(f, g.tx[i]))
            && (b >= |f.buf| - f.InFlight() ==> g.InFlight() >= Min(|f.buf|, f.wnd))
  {
    hide Wrap, Flow.SendData, Flow.SendFin, Flow.ArmTimer, Bounded, Flow.Ok, Flow.InFlight;
    var edge := Wrap(f.una + f.wnd);
    SendDataBounds(f, edge, b);
    if b >= |f.buf| - f.InFlight() {
      SendDataDrains(f, edge, b);
    }
    var g := f.SendData(edge, b);
    var used := |g.tx| - |f.tx|;
    FinOnly(g, if used <= b then b - used else 0);
  }
}

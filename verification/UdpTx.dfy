/** The send side of the UDP flow: the window of `Pcb`, what `TransmitPackets`, `process_ack`
    and the retransmissions put on the wire, and over whole runs which packet carries which
    sequence number. */
module UdpTx {
  import opened Words
  import opened Common
  import opened UdpPacket

  const CWND: u16 := 32
  /** `PacketBatch::kMaxBurst`. */
  const PACKETS: nat := 32
  const REXMIT_THRESHOLD: nat := 3
  const RTO_TICKS: int := 3
  const RTO_OFF: int := -1

  datatype Out = Out(seqno: u32, pkt: Pkt)

  /** `queue` are the tracked buffers, oldest first, of which the first `sent` have been sent.
      `handshake` is SYN_RECEIVED, where the SYN-ACK is unacknowledged too. `log` lists the
      data packets given to the transmit ring. */
  datatype Sender = Sender(queue: seq<Pkt>, sent: nat, una: u32, nxt: u32, ooo: u32, dup: nat, rto: int, rexmits: nat,
                           handshake: bool, log: seq<Out>)
  {
    function InFlight(): u32 {
      Wrap(nxt - una)
    }

    /** `effective_wnd`, with its unsigned wrap-around. */
    function Window(): u32 {
      var w := Wrap(CWND - Wrap(nxt - una - ooo));
      if w > CWND then 0 else w
    }

    predicate Ok() {
      sent <= |queue|
    }

    /** `get_snd_nxt` and the oldest unsent buffer. */
    function SendOne(): (s: Sender)
      requires sent < |queue|
      ensures s.Ok()
    {
      this.(log := log + [Out(nxt, queue[sent])], sent := sent + 1, nxt := Wrap(nxt + 1))
    }

    function SendMany(n: nat): (s: Sender)
      requires sent + n <= |queue|
      ensures s == this.(log := s.log, sent := sent + n, nxt := s.nxt)
    {
      if n == 0 then this else SendMany(n - 1).SendOne()
    }

    /** `TransmitPackets`, when `granted` packets can be allocated. They are allocated in batches of
        32, each as a whole; a failed allocation returns before the timer is touched. */
    function Transmit(granted: nat): (s: Sender)
      requires Ok()
      ensures s.Ok()
    {
      var wanted := Min(Window(), |queue| - sent);
      if wanted == 0 then this
      else if granted < wanted then SendMany(granted - granted % PACKETS)
      else
        var s := SendMany(wanted);
        if s.rto == RTO_OFF then s.(rto := 0) else s
    }

    /** The oldest unacknowledged buffer again, under its own number. */
    function Resend(): (s: Sender)
      requires Ok() && queue != []
      ensures s.Ok()
    {
      this.(log := log + [Out(una, queue[0])], rto := 0)
    }

    /** How many buffers an acknowledgement frees; the SYN-ACK occupies a number but no buffer. */
    function Acked(ackno: u32): int {
      Wrap(ackno - una) - if handshake then 1 else 0
    }

    /** The branch of `process_ack` for new data. */
    function NewAck(ackno: u32): (s: Sender)
      requires Ok() && 0 <= Acked(ackno) <= sent
      ensures s.Ok()
    {
      var n := Acked(ackno);
      this.(queue := queue[n..], sent := sent - n, una := ackno, dup := 0, ooo := 0, rexmits := 0, handshake := false,
            rto := if ackno == nxt then RTO_OFF else 0)
    }

    predicate IsNewAck(ackno: u32) {
      !SeqLt(ackno, una) && ackno != una && !SeqGt(ackno, nxt)
    }

    /** The count of duplicate acknowledgements is 16 bits wide. */
    function NextDup(): nat {
      (dup + 1) % 0x1_0000
    }

    /** A fast retransmission finds an unacknowledged buffer, and the hole that fast recovery
        picks from the peer's bitmap lies among the tracked buffers. */
    predicate FindsBuffer(ackno: u32, hole: Option<nat>) {
      ackno == una ==>
        && (NextDup() == REXMIT_THRESHOLD ==> queue != [])
        && (NextDup() > REXMIT_THRESHOLD && hole.Some? ==> hole.value < |queue|)
    }

    /** `process_ack`. `hole` is what fast recovery finds in the bitmap. */
    function ProcessAck(ackno: u32, count: u16, hole: Option<nat>, granted: nat): (s: Sender)
      requires Ok() && FindsBuffer(ackno, hole) && (IsNewAck(ackno) ==> 0 <= Acked(ackno) <= sent)
      ensures s.Ok()
    {
      if SeqLt(ackno, una) then this
      else if ackno == una then
        var s := this.(dup := NextDup(), ooo := count);
        if s.dup < REXMIT_THRESHOLD then s.Transmit(granted)
        else if s.dup == REXMIT_THRESHOLD then s.Resend().Transmit(granted)
        else if hole.Some? then s.(log := log + [Out(Wrap(una + hole.value), queue[hole.value])], rto := 0)
        else s.Transmit(granted)
      else if SeqGt(ackno, nxt) then Transmit(granted)
      else NewAck(ackno).Transmit(granted)
    }

    function OutputMessage(pkts: seq<Pkt>, granted: nat): (s: Sender)
      requires Ok()
      ensures s.Ok()
    {
      this.(queue := queue + pkts).Transmit(granted)
    }

    /** `PeriodicCheck`; false when the flow is to be removed. */
    function Tick(): (r: (Sender, bool))
      requires Ok() && (rto >= 0 && !handshake ==> queue != [])
      ensures r.0.Ok()
    {
      if rto == RTO_OFF then (this, true)
      else
        var s := this.(rto := rto + 1);
        if rexmits >= REXMIT_THRESHOLD then (s, false)
        else if s.rto < RTO_TICKS then (s, true)
        else ((if handshake then s.(rto := 0) else s.Resend()).(rexmits := rexmits + 1), true)
    }
  }

  // ---------------------------------------------------------------- arithmetic of the window

  /** Which acknowledgements count as old, duplicate, too new and new. */
  lemma AckCases(s: Sender, ackno: u32)
    requires s.InFlight() < TWO31
    ensures var x := Wrap(ackno - s.una);
            && (SeqLt(ackno, s.una) <==> x >= TWO31)
            && (ackno == s.una <==> x == 0)
            && (s.IsNewAck(ackno) <==> 1 <= x <= s.InFlight())
            && (x <= s.InFlight() ==> Wrap(s.nxt - ackno) == s.InFlight() - x)
  {
    hide Wrap, Signed, SeqLt, SeqGt;
    var x, f := Wrap(ackno - s.una), s.InFlight();
    SmallWrap(s.una);
    SmallWrap(0);
    Offset(s.una, ackno);
    Offset(s.una, s.nxt);
    var y := if x < TWO31 then x else x - TWO32;
    WrapAdd(s.una + y, 1);
    SerialOrder(s.una + y, s.una);
    if x < TWO31 {
      SerialOrder(s.una + x, s.una + f);
    }
    if x <= f {
      Distance(s.una + f, s.una + x);
    }
  }

  /** The window is what is left of `CWND` packets beyond the out-of-order ones; with more than
      that in flight, or with more reported out of order than in flight, it is closed. */
  lemma WindowBound(s: Sender)
    requires s.InFlight() < TWO31 && s.ooo < 0x1_0000
    ensures s.Window() == if s.ooo <= s.InFlight() <= CWND + s.ooo then CWND + s.ooo - s.InFlight() else 0
  {
    var f, o := s.InFlight(), s.ooo;
    WrapParts(s.nxt - s.una, -o);
    if o <= f {
      SmallWrap(f - o);
      if f - o <= CWND {
        SmallWrap(CWND - (f - o));
      } else {
        WrapAdd(CWND - (f - o), 1);
        SmallWrap(CWND - (f - o) + TWO32);
      }
    } else {
      WrapAdd(f - o, 1);
      SmallWrap(f - o + TWO32);
      WrapAdd(CWND - (f - o + TWO32), 1);
      SmallWrap(CWND + o - f);
    }
  }

  // ---------------------------------------------------------------- runs

  /** A sender with its history: every packet the application handed over, how many of them
      have been acknowledged, and the largest out-of-order count the peer has reported. */
  datatype Hist = Hist(s: Sender, stream: seq<Pkt>, acked: nat, maxOoo: nat)

  datatype Event =
    | EvOutput(pkts: seq<Pkt>, granted: nat)
    | EvAck(ackno: u32, count: u16, hole: Option<nat>, granted: nat)
    | EvTick

  /** The tracked buffers come from the channel's pool, so there are fewer than 2^30. */
  predicate Enabled(h: Hist, ev: Event) {
    && h.s.Ok()
    && match ev
       case EvOutput(pkts, _) => !h.s.handshake && |h.s.queue| + |pkts| < 0x4000_0000
       case EvAck(ackno, _, hole, _) =>
         h.s.FindsBuffer(ackno, hole) && (h.s.IsNewAck(ackno) ==> 0 <= h.s.Acked(ackno) <= h.s.sent)
       case EvTick => h.s.rto >= 0 && !h.s.handshake ==> h.s.queue != []
  }

  function Do(h: Hist, ev: Event): Hist
    requires Enabled(h, ev)
  {
    match ev
    case EvOutput(pkts, granted) => Hist(h.s.OutputMessage(pkts, granted), h.stream + pkts, h.acked, h.maxOoo)
    case EvAck(ackno, count, hole, granted) =>
      Hist(h.s.ProcessAck(ackno, count, hole, granted), h.stream,
           h.acked + (if h.s.IsNewAck(ackno) then h.s.Acked(ackno) else 0),
           if count > h.maxOoo then count else h.maxOoo)
    case EvTick => h.(s := h.s.Tick().0)
  }

  /** After the handshake: nothing queued, and on the passive side the SYN-ACK in flight. */
  predicate Init(h: Hist) {
    h == Hist(Sender([], 0, if h.s.handshake then 0 else FIRST, FIRST, 0, 0, RTO_OFF, 0, h.s.handshake, []), [], 0, 0)
  }

  ghost predicate Run(r: seq<Hist>) {
    && r != [] && Init(r[0])
    && forall k :: 0 <= k < |r| - 1 ==> Next(r[k], r[k + 1])
  }

  ghost predicate Next(h: Hist, g: Hist) {
    exists ev :: Enabled(h, ev) && g == Do(h, ev)
  }

  // ---------------------------------------------------------------- invariant

  /** Packet `o` is packet number `p` of the stream. */
  predicate IsPacket(o: Out, stream: seq<Pkt>, p: nat) {
    p < |stream| && o == Out(Wrap(FIRST + p), stream[p])
  }

  ghost predicate LogOk(log: seq<Out>, stream: seq<Pkt>) {
    forall i :: 0 <= i < |log| ==> Known(log[i], stream)
  }

  ghost predicate Known(o: Out, stream: seq<Pkt>) {
    exists p :: IsPacket(o, stream, p)
  }

  /** The queue is the unacknowledged part of the stream, and the numbers stand at its parts. */
  ghost predicate Aligned(s: Sender, stream: seq<Pkt>, acked: nat) {
    && acked <= |stream| && s.queue == stream[acked..] && s.sent <= |s.queue| < 0x4000_0000
    && s.nxt == Wrap(FIRST + acked + s.sent)
    && s.una == Wrap(FIRST + acked - Off(s)) && (s.handshake ==> s.queue == [] && s.sent == 0)
  }

  /** Numbers in flight that carry no data. */
  function Off(s: Sender): nat {
    if s.handshake then 1 else 0
  }

  ghost predicate Inv(h: Hist) {
    && Aligned(h.s, h.stream, h.acked) && LogOk(h.s.log, h.stream)
    && h.s.ooo <= h.maxOoo < 0x1_0000 && h.s.sent + Off(h.s) <= CWND + h.maxOoo
    && h.s.rto >= RTO_OFF && (h.s.rto >= 0 ==> h.s.queue != [] || h.s.handshake)
    && h.s.rexmits <= REXMIT_THRESHOLD && (h.s.rexmits < REXMIT_THRESHOLD ==> h.s.rto < RTO_TICKS)
  }

  /** `snd_nxt - snd_una` is the number of tracked buffers less the unsent ones, and one more
      for an unacknowledged SYN-ACK. */
  lemma Counted(s: Sender, stream: seq<Pkt>, acked: nat)
    requires Aligned(s, stream, acked)
    ensures s.InFlight() == s.sent + Off(s) < TWO31
  {
    Distance(FIRST + acked + s.sent, FIRST + acked - Off(s));
  }

  lemma LogMore(log: seq<Out>, stream: seq<Pkt>, o: Out, p: nat)
    requires LogOk(log, stream) && IsPacket(o, stream, p)
    ensures LogOk(log + [o], stream)
  {
    assert Known(o, stream);
  }

  lemma SendOneKeeps(s: Sender, stream: seq<Pkt>, acked: nat)
    requires Aligned(s, stream, acked) && LogOk(s.log, stream) && s.sent < |s.queue|
    ensures Aligned(s.SendOne(), stream, acked) && LogOk(s.SendOne().log, stream)
  {
    WrapParts(FIRST + acked + s.sent, 1);
    hide Wrap;
    var t, p := s.SendOne(), acked + s.sent;
    LogMore(s.log, stream, Out(s.nxt, s.queue[s.sent]), p);
  }

  lemma {:induction false} SendManyKeeps(s: Sender, stream: seq<Pkt>, acked: nat, n: nat)
    requires Aligned(s, stream, acked) && LogOk(s.log, stream) && s.sent + n <= |s.queue|
    ensures Aligned(s.SendMany(n), stream, acked) && LogOk(s.SendMany(n).log, stream)
  {
    hide Wrap, Aligned, LogOk, Sender.SendOne;
    if n > 0 {
      SendManyKeeps(s, stream, acked, n - 1);
      SendOneKeeps(s.SendMany(n - 1), stream, acked);
    }
  }

  lemma TransmitKeeps(h: Hist, granted: nat)
    requires Inv(h) && h.s.Ok()
    ensures Inv(h.(s := h.s.Transmit(granted)))
  {
    hide Wrap, LogOk, Sender.Window;
    var s := h.s;
    Counted(s, h.stream, h.acked);
    WindowBound(s);
    var wanted := Min(s.Window(), |s.queue| - s.sent);
    var n := if granted < wanted then granted - granted % PACKETS else wanted;
    SendManyKeeps(s, h.stream, h.acked, n);
    hide Sender.SendMany;
  }

  lemma ResendKeeps(h: Hist, k: nat)
    requires Inv(h) && k < |h.s.queue|
    ensures Inv(h.(s := h.s.(log := h.s.log + [Out(Wrap(h.s.una + k), h.s.queue[k])], rto := 0)))
  {
    WrapParts(FIRST + h.acked, k);
    hide Wrap, LogOk;
    var log := h.s.log + [Out(Wrap(h.s.una + k), h.s.queue[k])];
    LogMore(h.s.log, h.stream, Out(Wrap(h.s.una + k), h.s.queue[k]), h.acked + k);
  }

  lemma LongerLog(log: seq<Out>, stream: seq<Pkt>, more: seq<Pkt>)
    requires LogOk(log, stream)
    ensures LogOk(log, stream + more)
  {
    forall i | 0 <= i < |log| ensures Known(log[i], stream + more) {
      assert Known(log[i], stream);
      var p :| IsPacket(log[i], stream, p);
      assert IsPacket(log[i], stream + more, p);
    }
  }

  lemma OutputKeeps(h: Hist, pkts: seq<Pkt>, granted: nat)
    requires Inv(h) && Enabled(h, EvOutput(pkts, granted))
    ensures Inv(Do(h, EvOutput(pkts, granted)))
  {
    hide Wrap, LogOk, Sender.Transmit;
    LongerLog(h.s.log, h.stream, pkts);
    assert h.stream[h.acked..] + pkts == (h.stream + pkts)[h.acked..];
    var g := h.(s := h.s.(queue := h.s.queue + pkts), stream := h.stream + pkts);
    assert Inv(g);
    TransmitKeeps(g, granted);
  }

  /** An acknowledgement of new data frees sent buffers only. */
  lemma AckFreesSent(h: Hist, ackno: u32)
    requires Inv(h) && h.s.IsNewAck(ackno)
    ensures 0 <= h.s.Acked(ackno) <= h.s.sent
  {
    Counted(h.s, h.stream, h.acked);
    AckCases(h.s, ackno);
  }

  lemma NewAckKeeps(h: Hist, ackno: u32)
    requires Inv(h) && h.s.IsNewAck(ackno) && 0 <= h.s.Acked(ackno) <= h.s.sent
    ensures Inv(h.(s := h.s.NewAck(ackno), acked := h.acked + h.s.Acked(ackno)))
  {
    hide Wrap, LogOk, SeqLt, SeqGt, Sender.IsNewAck, Sender.Acked, Aligned;
    AckNumber(h, ackno);
    NewAckAligned(h.s, h.stream, h.acked, ackno);
    AckAll(h, ackno);
  }

  /** The number that acknowledges `n` more packets. */
  lemma AckNumber(h: Hist, ackno: u32)
    requires Inv(h) && h.s.IsNewAck(ackno)
    ensures ackno == Wrap(FIRST + (h.acked + h.s.Acked(ackno)))
  {
    hide LogOk, Wrap;
    var s := h.s;
    Offset(s.una, ackno);
    WrapParts(FIRST + h.acked - Off(s), Wrap(ackno - s.una));
    assert FIRST + h.acked - Off(s) + Wrap(ackno - s.una) == FIRST + (h.acked + s.Acked(ackno));
  }

  lemma NewAckAligned(s: Sender, stream: seq<Pkt>, acked: nat, ackno: u32)
    requires Aligned(s, stream, acked) && 0 <= s.Acked(ackno) <= s.sent
    requires ackno == Wrap(FIRST + (acked + s.Acked(ackno)))
    ensures Aligned(s.NewAck(ackno), stream, acked + s.Acked(ackno))
  {
    hide Wrap, Sender.Acked;
    var n := s.Acked(ackno);
    assert stream[acked..][n..] == stream[acked + n..];
  }

  /** The timer goes off with the last packet in flight. */
  lemma AckAll(h: Hist, ackno: u32)
    requires Inv(h) && h.s.IsNewAck(ackno) && 0 <= h.s.Acked(ackno) <= h.s.sent
    ensures ackno != h.s.nxt ==> h.s.Acked(ackno) < h.s.sent
  {
    Counted(h.s, h.stream, h.acked);
    AckCases(h.s, ackno);
    SameNumber(h.s, ackno);
    hide Wrap, LogOk, SeqLt, SeqGt, Sender.IsNewAck, Aligned;
  }

  lemma SameNumber(s: Sender, ackno: u32)
    ensures Wrap(s.nxt - ackno) == 0 <==> s.nxt == ackno
  {
    Offset(ackno, s.nxt);
  }

  lemma AckKeeps(h: Hist, ackno: u32, count: u16, hole: Option<nat>, granted: nat)
    requires Inv(h) && Enabled(h, EvAck(ackno, count, hole, granted))
    ensures Inv(Do(h, EvAck(ackno, count, hole, granted)))
  {
    hide Wrap, SeqLt, SeqGt, LogOk, Sender.Transmit, Sender.NewAck, Sender.Acked, Aligned, Inv;
    var g := h.(maxOoo := if count > h.maxOoo then count else h.maxOoo);
    MoreOoo(h, g.maxOoo);
    NotLess(h.s.una);
    if ackno == h.s.una {
      DupKeeps(g, count, hole, granted);
    } else if h.s.IsNewAck(ackno) {
      NewAckKeeps(g, ackno);
      TransmitKeeps(g.(s := g.s.NewAck(ackno), acked := g.acked + g.s.Acked(ackno)), granted);
    } else if !SeqLt(ackno, h.s.una) {
      TransmitKeeps(g, granted);
    }
  }

  lemma MoreOoo(h: Hist, m: nat)
    requires Inv(h) && (m == h.maxOoo || h.maxOoo <= m < 0x1_0000)
    ensures Inv(h.(maxOoo := m))
  {
  }

  lemma NotLess(x: u32)
    ensures !SeqLt(x, x)
  {
    SerialOrder(x, x);
  }

  lemma DupKeeps(g: Hist, count: u16, hole: Option<nat>, granted: nat)
    requires Inv(g) && g.s.FindsBuffer(g.s.una, hole) && count <= g.maxOoo
    requires !SeqLt(g.s.una, g.s.una) && !g.s.IsNewAck(g.s.una)
    ensures Inv(g.(s := g.s.ProcessAck(g.s.una, count, hole, granted)))
  {
    hide Wrap, SeqLt, SeqGt, LogOk, Sender.Transmit, Sender.IsNewAck;
    var d := g.(s := g.s.(dup := g.s.NextDup(), ooo := count));
    assert Inv(d);
    if d.s.dup < REXMIT_THRESHOLD || (d.s.dup > REXMIT_THRESHOLD && hole.None?) {
      TransmitKeeps(d, granted);
    } else if d.s.dup == REXMIT_THRESHOLD {
      SmallTick(d);
      ResendKeeps(d, 0);
      TransmitKeeps(d.(s := d.s.Resend()), granted);
    } else {
      ResendKeeps(d, hole.value);
    }
  }

  lemma TickKeeps(h: Hist)
    requires Inv(h) && Enabled(h, EvTick)
    ensures Inv(Do(h, EvTick))
  {
    hide LogOk;
    SmallTick(h);
    if h.s.rto >= 0 && h.s.queue != [] {
      ResendKeeps(h, 0);
    }
  }

  lemma SmallTick(h: Hist)
    requires Inv(h)
    ensures Wrap(h.s.una + 0) == h.s.una
  {
    SmallWrap(h.s.una);
  }

  lemma StepKeeps(h: Hist, ev: Event)
    requires Inv(h) && Enabled(h, ev)
    ensures Inv(Do(h, ev))
  {
    match ev
    case EvOutput(pkts, granted) => OutputKeeps(h, pkts, granted);
    case EvAck(ackno, count, hole, granted) => AckKeeps(h, ackno, count, hole, granted);
    case EvTick => TickKeeps(h);
  }

  lemma {:induction false} RunKeeps(r: seq<Hist>, k: nat)
    requires Run(r) && k < |r|
    ensures Inv(r[k])
  {
    hide Inv, Enabled, Do;
    if k == 0 {
      InitInv(r[0]);
    } else {
      RunKeeps(r, k - 1);
      assert Next(r[k - 1], r[k - 1 + 1]);
      var ev :| Enabled(r[k - 1], ev) && r[k] == Do(r[k - 1], ev);
      StepKeeps(r[k - 1], ev);
    }
  }

  lemma InitInv(h: Hist)
    requires Init(h)
    ensures Inv(h)
  {
  }

  /** In every run: the numbers in flight are the sent buffers (and the SYN-ACK); tracked
      buffer number `k` is the packet of sequence number `snd_una + k`; at most the
      congestion window and the largest reported out-of-order count are in flight; and an
      armed timer finds a buffer to resend. */
  lemma SenderSafe(r: seq<Hist>, i: nat, k: nat)
    requires Run(r) && i < |r|
    ensures var h := r[i];
            && h.s.InFlight() == h.s.sent + Off(h.s) <= CWND + h.maxOoo
            && |h.s.queue| <= |h.stream| && h.s.queue == h.stream[|h.stream| - |h.s.queue|..]
            && (k < |h.s.queue| ==> IsPacket(Out(Wrap(h.s.una + k), h.s.queue[k]), h.stream, h.acked + k))
            && (h.s.rto >= 0 && !h.s.handshake ==> h.s.queue != [])
  {
    RunKeeps(r, i);
    var h := r[i];
    Counted(h.s, h.stream, h.acked);
    WrapParts(FIRST + h.acked, k);
    hide Run, Wrap, LogOk;
  }

  /** The packets put on the wire by a step. */
  function Sent(h: Hist, g: Hist): seq<Out>
    requires |h.s.log| <= |g.s.log|
  {
    g.s.log[|h.s.log|..]
  }

  /** In every run an expired timer resends the oldest unacknowledged packet, and nothing else. */
  lemma ExpiryResends(r: seq<Hist>, k: nat)
    requires Run(r) && k < |r| && Enabled(r[k], EvTick)
    requires r[k].s.rto == RTO_TICKS - 1 && r[k].s.rexmits < REXMIT_THRESHOLD && !r[k].s.handshake
    ensures var h, g := r[k], Do(r[k], EvTick);
            && h.s.log <= g.s.log && |Sent(h, g)| == 1 && IsPacket(Sent(h, g)[0], h.stream, h.acked)
            && g.s.rto == 0 && g.s.rexmits == h.s.rexmits + 1
  {
    SenderSafe(r, k, 0);
    hide Run, LogOk;
    SmallWrap(r[k].s.una);
  }

  /** And it expires no earlier: until then a tick only counts. */
  lemma TickCounts(s: Sender)
    requires s.Ok() && (s.rto >= 0 && !s.handshake ==> s.queue != [])
    requires s.rto < RTO_TICKS - 1 && s.rexmits < REXMIT_THRESHOLD
    ensures s.Tick() == (if s.rto == RTO_OFF then s else s.(rto := s.rto + 1), true)
  {
  }

  /** In every run the third duplicate acknowledgement resends the oldest unacknowledged packet
      before anything else. */
  lemma ThirdDuplicateResends(r: seq<Hist>, k: nat, count: u16, hole: Option<nat>, granted: nat)
    requires Run(r) && k < |r| && Enabled(r[k], EvAck(r[k].s.una, count, hole, granted))
    requires r[k].s.dup == REXMIT_THRESHOLD - 1 && !r[k].s.handshake
    ensures var h, g := r[k], Do(r[k], EvAck(r[k].s.una, count, hole, granted));
            h.s.log <= g.s.log && Sent(h, g) != [] && IsPacket(Sent(h, g)[0], h.stream, h.acked)
  {
    hide Run, Sender.Transmit, SeqLt, SeqGt, Wrap;
    SenderSafe(r, k, 0);
    NotLess(r[k].s.una);
    SmallWrap(r[k].s.una);
    var s := r[k].s.(dup := r[k].s.NextDup(), ooo := count).Resend();
    TransmitAppends(s, granted);
    assert s.log[|r[k].s.log|] == Out(r[k].s.una, r[k].s.queue[0]);
  }

  /** Duplicates are counted, and an acknowledgement of new data ends both counts. */
  lemma AckCounts(h: Hist, ackno: u32, count: u16, hole: Option<nat>, granted: nat)
    requires Inv(h) && Enabled(h, EvAck(ackno, count, hole, granted))
    ensures var g := Do(h, EvAck(ackno, count, hole, granted));
            && (ackno == h.s.una ==> g.s.una == h.s.una && g.s.dup == h.s.NextDup() && g.s.ooo == count)
            && (h.s.IsNewAck(ackno) ==> g.s.una == ackno && g.s.dup == 0 && g.s.ooo == 0 && g.s.rexmits == 0)
            && (ackno != h.s.una && !h.s.IsNewAck(ackno) ==> g.s.una == h.s.una && g.s.dup == h.s.dup)
  {
    hide Wrap, SeqLt, SeqGt, Inv, Sender.Transmit, Sender.Acked;
    NotLess(h.s.una);
    var d := h.s.(dup := h.s.NextDup(), ooo := count);
    if ackno == h.s.una {
      TransmitFrame(d, granted);
      if d.dup == REXMIT_THRESHOLD {
        TransmitFrame(d.Resend(), granted);
      }
    } else if h.s.IsNewAck(ackno) {
      TransmitFrame(h.s.NewAck(ackno), granted);
    } else {
      TransmitFrame(h.s, granted);
    }
  }

  lemma TransmitFrame(s: Sender, granted: nat)
    requires s.Ok()
    ensures var t := s.Transmit(granted);
            t.una == s.una && t.dup == s.dup && t.ooo == s.ooo && t.rexmits == s.rexmits && t.queue == s.queue
  {
    hide Sender.Window;
  }

  /** In fast recovery a further duplicate resends the packet of the hole, and nothing else. */
  lemma HoleResent(r: seq<Hist>, k: nat, count: u16, hole: nat, granted: nat)
    requires Run(r) && k < |r| && Enabled(r[k], EvAck(r[k].s.una, count, Some(hole), granted))
    requires r[k].s.NextDup() > REXMIT_THRESHOLD
    ensures var h, g := r[k], Do(r[k], EvAck(r[k].s.una, count, Some(hole), granted));
            && h.s.log <= g.s.log && |Sent(h, g)| == 1 && IsPacket(Sent(h, g)[0], h.stream, h.acked + hole)
  {
    SenderSafe(r, k, hole);
    NotLess(r[k].s.una);
    hide Run, LogOk, Sender.Transmit, SeqLt, SeqGt, Wrap;
  }

  lemma {:induction false} SendManyAppends(s: Sender, n: nat)
    requires s.sent + n <= |s.queue|
    ensures s.log <= s.SendMany(n).log
  {
    if n > 0 {
      SendManyAppends(s, n - 1);
    }
  }

  lemma TransmitAppends(s: Sender, granted: nat)
    requires s.Ok()
    ensures s.log <= s.Transmit(granted).log
  {
    hide Sender.Window;
    var wanted := Min(s.Window(), |s.queue| - s.sent);
    SendManyAppends(s, if granted < wanted then granted - granted % PACKETS else wanted);
  }

  /** Every acknowledgement the network may bring is handled: one of new data never reaches
      past the sent buffers. */
  lemma AnyAck(r: seq<Hist>, i: nat, ackno: u32, count: u16, hole: Option<nat>, granted: nat)
    requires Run(r) && i < |r| && r[i].s.FindsBuffer(ackno, hole)
    ensures Enabled(r[i], EvAck(ackno, count, hole, granted))
    ensures Enabled(r[i], EvTick)
  {
    RunKeeps(r, i);
    if r[i].s.IsNewAck(ackno) {
      AckFreesSent(r[i], ackno);
    }
  }

  /** Every data packet ever put on the wire, first transmission or not, is packet `p` of the
      stream under number `p`; so no sequence number carries two different packets in a
      stream of fewer than 2^32. */
  lemma OnePacket(r: seq<Hist>, i: nat, a: nat, b: nat)
    requires Run(r) && i < |r| && a < |r[i].s.log| && b < |r[i].s.log|
    requires r[i].s.log[a].seqno == r[i].s.log[b].seqno && |r[i].stream| < TWO32
    ensures r[i].s.log[a].pkt == r[i].s.log[b].pkt
  {
    RunKeeps(r, i);
    var h := r[i];
    assert Known(h.s.log[a], h.stream) && Known(h.s.log[b], h.stream);
    var p :| IsPacket(h.s.log[a], h.stream, p);
    var q :| IsPacket(h.s.log[b], h.stream, q);
    SmallDistance(p, q);
  }

  lemma SmallDistance(p: nat, q: nat)
    requires p < TWO32 && q < TWO32 && Wrap(FIRST + p) == Wrap(FIRST + q)
    ensures p == q
  {
    if p >= q {
      Distance(FIRST + p, FIRST + q);
    } else {
      Distance(FIRST + q, FIRST + p);
    }
  }

  /** With packets to spare, `TransmitPackets` leaves the window full or nothing unsent. */
  lemma TransmitFills(h: Hist, granted: nat)
    requires Inv(h) && h.s.Ok() && granted >= |h.s.queue|
    ensures var s := h.s.Transmit(granted);
            s.sent == |s.queue| || s.Window() == 0
  {
    TransmitKeeps(h, granted);
    hide Wrap, LogOk, Sender.Window;
    var g := h.(s := h.s.Transmit(granted));
    Counted(h.s, h.stream, h.acked);
    Counted(g.s, g.stream, g.acked);
    WindowBound(h.s);
    WindowBound(g.s);
    hide Sender.SendMany;
  }

  /** The window is used up or nothing is left to send. */
  predicate Filled(s: Sender) {
    s.sent == |s.queue| || s.Window() == 0
  }

  /** With packets to spare a message, an acknowledgement of new data and the duplicates up to the
      third are followed by all the packets that the window allows. */
  lemma EventFills(h: Hist, ev: Event)
    requires Inv(h) && Enabled(h, ev)
    requires || ev.EvOutput? || (ev.EvAck? && h.s.IsNewAck(ev.ackno))
             || (ev.EvAck? && ev.ackno == h.s.una && h.s.NextDup() <= REXMIT_THRESHOLD)
    requires ev.granted >= |h.s.queue| + if ev.EvOutput? then |ev.pkts| else 0
    ensures Filled(Do(h, ev).s)
  {
    hide Wrap, SeqLt, SeqGt, LogOk, Sender.Transmit, Sender.Acked, Sender.Window;
    match ev
    case EvOutput(pkts, granted) =>
      var g := h.(s := h.s.(queue := h.s.queue + pkts), stream := h.stream + pkts);
      LongerLog(h.s.log, h.stream, pkts);
      assert h.stream[h.acked..] + pkts == (h.stream + pkts)[h.acked..];
      TransmitFills(g, granted);
    case EvAck(ackno, count, hole, granted) =>
      NotLess(h.s.una);
      if ackno == h.s.una {
        DuplicateFills(h, count, hole, granted);
      } else {
        NewAckKeeps(h, ackno);
        TransmitFills(h.(s := h.s.NewAck(ackno), acked := h.acked + h.s.Acked(ackno)), granted);
      }
    case EvTick =>
  }

  lemma DuplicateFills(h: Hist, count: u16, hole: Option<nat>, granted: nat)
    requires Inv(h) && h.s.FindsBuffer(h.s.una, hole) && h.s.NextDup() <= REXMIT_THRESHOLD && granted >= |h.s.queue|
    requires !h.s.IsNewAck(h.s.una) && !SeqLt(h.s.una, h.s.una)
    ensures Filled(h.s.ProcessAck(h.s.una, count, hole, granted))
  {
    hide Wrap, SeqLt, SeqGt, LogOk, Sender.Transmit, Sender.IsNewAck, Sender.Window;
    MoreOoo(h, if count > h.maxOoo then count else h.maxOoo);
    var d := h.(s := h.s.(dup := h.s.NextDup(), ooo := count), maxOoo := if count > h.maxOoo then count else h.maxOoo);
    assert Inv(d);
    if d.s.dup < REXMIT_THRESHOLD {
      TransmitFills(d, granted);
    } else {
      SmallTick(d);
      ResendKeeps(d, 0);
      TransmitFills(d.(s := d.s.Resend()), granted);
    }
  }

  // ---------------------------------------------------------------- the timer

  /** Packets in flight imply a running timer. */
  predicate Armed(s: Sender) {
    s.sent > 0 ==> s.rto >= 0
  }

  lemma {:induction false} SendManyFrame(s: Sender, n: nat)
    requires s.sent + n <= |s.queue|
    ensures var t := s.SendMany(n);
            t.sent == s.sent + n && t.rto == s.rto && t.queue == s.queue
  {
  }

  /** The window never exceeds a batch, so `TransmitPackets` sends all that it wants or nothing. */
  lemma AllOrNothing(s: Sender, granted: nat)
    requires s.Ok()
    ensures var wanted, t := Min(s.Window(), |s.queue| - s.sent), s.Transmit(granted);
            t.sent == (if granted < wanted then s.sent else s.sent + wanted) && t.queue == s.queue
    ensures s.Transmit(granted).rto == s.rto || (s.rto == RTO_OFF && s.Transmit(granted).rto == 0)
    ensures s.rto == RTO_OFF && s.Transmit(granted).sent > s.sent ==> s.Transmit(granted).rto == 0
  {
    AtMostCwnd(s);
    hide Sender.Window;
    var wanted := Min(s.Window(), |s.queue| - s.sent);
    if wanted > 0 {
      SmallBatch(granted, wanted);
      SendManyFrame(s, if granted < wanted then 0 else wanted);
    }
    hide Sender.SendMany;
  }

  lemma SmallBatch(granted: nat, wanted: nat)
    requires wanted <= PACKETS
    ensures granted < wanted ==> granted - granted % PACKETS == 0
  {
  }

  lemma AtMostCwnd(s: Sender)
    ensures s.Window() <= CWND <= PACKETS
  {
    hide Wrap;
  }

  lemma TransmitArms(s: Sender, granted: nat)
    requires s.Ok() && Armed(s) && s.rto >= RTO_OFF
    ensures Armed(s.Transmit(granted))
  {
    hide Sender.Window, Sender.Transmit;
    AllOrNothing(s, granted);
  }

  lemma EventArms(h: Hist, ev: Event)
    requires Inv(h) && Enabled(h, ev) && Armed(h.s)
    ensures Armed(Do(h, ev).s)
  {
    match ev
    case EvOutput(pkts, granted) =>
      TransmitArms(h.s.(queue := h.s.queue + pkts), granted);
      hide Sender.Transmit;
    case EvAck(ackno, count, hole, granted) => AckArms(h, ackno, count, hole, granted);
    case EvTick =>
  }

  lemma AckArms(h: Hist, ackno: u32, count: u16, hole: Option<nat>, granted: nat)
    requires Inv(h) && Enabled(h, EvAck(ackno, count, hole, granted)) && Armed(h.s)
    ensures Armed(h.s.ProcessAck(ackno, count, hole, granted))
  {
    hide Wrap, SeqLt, SeqGt, LogOk, Aligned, Sender.Transmit, Sender.Acked, Sender.IsNewAck, Sender.Window;
    NotLess(h.s.una);
    var d := h.s.(dup := h.s.NextDup(), ooo := count);
    if ackno == h.s.una {
      TransmitArms(d, granted);
      if d.dup == REXMIT_THRESHOLD {
        TransmitArms(d.Resend(), granted);
      }
    } else if h.s.IsNewAck(ackno) {
      AckAll(h, ackno);
      AllAcked(h, ackno);
      TransmitArms(h.s.NewAck(ackno), granted);
    } else {
      TransmitArms(h.s, granted);
    }
    NewAckTest(h.s, ackno);
  }

  lemma NewAckTest(s: Sender, ackno: u32)
    ensures s.IsNewAck(ackno) <==> !SeqLt(ackno, s.una) && ackno != s.una && !SeqGt(ackno, s.nxt)
  {
  }

  lemma AllAcked(h: Hist, ackno: u32)
    requires Inv(h) && h.s.IsNewAck(ackno) && 0 <= h.s.Acked(ackno) <= h.s.sent
    ensures ackno == h.s.nxt ==> h.s.Acked(ackno) == h.s.sent
  {
    Counted(h.s, h.stream, h.acked);
    hide LogOk, Aligned, Sender.IsNewAck;
  }

  /** In every run, however many packets can be allocated, the timer runs while any packet is in
      flight. */
  lemma {:induction false} AlwaysArmed(r: seq<Hist>, k: nat)
    requires Run(r) && k < |r|
    ensures Armed(r[k].s)
  {
    hide Inv, Enabled, Do;
    if k > 0 {
      AlwaysArmed(r, k - 1);
      RunKeeps(r, k - 1);
      assert Next(r[k - 1], r[k - 1 + 1]);
      var ev :| Enabled(r[k - 1], ev) && r[k] == Do(r[k - 1], ev);
      EventArms(r[k - 1], ev);
    }
  }

  // ---------------------------------------------------------------- giving up

  /** What can happen at a flow that hears nothing. */
  datatype Call = Ticks | Sends(pkts: seq<Pkt>, granted: nat)

  /** Ticks that an armed sender which hears nothing survives. */
  function Lifetime(s: Sender): int {
    (REXMIT_THRESHOLD - s.rexmits) * RTO_TICKS + 1 - s.rto
  }

  /** The timer runs and has something to resend. */
  predicate Waiting(s: Sender) {
    s.Ok() && 0 <= s.rto < RTO_TICKS && s.rexmits <= REXMIT_THRESHOLD && (s.handshake || s.queue != [])
  }

  lemma TickAges(s: Sender)
    requires Waiting(s)
    ensures var (t, keep) := s.Tick();
            && (keep <==> s.rexmits < REXMIT_THRESHOLD)
            && (keep ==> Waiting(t) && Lifetime(t) == Lifetime(s) - 1 && Lifetime(s) > 1)
  {
  }

  /** Sending more does not prolong the life of a flow. */
  lemma SendAgesNot(s: Sender, pkts: seq<Pkt>, granted: nat)
    requires Waiting(s)
    ensures var t := s.OutputMessage(pkts, granted);
            Waiting(t) && Lifetime(t) == Lifetime(s)
  {
    hide Sender.Window, Sender.SendMany;
  }

  /** All ticks among the calls ask to keep the flow. */
  predicate Survives(s: Sender, calls: seq<Call>)
    requires s.Ok()
    decreases |calls|
  {
    calls == [] ||
    match calls[0]
    case Ticks => (s.rto >= 0 && !s.handshake ==> s.queue != []) && s.Tick().1 && Survives(s.Tick().0, calls[1..])
    case Sends(pkts, granted) => Survives(s.OutputMessage(pkts, granted), calls[1..])
  }

  function TickCount(calls: seq<Call>): nat {
    if calls == [] then 0 else (if calls[0].Ticks? then 1 else 0) + TickCount(calls[1..])
  }

  lemma {:induction false} SurvivesAtMost(s: Sender, calls: seq<Call>)
    requires Waiting(s) && Survives(s, calls)
    ensures TickCount(calls) < Lifetime(s) || TickCount(calls) == 0
    decreases |calls|
  {
    hide Lifetime, Sender.Tick, Sender.OutputMessage;
    if calls != [] {
      match calls[0]
      case Ticks =>
        TickAges(s);
        SurvivesAtMost(s.Tick().0, calls[1..]);
      case Sends(pkts, granted) =>
        SendAgesNot(s, pkts, granted);
        SurvivesAtMost(s.OutputMessage(pkts, granted), calls[1..]);
    }
  }

  /** After the last retransmission the next tick removes the flow, whatever is sent before. */
  lemma {:induction false} NoneLeft(s: Sender, calls: seq<Call>)
    requires s.Ok() && s.rto >= 0 && s.rexmits == REXMIT_THRESHOLD && Survives(s, calls)
    ensures TickCount(calls) == 0
    decreases |calls|
  {
    hide Sender.Window, Sender.SendMany;
    if calls != [] && calls[0].Sends? {
      NoneLeft(s.OutputMessage(calls[0].pkts, calls[0].granted), calls[1..]);
    }
  }

  /** In every run an armed flow that from then on receives nothing is removed by its tenth
      tick at the latest, however many messages are sent between the ticks. */
  lemma GivesUp(r: seq<Hist>, k: nat, calls: seq<Call>)
    requires Run(r) && k < |r| && r[k].s.Ok() && r[k].s.rto >= 0 && Survives(r[k].s, calls)
    ensures TickCount(calls) < 10
  {
    RunKeeps(r, k);
    hide Run, Survives;
    if r[k].s.rexmits < REXMIT_THRESHOLD {
      SurvivesAtMost(r[k].s, calls);
    } else {
      NoneLeft(r[k].s, calls);
    }
  }
}

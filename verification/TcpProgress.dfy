/** What an endpoint actually sends: retransmissions, probes, the FIN and answers. The safety
    results say that everything sent is sound; these say that it is sent. */
module TcpProgress {
  import opened Words
  import opened Common
  import opened TcpFraming
  import opened TcpFlowModel
  import opened TcpSafety
  import opened TcpSteps
  import opened TcpTimer

  // ---------------------------------------------------------------- consecutive data

  /** The bytes that data segments carry. */
  function Joined(segs: seq<Segment>): seq<u8> {
    if segs == [] then [] else Joined(segs[..|segs| - 1]) + segs[|segs| - 1].payload
  }

  /** The segments carry data without a gap from `seqNo` on, and acknowledge `rcv`. */
  predicate InRow(segs: seq<Segment>, seqNo: u32, rcv: u32) {
    segs == [] ||
    var last := segs[|segs| - 1];
    && InRow(segs[..|segs| - 1], seqNo, rcv)
    && last.seqNo == Wrap(seqNo + |Joined(segs[..|segs| - 1])|) && last.flags == ACK_PSH && last.ackNo == rcv
    && last.payload != []
  }

  lemma RowSnoc(segs: seq<Segment>, x: Segment, seqNo: u32, rcv: u32)
    requires InRow(segs, seqNo, rcv) && x.seqNo == Wrap(seqNo + |Joined(segs)|)
    requires x.flags == ACK_PSH && x.ackNo == rcv && x.payload != []
    ensures InRow(segs + [x], seqNo, rcv) && Joined(segs + [x]) == Joined(segs) + x.payload
  {
    hide Wrap;
    assert (segs + [x])[..|segs|] == segs;
  }

  /** One segment in front. */
  lemma {:induction false} RowFront(s: Segment, segs: seq<Segment>, seqNo: u32, rcv: u32)
    requires s.seqNo == seqNo && s.flags == ACK_PSH && s.ackNo == rcv && s.payload != []
    requires InRow(segs, Wrap(seqNo + |s.payload|), rcv)
    ensures InRow([s] + segs, seqNo, rcv) && Joined([s] + segs) == s.payload + Joined(segs)
    decreases |segs|
  {
    hide Wrap, InRow, Joined;
    if segs == [] {
      SmallWrap(seqNo);
      NoRow(seqNo, rcv);
      RowSnoc([], s, seqNo, rcv);
      assert [s] + segs == [] + [s];
    } else {
      var n := |segs| - 1;
      var some, x := segs[..n], segs[n];
      RowInit(segs, Wrap(seqNo + |s.payload|), rcv);
      RowFront(s, some, seqNo, rcv);
      NextNumber(seqNo, |s.payload|, |Joined(some)|);
      RowSnoc([s] + some, x, seqNo, rcv);
      assert [s] + segs == ([s] + some) + [x];
    }
  }

  lemma RowInit(segs: seq<Segment>, seqNo: u32, rcv: u32)
    requires InRow(segs, seqNo, rcv) && segs != []
    ensures var some, x := segs[..|segs| - 1], segs[|segs| - 1];
            && InRow(some, seqNo, rcv) && Joined(segs) == Joined(some) + x.payload
            && x.seqNo == Wrap(seqNo + |Joined(some)|) && x.flags == ACK_PSH && x.ackNo == rcv && x.payload != []
  {
    hide Wrap;
  }

  lemma NextNumber(seqNo: u32, a: nat, b: nat)
    ensures Wrap(Wrap(seqNo + a) + b) == Wrap(seqNo + (a + b))
  {
    WrapParts(seqNo + a, b);
  }

  /** What the data loop appends to the log. */
  function News(f: Flow, g: Flow): seq<Segment>
    requires |f.tx| <= |g.tx|
  {
    g.tx[|f.tx|..]
  }

  lemma Slices(xs: seq<u8>, i: nat, j: nat, k: nat)
    requires i <= j <= k <= |xs|
    ensures xs[i..j] + xs[j..k] == xs[i..k]
  {
  }

  /** The data loop sends the buffered bytes behind `nxt` in a row. */
  lemma {:induction false} DataInRow(f: Flow, edge: u32, b: nat)
    requires f.Ok() && edge == Wrap(f.una + f.wnd) && f.InFlight() <= |f.buf|
    ensures var g := f.SendData(edge, b);
            && f.tx <= g.tx && InRow(News(f, g), f.nxt, f.rcv) && f.InFlight() <= g.InFlight() <= |f.buf|
            && Joined(News(f, g)) == f.buf[f.InFlight()..g.InFlight()]
    decreases b
  {
    hide Wrap, SeqLt, Flow.Ok, Flow.SendData, InRow, Joined, Flow.InFlight, Turn, Flow.SegLen, Flow.EffMss;
    if b > 0 && SeqLt(f.nxt, f.BufferedEnd()) && SeqLt(f.nxt, edge) {
      var h := Turn(f, edge);
      TurnRow(f, edge);
      SendDataTurn(f, edge, b);
      DataInRow(h, edge, b - 1);
      var g := h.SendData(edge, b - 1);
      var s := h.tx[|f.tx|];
      NewsFront(f, h, g);
      RowFront(s, News(h, g), f.nxt, f.rcv);
      Slices(f.buf, f.InFlight(), h.InFlight(), g.InFlight());
    } else {
      SendDataStops(f, edge, b);
      NoRow(f.nxt, f.rcv);
    }
  }

  lemma NoRow(seqNo: u32, rcv: u32)
    ensures InRow([], seqNo, rcv) && Joined([]) == []
  {
  }

  lemma NewsFront(f: Flow, h: Flow, g: Flow)
    requires |h.tx| == |f.tx| + 1 && f.tx <= h.tx <= g.tx
    ensures f.tx <= g.tx && News(f, g) == [h.tx[|f.tx|]] + News(h, g)
  {
    assert g.tx[|f.tx|] == h.tx[|f.tx|];
  }

  lemma SendDataStops(f: Flow, edge: u32, b: nat)
    requires f.Ok() && !(b > 0 && SeqLt(f.nxt, f.BufferedEnd()) && SeqLt(f.nxt, edge))
    ensures f.SendData(edge, b) == f && News(f, f) == [] && f.InFlight() <= |f.buf| + 1
  {
    hide Wrap, SeqLt;
  }

  lemma TurnRow(f: Flow, edge: u32)
    requires f.Ok() && edge == Wrap(f.una + f.wnd) && SeqLt(f.nxt, f.BufferedEnd()) && SeqLt(f.nxt, edge)
    ensures var h, n := Turn(f, edge), f.SegLen(edge);
            && h.Ok() && h == f.(tx := h.tx, nxt := Wrap(f.nxt + n)) && h.InFlight() == f.InFlight() + n <= |f.buf|
            && n == Min(Min(f.wnd, |f.buf|) - f.InFlight(), f.EffMss()) >= 1
            && h.tx == f.tx + [Segment(f.nxt, f.rcv, ACK_PSH, WINDOW, [], f.buf[f.InFlight()..f.InFlight() + n])]
  {
    hide Wrap, SeqLt, RxFields.Valid;
    f.Room();
    EdgeDistance(f, edge);
    SegLenBounds(f, edge);
    f.Advance(f.SegLen(edge));
  }

  // ---------------------------------------------------------------- what PumpSend sends

  /** The window or the buffer ends the data loop, whichever comes first. */
  lemma {:induction false} DataWithin(f: Flow, edge: u32, b: nat)
    requires f.Ok() && edge == Wrap(f.una + f.wnd) && f.InFlight() <= |f.buf|
    ensures var g, most := f.SendData(edge, b), Min(|f.buf|, f.wnd);
            && |f.tx| <= |g.tx| <= |f.tx| + b
            && (if f.InFlight() >= most then g == f else g.InFlight() <= most)
            && (b >= |f.buf| - f.InFlight() && f.InFlight() < most ==> g.InFlight() == most)
            && (b > 0 && f.InFlight() < most ==>
                  && |g.tx| > |f.tx|
                  && |g.tx[|f.tx|].payload| == Min(most - f.InFlight(), f.EffMss()))
    decreases b
  {
    hide Wrap, SeqLt, Flow.Ok, Flow.SendData, Flow.InFlight, Turn, Flow.SegLen, Flow.EffMss;
    Continues(f, edge);
    if b > 0 && SeqLt(f.nxt, f.BufferedEnd()) && SeqLt(f.nxt, edge) {
      var h := Turn(f, edge);
      TurnRow(f, edge);
      SendDataTurn(f, edge, b);
      DataWithin(h, edge, b - 1);
      SameMss(f, h);
      DataInRow(h, edge, b - 1);
    } else {
      SendDataStops(f, edge, b);
    }
  }

  lemma SameMss(f: Flow, h: Flow)
    requires h.peerMss == f.peerMss
    ensures h.EffMss() == f.EffMss()
  {
  }

  lemma Continues(f: Flow, edge: u32)
    requires f.Ok() && edge == Wrap(f.una + f.wnd) && f.InFlight() <= |f.buf|
    ensures SeqLt(f.nxt, f.BufferedEnd()) && SeqLt(f.nxt, edge) <==> f.InFlight() < Min(|f.buf|, f.wnd)
  {
    hide Wrap, SeqLt, RxFields.Valid;
    f.Room();
    EdgeDistance(f, edge);
  }

  /** The FIN as it is sent behind the buffered data. */
  function FinSegment(f: Flow): Segment {
    Segment(f.BufferedEnd(), f.rcv, FIN_ACK, WINDOW, [], [])
  }

  lemma FinFollows(f: Flow, b: nat)
    requires f.Ok() && f.InFlight() <= |f.buf|
    ensures var g := f.SendFin(b).ArmTimer();
            && f.tx <= g.tx
            && var due := f.finPending && !f.finSent && f.InFlight() == |f.buf| && b > 0;
               News(f, g) == if due then [FinSegment(f)] else []
  {
    hide Wrap, SeqLt, RxFields.Valid;
    f.Room();
  }

  /** The data sent by a flow that has `o` of its buffered bytes in flight: the next bytes in a
      row, as many as window, buffer and packets allow, the first segment as long as possible. */
  predicate SendsData(f: Flow, o: nat, b: nat, data: seq<Segment>)
    requires o <= |f.buf|
  {
    var most, end := Min(|f.buf|, f.wnd), o + |Joined(data)|;
    && InRow(data, Wrap(f.una + o), f.rcv) && end <= |f.buf| && Joined(data) == f.buf[o..end] && |data| <= b
    && (if o >= most then data == [] else end <= most)
    && (b >= |f.buf| - o && o < most ==> end == most)
    && (b > 0 && o < most ==> data != [] && |data[0].payload| == Min(most - o, f.EffMss()))
  }

  /** And the FIN, when it is due, all data is out and a packet is left. */
  predicate Sends(f: Flow, o: nat, b: nat, data: seq<Segment>, all: seq<Segment>)
    requires o <= |f.buf|
  {
    && SendsData(f, o, b, data)
    && var due := f.finPending && !f.finSent && o + |Joined(data)| == |f.buf| && |data| < b;
       all == data + if due then [FinSegment(f)] else []
  }

  lemma LoopSends(f: Flow, b: nat)
    requires f.Ok() && f.InFlight() <= |f.buf|
    ensures var g := f.SendData(Wrap(f.una + f.wnd), b);
            && f.tx <= g.tx && SendsData(f, f.InFlight(), b, News(f, g))
            && g.InFlight() == f.InFlight() + |Joined(News(f, g))| <= |f.buf|
  {
    hide Wrap, SeqLt, Flow.Ok, Flow.SendData, Flow.InFlight, InRow, Joined, Flow.EffMss;
    var edge := Wrap(f.una + f.wnd);
    DataInRow(f, edge, b);
    DataWithin(f, edge, b);
    NxtOffset(f);
  }

  lemma PumpSends(f: Flow, b: nat) returns (data: seq<Segment>)
    requires f.Ok() && f.CanSend() && f.InFlight() <= |f.buf|
    ensures f.tx <= f.PumpSend(b).tx && Sends(f, f.InFlight(), b, data, News(f, f.PumpSend(b)))
  {
    hide Wrap, Flow.Ok, Flow.SendData, Flow.SendFin, Flow.ArmTimer, Flow.InFlight, SendsData, FinSegment, Joined;
    LoopSends(f, b);
    var g := f.SendData(Wrap(f.una + f.wnd), b);
    data := News(f, g);
    var left := if |data| <= b then b - |data| else 0;
    FinFollows(g, left);
    SameFin(f, g);
    AtMost(f, b, data);
    NewsThen(f, g, g.SendFin(left).ArmTimer());
  }

  lemma SameFin(f: Flow, g: Flow)
    requires g.una == f.una && g.buf == f.buf && g.rcv == f.rcv
    ensures FinSegment(g) == FinSegment(f)
  {
  }

  lemma AtMost(f: Flow, b: nat, data: seq<Segment>)
    requires f.InFlight() <= |f.buf| && SendsData(f, f.InFlight(), b, data)
    ensures |data| <= b
  {
  }

  lemma NewsThen(f: Flow, g: Flow, h: Flow)
    requires f.tx <= g.tx <= h.tx
    ensures f.tx <= h.tx && News(f, h) == News(f, g) + News(g, h)
  {
  }

  lemma NxtOffset(f: Flow)
    ensures f.nxt == Wrap(f.una + f.InFlight())
  {
    Offset(f.una, f.nxt);
  }

  // ---------------------------------------------------------------- the timer expires

  /** The next tick finds the timer expired and the flow not yet given up. */
  predicate Expires(f: Flow) {
    f.Ok() && f.state != Closed && f.state != TimeWait && f.rtoOn && f.rtoLeft == 0 && f.rexmits < MAX_REXMIT
  }

  lemma ExpiryRetransmits(f: Flow, b: nat)
    requires Expires(f)
    ensures var g := f.(rexmits := f.rexmits + 1);
            g.Ok() && f.PeriodicCheck(b) == (g.Retransmit(b).(rtoLeft := INITIAL_RTO), true)
  {
    hide Wrap, RxFields.Valid, Flow.Retransmit;
  }

  /** Without an expired timer a tick only counts. */
  lemma TickCounts(f: Flow, b: nat)
    requires f.Ok() && f.state != Closed && f.state != TimeWait && (!f.rtoOn || f.rtoLeft > 0)
    ensures f.PeriodicCheck(b) == (if f.rtoOn then f.(rtoLeft := f.rtoLeft - 1) else f, true)
  {
    hide Wrap, RxFields.Valid, Flow.Retransmit;
  }

  /** The flow as it stands after a go-back-N: nothing is in flight, the FIN not sent. */
  function Rewound(f: Flow): Flow {
    f.(nxt := f.una, finSent := false)
  }

  lemma RewoundOk(f: Flow)
    requires f.Ok()
    ensures Rewound(f).Ok() && Rewound(f).InFlight() == 0
  {
    hide RxFields.Valid;
    Same(f.una);
  }

  lemma ProbeOrRewind(f: Flow, b: nat)
    requires f.Ok() && f.CanSend()
    ensures f.Retransmit(b)
            == if f.wnd == 0 && f.InFlight() < |f.buf| then f.ZeroWindowProbe(b) else f.RetransmitUnacked(b)
  {
    hide Wrap, SeqLt, RxFields.Valid, Flow.ZeroWindowProbe, Flow.RetransmitUnacked;
    f.Room();
  }

  lemma {:induction false} RowFirst(segs: seq<Segment>, seqNo: u32, rcv: u32)
    requires InRow(segs, seqNo, rcv) && segs != []
    ensures segs[0].seqNo == seqNo && segs[0].payload <= Joined(segs)
    decreases |segs|
  {
    hide Wrap, InRow, Joined;
    RowInit(segs, seqNo, rcv);
    if |segs| > 1 {
      RowFirst(segs[..|segs| - 1], seqNo, rcv);
    } else {
      assert segs[..0] == [];
      NoRow(seqNo, rcv);
      SmallWrap(seqNo);
    }
  }

  /** What is sent again: everything from `snd_una_` on, in a row, as far as window and packets
      go: at least one segment, with the oldest bytes, and with packets to spare all that the
      window allows; and then the FIN, if the close is pending. */
  predicate Resends(f: Flow, b: nat, data: seq<Segment>, all: seq<Segment>) {
    && InRow(data, f.una, f.rcv) && Joined(data) <= f.buf[..Min(|f.buf|, f.wnd)]
    && (b >= |f.buf| ==> Joined(data) == f.buf[..Min(|f.buf|, f.wnd)])
    && (b > 0 && f.buf != [] && f.wnd > 0 ==>
          && all != [] && all[0].seqNo == f.una
          && all[0].payload == f.buf[..Min(Min(|f.buf|, f.wnd), f.EffMss())])
    && all == data + if f.finPending && |Joined(data)| == |f.buf| && |data| < b then [FinSegment(f)] else []
  }

  lemma RewoundResends(f: Flow, b: nat, data: seq<Segment>, all: seq<Segment>)
    requires Sends(Rewound(f), 0, b, data, all)
    ensures Resends(f, b, data, all)
  {
    hide Wrap, RxFields.Valid, InRow, Joined, Flow.EffMss, FinSegment;
    SmallWrap(f.una);
    SameFin(f, Rewound(f));
    SameMss(f, Rewound(f));
    if data != [] {
      RowFirst(data, f.una, f.rcv);
      assert all[0] == data[0];
      PrefixOf(f.buf, Joined(data), data[0].payload);
    } else {
      NoRow(f.una, f.rcv);
    }
  }

  lemma PrefixOf(xs: seq<u8>, ys: seq<u8>, zs: seq<u8>)
    requires |ys| <= |xs| && ys == xs[0..|ys|] && zs <= ys
    ensures zs == xs[..|zs|]
  {
  }

  lemma SameResends(f: Flow, g: Flow, b: nat, data: seq<Segment>, all: seq<Segment>)
    requires Resends(g, b, data, all) && g == f.(rexmits := g.rexmits)
    ensures Resends(f, b, data, all)
  {
    hide Wrap, InRow, Joined;
  }

  /** Go-back-N: an expired timer resends. */
  lemma ExpiryResends(f: Flow, b: nat) returns (data: seq<Segment>)
    requires Expires(f) && f.CanSend() && !(f.wnd == 0 && f.InFlight() < |f.buf|)
    ensures var (g, keep) := f.PeriodicCheck(b);
            keep && f.tx <= g.tx && Resends(f, b, data, News(f, g))
  {
    hide Wrap, RxFields.Valid, Flow.PumpSend, Flow.PeriodicCheck, Flow.Retransmit, Resends, Sends;
    var f' := f.(rexmits := f.rexmits + 1);
    ExpiryRetransmits(f, b);
    ProbeOrRewind(f', b);
    RewoundOk(f');
    data := PumpSends(Rewound(f'), b);
    RewoundResends(f', b, data, News(Rewound(f'), Rewound(f').PumpSend(b)));
    SameResends(f, f', b, data, News(f, f.PeriodicCheck(b).0));
  }

  /** With a closed window an expired timer probes with the next byte, and with nothing else. */
  lemma ExpiryProbes(f: Flow, b: nat)
    requires Expires(f) && f.CanSend() && f.wnd == 0 && f.InFlight() < |f.buf| && b > 0
    ensures var (g, keep) := f.PeriodicCheck(b);
            && keep && f.tx <= g.tx
            && News(f, g) == [Segment(f.nxt, f.rcv, ACK_PSH, WINDOW, [], [f.buf[f.InFlight()]])]
  {
    hide Wrap, RxFields.Valid, Flow.PeriodicCheck, Flow.Retransmit, Flow.ZeroWindowProbe, Flow.InFlight;
    var f' := f.(rexmits := f.rexmits + 1);
    SameFlight(f, f');
    ExpiryRetransmits(f, b);
    ProbeOrRewind(f', b);
    ProbeSends(f', b);
  }

  lemma ProbeSends(f: Flow, b: nat)
    requires f.Ok() && f.InFlight() < |f.buf| && b > 0
    ensures f.ZeroWindowProbe(b) == f.(tx := f.tx + [Segment(f.nxt, f.rcv, ACK_PSH, WINDOW, [], [f.buf[f.InFlight()]])])
  {
    hide Wrap, SeqLt, RxFields.Valid;
    f.Room();
    assert f.buf[f.InFlight()..f.InFlight() + 1] == [f.buf[f.InFlight()]];
  }

  /** While the handshake is unanswered an expired timer repeats its part of it. */
  lemma ExpiryShakes(f: Flow, b: nat)
    requires Expires(f) && (f.state == SynSent || f.state == SynReceived)
    ensures var (g, keep) := f.PeriodicCheck(b);
            && keep && g.state == f.state && g.nxt == Wrap(f.isn + 1) && f.tx <= g.tx
            && News(f, g) == [if f.state == SynSent then Segment(f.isn, 0, SYN, WINDOW, MssOption(DEFAULT_MSS), [])
                              else Segment(f.isn, f.rcv, SYN_ACK, WINDOW, MssOption(DEFAULT_MSS), [])]
  {
    hide Wrap, RxFields.Valid, Flow.PeriodicCheck, MssOption;
    ExpiryRetransmits(f, b);
  }

  /** TIME_WAIT ends at the sixth tick. */
  lemma {:induction false} TimeWaitEnds(f: Flow, b: nat)
    requires f.Ok() && f.state == TimeWait
    ensures var (g, keep) := f.PeriodicCheck(b);
            && g.tx == f.tx && (keep <==> f.timeWait > 0)
            && (if keep then g.state == TimeWait && g.timeWait == f.timeWait - 1 else g.state == Closed)
  {
    hide Wrap, RxFields.Valid, Flow.Retransmit;
  }

  // ---------------------------------------------------------------- the application's calls

  /** A close sends the FIN behind the buffered data as soon as the window and packets allow. */
  lemma CloseSends(f: Flow, b: nat) returns (data: seq<Segment>)
    requires f.Ok() && f.CanAccept() && f.InFlight() <= |f.buf| && !f.finSent
    ensures var g := f.ShutDown(b);
            && g.state == (if f.state == Established then FinWait1 else LastAck) && g.finPending
            && f.tx <= g.tx && SendsData(f, f.InFlight(), b, data)
            && News(f, g)
               == data + (if f.InFlight() + |Joined(data)| == |f.buf| && |data| < b then [FinSegment(f)] else [])
            && (b > |f.buf| - f.InFlight() && |f.buf| <= f.wnd ==> News(f, g) == data + [FinSegment(f)])
  {
    hide Wrap, RxFields.Valid, Flow.PumpSend, InRow, Joined, Flow.EffMss, FinSegment, Flow.InFlight;
    var f' := f.(finPending := true, state := if f.state == Established then FinWait1 else LastAck);
    ClosingOk(f);
    SameFin(f, f');
    SameMss(f, f');
    SameFlight(f, f');
    data := PumpSends(f', b);
    PumpFrame(f', b);
    RowShort(data, Wrap(f.una + f.InFlight()), f.rcv);
  }

  lemma ClosingOk(f: Flow)
    requires f.Ok() && f.CanAccept()
    ensures f.(finPending := true, state := if f.state == Established then FinWait1 else LastAck).Ok()
  {
    hide Wrap, RxFields.Valid;
  }

  lemma SameFlight(f: Flow, g: Flow)
    requires g.una == f.una && g.nxt == f.nxt
    ensures g.InFlight() == f.InFlight()
  {
  }

  /** No segment of a row is empty. */
  lemma {:induction false} RowShort(segs: seq<Segment>, seqNo: u32, rcv: u32)
    requires InRow(segs, seqNo, rcv)
    ensures |segs| <= |Joined(segs)|
    decreases |segs|
  {
    hide Wrap, InRow, Joined;
    if segs != [] {
      RowInit(segs, seqNo, rcv);
      RowShort(segs[..|segs| - 1], seqNo, rcv);
    }
  }

  /** A close in any other state resets the connection. */
  lemma CloseResets(f: Flow, b: nat)
    requires f.Ok() && !f.CanAccept()
    ensures var g := f.ShutDown(b);
            g.state == Closed && !g.rtoOn && f.tx <= g.tx && News(f, g) == [Segment(f.nxt, 0, RST, WINDOW, [], [])]
  {
  }

  /** A message is taken exactly if the flow may send, its frame fits the 16 MB of the send buffer
      and the chain has as many bytes as announced. */
  lemma AcceptsIff(f: Flow, n: u32, chain: seq<seq<u8>>)
    requires PREFIX + n < TWO32
    ensures f.Accepts(n, chain) <==>
              && (f.state == Established || f.state == CloseWait)
              && |f.buf| + 4 + n <= 16 * 1024 * 1024 && n <= |Flatten(chain)|
  {
    SmallWrap(PREFIX + n);
  }

  /** Whether it is taken or not, a message's buffers are all freed; an accepted one is sent at
      once as far as window and packets allow. */
  lemma OutputFrees(f: Flow, n: u32, chain: seq<seq<u8>>, b: nat)
    requires f.Ok() && PREFIX + n < TWO32
    ensures var g := f.OutputMessage(n, chain, b);
            && g.freed == f.freed + |chain|
            && (!f.Accepts(n, chain) ==> g == f.(freed := g.freed))
  {
    hide Wrap, RxFields.Valid, Flow.PumpSend, Frame, Flatten;
    SmallWrap(PREFIX + n);
    if f.Accepts(n, chain) {
      var f' := f.(freed := f.freed + |chain|, buf := f.buf + Frame(Flatten(chain)[..n]));
      assert f'.Ok();
      PumpFrame(f', b);
    }
  }

  lemma OutputSends(f: Flow, n: u32, chain: seq<seq<u8>>, b: nat) returns (data: seq<Segment>)
    requires f.Ok() && PREFIX + n < TWO32 && f.Accepts(n, chain) && f.InFlight() <= |f.buf| && !f.finPending
    ensures var g, f' := f.OutputMessage(n, chain, b), f.(buf := f.buf + Frame(Flatten(chain)[..n]));
            f.tx <= g.tx && SendsData(f', f.InFlight(), b, News(f, g)) && data == News(f, g)
  {
    hide Wrap, RxFields.Valid, Flow.PumpSend, Frame, Flatten, InRow, Joined, Flow.EffMss, FinSegment, Flow.InFlight;
    SmallWrap(PREFIX + n);
    var f' := f.(freed := f.freed + |chain|, buf := f.buf + Frame(Flatten(chain)[..n]));
    LongerOk(f, f');
    SameFlight(f, f');
    SameFlight(f, f'.(freed := f.freed));
    SameMss(f', f'.(freed := f.freed));
    data := PumpSends(f', b);
    assert data + [] == data;
  }

  lemma LongerOk(f: Flow, g: Flow)
    requires f.Ok() && f.CanAccept() && |g.buf| <= MAX_SEND_BUF && |f.buf| <= |g.buf|
    requires g == f.(freed := g.freed, buf := g.buf)
    ensures g.Ok()
  {
    hide Wrap, RxFields.Valid;
  }

  // ---------------------------------------------------------------- answers

  /** The last segment sent acknowledges all that has been received. */
  predicate Acknowledges(f: Flow, g: Flow) {
    |f.tx| < |g.tx| && f.tx <= g.tx && g.tx[|g.tx| - 1].flags.ack && g.tx[|g.tx| - 1].ackNo == g.rcv
  }

  predicate AllAck(f: Flow, g: Flow) {
    f.tx <= g.tx && forall i :: |f.tx| <= i < |g.tx| ==> g.tx[i].flags.ack && g.tx[i].ackNo == f.rcv
  }

  lemma {:induction false} LoopAcks(f: Flow, edge: u32, b: nat)
    requires f.Ok() && edge == Wrap(f.una + f.wnd)
    ensures AllAck(f, f.SendData(edge, b))
    decreases b
  {
    hide Wrap, SeqLt, Flow.Ok, Flow.SendData, Turn, Flow.SegLen, Flow.EffMss;
    if b > 0 && SeqLt(f.nxt, f.BufferedEnd()) && SeqLt(f.nxt, edge) {
      TurnRow(f, edge);
      SendDataTurn(f, edge, b);
      LoopAcks(Turn(f, edge), edge, b - 1);
    } else {
      SendDataStops(f, edge, b);
    }
  }

  /** Everything `PumpSend` sends carries the acknowledgement. */
  lemma PumpAcks(f: Flow, b: nat)
    requires f.Ok()
    ensures AllAck(f, f.PumpSend(b))
  {
    hide Wrap, SeqLt, RxFields.Valid, Flow.SendData;
    if f.CanSend() {
      LoopAcks(f, Wrap(f.una + f.wnd), b);
    }
  }

  lemma StillAcknowledges(f: Flow, g: Flow, b: nat)
    requires g.Ok() && Acknowledges(f, g)
    ensures Acknowledges(f, g.PumpSend(b))
  {
    hide Wrap, RxFields.Valid, Flow.PumpSend, Flow.Ok;
    PumpAcks(g, b);
    PumpFrame(g, b);
  }

  /** Payload processing does not send, and its acknowledgement covers what it took. */
  lemma PayloadAnswered(f: Flow, s: Segment)
    requires f.Ok() && s.payload != [] && |s.payload| < 0x1_0000
    ensures Acknowledges(f, f.TakePayload(s))
  {
    hide Wrap, SeqLt, SeqLeq, SeqGt, RxFields.Valid, Consume;
  }

  lemma AckSendsNothing(f: Flow, ack: u32)
    requires f.Ok() && !f.Opening()
    ensures f.AdvanceSndUna(ack).tx == f.tx && f.AdvanceSndUna(ack).rcv == f.rcv
  {
    hide Wrap, SeqLt, SeqLeq, SeqGt, RxFields.Valid;
  }

  lemma FinAnswered(f: Flow, g: Flow, s: Segment)
    requires g.Ok() && Acknowledges(f, g) && |s.payload| < 0x1_0000
    ensures g.state == Established ==> Acknowledges(f, g.EstablishedFin(Wrap(s.seqNo + |s.payload|)))
    ensures g.state == FinWait1 || g.state == FinWait2 ==> Acknowledges(f, g.PeerFin(s))
    ensures g.state == FinWait1 ==> Acknowledges(f, g.CloseFinWait1(s))
  {
    hide Wrap, SeqLt, RxFields.Valid, Flow.Ok;
  }

  /** Every segment that brings data, in order or not, is answered by an acknowledgement of all
      that has been received. */
  lemma DataAnswered(f: Flow, s: Segment, b: nat)
    requires f.Ok() && !s.flags.rst && s.payload != [] && |s.payload| < 0x1_0000
    requires (f.state == Established && !s.flags.syn) || f.state == FinWait1 || f.state == FinWait2
    ensures Acknowledges(f, f.InputSegment(s, b))
  {
    hide Wrap, SeqLt, RxFields.Valid, Flow.Ok, Flow.AdvanceSndUna, Flow.TakePayload, Flow.EstablishedFin, Flow.PeerFin,
      Flow.CloseFinWait1, Flow.PumpSend, Acknowledges;
    if f.state != FinWait2 {
      AckSendsNothing(f, s.ackNo);
    }
    var g := match f.state
             case Established => f.TakeAck(s)
             case FinWait1 => if s.flags.ack then f.AdvanceSndUna(s.ackNo) else f
             case _ => f;
    PayloadAnswered(g, s);
    FromSame(f, g, g.TakePayload(s));
    FinAnswered(f, g.TakePayload(s), s);
    StillAcknowledges(f, f.Dispatch(s), b);
  }

  lemma FromSame(f: Flow, g: Flow, h: Flow)
    requires g.tx == f.tx && Acknowledges(g, h)
    ensures Acknowledges(f, h)
  {
  }

  // ---------------------------------------------------------------- opening, closing, resetting

  /** With nothing buffered and nothing outstanding, `PumpSend` does nothing. */
  lemma PumpNothing(f: Flow, b: nat)
    requires f.Ok() && f.buf == [] && f.una == f.nxt && !f.finPending && !f.finSent
    ensures f.PumpSend(b) == f
  {
    Same(f.una);
    SmallWrap(f.una);
    f.Room();
    hide Wrap, SeqLt;
  }

  /** An active open sends the SYN and starts the timer; a passive one waits. */
  lemma Opens(f: Flow)
    requires f.Ok() && f.Fresh() && f.rexmits <= MAX_REXMIT
    ensures var g := f.InitiateHandshake();
            && g.state == SynSent && g.rtoOn && g.rtoLeft == INITIAL_RTO && g.nxt == Wrap(f.isn + 1) && f.tx <= g.tx
            && News(f, g) == [Segment(f.isn, 0, SYN, WINDOW, MssOption(DEFAULT_MSS), [])]
    ensures f.StartPassiveOpen() == f.(state := Listen)
  {
    hide Wrap, RxFields.Valid, MssOption;
  }

  /** A SYN is answered, and its sender's MSS learned. */
  lemma SynAnswered(f: Flow, s: Segment, b: nat)
    requires f.Ok() && f.state == Listen && s.flags.syn && !s.flags.rst && |s.payload| < 0x1_0000
    ensures var g := f.InputSegment(s, b);
            && g.state == SynReceived && g.rcv == Wrap(s.seqNo + 1) && g.peerMss == ParseMss(s.opts, 0, f.peerMss)
            && g.rtoOn && f.tx <= g.tx
            && News(f, g) == [Segment(f.isn, g.rcv, SYN_ACK, WINDOW, MssOption(DEFAULT_MSS), [])]
  {
    hide Wrap, RxFields.Valid, ParseMss, MssOption;
    f.SynInFlight();
  }

  /** A SYN that crosses ours is answered too: the simultaneous open. */
  lemma CrossingSynAnswered(f: Flow, s: Segment, b: nat)
    requires f.Ok() && f.state == SynSent && s.flags.syn && !s.flags.ack && !s.flags.rst && |s.payload| < 0x1_0000
    ensures var g := f.InputSegment(s, b);
            && g.state == SynReceived && g.rcv == Wrap(s.seqNo + 1) && g.peerMss == ParseMss(s.opts, 0, f.peerMss)
            && g.rtoOn == f.rtoOn && f.tx <= g.tx
            && News(f, g) == [Segment(f.isn, g.rcv, SYN_ACK, WINDOW, MssOption(DEFAULT_MSS), [])]
  {
    hide Wrap, RxFields.Valid, ParseMss, MssOption;
    f.SynInFlight();
  }

  /** A SYN-ACK of our SYN establishes the flow with the peer's window and MSS, tells the
      application and is acknowledged; any other one changes nothing. */
  lemma SynAckAnswered(f: Flow, s: Segment, b: nat)
    requires f.Ok() && f.state == SynSent && f.nxt == Wrap(f.isn + 1) && s.flags.syn && s.flags.ack && !s.flags.rst
    requires |s.payload| < 0x1_0000
    ensures var g := f.InputSegment(s, b);
            if s.ackNo == f.nxt then
              && g.state == Established && g.rcv == Wrap(s.seqNo + 1) && g.una == s.ackNo && g.wnd == s.wnd
              && g.peerMss == ParseMss(s.opts, 0, f.peerMss) && g.notices == f.notices + [true]
              && f.tx <= g.tx && News(f, g) == [Segment(f.nxt, g.rcv, ACK, WINDOW, [], [])]
            else g == f
  {
    hide Wrap, RxFields.Valid, ParseMss, Flow.PumpSend;
    f.SynInFlight();
    if s.ackNo == f.nxt {
      PumpNothing(f.HandleSynSent(s), b);
    } else {
      PumpIdle(f, b);
    }
  }

  /** The acknowledgement of our SYN-ACK establishes the flow with the peer's window. */
  lemma AckEstablishes(f: Flow, s: Segment, b: nat)
    requires f.Ok() && f.state == SynReceived && s.flags.ack && !s.flags.rst && |s.payload| < 0x1_0000
    ensures var g := f.InputSegment(s, b);
            if s.ackNo == f.nxt then
              && g.state == Established && g.una == s.ackNo && g.wnd == s.wnd
              && (g.rcv != f.rcv ==> Acknowledges(f, g))
            else g == f
  {
    hide Wrap, SeqLeq, SeqGt, RxFields.Valid, Consume, Flow.PumpSend;
    if s.ackNo == f.nxt {
      Same(f.nxt);
      PumpFrame(f.HandleSynReceived(s), b);
      PumpAcks(f.HandleSynReceived(s), b);
    } else {
      PumpIdle(f, b);
    }
  }

  /** In every state in which we may have data or a FIN in flight, an acknowledgement moves
      `snd_una_` exactly if it lies in what is in flight. */
  lemma AckMoves(f: Flow, s: Segment, b: nat)
    requires f.Ok() && f.CanSend() && s.flags.ack && !s.flags.syn && !s.flags.rst && |s.payload| < 0x1_0000
    ensures var g, d := f.InputSegment(s, b), Wrap(s.ackNo - f.una);
            && g.una == (if 0 < d <= f.InFlight() then s.ackNo else f.una)
            && (f.state == LastAck ==> g.state == Closed)
  {
    hide Wrap, SeqLt, SeqLeq, SeqGt, RxFields.Valid, Flow.Ok, Flow.AdvanceSndUna, Flow.PumpSend, Flow.TakePayload,
      Flow.EstablishedFin, Flow.PeerFin, Flow.InFlight;
    UnaAfter(f, s.ackNo);
    var a := if f.state == Established then f.TakeAck(s) else f.AdvanceSndUna(s.ackNo);
    PumpFrame(f.Dispatch(s), b);
    if f.state == Established {
      UnaKept(a, s);
    } else if f.state == FinWait1 {
      UnaKept(a, s);
    }
  }

  lemma UnaAfter(f: Flow, ack: u32)
    requires f.Ok() && !f.Opening()
    ensures var g := f.AdvanceSndUna(ack);
            g.una == (if 0 < Wrap(ack - f.una) <= f.InFlight() then ack else f.una) && g.state == f.state
  {
    hide Wrap, Signed, SeqLt, SeqLeq, SeqGt, RxFields.Valid;
    var d: int := Wrap(ack - f.una);
    var una: int := f.una;
    Offset(f.una, ack);
    Offset(f.una, f.nxt);
    SmallWrap(f.una);
    var y := if d < TWO31 then d else d - TWO32;
    WrapAdd(una + y, 1);
    SerialOrder(una + y, una);
    if d < TWO31 {
      SerialOrder(una + d, una + f.InFlight());
    }
  }

  lemma UnaKept(f: Flow, s: Segment)
    requires f.Ok() && |s.payload| < 0x1_0000
    ensures var g := f.TakePayload(s);
            && g.una == f.una
            && (g.state == Established ==> g.EstablishedFin(Wrap(s.seqNo + |s.payload|)).una == f.una)
            && (g.state == FinWait1 ==> g.CloseFinWait1(s).una == f.una)
  {
    hide Wrap, SeqLt, SeqLeq, SeqGt, RxFields.Valid, Consume, Flow.Ok;
  }

  /** Whatever arrives, with packets to spare the flow then has sent all that the window allows. */
  lemma InputFills(f: Flow, s: Segment, b: nat)
    requires f.Ok() && !s.flags.rst && |s.payload| < 0x1_0000 && b >= MAX_SEND_BUF
    ensures var g := f.InputSegment(s, b);
            g.CanSend() ==> g.InFlight() >= Min(|g.buf|, g.wnd)
  {
    hide Wrap, RxFields.Valid, Flow.Dispatch, Flow.PumpSend;
    var h := f.Dispatch(s);
    PumpFrame(h, b);
    if h.CanSend() {
      PumpBounds(h, b);
    }
  }

  /** In ESTABLISHED every acknowledgement, old or new, sets the send window. */
  lemma WindowTaken(f: Flow, s: Segment, b: nat)
    requires f.Ok() && f.state == Established && s.flags.ack && !s.flags.syn && !s.flags.rst && |s.payload| < 0x1_0000
    ensures f.InputSegment(s, b).wnd == s.wnd
  {
    hide Wrap, SeqLt, SeqLeq, SeqGt, RxFields.Valid, Consume, Flow.PumpSend, Flow.AdvanceSndUna;
    PumpFrame(f.Dispatch(s), b);
  }

  /** The peer's FIN is taken exactly when all data before it has been: then the flow moves to
      CLOSE_WAIT and acknowledges it. */
  lemma FinTaken(f: Flow, s: Segment, b: nat)
    requires f.Ok() && f.state == Established && s.flags.fin && !s.flags.syn && !s.flags.rst && |s.payload| < 0x1_0000
    ensures var g, r := f.InputSegment(s, b), f.TakeAck(s).TakePayload(s).rcv;
            if Wrap(s.seqNo + |s.payload|) == r then g.state == CloseWait && g.rcv == Wrap(r + 1) && Acknowledges(f, g)
            else g.state == Established && g.rcv == r && (SeqLt(Wrap(s.seqNo + |s.payload|), r) ==> Acknowledges(f, g))
  {
    hide Wrap, SeqLt, RxFields.Valid, Flow.PumpSend, Flow.TakeAck, Flow.TakePayload, Acknowledges;
    var h := f.TakeAck(s).TakePayload(s);
    PumpFrame(f.Dispatch(s), b);
    TookInOrder(f, s);
    if Wrap(s.seqNo + |s.payload|) == h.rcv {
      AckOfFin(f, h);
      StillAcknowledges(f, f.Dispatch(s), b);
    } else if SeqLt(Wrap(s.seqNo + |s.payload|), h.rcv) {
      AckAgain(f, h);
      StillAcknowledges(f, f.Dispatch(s), b);
    }
  }

  lemma AckAgain(f: Flow, h: Flow)
    requires f.tx <= h.tx
    ensures Acknowledges(f, h.SendAck())
  {
  }

  /** A SYN that reaches an established flow is only acknowledged. */
  lemma LateSynAnswered(f: Flow, s: Segment, b: nat)
    requires f.Ok() && f.state == Established && s.flags.syn && !s.flags.rst && |s.payload| < 0x1_0000
    ensures var g := f.InputSegment(s, b);
            && Acknowledges(f, g) && g.state == Established && g.rcv == f.rcv && g.una == f.una && g.buf == f.buf
            && g.rx == f.rx && g.wnd == f.wnd
  {
    hide Wrap, RxFields.Valid, Flow.PumpSend, Flow.Ok;
    AckAgain(f, f);
    var h := f.Dispatch(s);
    assert h == f.SendAck();
    StillAcknowledges(f, h, b);
    PumpFrame(h, b);
  }

  lemma TookInOrder(f: Flow, s: Segment)
    requires f.Ok() && !f.Opening() && |s.payload| < 0x1_0000
    ensures f.tx <= f.TakeAck(s).TakePayload(s).tx
  {
    hide Wrap, RxFields.Valid, Flow.Ok, Flow.AdvanceSndUna, Flow.ProcessPayload;
    if s.flags.ack {
      AckSendsNothing(f, s.ackNo);
    }
    if s.payload != [] {
      PayloadAnswered(f.TakeAck(s), s);
    }
  }

  lemma AckOfFin(f: Flow, h: Flow)
    requires f.tx <= h.tx
    ensures Acknowledges(f, h.(rcv := Wrap(h.rcv + 1)).SendAck().(state := CloseWait))
  {
    hide Wrap;
  }

  /** A reset closes the flow whatever its state and numbers, and is not answered; anything else
      that reaches a closed flow is answered with a reset. */
  lemma Resets(f: Flow, s: Segment, b: nat)
    requires f.Ok() && |s.payload| < 0x1_0000
    ensures s.flags.rst ==> f.InputSegment(s, b) == f.(state := Closed)
    ensures !s.flags.rst && f.state == Closed ==>
              f.InputSegment(s, b) == f.(tx := f.tx + [Segment(f.nxt, 0, RST, WINDOW, [], [])])
  {
    hide Wrap, RxFields.Valid;
  }

  /** Once we have closed, the peer's FIN ends the connection, and is acknowledged; it counts as
      received only if nothing before it is missing. */
  lemma LastFinTaken(f: Flow, s: Segment, b: nat)
    requires f.Ok() && (f.state == FinWait1 || f.state == FinWait2) && s.flags.fin && !s.flags.rst
    requires |s.payload| < 0x1_0000
    ensures var g := f.InputSegment(s, b);
            var r := (if f.state == FinWait1 && s.flags.ack then f.AdvanceSndUna(s.ackNo) else f).TakePayload(s).rcv;
            && g.state == TimeWait && g.timeWait == TIME_WAIT_TICKS && Acknowledges(f, g)
            && g.rcv == if Wrap(s.seqNo + |s.payload|) == r then Wrap(r + 1) else r
  {
    hide Wrap, SeqLt, RxFields.Valid, Flow.Ok, Flow.PumpSend, Flow.AdvanceSndUna, Flow.TakePayload, Flow.PeerFin,
      Acknowledges;
    var a := if f.state == FinWait1 && s.flags.ack then f.AdvanceSndUna(s.ackNo) else f;
    if f.state == FinWait1 && s.flags.ack {
      AckSendsNothing(f, s.ackNo);
    }
    OnlyAppends(a, s);
    PeerFinShape(f, a.TakePayload(s), s);
    PumpIdle(f.Dispatch(s), b);
  }

  lemma OnlyAppends(f: Flow, s: Segment)
    requires f.Ok() && |s.payload| < 0x1_0000
    ensures f.tx <= f.TakePayload(s).tx
  {
    hide Flow.Ok, Flow.TakePayload;
    if s.payload != [] {
      PayloadAnswered(f, s);
    } else {
      NoneTaken(f, s);
    }
  }

  lemma PeerFinShape(f: Flow, h: Flow, s: Segment)
    requires h.Ok() && (h.state == FinWait1 || h.state == FinWait2) && |s.payload| < 0x1_0000 && f.tx <= h.tx
    ensures var g := h.PeerFin(s);
            && g.state == TimeWait && g.timeWait == TIME_WAIT_TICKS && Acknowledges(f, g)
            && g.rcv == if Wrap(s.seqNo + |s.payload|) == h.rcv then Wrap(h.rcv + 1) else h.rcv
  {
    hide Wrap, RxFields.Valid;
  }

  lemma NoneTaken(f: Flow, s: Segment)
    requires f.Ok() && s.payload == []
    ensures f.TakePayload(s) == f
  {
  }

  // ---------------------------------------------------------------- the timer

  /** A timer that `PumpSend` starts runs its whole time. */
  lemma ArmsFully(f: Flow, b: nat)
    requires f.Ok()
    ensures var g := f.PumpSend(b);
            !f.rtoOn && g.rtoOn ==> g.rtoLeft == INITIAL_RTO
  {
    hide Wrap, SeqLt, RxFields.Valid;
  }

  /** An acknowledgement of new data gives a flow that still waits its whole life back. */
  lemma AckRevives(f: Flow, ack: u32)
    requires f.Ok() && f.CanSend() && 0 < Wrap(ack - f.una) <= f.InFlight()
    ensures var g := f.AdvanceSndUna(ack);
            && g.una == ack && (g.rtoOn ==> Lifetime(g) == (MAX_REXMIT + 1) * (INITIAL_RTO + 1))
            && (g.una == g.nxt && g.buf == [] && !g.FinOutstanding() ==> !g.rtoOn)
  {
    hide Wrap, Signed, SeqLt, SeqLeq, SeqGt, RxFields.Valid;
    var d: int := Wrap(ack - f.una);
    var una: int := f.una;
    Offset(f.una, ack);
    Offset(f.una, f.nxt);
    SmallWrap(f.una);
    SerialOrder(una + d, una);
    SerialOrder(una + d, una + f.InFlight());
  }

  /** A flow that is given up is closed, and the application told. */
  lemma GivingUpTells(f: Flow, b: nat)
    requires f.Ok() && f.state != Closed && f.state != TimeWait && f.rtoOn && f.rtoLeft == 0 && f.rexmits == MAX_REXMIT
    ensures var (g, keep) := f.PeriodicCheck(b);
            !keep && g.state == Closed && g.notices == f.notices + [false] && g.tx == f.tx
  {
    hide Wrap, RxFields.Valid, Flow.Retransmit;
  }
}

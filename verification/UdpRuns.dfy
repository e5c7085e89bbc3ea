/** Sender and receiver of a UDP flow together: whatever acknowledgements reach the sender and
    whichever of its packets reach the receiver, in whatever order and number, messages are
    delivered as they were sent; and with the receiver's own acknowledgements, none is dropped
    by the sender before it is delivered. */
module UdpRuns {
  import opened Words
  import opened Common
  import opened UdpPacket
  import UdpRx
  import UdpTx

  /** While the counter does not wrap, the number of a packet is its place in the stream. */
  lemma PlaceOf(o: UdpTx.Out, stream: seq<Pkt>)
    requires UdpTx.Known(o, stream) && FIRST + |stream| < TWO32
    ensures UdpRx.Numbered(stream, o.seqno) && stream[o.seqno - FIRST] == o.pkt
  {
    var p :| UdpTx.IsPacket(o, stream, p);
    SmallWrap(FIRST + p);
  }

  lemma InLog(h: UdpTx.Hist, o: UdpTx.Out)
    requires UdpTx.Inv(h) && o in h.s.log
    ensures UdpTx.Known(o, h.stream)
  {
    hide UdpTx.Aligned, UdpTx.Known;
    var j :| 0 <= j < |h.s.log| && h.s.log[j] == o;
  }

  // ---------------------------------------------------------------- any acknowledgements

  /** The receiver after the packets `outs`, as they come off the wire. */
  function Feed(outs: seq<UdpTx.Out>): UdpRx.Rx {
    if outs == [] then UdpRx.Start()
    else
      var o := outs[|outs| - 1];
      UdpRx.Consumed(Feed(outs[..|outs| - 1]), o.seqno, o.pkt)
  }

  lemma {:induction false} FeedFaithful(h: UdpTx.Hist, outs: seq<UdpTx.Out>)
    requires UdpTx.Inv(h) && FIRST + |h.stream| < TWO32
    requires forall i :: 0 <= i < |outs| ==> outs[i] in h.s.log
    ensures UdpRx.Faithful(Feed(outs), h.stream)
    decreases |outs|
  {
    hide UdpRx.Consumed, UdpTx.Inv, UdpTx.Known;
    if outs == [] {
      assert h.stream[..0] == [];
    } else {
      var n := |outs| - 1;
      FeedFaithful(h, outs[..n]);
      InLog(h, outs[n]);
      PlaceOf(outs[n], h.stream);
      hide UdpRx.Faithful;
      UdpRx.ConsumeKeeps(Feed(outs[..n]), h.stream, outs[n].seqno);
    }
  }

  /** In every run of a sender, any packets it has ever put on the wire, arriving in any order,
      any number of times or never, deliver a prefix of the messages sent, in order and each
      once. */
  lemma DeliversSent(r: seq<UdpTx.Hist>, k: nat, ms: seq<seq<Pkt>>, outs: seq<UdpTx.Out>)
    requires UdpTx.Run(r) && k < |r| && r[k].stream == Flatten(ms) && Messages(ms)
    requires forall i :: 0 <= i < |outs| ==> outs[i] in r[k].s.log
    requires FIRST + |Flatten(ms)| < TWO32
    ensures Feed(outs).delivered <= ms
  {
    hide UdpTx.Run, UdpTx.Inv, Flatten, Feed, Messages;
    UdpTx.RunKeeps(r, k);
    FeedFaithful(r[k], outs);
    UdpRx.FaithfulDelivers(Feed(outs), ms);
  }

  // ---------------------------------------------------------------- the receiver's acknowledgements

  /** A sender and its receiver. `sent` are the messages handed over, `acks` the numbers of all
      acknowledgements the receiver has sent. Packets and acknowledgements stay on the wire:
      they may arrive at any time, any number of times or never. */
  datatype Net = Net(h: UdpTx.Hist, rx: UdpRx.Rx, sent: seq<seq<Pkt>>, acks: seq<u32>)

  datatype Event =
    | Output(pkts: seq<Pkt>, granted: nat)
    | Tick
    | Arrive(i: nat)
    | Acknowledge
    | AckArrives(j: nat, count: u16, hole: Option<nat>, granted: nat)

  ghost predicate Enabled(n: Net, ev: Event) {
    match ev
    case Output(pkts, granted) => Message(pkts) && UdpTx.Enabled(n.h, UdpTx.EvOutput(pkts, granted))
    case Tick => UdpTx.Enabled(n.h, UdpTx.EvTick)
    case Arrive(i) => i < |n.h.s.log|
    case Acknowledge => true
    case AckArrives(j, count, hole, granted) =>
      j < |n.acks| && UdpTx.Enabled(n.h, UdpTx.EvAck(n.acks[j], count, hole, granted))
  }

  ghost function Do(n: Net, ev: Event): Net
    requires Enabled(n, ev)
  {
    match ev
    case Output(pkts, granted) => n.(h := UdpTx.Do(n.h, UdpTx.EvOutput(pkts, granted)), sent := n.sent + [pkts])
    case Tick => n.(h := UdpTx.Do(n.h, UdpTx.EvTick))
    case Arrive(i) => n.(rx := UdpRx.Consumed(n.rx, n.h.s.log[i].seqno, n.h.s.log[i].pkt))
    case Acknowledge => n.(acks := n.acks + [n.rx.rcv])
    case AckArrives(j, count, hole, granted) =>
      n.(h := UdpTx.Do(n.h, UdpTx.EvAck(n.acks[j], count, hole, granted)))
  }

  predicate Init(n: Net) {
    UdpTx.Init(n.h) && n == Net(n.h, UdpRx.Start(), [], [])
  }

  ghost predicate Next(n: Net, m: Net) {
    exists ev :: Enabled(n, ev) && m == Do(n, ev)
  }

  ghost predicate Run(r: seq<Net>) {
    && r != [] && Init(r[0])
    && forall k :: 0 <= k < |r| - 1 ==> Next(r[k], r[k + 1])
  }

  /** No acknowledgement is ahead of the receiver, and what the sender has dropped the
      receiver has taken. */
  ghost predicate InStep(n: Net) {
    && UdpRx.Faithful(n.rx, n.h.stream)
    && (forall j :: 0 <= j < |n.acks| ==> FIRST <= n.acks[j] <= n.rx.rcv)
    && FIRST + n.h.acked <= n.rx.rcv
  }

  ghost predicate Inv(n: Net) {
    && UdpTx.Inv(n.h) && n.h.stream == Flatten(n.sent) && Messages(n.sent)
    && (FIRST + |n.h.stream| < TWO32 ==> InStep(n))
  }

  lemma MorePackets(rx: UdpRx.Rx, pkts: seq<Pkt>, more: seq<Pkt>)
    requires UdpRx.Faithful(rx, pkts) && FIRST + |pkts + more| < TWO32
    ensures UdpRx.Faithful(rx, pkts + more)
  {
    hide UdpRx.Assemble;
    assert (pkts + more)[..rx.rcv - FIRST] == pkts[..rx.rcv - FIRST];
  }

  lemma OutputKeeps(n: Net, pkts: seq<Pkt>, granted: nat)
    requires Inv(n) && Enabled(n, Output(pkts, granted))
    ensures Inv(Do(n, Output(pkts, granted)))
  {
    hide UdpTx.Inv, UdpTx.Sender.OutputMessage, UdpRx.Faithful, Flatten, Message;
    UdpTx.OutputKeeps(n.h, pkts, granted);
    FlattenSnoc(n.sent, pkts);
    var h := UdpTx.Do(n.h, UdpTx.EvOutput(pkts, granted));
    if FIRST + |h.stream| < TWO32 {
      MorePackets(n.rx, n.h.stream, pkts);
    }
  }

  lemma ArriveKeeps(n: Net, i: nat)
    requires Inv(n) && Enabled(n, Arrive(i))
    ensures Inv(Do(n, Arrive(i)))
  {
    hide UdpTx.Inv, UdpRx.Faithful, UdpRx.Consumed, UdpTx.Known, Flatten, Messages;
    var o := n.h.s.log[i];
    if FIRST + |n.h.stream| < TWO32 {
      InLog(n.h, o);
      PlaceOf(o, n.h.stream);
      UdpRx.ConsumeKeeps(n.rx, n.h.stream, o.seqno);
    }
  }

  /** An acknowledgement of new data acknowledges up to its own number, however old it is. */
  lemma AckReaches(h: UdpTx.Hist, ackno: u32)
    requires UdpTx.Inv(h) && FIRST + |h.stream| < TWO32 && h.s.IsNewAck(ackno)
    ensures FIRST + h.acked + h.s.Acked(ackno) == ackno
  {
    UdpTx.AckFreesSent(h, ackno);
    UdpTx.AckNumber(h, ackno);
    SmallWrap(FIRST + (h.acked + h.s.Acked(ackno)));
  }

  lemma AckKeeps(n: Net, j: nat, count: u16, hole: Option<nat>, granted: nat)
    requires Inv(n) && Enabled(n, AckArrives(j, count, hole, granted))
    ensures Inv(Do(n, AckArrives(j, count, hole, granted)))
  {
    hide UdpTx.Inv, UdpRx.Faithful, UdpTx.Sender.ProcessAck, UdpTx.Sender.Acked, UdpTx.Sender.IsNewAck, Flatten,
      Messages;
    UdpTx.AckKeeps(n.h, n.acks[j], count, hole, granted);
    if FIRST + |n.h.stream| < TWO32 && n.h.s.IsNewAck(n.acks[j]) {
      AckReaches(n.h, n.acks[j]);
    }
  }

  lemma StepKeeps(n: Net, ev: Event)
    requires Inv(n) && Enabled(n, ev)
    ensures Inv(Do(n, ev))
  {
    match ev
    case Output(pkts, granted) => OutputKeeps(n, pkts, granted);
    case Tick =>
      UdpTx.TickKeeps(n.h);
      hide UdpTx.Inv, UdpRx.Faithful, UdpTx.Sender.Tick, Flatten, Messages;
    case Arrive(i) => ArriveKeeps(n, i);
    case Acknowledge =>
      hide UdpTx.Inv, UdpRx.Genuine, UdpRx.Assemble, Flatten, Messages;
    case AckArrives(j, count, hole, granted) => AckKeeps(n, j, count, hole, granted);
  }

  lemma {:induction false} RunKeeps(r: seq<Net>, k: nat)
    requires Run(r) && k < |r|
    ensures Inv(r[k])
  {
    hide Inv, Enabled, Do;
    if k == 0 {
      InitInv(r[0]);
    } else {
      RunKeeps(r, k - 1);
      assert Next(r[k - 1], r[k - 1 + 1]);
      var ev :| Enabled(r[k - 1], ev) && r[k] == Do(r[k - 1], ev);
      StepKeeps(r[k - 1], ev);
    }
  }

  lemma InitInv(n: Net)
    requires Init(n)
    ensures Inv(n)
  {
    UdpTx.InitInv(n.h);
    assert n.h.stream[..0] == [];
  }

  /** In every run of fewer than 2^32 packets: what is delivered is a prefix of what was sent;
      the sender still holds every packet that the receiver has not taken; and every message
      whose packets are all acknowledged, and their buffers freed, has been delivered. */
  lemma AckedIsDelivered(r: seq<Net>, k: nat, d: nat)
    requires Run(r) && k < |r| && FIRST + |Flatten(r[k].sent)| < TWO32 && d <= |r[k].sent|
    ensures var n := r[k];
            && n.rx.delivered <= n.sent
            && n.h.acked <= n.rx.rcv - FIRST <= |Flatten(n.sent)| && n.h.s.queue == Flatten(n.sent)[n.h.acked..]
            && (|Flatten(n.sent[..d])| <= n.h.acked ==> n.sent[..d] <= n.rx.delivered)
  {
    hide Run, Flatten, UdpRx.Assemble, UdpRx.Genuine, UdpTx.LogOk;
    RunKeeps(r, k);
    var n := r[k];
    UdpRx.FaithfulDelivers(n.rx, n.sent);
    if |Flatten(n.sent[..d])| <= n.h.acked {
      Completed(n.sent, d, n.rx.rcv - FIRST);
    }
  }

  /** Packets that reach over the first `d` messages complete them. */
  lemma Completed(ms: seq<seq<Pkt>>, d: nat, k: nat)
    requires Messages(ms) && d <= |ms| && |Flatten(ms[..d])| <= k <= |Flatten(ms)|
    ensures ms[..d] <= UdpRx.Assemble(Flatten(ms)[..k]).0
  {
    hide Flatten, UdpRx.Assemble, Message;
    var l := |Flatten(ms[..d])|;
    assert ms[..d] + ms[d..] == ms;
    FlattenAppend(ms[..d], ms[d..]);
    assert Flatten(ms)[..k][..l] == Flatten(ms[..d]);
    UdpRx.AssembleAll(ms[..d]);
    UdpRx.AssemblePrefix(Flatten(ms)[..k], l);
  }

  /** An empty sender sends one packet at once. */
  lemma FirstSent(p: Pkt)
    ensures var s := UdpTx.Sender([], 0, FIRST, FIRST, 0, 0, UdpTx.RTO_OFF, 0, false, []);
            s.OutputMessage([p], 1) == s.(queue := [p], sent := 1, nxt := 2, rto := 0, log := [UdpTx.Out(FIRST, p)])
  {
    var s := UdpTx.Sender([p], 0, FIRST, FIRST, 0, 0, UdpTx.RTO_OFF, 0, false, []);
    SmallWrap(0);
    SmallWrap(UdpTx.CWND);
    SmallWrap(2);
    assert s.Window() == UdpTx.CWND;
    assert s.SendMany(0) == s && s.SendMany(1) == s.SendMany(0).SendOne();
    hide Wrap, UdpTx.Sender.Window;
    assert [] + [p] == [p] && s.log + [UdpTx.Out(FIRST, p)] == [UdpTx.Out(FIRST, p)];
    assert s.Transmit(1) == s.SendOne().(rto := 0);
  }

  /** Its acknowledgement frees it. */
  lemma FirstAcked(p: Pkt)
    ensures var s := UdpTx.Sender([p], 1, FIRST, 2, 0, 0, 0, 0, false, [UdpTx.Out(FIRST, p)]);
            s.IsNewAck(2) && s.Acked(2) == 1 && s.ProcessAck(2, 0, None, 0).queue == []
  {
    var s := UdpTx.Sender([p], 1, FIRST, 2, 0, 0, 0, 0, false, [UdpTx.Out(FIRST, p)]);
    SmallWrap(1);
    UdpTx.AckCases(s, 2);
    hide Wrap, SeqLt, SeqGt, UdpTx.Sender.Window;
  }

  lemma OneMessage(ps: seq<Pkt>)
    ensures Flatten([ps]) == ps
  {
    assert [ps][1..] == [];
  }

  /** Some run sends, delivers and acknowledges any packet that is a message. */
  lemma Works(p: Pkt) returns (r: seq<Net>)
    requires p.fin
    ensures Run(r) && r[|r| - 1].sent == [[p]] && r[|r| - 1].rx.delivered == [[p]]
    ensures r[|r| - 1].h.acked == 1 && r[|r| - 1].h.s.queue == []
  {
    hide UdpTx.Sender.OutputMessage, UdpTx.Sender.ProcessAck, UdpRx.Consumed, UdpTx.Sender.IsNewAck, UdpTx.Sender.Acked,
         Flatten;
    var n0 := Net(UdpTx.Hist(UdpTx.Sender([], 0, FIRST, FIRST, 0, 0, UdpTx.RTO_OFF, 0, false, []), [], 0, 0),
                  UdpRx.Start(), [], []);
    FirstSent(p);
    var n1 := Do(n0, Output([p], 1));
    UdpRx.NextTaken(n0.rx, FIRST, p);
    var n2 := Do(n1, Arrive(0));
    var n3 := Do(n2, Acknowledge);
    FirstAcked(p);
    var n4 := Do(n3, AckArrives(0, 0, None, 0));
    r := [n0, n1, n2, n3, n4];
    assert Next(n0, n1) && Next(n1, n2) && Next(n2, n3) && Next(n3, n4);
    assert n4.sent == [[p]];
    OneMessage([p]);
    AckedIsDelivered(r, 4, 1);
    assert [[p]][..1] == [[p]];
  }
}

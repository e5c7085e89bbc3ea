/** `TXTracking`: the tracked message buffers of a UDP flow as a linked list through the
    channel's memory, with pointers to the oldest unacknowledged, the oldest unsent and the
    last buffer. It represents the queue of the sender in UdpTx.dfy. */
module UdpTracking {
  import opened Words
  import opened Common
  import opened MsgPath
  import UdpPacket
  import UdpTx

  datatype Ptr = Null | At(id: nat)

  /** `MsgBufBatch::kMaxBurst`. */
  const BURST: nat := 64

  /** What a packet carries of a buffer. */
  function Content(b: MsgBuf): UdpPacket.Pkt {
    UdpPacket.Pkt(b.syn, b.sg, b.fin, b.data)
  }

  ghost function Contents(bufs: seq<MsgBuf>, ids: seq<nat>): seq<UdpPacket.Pkt>
    requires forall i :: 0 <= i < |ids| ==> ids[i] < |bufs|
  {
    seq(|ids|, i requires 0 <= i < |ids| => Content(bufs[ids[i]]))
  }

  function PtrTo(ids: seq<nat>, i: nat): Ptr {
    if i < |ids| then At(ids[i]) else Null
  }

  ghost predicate Threaded(bufs: seq<MsgBuf>, ids: seq<nat>)
    requires forall i :: 0 <= i < |ids| ==> ids[i] < |bufs|
  {
    forall i {:trigger bufs[ids[i]]} :: 0 <= i < |ids| - 1 ==> bufs[ids[i]].next == ids[i + 1]
  }

  /** A chain of full buffers and a last one needs as many buffers as it has. */
  lemma ChainCount(bufs: seq<MsgBuf>, ids: seq<nat>, mss: nat, m: seq<u8>, flow: FlowInfo, notify: bool)
    requires mss > 0 && Chain(bufs, ids, mss, m, flow, notify)
    ensures bufs[ids[0]].msgLen == |m| && Needed(|m|, mss) == |ids| && bufs[ids[0]].last == ids[|ids| - 1]
  {
    hide Flatten, Times, Needed;
    var n := |ids| - 1;
    FullLength(bufs, ids, mss, n);
    PrefixBytes(bufs, ids, n);
    assert ids[..n + 1] == ids;
    NeededExact(n, |bufs[ids[n]].data|, mss);
  }

  /** The memory after `link`. */
  function Link(bufs: seq<MsgBuf>, from: nat, to: nat): (r: seq<MsgBuf>)
    requires from < |bufs|
    ensures |r| == |bufs|
  {
    bufs[from := bufs[from].(next := to)]
  }

  /** Two threads joined by a link from the last buffer of the first. */
  lemma Joins(bufs: seq<MsgBuf>, a: seq<nat>, b: seq<nat>)
    requires a != [] && b != [] && Owned(bufs, a) && Owned(bufs, b) && Distinct(a + b)
    requires Threaded(bufs, a) && Threaded(bufs, b)
    ensures var bufs' := Link(bufs, a[|a| - 1], b[0]);
            && Owned(bufs', a + b) && Threaded(bufs', a + b)
            && Contents(bufs', a + b) == Contents(bufs, a) + Contents(bufs, b)
  {
    var bufs', ids := Link(bufs, a[|a| - 1], b[0]), a + b;
    forall i | 0 <= i < |ids| - 1 ensures bufs'[ids[i]].next == ids[i + 1] {
      JoinsAt(bufs, a, b, i);
    }
    hide Threaded;
    JoinsContents(bufs, a, b);
  }

  lemma JoinsContents(bufs: seq<MsgBuf>, a: seq<nat>, b: seq<nat>)
    requires a != [] && b != [] && Owned(bufs, a) && Owned(bufs, b)
    ensures var bufs' := Link(bufs, a[|a| - 1], b[0]);
            (forall i :: 0 <= i < |a + b| ==> (a + b)[i] < |bufs'|)
            && Contents(bufs', a + b) == Contents(bufs, a) + Contents(bufs, b)
  {
  }

  lemma JoinsAt(bufs: seq<MsgBuf>, a: seq<nat>, b: seq<nat>, i: nat)
    requires a != [] && b != [] && Owned(bufs, a) && Owned(bufs, b) && Distinct(a + b)
    requires Threaded(bufs, a) && Threaded(bufs, b)
    requires i < |a + b| - 1
    ensures (a + b)[i] < |bufs| && Link(bufs, a[|a| - 1], b[0])[(a + b)[i]].next == (a + b)[i + 1]
  {
    var ids, n := a + b, |a| - 1;
    assert ids[n] == a[n];
    if i < n {
      assert ids[i] == a[i] && bufs[a[i]].next == a[i + 1];
    } else if i > n {
      assert ids[i] == b[i - |a|] && bufs[b[i - |a|]].next == b[i - |a| + 1];
    }
  }

  lemma ChainThreaded(bufs: seq<MsgBuf>, ids: seq<nat>, mss: nat, m: seq<u8>, flow: FlowInfo, notify: bool)
    requires Chain(bufs, ids, mss, m, flow, notify)
    ensures ids != [] && Owned(bufs, ids) && Threaded(bufs, ids)
  {
    hide Flatten;
  }

  lemma InBounds(bufs: seq<MsgBuf>, ids: seq<nat>)
    requires Owned(bufs, ids)
    ensures Distinct(ids) && forall i :: 0 <= i < |ids| ==> ids[i] < |bufs|
  {
  }

  lemma NoContents(bufs: seq<MsgBuf>, ids: seq<nat>)
    requires Owned(bufs, ids)
    ensures Contents(bufs, ids) == Contents(bufs, []) + Contents(bufs, ids)
  {
  }

  lemma DistinctAppend(a: seq<nat>, b: seq<nat>)
    requires Distinct(a) && Distinct(b) && forall x :: x in a ==> x !in b
    ensures Distinct(a + b)
  {
    var c := a + b;
    forall i, j | 0 <= i < j < |c| ensures c[i] != c[j] {
      if i < |a| <= j {
        assert c[i] in a && c[j] in b;
      }
    }
  }

  class TxTracking {
    const mss: nat
    var bufs: seq<MsgBuf>
    var unacked: Ptr
    var unsent: Ptr
    var last: Ptr
    var numUnsent: nat
    var numTracked: nat
    /** The tracked buffers, oldest first, and how many of them have been sent. */
    ghost var list: seq<nat>
    ghost var sent: nat

    ghost predicate Valid()
      reads this
    {
      InOrder(0)
    }

    /** The sender's queue. */
    ghost function Queue(): seq<UdpPacket.Pkt>
      reads this
      requires Valid()
    {
      Contents(bufs, list)
    }

    constructor (mss: nat, bufs: seq<MsgBuf>)
      requires mss > 0
      ensures Valid() && this.bufs == bufs && list == [] && sent == 0
    {
      this.mss, this.bufs := mss, bufs;
      unacked, unsent, last, numUnsent, numTracked := Null, Null, Null, 0, 0;
      list, sent := [], 0;
    }

    /** `Append` of the message whose chain of buffers is `chain`. */
    method Append(head: nat, ghost chain: seq<nat>, ghost m: seq<u8>, ghost flow: FlowInfo, ghost notify: bool)
      requires Valid() && Chain(bufs, chain, mss, m, flow, notify) && head == chain[0]
      requires forall x :: x in list ==> x !in chain
      modifies this
      ensures Valid() && list == old(list) + chain && sent == old(sent)
      ensures Queue() == old(Queue()) + old(Contents(bufs, chain))
    {
      ChainCount(bufs, chain, mss, m, flow, notify);
      ChainThreaded(bufs, chain, mss, m, flow, notify);
      InBounds(bufs, list);
      InBounds(bufs, chain);
      hide Needed, Chain, Threaded, Contents, Distinct;
      DistinctAppend(list, chain);
      var tail := bufs[head].last;
      var n := Needed(bufs[head].msgLen, mss);
      if last.Null? {
        Start(head, tail, n, chain);
      } else {
        Join(head, tail, n, chain);
      }
    }

    ghost predicate Joinable(head: nat, tail: nat, n: nat, chain: seq<nat>)
      reads this
    {
      && Valid() && chain != [] && Owned(bufs, chain) && Threaded(bufs, chain) && Distinct(list + chain)
      && head == chain[0] && tail == chain[|chain| - 1] && n == |chain|
    }

    /** The first pending message of the flow. */
    method Start(head: nat, tail: nat, n: nat, ghost chain: seq<nat>)
      requires Joinable(head, tail, n, chain) && last.Null?
      modifies `unacked, `unsent, `last, `numUnsent, `numTracked, `list
      ensures Valid() && list == old(list) + chain
      ensures Queue() == old(Queue()) + Contents(bufs, chain)
    {
      hide Contents, Distinct;
      NoContents(bufs, chain);
      assert list + chain == chain;
      unacked, unsent, last := At(head), At(head), At(tail);
      numUnsent := numUnsent + n;
      numTracked := numTracked + n;
      list := chain;
    }

    /** A further message is linked behind the last buffer. */
    method Join(head: nat, tail: nat, n: nat, ghost chain: seq<nat>)
      requires Joinable(head, tail, n, chain) && last.At?
      modifies `bufs, `unsent, `last, `numUnsent, `numTracked, `list
      ensures Valid() && list == old(list) + chain
      ensures Queue() == old(Queue()) + old(Contents(bufs, chain))
    {
      hide Contents, Distinct, Threaded, Link;
      Joins(bufs, list, chain);
      bufs := Link(bufs, last.id, head);
      if unsent.Null? { unsent := At(head); }
      last := At(tail);
      numUnsent := numUnsent + n;
      numTracked := numTracked + n;
      list := list + chain;
    }

    /** `GetAndUpdateOldestUnsent`. */
    method GetAndUpdateOldestUnsent() returns (r: Ptr)
      requires Valid()
      modifies `unsent, `numUnsent, `sent
      ensures Valid() && r == PtrTo(list, old(sent)) && sent == Min(old(sent) + 1, |list|)
    {
      if unsent.Null? { return Null; }
      r := unsent;
      assert bufs[list[sent]].next == bufs[r.id].next;
      unsent := if unsent != last then At(bufs[unsent.id].next) else Null;
      numUnsent := numUnsent - 1;
      sent := sent + 1;
    }

    /** The list with its pointers; the count of tracked buffers lags behind by `late`. */
    ghost predicate InOrder(late: nat)
      reads this
    {
      && mss > 0 && Owned(bufs, list) && Threaded(bufs, list) && sent <= |list|
      && unacked == PtrTo(list, 0) && unsent == PtrTo(list, sent)
      && last == (if list == [] then Null else At(list[|list| - 1]))
      && numTracked == |list| + late && numUnsent == |list| - sent
    }

    /** One turn of `ReceiveAcks`: the oldest buffer leaves the list; its count follows when
        the batch is freed. */
    method DropOldest(ghost late: nat) returns (b: nat)
      requires InOrder(late) && 1 <= sent
      modifies `unacked, `last, `list, `sent
      ensures InOrder(late + 1) && old(list) == [b] + list && sent == old(sent) - 1
    {
      b := unacked.id;
      assert bufs[list[0]].next == bufs[b].next;
      if unacked != last {
        assert unacked != unsent;
        unacked := At(bufs[b].next);
      } else {
        OnlyOne(list);
        unacked, last := Null, Null;
      }
      Rest(bufs, list);
      list := list[1..];
      sent := sent - 1;
    }

    /** `ReceiveAcks`: exactly the `n` oldest buffers are freed, in order, all of them sent. */
    method ReceiveAcks(n: nat) returns (freed: seq<nat>)
      requires Valid() && n <= sent
      modifies `unacked, `last, `list, `sent, `numTracked
      ensures Valid() && old(list) == freed + list && |freed| == n && sent == old(sent) - n
    {
      hide InOrder;
      var left: nat, batch := n, [];
      freed := [];
      while left > 0
        invariant 0 <= left <= n && |batch| < BURST && InOrder(|batch|) && left <= sent
        invariant old(list) == (freed + batch) + list && |freed + batch| == n - left && sent == old(sent) - (n - left)
      {
        var b := DropOldest(|batch|);
        Regroup(freed, batch, b, list);
        batch := batch + [b];
        if |batch| == BURST {
          FreeBatch(|batch|);
          freed, batch := freed + batch, [];
        }
        left := left - 1;
      }
      FreeBatch(|batch|);
      freed := freed + batch;
    }

    method FreeBatch(n: nat)
      requires InOrder(n)
      modifies `numTracked
      ensures InOrder(0)
    {
      numTracked := numTracked - n;
    }
  }

  lemma ContentsDrop(bufs: seq<MsgBuf>, a: seq<nat>, b: seq<nat>)
    requires forall i :: 0 <= i < |a + b| ==> (a + b)[i] < |bufs|
    ensures forall i :: 0 <= i < |b| ==> b[i] < |bufs|
    ensures Contents(bufs, a + b)[|a|..] == Contents(bufs, b)
  {
    assert forall i :: 0 <= i < |b| ==> b[i] == (a + b)[|a| + i];
  }

  lemma Regroup(a: seq<nat>, b: seq<nat>, x: nat, c: seq<nat>)
    ensures (a + b) + ([x] + c) == (a + (b + [x])) + c
  {
  }

  lemma OnlyOne(ids: seq<nat>)
    requires Distinct(ids) && ids != [] && ids[0] == ids[|ids| - 1]
    ensures |ids| == 1
  {
  }

  lemma Rest(bufs: seq<MsgBuf>, ids: seq<nat>)
    requires Owned(bufs, ids) && ids != [] && Threaded(bufs, ids)
    ensures Owned(bufs, ids[1..]) && Threaded(bufs, ids[1..])
  {
    assert forall i :: 0 <= i < |ids| - 1 ==> ids[1..][i] == ids[i + 1];
  }

  /** `Flow`: the protocol control block and the tracked buffers. */
  class UdpFlow {
    const tx: TxTracking
    var una: u32
    var nxt: u32
    var ooo: u32
    var dup: nat
    var rto: int
    var rexmits: nat
    var handshake: bool
    var log: seq<UdpTx.Out>
    /** Packets the pool can hand out. */
    var pool: nat

    ghost predicate Valid()
      reads this, tx
    {
      tx.Valid()
    }

    ghost function Abs(): UdpTx.Sender
      reads this, tx
      requires Valid()
    {
      UdpTx.Sender(tx.Queue(), tx.sent, una, nxt, ooo, dup, rto, rexmits, handshake, log)
    }

    constructor (tx: TxTracking, handshake: bool)
      requires tx.Valid() && tx.list == []
      ensures Valid() && this.tx == tx && Abs().queue == [] && UdpTx.Init(UdpTx.Hist(Abs(), [], 0, 0))
    {
      this.tx := tx;
      this.handshake := handshake;
      una, nxt := if handshake then 0 else UdpPacket.FIRST, UdpPacket.FIRST;
      ooo, dup, rto, rexmits, log, pool := 0, 0, UdpTx.RTO_OFF, 0, [], 0;
    }

    /** A packet for the oldest unsent buffer. */
    method SendNext()
      requires Valid() && tx.sent < |tx.list|
      modifies `log, `nxt, tx`unsent, tx`numUnsent, tx`sent
      ensures Valid() && Abs() == old(Abs()).SendOne() && tx.sent == old(tx.sent) + 1
    {
      hide Wrap, Distinct, Threaded;
      var b := tx.GetAndUpdateOldestUnsent();
      assert Abs().queue[old(tx.sent)] == Content(tx.bufs[b.id]);
      log := log + [UdpTx.Out(nxt, Content(tx.bufs[b.id]))];
      nxt := Wrap(nxt + 1);
    }

    /** The packets of one batch. */
    method SendBatch(n: nat)
      requires Valid() && tx.sent + n <= |tx.list|
      modifies `log, `nxt, tx`unsent, tx`numUnsent, tx`sent
      ensures Valid() && Abs() == old(Abs()).SendMany(n) && tx.sent == old(tx.sent) + n
    {
      hide UdpTx.Sender.SendOne, TxTracking.Valid, TxTracking.Queue;
      QueueLength();
      ghost var s := Abs();
      for i := 0 to n
        invariant Valid() && tx.list == old(tx.list) && tx.sent == old(tx.sent) + i
        invariant Abs() == s.SendMany(i)
      {
        SendNext();
      }
    }

    /** `TransmitPackets`; `granted` packets were allocated before an allocation failed, if
        one did. */
    method TransmitPackets() returns (ghost granted: nat)
      requires Valid()
      modifies `log, `nxt, `rto, `pool, tx`unsent, tx`numUnsent, tx`sent
      ensures Valid() && Abs() == old(Abs()).Transmit(granted)
    {
      hide UdpTx.Sender.Window, UdpTx.Sender.SendMany, Window, TxTracking.Queue;
      ghost var s := Abs();
      granted := 0;
      WindowOf();
      var wanted := Min(Window(), tx.numUnsent);
      var remaining := wanted;
      NoneSent(s);
      if remaining == 0 { return; }
      while remaining > 0
        invariant 0 <= remaining <= wanted == Min(s.Window(), |s.queue| - s.sent) && granted == wanted - remaining
        invariant remaining > 0 ==> granted % UdpTx.PACKETS == 0
        invariant Valid() && Abs() == s.SendMany(granted) && tx.sent == s.sent + granted
      {
        var cnt := Min(remaining, UdpTx.PACKETS);
        if cnt > pool { return; }
        pool := pool - cnt;
        ghost var before := granted;
        SendBatch(cnt);
        SentMore(s, before, cnt);
        granted := before + cnt;
        remaining := remaining - cnt;
      }
      if rto == UdpTx.RTO_OFF { rto := 0; }
    }

    /** `OutputMessage` of the message whose chain of buffers is `chain`. */
    method OutputMessage(head: nat, ghost chain: seq<nat>, ghost m: seq<u8>, ghost flow: FlowInfo, ghost notify: bool)
      returns (ghost granted: nat)
      requires Valid() && Chain(tx.bufs, chain, tx.mss, m, flow, notify) && head == chain[0]
      requires forall x :: x in tx.list ==> x !in chain
      modifies this, tx
      ensures Valid() && Abs() == old(Abs()).OutputMessage(old(Contents(tx.bufs, chain)), granted)
    {
      hide UdpTx.Sender.Transmit, Contents, Chain;
      tx.Append(head, chain, m, flow, notify);
      granted := TransmitPackets();
    }

    /** Tracked buffer number `k`, found by following the links; its content goes out again. */
    method ResendAt(k: nat)
      requires Valid() && k < |tx.list|
      modifies `log, `rto
      ensures Valid() && Abs() == old(Abs().(log := log + [UdpTx.Out(Wrap(una + k), Abs().queue[k])], rto := 0))
    {
      var b := tx.unacked.id;
      for i := 0 to k
        invariant b == tx.list[i]
      {
        assert tx.bufs[tx.list[i]].next == tx.list[i + 1];
        b := tx.bufs[b].next;
      }
      log := log + [UdpTx.Out(Wrap(una + k), Content(tx.bufs[b]))];
      rto := 0;
    }

    /** The retransmission of `FastRetransmit` and `RTORetransmit`. */
    method Resend()
      requires Valid() && tx.list != []
      modifies `log, `rto
      ensures Valid() && Abs() == old(Abs()).Resend()
    {
      SmallWrap(una);
      ResendAt(0);
    }

    /** The branch of `process_ack` for new data. */
    method NewAck(ackno: u32)
      requires Valid() && 0 <= Abs().Acked(ackno) <= tx.sent
      modifies this, tx
      ensures Valid() && Abs() == old(Abs()).NewAck(ackno) && pool == old(pool)
    {
      hide Wrap, TxTracking.Valid;
      var n := Wrap(ackno - una);
      if handshake {
        handshake := false;
        n := n - 1;
      }
      Acknowledge(n);
      una, dup, ooo, rexmits := ackno, 0, 0, 0;
      rto := if una == nxt then UdpTx.RTO_OFF else 0;
    }

    method Acknowledge(n: nat)
      requires Valid() && n <= tx.sent
      modifies tx
      ensures tx.Valid() && tx.sent == old(tx.sent) - n && tx.Queue() == old(tx.Queue())[n..]
    {
      hide Contents, Distinct, Threaded;
      ghost var was := tx.list;
      var freed := tx.ReceiveAcks(n);
      ContentsDrop(tx.bufs, freed, tx.list);
    }

    /** A duplicate acknowledgement; `hole` is what fast recovery finds in the bitmap. */
    method Duplicate(count: u16, hole: Option<nat>) returns (ghost granted: nat)
      requires Valid() && Abs().FindsBuffer(una, hole) && !SeqLt(una, una)
      modifies this, tx
      ensures Valid() && Abs() == old(Abs()).ProcessAck(old(una), count, hole, granted)
    {
      hide Wrap, SeqLt, SeqGt, UdpTx.Sender.Transmit, TxTracking.Valid, TxTracking.Queue;
      QueueLength();
      granted := 0;
      dup := (dup + 1) % 0x1_0000;
      ooo := count;
      if dup == UdpTx.REXMIT_THRESHOLD {
        Resend();
      } else if dup > UdpTx.REXMIT_THRESHOLD && hole.Some? {
        ResendAt(hole.value);
        return;
      }
      granted := TransmitPackets();
    }

    lemma QueueLength()
      requires Valid()
      ensures |Abs().queue| == |tx.list| && Abs().Ok()
    {
    }

    /** `process_ack`. */
    method ProcessAck(ackno: u32, count: u16, hole: Option<nat>) returns (ghost granted: nat)
      requires Valid() && Abs().FindsBuffer(ackno, hole)
      requires Abs().IsNewAck(ackno) ==> 0 <= Abs().Acked(ackno) <= tx.sent
      modifies this, tx
      ensures Valid() && Abs() == old(Abs()).ProcessAck(ackno, count, hole, granted)
    {
      hide Wrap, SeqLt, SeqGt, UdpTx.Sender.Transmit, UdpTx.Sender.NewAck, TxTracking.Valid, TxTracking.Queue;
      QueueLength();
      granted := 0;
      if SeqLt(ackno, una) {
        return;
      } else if ackno == una {
        UdpTx.NotLess(una);
        granted := Duplicate(count, hole);
      } else if SeqGt(ackno, nxt) {
        granted := TransmitPackets();
      } else {
        NewAck(ackno);
        granted := TransmitPackets();
      }
    }

    /** `PeriodicCheck` of a flow that is not closed. */
    method PeriodicCheck() returns (keep: bool)
      requires Valid() && (rto >= 0 && !handshake ==> tx.list != [])
      modifies `rto, `rexmits, `log
      ensures Valid() && (Abs(), keep) == old(Abs()).Tick()
    {
      hide Wrap, TxTracking.Valid, TxTracking.Queue;
      QueueLength();
      if rto == UdpTx.RTO_OFF { return true; }
      rto := rto + 1;
      if rexmits >= UdpTx.REXMIT_THRESHOLD { return false; }
      if rto >= UdpTx.RTO_TICKS {
        if handshake {
          rto := 0;
        } else {
          Resend();
        }
        rexmits := rexmits + 1;
      }
      keep := true;
    }

    lemma WindowOf()
      requires Valid()
      ensures Window() == Abs().Window() && |Abs().queue| == |tx.list|
    {
    }

    function Window(): u32
      reads this
    {
      var w := Wrap(UdpTx.CWND - Wrap(nxt - una - ooo));
      if w > UdpTx.CWND then 0 else w
    }
  }

  lemma NoneSent(s: UdpTx.Sender)
    requires s.sent <= |s.queue|
    ensures s.SendMany(0) == s
  {
  }

  lemma {:induction false} SentMore(s: UdpTx.Sender, a: nat, b: nat)
    requires s.sent + a + b <= |s.queue|
    ensures s.SendMany(a).SendMany(b) == s.SendMany(a + b)
  {
    if b > 0 {
      SentMore(s, a, b - 1);
    }
  }
}

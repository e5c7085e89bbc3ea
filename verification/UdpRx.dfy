/** `RXTracking`: the receive side of the UDP flow. Packets arrive in any order, several times
    or never; complete messages are delivered in order. */
module UdpRx {
  import opened Words
  import opened UdpPacket

  /** `kReassemblyMaxSeqnoDistance`: the size in bits of a `size_t`, not of the bitmap. */
  const WINDOW: nat := 64

  datatype Entry = Entry(seqno: u32, pkt: Pkt)

  /** `count` is `sack_bitmap_count`, a byte. */
  datatype Rx = Rx(rcv: u32, count: nat, q: seq<Entry>, train: seq<Pkt>, delivered: seq<seq<Pkt>>)

  // ---------------------------------------------------------------- operations as functions

  /** Too old or too far ahead. */
  predicate Rejected(rcv: u32, seqno: u32) {
    SeqLt(seqno, rcv) || Wrap(seqno - rcv) >= WINDOW
  }

  /** The index of the first entry at or behind `seqno`. */
  function Find(q: seq<Entry>, seqno: u32): (i: nat)
    ensures i <= |q| && (i < |q| ==> q[i].seqno >= seqno)
    ensures forall j :: 0 <= j < i ==> q[j].seqno < seqno
  {
    if q == [] || q[0].seqno >= seqno then 0 else 1 + Find(q[1..], seqno)
  }

  /** The packet moves from the queue to the message train, which is delivered when complete. */
  function TakeFront(rx: Rx): Rx
    requires rx.q != []
  {
    var p := rx.q[0].pkt;
    var train := rx.train + [p];
    Rx(Wrap(rx.rcv + 1), (rx.count - 1) % 256, rx.q[1..], if p.fin then [] else train,
       if p.fin then rx.delivered + [train] else rx.delivered)
  }

  function Push(rx: Rx): Rx
    decreases |rx.q|
  {
    if rx.q != [] && rx.q[0].seqno == rx.rcv then Push(TakeFront(rx)) else rx
  }

  function Insert(rx: Rx, i: nat, e: Entry): Rx
    requires i <= |rx.q|
  {
    rx.(q := rx.q[..i] + [e] + rx.q[i..], count := (rx.count + 1) % 256)
  }

  /** The packet has been queued before, as far as the search can tell. */
  predicate Repeated(rx: Rx, seqno: u32) {
    var i := Find(rx.q, seqno);
    seqno != rx.rcv && i < |rx.q| && rx.q[i].seqno == seqno
  }

  function Consumed(rx: Rx, seqno: u32, pkt: Pkt): Rx {
    if Rejected(rx.rcv, seqno) || Repeated(rx, seqno) then rx
    else Push(Insert(rx, if seqno == rx.rcv then 0 else Find(rx.q, seqno), Entry(seqno, pkt)))
  }

  // ---------------------------------------------------------------- the window test

  /** The serial comparison only matters for packets that are not within the window anyway;
      an old packet is recognised exactly while it is at most 2^32 - 64 behind. */
  lemma WindowTest(rcv: u32, seqno: u32)
    ensures Rejected(rcv, seqno) <==> Wrap(seqno - rcv) >= WINDOW
    ensures seqno < rcv ==> (Rejected(rcv, seqno) <==> rcv - seqno <= TWO32 - WINDOW)
    ensures seqno >= rcv ==> (Rejected(rcv, seqno) <==> seqno - rcv >= WINDOW)
  {
    if seqno >= rcv {
      SmallWrap(seqno - rcv);
    } else {
      WrapAdd(seqno - rcv, 1);
      SmallWrap(seqno - rcv + TWO32);
    }
  }

  // ---------------------------------------------------------------- invariant

  /** The messages that packets make up: the complete ones, and the beginning of the next. */
  function Assemble(ps: seq<Pkt>): (r: (seq<seq<Pkt>>, seq<Pkt>)) {
    if ps == [] then ([], [])
    else
      var (done, train) := Assemble(ps[..|ps| - 1]);
      var p := ps[|ps| - 1];
      if p.fin then (done + [train + [p]], []) else (done, train + [p])
  }

  /** Data packet number `seqno` has been sent. */
  predicate Numbered(pkts: seq<Pkt>, seqno: u32) {
    FIRST <= seqno < FIRST + |pkts|
  }

  ghost predicate Sorted(q: seq<Entry>) {
    forall i, j :: 0 <= i < j < |q| ==> q[i].seqno < q[j].seqno
  }

  /** Every queued entry is the packet of its number. */
  ghost predicate Genuine(q: seq<Entry>, pkts: seq<Pkt>) {
    forall i :: 0 <= i < |q| ==> Numbered(pkts, q[i].seqno) && q[i].pkt == pkts[q[i].seqno - FIRST]
  }

  /** What holds whatever arrives: what is delivered and what is in the train are what the
      packets below `rcv` make up. */
  ghost predicate Faithful(rx: Rx, pkts: seq<Pkt>) {
    && FIRST <= rx.rcv <= FIRST + |pkts| < TWO32 && Genuine(rx.q, pkts)
    && Assemble(pkts[..rx.rcv - FIRST]) == (rx.delivered, rx.train)
  }

  ghost predicate Within(q: seq<Entry>, from: nat, to: nat) {
    forall i :: 0 <= i < |q| ==> from <= q[i].seqno < to
  }

  /** The queue is strictly increasing and inside the window, from `from` on, and `count` is
      its length. */
  ghost predicate Tidy(rx: Rx, from: nat) {
    Sorted(rx.q) && Within(rx.q, from, rx.rcv + WINDOW) && rx.count == |rx.q|
  }

  /** The queue between two arrivals. */
  ghost predicate QueueOk(rx: Rx) {
    Tidy(rx, rx.rcv + 1)
  }

  // ---------------------------------------------------------------- what every arrival keeps

  lemma TakeFaithful(rx: Rx, pkts: seq<Pkt>)
    requires Faithful(rx, pkts) && rx.q != [] && rx.q[0].seqno == rx.rcv
    ensures Faithful(TakeFront(rx), pkts) && TakeFront(rx).rcv == rx.rcv + 1
  {
    hide Assemble;
    SmallWrap(rx.rcv + 1);
    assert Numbered(pkts, rx.q[0].seqno);
    AssembleNext(pkts, rx.rcv - FIRST);
  }

  lemma AssembleNext(pkts: seq<Pkt>, n: nat)
    requires n < |pkts|
    ensures var (done, train), p := Assemble(pkts[..n]), pkts[n];
            Assemble(pkts[..n + 1]) == if p.fin then (done + [train + [p]], []) else (done, train + [p])
  {
    assert pkts[..n + 1][..n] == pkts[..n];
  }

  lemma {:induction false} PushFaithful(rx: Rx, pkts: seq<Pkt>)
    requires Faithful(rx, pkts)
    ensures Faithful(Push(rx), pkts) && Push(rx).rcv >= rx.rcv
    ensures rx.q != [] && rx.q[0].seqno == rx.rcv ==> Push(rx).rcv > rx.rcv
    decreases |rx.q|
  {
    hide Faithful;
    if rx.q != [] && rx.q[0].seqno == rx.rcv {
      TakeFaithful(rx, pkts);
      PushFaithful(TakeFront(rx), pkts);
    }
  }

  lemma InsertFaithful(rx: Rx, pkts: seq<Pkt>, seqno: u32, i: nat)
    requires Faithful(rx, pkts) && Numbered(pkts, seqno) && i <= |rx.q|
    ensures Faithful(Insert(rx, i, Entry(seqno, pkts[seqno - FIRST])), pkts)
  {
    hide Assemble;
  }

  /** One arrival of any packet of the sender, at any time, in whatever state the queue is;
      the one it waits for is never refused. */
  lemma ConsumeKeeps(rx: Rx, pkts: seq<Pkt>, seqno: u32)
    requires Faithful(rx, pkts) && Numbered(pkts, seqno)
    ensures Faithful(Consumed(rx, seqno, pkts[seqno - FIRST]), pkts)
    ensures Consumed(rx, seqno, pkts[seqno - FIRST]).rcv >= rx.rcv
    ensures seqno == rx.rcv ==> Consumed(rx, seqno, pkts[seqno - FIRST]).rcv > rx.rcv
  {
    WindowTest(rx.rcv, seqno);
    hide Rejected, Wrap, Faithful;
    var i := if seqno == rx.rcv then 0 else Find(rx.q, seqno);
    InsertFaithful(rx, pkts, seqno, i);
    PushFaithful(Insert(rx, i, Entry(seqno, pkts[seqno - FIRST])), pkts);
  }

  // ---------------------------------------------------------------- the queue

  lemma {:induction false} QueueBound(q: seq<Entry>, lo: nat, hi: nat)
    requires Sorted(q) && lo <= hi && forall i :: 0 <= i < |q| ==> lo <= q[i].seqno < hi
    ensures |q| <= hi - lo
    decreases |q|
  {
    if q != [] {
      var n := |q| - 1;
      QueueBound(q[..n], lo, q[n].seqno);
    }
  }

  lemma TakeTidy(rx: Rx)
    requires Tidy(rx, rx.rcv) && rx.q != [] && rx.q[0].seqno == rx.rcv && rx.rcv + 1 < TWO32
    ensures Tidy(TakeFront(rx), TakeFront(rx).rcv)
  {
    QueueBound(rx.q, rx.rcv, rx.rcv + WINDOW);
    SmallWrap(rx.rcv + 1);
    var t := TakeFront(rx);
    forall i | 0 <= i < |t.q| ensures t.rcv <= t.q[i].seqno {
      assert t.q[i] == rx.q[i + 1];
      assert rx.q[0].seqno < rx.q[i + 1].seqno;
    }
  }

  lemma {:induction false} PushTidy(rx: Rx, pkts: seq<Pkt>)
    requires Faithful(rx, pkts) && Tidy(rx, rx.rcv)
    ensures QueueOk(Push(rx))
    decreases |rx.q|
  {
    hide Assemble;
    if rx.q != [] && rx.q[0].seqno == rx.rcv {
      TakeFaithful(rx, pkts);
      TakeTidy(rx);
      hide Faithful, Tidy;
      PushTidy(TakeFront(rx), pkts);
    } else {
      assert forall i :: 0 < i < |rx.q| ==> rx.q[0].seqno < rx.q[i].seqno;
    }
  }

  lemma InsertSorted(q: seq<Entry>, i: nat, e: Entry)
    requires Sorted(q) && i <= |q|
    requires forall j :: 0 <= j < i ==> q[j].seqno < e.seqno
    requires forall j :: i <= j < |q| ==> e.seqno < q[j].seqno
    ensures Sorted(q[..i] + [e] + q[i..])
  {
    var q' := q[..i] + [e] + q[i..];
    forall a, b | 0 <= a < b < |q'| ensures q'[a].seqno < q'[b].seqno {
      var x := if a < i then a else a - 1;
      var y := if b < i then b else b - 1;
      assert a != i ==> q'[a] == q[x];
      assert b != i ==> q'[b] == q[y];
    }
  }

  lemma InsertTidy(rx: Rx, i: nat, e: Entry)
    requires QueueOk(rx) && rx.rcv <= e.seqno < rx.rcv + WINDOW && i <= |rx.q|
    requires forall j :: 0 <= j < i ==> rx.q[j].seqno < e.seqno
    requires forall j :: i <= j < |rx.q| ==> e.seqno < rx.q[j].seqno
    ensures Tidy(Insert(rx, i, e), rx.rcv)
  {
    QueueBound(rx.q, rx.rcv, rx.rcv + WINDOW);
    InsertSorted(rx.q, i, e);
    hide Sorted;
  }

  lemma FindSplits(q: seq<Entry>, seqno: u32)
    requires Sorted(q)
    ensures var i := Find(q, seqno);
            i < |q| && q[i].seqno != seqno ==> forall j :: i <= j < |q| ==> seqno < q[j].seqno
  {
  }

  /** A packet so old that it looks new: 64 numbers or less short of a whole turn. */
  predicate Ancient(rcv: u32, seqno: u32) {
    seqno < rcv && rcv - seqno > TWO32 - WINDOW
  }

  lemma ConsumeTidy(rx: Rx, pkts: seq<Pkt>, seqno: u32)
    requires Faithful(rx, pkts) && QueueOk(rx) && Numbered(pkts, seqno) && !Ancient(rx.rcv, seqno)
    ensures QueueOk(Consumed(rx, seqno, pkts[seqno - FIRST]))
  {
    WindowTest(rx.rcv, seqno);
    FindSplits(rx.q, seqno);
    hide Rejected, Wrap, SeqLt, Faithful, Sorted, Assemble;
    if !Rejected(rx.rcv, seqno) && !Repeated(rx, seqno) {
      var i := if seqno == rx.rcv then 0 else Find(rx.q, seqno);
      var e := Entry(seqno, pkts[seqno - FIRST]);
      InsertTidy(rx, i, e);
      InsertFaithful(rx, pkts, seqno, i);
      PushTidy(Insert(rx, i, e), pkts);
    }
  }

  lemma AncientTaken(rx: Rx, seqno: u32, pkt: Pkt)
    requires QueueOk(rx) && Ancient(rx.rcv, seqno)
    ensures Consumed(rx, seqno, pkt).q == [Entry(seqno, pkt)] + rx.q && Consumed(rx, seqno, pkt).rcv == rx.rcv
  {
    WindowTest(rx.rcv, seqno);
    hide Rejected, Wrap, SeqLt, Sorted;
    var e := Entry(seqno, pkt);
    assert Find(rx.q, seqno) == 0;
    assert rx.q[..0] + [e] + rx.q[0..] == [e] + rx.q;
  }

  /** An arrival breaks the queue exactly when the packet is that old: then it is queued a
      second time, in front of everything and outside the window. */
  lemma BreaksIffAncient(rx: Rx, pkts: seq<Pkt>, seqno: u32)
    requires Faithful(rx, pkts) && QueueOk(rx) && Numbered(pkts, seqno)
    ensures QueueOk(Consumed(rx, seqno, pkts[seqno - FIRST])) <==> !Ancient(rx.rcv, seqno)
  {
    if Ancient(rx.rcv, seqno) {
      AncientTaken(rx, seqno, pkts[seqno - FIRST]);
      hide Consumed;
    } else {
      ConsumeTidy(rx, pkts, seqno);
    }
  }

  // ---------------------------------------------------------------- every run

  function Start(): Rx {
    Rx(FIRST, 0, [], [], [])
  }

  /** The packets numbered by `arrivals` arrive one after the other. */
  function Receive(rx: Rx, pkts: seq<Pkt>, arrivals: seq<u32>): Rx
    requires forall i :: 0 <= i < |arrivals| ==> Numbered(pkts, arrivals[i])
    decreases |arrivals|
  {
    if arrivals == [] then rx
    else
      var n := |arrivals| - 1;
      assert Numbered(pkts, arrivals[n]);
      Consumed(Receive(rx, pkts, arrivals[..n]), arrivals[n], pkts[arrivals[n] - FIRST])
  }

  lemma {:induction false} ReceiveKeeps(pkts: seq<Pkt>, arrivals: seq<u32>)
    requires FIRST + |pkts| < TWO32 && forall i :: 0 <= i < |arrivals| ==> Numbered(pkts, arrivals[i])
    ensures Faithful(Receive(Start(), pkts, arrivals), pkts)
    decreases |arrivals|
  {
    hide Consumed;
    if arrivals == [] {
      assert pkts[..0] == [];
    } else {
      var n := |arrivals| - 1;
      ReceiveKeeps(pkts, arrivals[..n]);
      hide Faithful;
      ConsumeKeeps(Receive(Start(), pkts, arrivals[..n]), pkts, arrivals[n]);
    }
  }

  lemma {:induction false} ReceiveTidy(pkts: seq<Pkt>, arrivals: seq<u32>)
    requires FIRST + |pkts| < TWO32 && forall i :: 0 <= i < |arrivals| ==> Numbered(pkts, arrivals[i])
    requires |pkts| <= TWO32 - WINDOW
    ensures QueueOk(Receive(Start(), pkts, arrivals))
    decreases |arrivals|
  {
    hide Consumed, QueueOk;
    if arrivals == [] {
      EmptyOk(Start());
    } else {
      var n := |arrivals| - 1;
      ReceiveTidy(pkts, arrivals[..n]);
      ReceiveKeeps(pkts, arrivals[..n]);
      hide Assemble, Genuine;
      ConsumeTidy(Receive(Start(), pkts, arrivals[..n]), pkts, arrivals[n]);
    }
  }

  lemma EmptyOk(rx: Rx)
    requires rx.q == [] && rx.count == 0
    ensures QueueOk(rx)
  {
  }

  /** The first `n` data packets in order. */
  function InOrder(n: nat): (r: seq<u32>)
    requires FIRST + n <= TWO32
    ensures |r| == n && forall i :: 0 <= i < n ==> r[i] == FIRST + i
  {
    seq(n, i requires 0 <= i < n => FIRST + i)
  }

  lemma {:induction false} InOrderTaken(pkts: seq<Pkt>, n: nat)
    requires FIRST + |pkts| < TWO32 && n <= |pkts|
    ensures Receive(Start(), pkts, InOrder(n)).rcv == FIRST + n
    ensures Receive(Start(), pkts, InOrder(n)).q == [] && Receive(Start(), pkts, InOrder(n)).count == 0
  {
    if n > 0 {
      assert InOrder(n)[..n - 1] == InOrder(n - 1);
      InOrderTaken(pkts, n - 1);
      NextTaken(Receive(Start(), pkts, InOrder(n - 1)), FIRST + n - 1, pkts[n - 1]);
      hide Consumed, InOrder;
    }
  }

  lemma NextTaken(rx: Rx, seqno: u32, pkt: Pkt)
    requires rx.rcv == seqno && seqno + 1 < TWO32 && rx.q == [] && rx.count == 0
    ensures var t := Consumed(rx, seqno, pkt);
            t.rcv == seqno + 1 && t.q == [] && t.count == 0
  {
    WindowTest(seqno, seqno);
    SmallWrap(seqno + 1);
    hide Rejected, Wrap;
    var e := Entry(seqno, pkt);
    assert rx.q[..0] + [e] + rx.q[0..] == [e];
    var t := TakeFront(Insert(rx, 0, e));
    assert t.q == [];
    assert Push(t) == t;
  }

  /** All packets in order, and then the first one once more. */
  lemma TooLong(pkts: seq<Pkt>) returns (arrivals: seq<u32>)
    requires FIRST + |pkts| < TWO32 && |pkts| > TWO32 - WINDOW
    ensures forall i :: 0 <= i < |arrivals| ==> Numbered(pkts, arrivals[i])
    ensures Receive(Start(), pkts, arrivals).q == [Entry(FIRST, pkts[0])]
    ensures Receive(Start(), pkts, arrivals).rcv == FIRST + |pkts| && !QueueOk(Receive(Start(), pkts, arrivals))
  {
    var n := |pkts|;
    arrivals := InOrder(n) + [FIRST];
    assert arrivals[..n] == InOrder(n);
    InOrderTaken(pkts, n);
    var rx := Receive(Start(), pkts, InOrder(n));
    EmptyOk(rx);
    AncientTaken(rx, FIRST, pkts[0]);
    hide Consumed, InOrder, Receive;
  }

  /** Every run over `pkts` keeps the queue in order. */
  ghost predicate AlwaysTidy(pkts: seq<Pkt>) {
    forall arrivals: seq<u32> ::
      (forall i :: 0 <= i < |arrivals| ==> Numbered(pkts, arrivals[i])) ==> QueueOk(Receive(Start(), pkts, arrivals))
  }

  /** Every run keeps the queue increasing, inside the window and counted if and only if at
      most 2^32 - 64 packets are sent. */
  lemma QueueKeptIff(pkts: seq<Pkt>)
    requires FIRST + |pkts| < TWO32
    ensures AlwaysTidy(pkts) <==> |pkts| <= TWO32 - WINDOW
  {
    if |pkts| <= TWO32 - WINDOW {
      forall arrivals: seq<u32> | forall i :: 0 <= i < |arrivals| ==> Numbered(pkts, arrivals[i])
        ensures QueueOk(Receive(Start(), pkts, arrivals))
      {
        ReceiveTidy(pkts, arrivals);
      }
    } else {
      var arrivals := TooLong(pkts);
    }
  }

  // ---------------------------------------------------------------- nothing is lost

  /** Packet `seqno` has been taken or waits in the queue. */
  ghost predicate Kept(rx: Rx, seqno: u32) {
    seqno < rx.rcv || exists i :: 0 <= i < |rx.q| && rx.q[i].seqno == seqno
  }

  /** A packet ahead of `rcv` but inside the window goes into the queue, unless it is there, and
      nothing else changes. */
  lemma OutOfOrderQueued(rx: Rx, seqno: u32, pkt: Pkt)
    requires QueueOk(rx) && rx.rcv < seqno < rx.rcv + WINDOW && !Kept(rx, seqno)
    ensures var t := Consumed(rx, seqno, pkt);
            && Entry(seqno, pkt) in t.q && |t.q| == |rx.q| + 1 && t.rcv == rx.rcv && t.delivered == rx.delivered
            && (forall i :: 0 <= i < |rx.q| ==> rx.q[i] in t.q)
  {
    hide Rejected, Repeated, Wrap, SeqLt, QueueOk, Kept, Find, Push;
    WindowTest(rx.rcv, seqno);
    NotRepeated(rx, seqno);
    var i := Find(rx.q, seqno);
    Inserted(rx.q, i, Entry(seqno, pkt));
    FrontAhead(rx, Insert(rx, i, Entry(seqno, pkt)), i);
  }

  lemma NotRepeated(rx: Rx, seqno: u32)
    requires !Kept(rx, seqno)
    ensures !Repeated(rx, seqno)
  {
    hide Find;
  }

  lemma Inserted(q: seq<Entry>, i: nat, e: Entry)
    requires i <= |q|
    ensures var r := q[..i] + [e] + q[i..];
            e in r && |r| == |q| + 1 && forall j :: 0 <= j < |q| ==> q[j] in r
  {
    var r := q[..i] + [e] + q[i..];
    assert r[i] == e;
    forall j | 0 <= j < |q| ensures q[j] in r {
      assert q[j] == r[if j < i then j else j + 1];
    }
  }

  /** Nothing in front of the queue is due. */
  lemma FrontAhead(rx: Rx, t: Rx, i: nat)
    requires QueueOk(rx) && i <= |rx.q| && t.rcv == rx.rcv && |t.q| == |rx.q| + 1
    requires t.q[i].seqno > rx.rcv && (i > 0 ==> t.q[0] == rx.q[0])
    ensures Push(t) == t
  {
    hide Sorted;
  }

  lemma TakeKept(rx: Rx, seqno: u32)
    requires rx.q != [] && rx.q[0].seqno == rx.rcv && rx.rcv + 1 < TWO32 && Kept(rx, seqno)
    ensures Kept(TakeFront(rx), seqno)
  {
    SmallWrap(rx.rcv + 1);
    var t := TakeFront(rx);
    if seqno >= rx.rcv + 1 {
      var i :| 0 <= i < |rx.q| && rx.q[i].seqno == seqno;
      assert t.q[i - 1] == rx.q[i];
    }
  }

  lemma {:induction false} PushKept(rx: Rx, pkts: seq<Pkt>, seqno: u32)
    requires Faithful(rx, pkts) && Kept(rx, seqno)
    ensures Kept(Push(rx), seqno)
    decreases |rx.q|
  {
    if rx.q != [] && rx.q[0].seqno == rx.rcv {
      TakeFaithful(rx, pkts);
      TakeKept(rx, seqno);
      hide Faithful, Kept;
      PushKept(TakeFront(rx), pkts, seqno);
    }
  }

  lemma InsertKept(rx: Rx, i: nat, e: Entry, seqno: u32)
    requires i <= |rx.q| && (Kept(rx, seqno) || seqno == e.seqno)
    ensures Kept(Insert(rx, i, e), seqno)
  {
    var t := Insert(rx, i, e);
    if seqno == e.seqno {
      assert t.q[i] == e;
    } else if seqno >= rx.rcv {
      var j :| 0 <= j < |rx.q| && rx.q[j].seqno == seqno;
      assert t.q[if j < i then j else j + 1] == rx.q[j];
    }
  }

  /** An arrival drops nothing that was kept, and keeps the packet that arrives if it is inside
      the window. */
  lemma ArrivalKept(rx: Rx, pkts: seq<Pkt>, seqno: u32, x: u32)
    requires Faithful(rx, pkts) && Numbered(pkts, seqno)
    requires Kept(rx, x) || (x == seqno && rx.rcv <= x < rx.rcv + WINDOW)
    ensures Kept(Consumed(rx, seqno, pkts[seqno - FIRST]), x)
  {
    WindowTest(rx.rcv, seqno);
    hide Rejected, Wrap, SeqLt, Faithful;
    if !Rejected(rx.rcv, seqno) && !Repeated(rx, seqno) {
      var i := if seqno == rx.rcv then 0 else Find(rx.q, seqno);
      var e := Entry(seqno, pkts[seqno - FIRST]);
      InsertKept(rx, i, e, x);
      InsertFaithful(rx, pkts, seqno, i);
      hide Kept;
      PushKept(Insert(rx, i, e), pkts, x);
    }
  }

  lemma {:induction false} ReceiveKept(rx: Rx, pkts: seq<Pkt>, arrivals: seq<u32>, x: u32)
    requires Faithful(rx, pkts) && forall i :: 0 <= i < |arrivals| ==> Numbered(pkts, arrivals[i])
    requires x < rx.rcv + WINDOW && (x in arrivals || Kept(rx, x))
    ensures Faithful(Receive(rx, pkts, arrivals), pkts) && Receive(rx, pkts, arrivals).rcv >= rx.rcv
    ensures Kept(Receive(rx, pkts, arrivals), x)
    decreases |arrivals|
  {
    hide Consumed, Faithful;
    if arrivals != [] {
      var n := |arrivals| - 1;
      var some := arrivals[..n];
      ReceiveStep(rx, pkts, arrivals);
      if x in some || Kept(rx, x) {
        ReceiveKept(rx, pkts, some, x);
      } else {
        assert arrivals == some + [arrivals[n]];
        ReceiveGrows(rx, pkts, some);
      }
      ConsumeKeeps(Receive(rx, pkts, some), pkts, arrivals[n]);
      ArrivalKept(Receive(rx, pkts, some), pkts, arrivals[n], x);
    }
  }

  lemma ReceiveStep(rx: Rx, pkts: seq<Pkt>, arrivals: seq<u32>)
    requires arrivals != [] && forall i :: 0 <= i < |arrivals| ==> Numbered(pkts, arrivals[i])
    ensures var n := |arrivals| - 1;
            Receive(rx, pkts, arrivals)
            == Consumed(Receive(rx, pkts, arrivals[..n]), arrivals[n], pkts[arrivals[n] - FIRST])
  {
    hide Consumed;
  }

  lemma {:induction false} ReceiveGrows(rx: Rx, pkts: seq<Pkt>, arrivals: seq<u32>)
    requires Faithful(rx, pkts) && forall i :: 0 <= i < |arrivals| ==> Numbered(pkts, arrivals[i])
    ensures Faithful(Receive(rx, pkts, arrivals), pkts) && Receive(rx, pkts, arrivals).rcv >= rx.rcv
    decreases |arrivals|
  {
    hide Consumed, Faithful;
    if arrivals != [] {
      ReceiveGrows(rx, pkts, arrivals[..|arrivals| - 1]);
      ConsumeKeeps(Receive(rx, pkts, arrivals[..|arrivals| - 1]), pkts, arrivals[|arrivals| - 1]);
    }
  }

  /** Up to a number where nothing can be ancient the queue stays in order. */
  lemma {:induction false} TidyUntil(rx: Rx, pkts: seq<Pkt>, arrivals: seq<u32>, bound: nat)
    requires Faithful(rx, pkts) && QueueOk(rx) && bound <= TWO32 - WINDOW
    requires forall i :: 0 <= i < |arrivals| ==> Numbered(pkts, arrivals[i])
    ensures Receive(rx, pkts, arrivals).rcv >= bound || QueueOk(Receive(rx, pkts, arrivals))
    decreases |arrivals|
  {
    hide Consumed, Faithful, QueueOk;
    if arrivals != [] {
      var n := |arrivals| - 1;
      TidyUntil(rx, pkts, arrivals[..n], bound);
      ReceiveGrows(rx, pkts, arrivals[..n]);
      var t := Receive(rx, pkts, arrivals[..n]);
      ConsumeKeeps(t, pkts, arrivals[n]);
      if t.rcv < bound {
        ConsumeTidy(t, pkts, arrivals[n]);
      }
    }
  }

  /** Reassembly: from any state, once the next `n` packets have all arrived, in whatever order
      and among whatever others, all of them have been taken. */
  lemma Reassembles(rx: Rx, pkts: seq<Pkt>, arrivals: seq<u32>, n: nat)
    requires Faithful(rx, pkts) && QueueOk(rx) && n <= WINDOW && rx.rcv + n <= TWO32 - WINDOW
    requires forall i :: 0 <= i < |arrivals| ==> Numbered(pkts, arrivals[i])
    requires forall x :: rx.rcv <= x < rx.rcv + n ==> x in arrivals
    ensures Receive(rx, pkts, arrivals).rcv >= rx.rcv + n
  {
    hide Faithful, Receive;
    TidyUntil(rx, pkts, arrivals, rx.rcv + n);
    ReceiveGrows(rx, pkts, arrivals);
    var t := Receive(rx, pkts, arrivals);
    if t.rcv < rx.rcv + n {
      ReceiveKept(rx, pkts, arrivals, t.rcv);
      NotKept(t);
      assert false;
    }
  }

  lemma NotKept(rx: Rx)
    requires QueueOk(rx)
    ensures !Kept(rx, rx.rcv)
  {
  }

  /** In particular a flow's first packets, in any order. */
  lemma FirstReassembled(pkts: seq<Pkt>, arrivals: seq<u32>, n: nat)
    requires FIRST + |pkts| < TWO32 && n <= WINDOW
    requires forall i :: 0 <= i < |arrivals| ==> Numbered(pkts, arrivals[i])
    requires forall x :: FIRST <= x < FIRST + n ==> x in arrivals
    ensures Receive(Start(), pkts, arrivals).rcv >= FIRST + n
  {
    ReceiveKeeps(pkts, []);
    EmptyOk(Start());
    hide Faithful, QueueOk;
    Reassembles(Start(), pkts, arrivals, n);
  }

  lemma {:induction false} AssembleMore(ps: seq<Pkt>, more: seq<Pkt>)
    requires forall i :: 0 <= i < |more| - 1 ==> !more[i].fin
    ensures var (done, train) := Assemble(ps);
            Assemble(ps + more) == if more == [] then (done, train)
                                   else if more[|more| - 1].fin then (done + [train + more], [])
                                   else (done, train + more)
    decreases |more|
  {
    if more == [] {
      assert ps + more == ps;
    } else {
      var n := |more| - 1;
      assert (ps + more)[..|ps| + n] == ps + more[..n];
      AssembleMore(ps, more[..n]);
      var train := Assemble(ps).1;
      assert n == 0 ==> train + more == train + [more[0]];
      assert n > 0 ==> (train + more[..n]) + [more[n]] == train + more;
    }
  }

  /** The packets of a list of messages assemble to that list. */
  lemma {:induction false} AssembleAll(ms: seq<seq<Pkt>>)
    requires Messages(ms)
    ensures Assemble(Flatten(ms)) == (ms, [])
    decreases |ms|
  {
    if ms != [] {
      var n := |ms| - 1;
      assert ms == ms[..n] + [ms[n]];
      FlattenSnoc(ms[..n], ms[n]);
      AssembleAll(ms[..n]);
      hide Flatten;
      AssembleMore(Flatten(ms[..n]), ms[n]);
      assert [] + ms[n] == ms[n];
    }
  }

  lemma {:induction false} AssemblePrefix(ps: seq<Pkt>, k: nat)
    requires k <= |ps|
    ensures Assemble(ps[..k]).0 <= Assemble(ps).0
    decreases |ps|
  {
    if k == |ps| {
      assert ps[..k] == ps;
    } else {
      var n := |ps| - 1;
      assert ps[..n][..k] == ps[..k];
      AssemblePrefix(ps[..n], k);
    }
  }

  /** For any messages of fewer than 2^32 packets and any arrivals of these packets, however
      lost, repeated and reordered: the delivered trains are exactly the messages that the
      packets below `rcv` complete, hence the first messages sent, in order and each once. */
  lemma DeliversInOrder(ms: seq<seq<Pkt>>, arrivals: seq<u32>)
    requires Messages(ms)
    requires FIRST + |Flatten(ms)| < TWO32
    requires forall i :: 0 <= i < |arrivals| ==> Numbered(Flatten(ms), arrivals[i])
    ensures var rx := Receive(Start(), Flatten(ms), arrivals);
            && FIRST <= rx.rcv <= FIRST + |Flatten(ms)|
            && rx.delivered == Assemble(Flatten(ms)[..rx.rcv - FIRST]).0 && rx.delivered <= ms
  {
    hide Flatten, Assemble, Receive, Genuine, Messages;
    ReceiveKeeps(Flatten(ms), arrivals);
    FaithfulDelivers(Receive(Start(), Flatten(ms), arrivals), ms);
  }

  lemma FaithfulDelivers(rx: Rx, ms: seq<seq<Pkt>>)
    requires Messages(ms)
    requires Faithful(rx, Flatten(ms))
    ensures rx.delivered <= ms
  {
    hide Flatten, Assemble, Genuine, Messages;
    AssembleAll(ms);
    AssemblePrefix(Flatten(ms), rx.rcv - FIRST);
  }

  // ---------------------------------------------------------------- the object

  class RxTracking {
    var rcv: u32
    var count: nat
    var q: seq<Entry>
    var train: seq<Pkt>
    var delivered: seq<seq<Pkt>>

    ghost function Abs(): Rx
      reads this
    {
      Rx(rcv, count, q, train, delivered)
    }

    constructor ()
      ensures Abs() == Start()
    {
      rcv, count, q, train, delivered := FIRST, 0, [], [], [];
    }

    /** `Consume`, delivery succeeding; `hasBuf` says whether a buffer can be allocated. -1 means
        that one was needed and there was none, and that nothing has changed. */
    method Consume(seqno: u32, pkt: Pkt, hasBuf: bool) returns (ret: int)
      modifies this
      ensures ret == 0 || ret == -1
      ensures ret == -1 <==> !hasBuf && !Rejected(old(rcv), seqno) && !Repeated(old(Abs()), seqno)
      ensures Abs() == if ret == 0 then Consumed(old(Abs()), seqno, pkt) else old(Abs())
    {
      hide Wrap, SeqLt, Find, Push;
      ret := 0;
      if SeqLt(seqno, rcv) { return; }
      var distance := Wrap(seqno - rcv);
      if distance >= WINDOW { return; }
      var i := 0;
      if seqno != rcv {
        i := FindFrom(seqno);
        if i < |q| && q[i].seqno == seqno { return; }
      }
      if !hasBuf { return -1; }
      q := q[..i] + [Entry(seqno, pkt)] + q[i..];
      count := (count + 1) % 256;
      PushInOrder();
    }

    /** The search through the queue. */
    method FindFrom(seqno: u32) returns (i: nat)
      ensures i == Find(q, seqno)
    {
      i := 0;
      assert q[0..] == q;
      while i < |q| && q[i].seqno < seqno
        invariant 0 <= i <= |q|
        invariant Find(q, seqno) == i + Find(q[i..], seqno)
      {
        assert q[i..][1..] == q[i + 1..];
        i := i + 1;
      }
    }

    /** `PushInOrderMsgbufsToShmTrain`. */
    method PushInOrder()
      modifies this
      ensures Abs() == Push(old(Abs()))
    {
      while q != [] && q[0].seqno == rcv
        invariant Push(Abs()) == Push(old(Abs()))
        decreases |q|
      {
        var p := q[0].pkt;
        q := q[1..];
        train := train + [p];
        if p.fin {
          delivered := delivered + [train];
          train := [];
        }
        rcv := Wrap(rcv + 1);
        count := (count - 1) % 256;
      }
    }
  }
}

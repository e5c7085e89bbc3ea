/** `TcpFlow` as the source has it: an object whose methods update its fields in place, byte
    loops included. Every method is tied to the function of the same name in
    TcpFlowModel.dfy, so everything proved about runs of those functions holds of the
    object. */
module TcpFlowClass {
  import opened Words
  import opened Common
  import opened TcpFraming
  import opened TcpFlowModel
  import opened TcpSafety
  import opened TcpSteps
  import opened TcpTimer

  // ---------------------------------------------------------------- the receive loops

  lemma {:induction false} FillSplit(train: seq<RxBuf>, len: u32, xs: seq<u8>, ys: seq<u8>, cap: nat)
    ensures Fill(train, len, xs + ys, cap) == Fill(Fill(train, len, xs, cap), len, ys, cap)
    decreases |xs|
  {
    if xs == [] {
      assert xs + ys == ys;
    } else {
      assert (xs + ys)[1..] == xs[1..] + ys;
      FillSplit(AddByte(train, len, xs[0], cap), len, xs[1..], ys, cap);
    }
  }

  /** Bytes that fit into the last buffer are appended to it in one piece. */
  lemma {:induction false} FillAppend(train: seq<RxBuf>, len: u32, xs: seq<u8>, cap: nat)
    requires train != [] && |train[|train| - 1].data| + |xs| <= cap
    ensures var n := |train| - 1;
            Fill(train, len, xs, cap) == train[n := train[n].(data := train[n].data + xs)]
    decreases |xs|
  {
    var n := |train| - 1;
    if xs == [] {
      assert train[n].data + xs == train[n].data;
    } else {
      FillAppend(AddByte(train, len, xs[0], cap), len, xs[1..], cap);
      assert train[n].data + xs == (train[n].data + [xs[0]]) + xs[1..];
    }
  }

  /** The buffer linked behind `train` when its last one is full. */
  function NewBuf(train: seq<RxBuf>, len: u32, xs: seq<u8>): RxBuf {
    RxBuf(train == [], train != [], false, if train == [] then len else 0, xs)
  }

  /** With no buffer to fill, the bytes start a new one behind the marked train. */
  lemma FillFresh(train: seq<RxBuf>, len: u32, xs: seq<u8>, cap: nat)
    requires 1 <= |xs| <= cap
    requires train != [] ==> train[|train| - 1].sg && |train[|train| - 1].data| == cap
    ensures Fill(train, len, xs, cap) == train + [NewBuf(train, len, xs)]
  {
    var t := AddByte(train, len, xs[0], cap);
    assert train != [] ==> train[|train| - 1 := train[|train| - 1].(sg := true)] == train;
    assert t == train + [NewBuf(train, len, [xs[0]])];
    FillAppend(t, len, xs[1..], cap);
    assert [xs[0]] + xs[1..] == xs;
  }

  /** Marking a full last buffer early changes nothing once another byte follows. */
  lemma FillMarked(train: seq<RxBuf>, len: u32, xs: seq<u8>, cap: nat)
    requires train != [] && |train[|train| - 1].data| == cap && xs != []
    ensures var n := |train| - 1;
            Fill(train, len, xs, cap) == Fill(train[n := train[n].(sg := true)], len, xs, cap)
  {
    var n := |train| - 1;
    var marked := train[n := train[n].(sg := true)];
    assert marked[n := marked[n].(sg := true)] == marked;
    assert AddByte(train, len, xs[0], cap) == AddByte(marked, len, xs[0], cap);
  }

  lemma {:induction false} FillShape(train: seq<RxBuf>, got: nat, len: u32, xs: seq<u8>, cap: nat)
    requires PartTrain(train, got, len, cap) && cap >= 1
    ensures PartTrain(Fill(train, len, xs, cap), got + |xs|, len, cap)
    decreases |xs|
  {
    hide PartTrain;
    if xs != [] {
      AddByteShape(train, got, len, xs[0], cap);
      FillShape(AddByte(train, len, xs[0], cap), got + 1, len, xs[1..], cap);
    }
  }

  /** The state after `xs` more bytes of the pending message. */
  function Filled(rx: RxState, xs: seq<u8>): RxFields {
    rx.(train := Fill(rx.train, rx.pending, xs, rx.cap), got := rx.got + |xs|)
  }

  lemma FilledValid(rx: RxState, xs: seq<u8>)
    requires rx.pending > 0 && rx.got + |xs| <= rx.pending
    ensures Filled(rx, xs).Valid() <==> rx.got + |xs| < rx.pending
    ensures rx.got + |xs| == rx.pending ==> Filled(rx, xs).train != [] && Finish(Filled(rx, xs)).Valid()
  {
    FillShape(rx.train, rx.got, rx.pending, xs, rx.cap);
  }

  /** The bytes of one message in one piece: `StepByte` byte by byte, as `Fill` and `Finish`
      do it. */
  lemma {:induction false} ConsumeFill(rx: RxState, xs: seq<u8>, rest: seq<u8>)
    requires rx.pending > 0 && rx.got + |xs| <= rx.pending
    requires Filled(rx, xs).Valid() || (Filled(rx, xs).train != [] && Finish(Filled(rx, xs)).Valid())
    ensures rx.got + |xs| < rx.pending && Filled(rx, xs).Valid() ==>
              Consume(rx, xs + rest) == Consume(Filled(rx, xs), rest)
    ensures rx.got + |xs| == rx.pending && Filled(rx, xs).train != [] && Finish(Filled(rx, xs)).Valid() ==>
              Consume(rx, xs + rest) == Consume(Finish(Filled(rx, xs)), rest)
    decreases |xs|
  {
    if xs == [] {
      assert xs + rest == rest;
      assert Filled(rx, xs) == rx;
    } else {
      assert (xs + rest)[0] == xs[0] && (xs + rest)[1..] == xs[1..] + rest;
      var o := StepByte(rx, xs[0]);
      if |xs| > 1 {
        assert Filled(o.rx, xs[1..]) == Filled(rx, xs);
        ConsumeFill(o.rx, xs[1..], rest);
      } else {
        assert xs[1..] + rest == rest;
        assert Fill(AddByte(rx.train, rx.pending, xs[0], rx.cap), rx.pending, xs[1..], rx.cap)
            == AddByte(rx.train, rx.pending, xs[0], rx.cap);
      }
    }
  }

  /** Prefix bytes that do not complete the prefix. */
  lemma {:induction false} ConsumePrefix(rx: RxState, xs: seq<u8>, rest: seq<u8>)
    requires rx.pending == 0 && |rx.lenBuf| + |xs| < PREFIX
    ensures Consume(rx, xs + rest) == Consume(rx.(lenBuf := rx.lenBuf + xs), rest)
    decreases |xs|
  {
    if xs == [] {
      assert xs + rest == rest && rx.lenBuf + xs == rx.lenBuf;
    } else {
      assert (xs + rest)[0] == xs[0] && (xs + rest)[1..] == xs[1..] + rest;
      ConsumePrefix(rx.(lenBuf := rx.lenBuf + [xs[0]]), xs[1..], rest);
      assert (rx.lenBuf + [xs[0]]) + xs[1..] == rx.lenBuf + xs;
    }
  }

  /** Prefix bytes that complete the prefix. */
  lemma ConsumeLength(rx: RxState, xs: seq<u8>, rest: seq<u8>)
    requires rx.pending == 0 && xs != [] && |rx.lenBuf| + |xs| == PREFIX
    ensures var len := FromBe32(rx.lenBuf + xs);
            Consume(rx, xs + rest) == if len == 0 || len > MSG_MAX_LEN then rx.(lenBuf := [])
                                      else Consume(rx.(lenBuf := [], pending := len), rest)
  {
    var n := |xs| - 1;
    var mid := rx.(lenBuf := rx.lenBuf + xs[..n]);
    assert xs + rest == xs[..n] + ([xs[n]] + rest);
    ConsumePrefix(rx, xs[..n], [xs[n]] + rest);
    assert mid.lenBuf + [xs[n]] == rx.lenBuf + xs;
    assert ([xs[n]] + rest)[1..] == rest;
  }

  // ---------------------------------------------------------------- the receive loops, in place

  /** Prefix bytes from `offset` on, until the prefix is complete or the segment ends. */
  method ReadPrefix(lb: seq<u8>, data: seq<u8>, offset: nat) returns (lenBuf: seq<u8>, next: nat)
    requires |lb| < PREFIX && offset < |data|
    ensures offset < next <= |data| && lenBuf == lb + data[offset..next]
    ensures |lenBuf| <= PREFIX && (|lenBuf| < PREFIX ==> next == |data|)
  {
    lenBuf, next := lb, offset;
    while |lenBuf| < PREFIX && next < |data|
      invariant offset <= next <= |data| && |lenBuf| <= PREFIX
      invariant lenBuf == lb + data[offset..next]
      invariant next == offset ==> lenBuf == lb
    {
      lenBuf := lenBuf + [data[next]];
      next := next + 1;
    }
  }

  /** The copy loop: `bytes` of the pending message go into message buffers. A full buffer
      is marked SG and left when the next byte needs a new one. */
  method FillTrain(begun: seq<RxBuf>, len: u32, bytes: seq<u8>, cap: nat) returns (train: seq<RxBuf>)
    requires cap >= 1 && (begun != [] ==> |begun[|begun| - 1].data| <= cap)
    ensures train == Fill(begun, len, bytes, cap)
  {
    hide Fill, AddByte;
    train := begun;
    assert bytes[0..] == bytes;
    var live := train != [];
    var consumed := 0;
    while consumed < |bytes|
      invariant 0 <= consumed <= |bytes|
      invariant Fill(train, len, bytes[consumed..], cap) == Fill(begun, len, bytes, cap)
      invariant live ==> train != [] && |train[|train| - 1].data| <= cap
      invariant !live && train != [] ==> train[|train| - 1].sg && |train[|train| - 1].data| == cap
      decreases |bytes| - consumed, live
    {
      ghost var was, left, wasLive := train, bytes[consumed..], live;
      if !live {
        train := train + [NewBuf(train, len, [])];
        live := true;
      }
      var n := |train| - 1;
      var room := cap - |train[n].data|;
      if room == 0 {
        FillMarked(was, len, left, cap);
        train := train[n := train[n].(sg := true)];
        live := false;
        continue;
      }
      var chunk := Min(|bytes| - consumed, room);
      CopyChunk(was, train, wasLive, len, left, chunk, cap);
      train := train[n := train[n].(data := train[n].data + bytes[consumed..consumed + chunk])];
      assert left[..chunk] == bytes[consumed..consumed + chunk];
      assert left[chunk..] == bytes[consumed + chunk..];
      consumed := consumed + chunk;
    }
    FillNone(train, len, cap);
    assert bytes[consumed..] == [];
  }

  lemma FillNone(train: seq<RxBuf>, len: u32, cap: nat)
    ensures Fill(train, len, [], cap) == train
  {
  }

  /** One turn of the copy loop. */
  lemma CopyChunk(was: seq<RxBuf>, train: seq<RxBuf>, live: bool, len: u32, left: seq<u8>, chunk: nat, cap: nat)
    requires 1 <= chunk <= |left|
    requires train == if live then was else was + [NewBuf(was, len, [])]
    requires train != [] && |train[|train| - 1].data| + chunk <= cap
    requires !live && was != [] ==> was[|was| - 1].sg && |was[|was| - 1].data| == cap
    ensures var n := |train| - 1;
            Fill(was, len, left, cap)
            == Fill(train[n := train[n].(data := train[n].data + left[..chunk])], len, left[chunk..], cap)
  {
    assert left == left[..chunk] + left[chunk..];
    FillSplit(was, len, left[..chunk], left[chunk..], cap);
    if live {
      FillAppend(was, len, left[..chunk], cap);
    } else {
      FillFresh(was, len, left[..chunk], cap);
      assert [] + left[..chunk] == left[..chunk];
      assert train[|was| := NewBuf(was, len, left[..chunk])] == was + [NewBuf(was, len, left[..chunk])];
    }
  }

  /** The prefix phase; `more` when a valid length is now pending. */
  method TakePrefix(start: RxState, data: seq<u8>, offset: nat) returns (more: bool, rx: RxState, next: nat)
    requires start.pending == 0 && offset < |data|
    ensures more ==> rx.pending > 0 && offset < next <= |data|
                     && Consume(rx, data[next..]) == Consume(start, data[offset..])
    ensures !more ==> rx == Consume(start, data[offset..])
  {
    hide FromBe32;
    var lenBuf;
    lenBuf, next := ReadPrefix(start.lenBuf, data, offset);
    ghost var xs, rest := data[offset..next], data[next..];
    assert data[offset..] == xs + rest;
    more := |lenBuf| == PREFIX;
    if !more {
      ConsumePrefix(start, xs, rest);
      rx := start.(lenBuf := lenBuf);
      return;
    }
    ConsumeLength(start, xs, rest);
    var len := FromBe32(lenBuf);
    more := !(len == 0 || len > MSG_MAX_LEN);
    rx := if more then start.(lenBuf := [], pending := len) else start.(lenBuf := []);
  }

  /** The deframer over one segment. */
  method ConsumePayload(start: RxState, data: seq<u8>) returns (rx: RxState)
    ensures rx == Consume(start, data)
  {
    hide StepByte, RxFields.Valid;
    rx := start;
    var offset := 0;
    while offset < |data|
      invariant 0 <= offset <= |data|
      invariant Consume(rx, data[offset..]) == Consume(start, data)
    {
      if rx.pending == 0 {
        var more;
        more, rx, offset := TakePrefix(rx, data, offset);
        if !more { return; }
      }
      rx, offset := CopyMessage(rx, data, offset);
    }
  }

  /** The part of the pending message that the segment holds, delivered when complete. */
  method CopyMessage(start: RxState, data: seq<u8>, offset: nat) returns (rx: RxState, next: nat)
    requires start.pending > 0 && offset <= |data|
    ensures offset <= next <= |data| && (offset < |data| ==> offset < next)
    ensures Consume(rx, data[next..]) == Consume(start, data[offset..])
  {
    var n := Min(start.pending - start.got, |data| - offset);
    next := offset + n;
    ghost var xs, rest := data[offset..next], data[next..];
    assert data[offset..] == xs + rest;
    FilledValid(start, xs);
    ConsumeFill(start, xs, rest);
    var train := FillTrain(start.train, start.pending, data[offset..next], start.cap);
    var full := start.(train := train, got := start.got + n);
    assert full == Filled(start, xs);
    if full.got >= full.pending {
      var last := |train| - 1;
      var done := train[last := train[last].(sg := false, fin := true)];
      rx := Rx(start.cap, start.lenBuf, 0, 0, [], start.delivered + [done]);
      assert rx == Finish(full);
    } else {
      rx := full;
    }
  }

  // ---------------------------------------------------------------- states between two calls

  lemma RewindOk(f: Flow)
    requires f.Ok()
    ensures f.(nxt := f.una, finSent := false).Ok()
  {
    Same(f.una);
  }

  lemma EstablishOk(f: Flow, s: Segment)
    requires f.Ok() && f.state == SynReceived && s.ackNo == f.nxt
    ensures f.Confirm(s).Ok()
  {
    Same(f.nxt);
  }

  lemma WindowOk(f: Flow, wnd: u16)
    requires f.Ok()
    ensures f.(wnd := wnd).Ok()
  {
  }

  lemma ClosingOk(f: Flow)
    requires f.Ok() && f.CanAccept()
    ensures f.(finPending := true, state := if f.state == Established then FinWait1 else LastAck).Ok()
  {
  }

  lemma LongerOk(f: Flow, xs: seq<u8>, freed: nat)
    requires f.Ok() && f.CanAccept() && |f.buf| + |xs| <= MAX_SEND_BUF
    ensures f.(freed := freed, buf := f.buf + xs).Ok()
  {
    hide Wrap;
  }

  lemma AcceptedOk(f: Flow, msgLen: u32, chain: seq<seq<u8>>)
    requires f.Ok() && PREFIX + msgLen < TWO32 && f.Accepts(msgLen, chain)
    ensures f.(freed := f.freed + |chain|, buf := f.buf + Frame(Flatten(chain)[..msgLen])).Ok()
  {
    hide Wrap, Flatten, Frame, Flow.Ok;
    SmallWrap(PREFIX + msgLen);
    LongerOk(f, Frame(Flatten(chain)[..msgLen]), f.freed + |chain|);
  }

  lemma ClosedOk(f: Flow)
    requires f.Ok()
    ensures f.(state := Closed).Ok()
  {
  }

  lemma RexmitOk(f: Flow)
    requires f.Ok() && f.rexmits < MAX_REXMIT
    ensures f.(rexmits := f.rexmits + 1).Ok()
  {
  }

  // ---------------------------------------------------------------- the object

  class TcpFlow {
    const isn: u32
    const cap: nat

    var state: State
    var una: u32
    var nxt: u32
    var buf: seq<u8>
    var finPending: bool
    var finSent: bool
    var finSeq: u32
    var rcv: u32
    var wnd: u16
    var peerMss: u16
    var rtoLeft: nat
    var rtoOn: bool
    var rexmits: nat
    var timeWait: nat
    var rx: RxState
    var tx: seq<Segment>
    var notices: seq<bool>
    var freed: nat
    /** Packets the pool can still hand out for data and FIN segments. */
    var budget: nat

    ghost function Abs(): Flow
      reads this
    {
      Flow(state, una, nxt, isn, buf, finPending, finSent, finSeq, rcv, wnd, peerMss, rtoLeft, rtoOn, rexmits, timeWait,
           rx, tx, notices, freed)
    }

    ghost predicate Valid()
      reads this
    {
      Abs().Ok()
    }

    constructor (isn: u32, cap: nat)
      requires cap >= 1
      ensures Abs() == NewFlow(isn, cap)
      ensures Valid()
    {
      this.isn, this.cap := isn, cap;
      state, una, nxt, buf := Closed, isn, isn, [];
      finPending, finSent, finSeq := false, false, 0;
      rcv, wnd, peerMss := 0, WINDOW, DEFAULT_MSS;
      rtoLeft, rtoOn, rexmits, timeWait := INITIAL_RTO, false, 0, TIME_WAIT_TICKS;
      rx := RxInit(cap);
      tx, notices, freed, budget := [], [], 0, 0;
      new;
      NewFlowOk(isn, cap);
    }

    static lemma NewFlowOk(isn: u32, cap: nat)
      requires cap >= 1
      ensures NewFlow(isn, cap).Ok()
    {
    }

    // -------------------------------------------------------------- parts of several transitions

    method StartTimer()
      modifies `rtoOn, `rtoLeft
      ensures Abs() == old(Abs()).StartTimer()
    {
      rtoOn := true;
      rtoLeft := INITIAL_RTO;
    }

    method LearnPeer(s: Segment)
      modifies `peerMss, `rcv
      ensures Abs() == old(Abs()).LearnPeer(s)
    {
      hide Wrap, ParseMss;
      ParseTcpOptions(s.opts);
      rcv := Wrap(s.seqNo + 1);
    }

    method Confirm(s: Segment)
      modifies `state, `una, `wnd, `rtoOn, `rexmits
      ensures Abs() == old(Abs()).Confirm(s)
    {
      hide RxFields.Valid;
      una := s.ackNo;
      wnd := s.wnd;
      state := Established;
      rtoOn := false;
      rexmits := 0;
    }

    // -------------------------------------------------------------- sending

    method SendControlPacket(seqNo: u32, ackNo: u32, flags: Flags, opts: seq<u8>)
      modifies `tx
      ensures tx == old(tx) + [Segment(seqNo, ackNo, flags, WINDOW, opts, [])]
    {
      tx := tx + [Segment(seqNo, ackNo, flags, WINDOW, opts, [])];
    }

    method SendSyn()
      modifies `tx, `nxt
      ensures Abs() == old(Abs()).SendSyn()
    {
      SendControlPacket(isn, 0, SYN, MssOption(DEFAULT_MSS));
      nxt := Wrap(isn + 1);
    }

    method SendSynAck()
      modifies `tx, `nxt
      ensures Abs() == old(Abs()).SendSynAck()
    {
      SendControlPacket(isn, rcv, SYN_ACK, MssOption(DEFAULT_MSS));
      nxt := Wrap(isn + 1);
    }

    method SendAck()
      modifies `tx
      ensures Abs() == old(Abs()).SendAck()
    {
      SendControlPacket(nxt, rcv, ACK, []);
    }

    method SendRst()
      modifies `tx
      ensures Abs() == old(Abs()).SendRst()
    {
      SendControlPacket(nxt, 0, RST, []);
    }

    /** One data segment, unless the packet pool is empty. */
    method SendDataSegment(seqNo: u32, n: nat) returns (ok: bool)
      requires Wrap(seqNo - una) + n <= |buf|
      modifies `tx, `budget
      ensures ok == (old(budget) > 0) && budget == (if ok then old(budget) - 1 else old(budget))
      ensures var o := Wrap(seqNo - una);
              tx == if ok then old(tx) + [Segment(seqNo, rcv, ACK_PSH, WINDOW, [], buf[o..o + n])] else old(tx)
    {
      ok := budget > 0;
      if ok {
        var off := Wrap(seqNo - una);
        budget := budget - 1;
        tx := tx + [Segment(seqNo, rcv, ACK_PSH, WINDOW, [], buf[off..off + n])];
      }
    }

    method PumpSend()
      requires Valid()
      modifies `tx, `nxt, `budget, `finSeq, `finSent, `rtoOn, `rtoLeft
      ensures Abs() == old(Abs()).PumpSend(old(budget))
      ensures Valid()
    {
      hide Flow.Ok, RxFields.Valid, Wrap, Flow.SendData, Flow.SendFin, Flow.ArmTimer;
      if state != Established && state != CloseWait && state != FinWait1 && state != LastAck {
        return;
      }
      var dataEnd := Wrap(una + |buf|);
      var winEdge := Wrap(una + wnd);
      PumpData(dataEnd, winEdge);
      PumpFin(dataEnd);
      ArmTimer(dataEnd);
    }

    method PumpFin(dataEnd: u32)
      requires Valid() && dataEnd == Abs().BufferedEnd()
      modifies `tx, `nxt, `budget, `finSeq, `finSent
      ensures Abs() == old(Abs()).SendFin(old(budget))
      ensures Valid()
    {
      hide Flow.Ok, Wrap, RxFields.Valid;
      if finPending && !finSent && nxt == dataEnd && budget > 0 {
        budget := budget - 1;
        EmitFin();
      }
    }

    method EmitFin()
      modifies `tx, `nxt, `finSeq, `finSent
      ensures tx == old(tx) + [Segment(old(nxt), rcv, FIN_ACK, WINDOW, [], [])]
      ensures finSent && finSeq == old(nxt) && nxt == Wrap(old(nxt) + 1)
    {
      hide Wrap;
      SendControlPacket(nxt, rcv, FIN_ACK, []);
      finSeq := nxt;
      nxt := Wrap(nxt + 1);
      finSent := true;
    }

    method ArmTimer(dataEnd: u32)
      requires Valid() && dataEnd == Abs().BufferedEnd()
      modifies `rtoOn, `rtoLeft
      ensures Abs() == old(Abs()).ArmTimer()
      ensures Valid()
    {
      hide Wrap, SeqLt;
      var outstanding := Wrap(nxt - una) > 0 || (finSent && SeqLt(una, Wrap(finSeq + 1))) || SeqLt(nxt, dataEnd);
      if outstanding && !rtoOn {
        StartTimer();
      }
    }

    /** The data loop of `PumpSend`. */
    method PumpData(dataEnd: u32, winEdge: u32)
      requires Valid() && dataEnd == Abs().BufferedEnd() && winEdge == Wrap(una + wnd)
      modifies `tx, `nxt, `budget
      ensures Abs() == old(Abs()).SendData(winEdge, old(budget))
      ensures Valid()
      ensures |tx| - |old(tx)| == old(budget) - budget
    {
      hide Flow.Ok, RxFields.Valid, Wrap, SeqLt, Flow.SendData, Turn;
      while SeqLt(nxt, dataEnd) && SeqLt(nxt, winEdge)
        invariant Valid() && Abs().BufferedEnd() == dataEnd
        invariant Abs().SendData(winEdge, budget) == old(Abs()).SendData(winEdge, old(budget))
        invariant |tx| - |old(tx)| == old(budget) - budget
        decreases |buf| - Abs().InFlight()
      {
        ghost var f := Abs();
        f.Room();
        TurnBounds(f, winEdge);
        if budget > 0 { SendDataTurn(f, winEdge, budget); } else { SendDataNone(f, winEdge); }
        var ok := SendTurn(dataEnd, winEdge);
        if !ok { break; }
      }
      if !(SeqLt(nxt, dataEnd) && SeqLt(nxt, winEdge)) {
        SendDataDone(Abs(), winEdge, budget);
      }
    }

    /** One turn of the data loop. */
    method SendTurn(dataEnd: u32, winEdge: u32) returns (ok: bool)
      requires Valid() && dataEnd == Abs().BufferedEnd() && SeqLt(nxt, dataEnd) && SeqLt(nxt, winEdge)
      modifies `tx, `nxt, `budget
      ensures ok <==> old(budget) > 0
      ensures Abs() == if ok then Turn(old(Abs()), winEdge) else old(Abs())
      ensures budget == if ok then old(budget) - 1 else old(budget)
    {
      hide Flow.Ok, RxFields.Valid, Wrap, SeqLt;
      SegLenBounds(Abs(), winEdge);
      var toWin := Wrap(winEdge - nxt);
      var toEnd := Wrap(dataEnd - nxt);
      var n := Min(Min(toWin, toEnd), Min(peerMss, DEFAULT_MSS));
      ok := SendDataSegment(nxt, n);
      if ok {
        nxt := Wrap(nxt + n);
      }
    }

    method RetransmitUnacked()
      requires Valid()
      modifies `tx, `nxt, `budget, `finSeq, `finSent, `rtoOn, `rtoLeft
      ensures Abs() == old(Abs()).RetransmitUnacked(old(budget))
      ensures Valid()
    {
      hide Flow.Ok, RxFields.Valid, Wrap, Flow.PumpSend;
      RewindOk(Abs());
      nxt := una;
      finSent := false;
      PumpSend();
    }

    method SendZeroWindowProbe()
      requires Valid()
      modifies `tx, `budget
      ensures Abs() == old(Abs()).ZeroWindowProbe(old(budget))
      ensures Valid()
    {
      hide Flow.Ok, RxFields.Valid, Wrap, SeqLt;
      Abs().Room();
      if SeqLt(nxt, Wrap(una + |buf|)) {
        var _ := SendDataSegment(nxt, 1);
      }
    }

    // -------------------------------------------------------------- receiving

    method ParseTcpOptions(opts: seq<u8>)
      modifies `peerMss
      ensures peerMss == ParseMss(opts, 0, old(peerMss))
    {
      var i := 0;
      while i < |opts|
        invariant 0 <= i <= |opts|
        invariant ParseMss(opts, i, peerMss) == ParseMss(opts, 0, old(peerMss))
        decreases |opts| - i
      {
        var kind := opts[i];
        if kind == 0 { return; }
        if kind == 1 {
          i := i + 1;
          continue;
        }
        if i + 1 >= |opts| { return; }
        var n := opts[i + 1];
        if n < 2 || i + n > |opts| { return; }
        if kind == 2 && n == 4 {
          peerMss := FromBe16(opts[i + 2], opts[i + 3]);
          if peerMss == 0 { peerMss := DEFAULT_MSS; }
        }
        i := i + n;
      }
    }

    method ProcessInOrderPayload(seqNo: u32, payload: seq<u8>) returns (isNew: bool)
      requires Valid() && |payload| < 0x1_0000
      modifies `rx, `rcv
      ensures (Abs(), isNew) == old(Abs()).ProcessPayload(seqNo, payload)
      ensures Valid()
    {
      hide Flow.Ok, RxFields.Valid, Wrap, SeqLeq, SeqGt, Consume;
      if |payload| == 0 { return false; }
      if seqNo == rcv {
        rx := ConsumePayload(rx, payload);
        rcv := Wrap(rcv + |payload|);
        return true;
      }
      var segEnd := Wrap(seqNo + |payload|);
      if SeqLeq(seqNo, rcv) && SeqGt(segEnd, rcv) {
        Abs().OverlapWithin(seqNo, |payload|);
        var overlap := Wrap(rcv - seqNo);
        rx := ConsumePayload(rx, payload[overlap..]);
        rcv := Wrap(rcv + (|payload| - overlap));
        return true;
      }
      return false;
    }

    method AdvanceSndUna(ack: u32)
      requires Valid() && !Abs().Opening()
      modifies `buf, `una, `rexmits, `rtoOn, `rtoLeft
      ensures Abs() == old(Abs()).AdvanceSndUna(ack)
      ensures Valid()
    {
      hide Flow.Ok, RxFields.Valid, Wrap, SeqLt, SeqLeq, SeqGt, Flow.SettleTimer;
      if SeqGt(ack, una) && SeqLeq(ack, nxt) {
        var acked := Wrap(ack - una);
        buf := buf[Min(acked, |buf|)..];
        una := ack;
        rexmits := 0;
        SettleTimer();
      }
    }

    method SettleTimer()
      modifies `rtoOn, `rtoLeft
      ensures Abs() == old(Abs()).SettleTimer()
    {
      hide Wrap, SeqLt;
      if una == nxt && buf == [] && !(finSent && SeqLt(una, Wrap(finSeq + 1))) {
        rtoOn := false;
      } else {
        rtoLeft := INITIAL_RTO;
      }
    }

    method HandleListen(s: Segment)
      requires Valid() && state == Listen
      modifies `state, `peerMss, `rcv, `tx, `nxt, `rtoOn, `rtoLeft
      ensures Abs() == old(Abs()).HandleListen(s)
      ensures Valid()
    {
      hide Flow.Ok, RxFields.Valid, Flow.LearnPeer, Flow.SendSynAck, Flow.StartTimer;
      if s.flags.syn {
        LearnPeer(s);
        SendSynAck();
        state := SynReceived;
        StartTimer();
      }
    }

    method HandleSynSent(s: Segment)
      requires Valid() && state == SynSent
      modifies `state, `una, `wnd, `peerMss, `rcv, `tx, `nxt, `rtoOn, `rexmits, `notices
      ensures Abs() == old(Abs()).HandleSynSent(s)
      ensures Valid()
    {
      hide Flow.Ok, RxFields.Valid, Flow.LearnPeer, Flow.SendSynAck, Flow.SendAck, Flow.Confirm;
      if s.flags.syn && s.flags.ack {
        if s.ackNo != nxt { return; }
        LearnPeer(s);
        Confirm(s);
        SendAck();
        notices := notices + [true];
      } else if s.flags.syn {
        LearnPeer(s);
        SendSynAck();
        state := SynReceived;
      }
    }

    method HandleSynReceived(s: Segment)
      requires Valid() && state == SynReceived && |s.payload| < 0x1_0000
      modifies `state, `una, `wnd, `rtoOn, `rexmits, `rx, `rcv, `tx
      ensures Abs() == old(Abs()).HandleSynReceived(s)
      ensures Valid()
    {
      hide Flow.Ok, RxFields.Valid, Flow.ProcessPayload, Flow.Confirm, Flow.SendAck;
      if s.flags.ack && s.ackNo == nxt {
        EstablishOk(Abs(), s);
        Confirm(s);
        var isNew := ProcessInOrderPayload(s.seqNo, s.payload);
        if isNew { SendAck(); }
      }
    }

    method TakePayload(s: Segment)
      requires Valid() && |s.payload| < 0x1_0000
      modifies `rx, `rcv, `tx
      ensures Abs() == old(Abs()).TakePayload(s)
      ensures Valid()
    {
      hide Flow.Ok, RxFields.Valid, Flow.ProcessPayload, Flow.SendAck;
      if |s.payload| > 0 {
        var _ := ProcessInOrderPayload(s.seqNo, s.payload);
        SendAck();
      }
    }

    method HandleEstablished(s: Segment)
      requires Valid() && state == Established && |s.payload| < 0x1_0000
      modifies `state, `buf, `una, `wnd, `rexmits, `rtoOn, `rtoLeft, `rx, `rcv, `tx
      ensures Abs() == old(Abs()).HandleEstablished(s)
      ensures Valid()
    {
      hide Flow.Ok, RxFields.Valid, Flow.EstablishedSegment, Flow.SendAck;
      if s.flags.syn {
        SendAck();
        return;
      }
      EstablishedSegment(s);
    }

    method EstablishedSegment(s: Segment)
      requires Valid() && state == Established && |s.payload| < 0x1_0000
      modifies `state, `buf, `una, `wnd, `rexmits, `rtoOn, `rtoLeft, `rx, `rcv, `tx
      ensures Abs() == old(Abs()).EstablishedSegment(s)
      ensures Valid()
    {
      hide Flow.Ok, RxFields.Valid, Wrap, Flow.TakePayload, Flow.TakeAck, Flow.EstablishedFin;
      TakeContent(s);
      if s.flags.fin {
        EstablishedFin(Wrap(s.seqNo + |s.payload|));
      }
    }

    /** Acknowledgement and payload. */
    method TakeContent(s: Segment)
      requires Valid() && !Abs().Opening() && |s.payload| < 0x1_0000
      modifies `buf, `una, `wnd, `rexmits, `rtoOn, `rtoLeft, `rx, `rcv, `tx
      ensures Abs() == old(Abs()).TakeAck(s).TakePayload(s)
      ensures Valid() && state == old(state)
    {
      hide Flow.Ok, RxFields.Valid, Wrap, Flow.TakePayload, Flow.TakeAck;
      TakeAck(s);
      TakePayload(s);
    }

    method TakeAck(s: Segment)
      requires Valid() && !Abs().Opening()
      modifies `buf, `una, `wnd, `rexmits, `rtoOn, `rtoLeft
      ensures Abs() == old(Abs()).TakeAck(s)
      ensures Valid()
    {
      hide Flow.Ok, RxFields.Valid, Wrap, Flow.AdvanceSndUna;
      if s.flags.ack {
        AdvanceSndUna(s.ackNo);
        WindowOk(Abs(), s.wnd);
        wnd := s.wnd;
      }
    }

    method EstablishedFin(finNo: u32)
      requires Valid() && state == Established
      modifies `state, `rcv, `tx
      ensures Abs() == old(Abs()).EstablishedFin(finNo)
      ensures Valid()
    {
      hide Flow.Ok, RxFields.Valid, Wrap, SeqLt;
      if finNo == rcv {
        rcv := Wrap(rcv + 1);
        SendAck();
        state := CloseWait;
      } else if SeqLt(finNo, rcv) {
        SendAck();
      }
    }

    method PeerFin(s: Segment)
      requires Valid() && (state == FinWait1 || state == FinWait2) && |s.payload| < 0x1_0000
      modifies `state, `rcv, `tx, `timeWait
      ensures Abs() == old(Abs()).PeerFin(s)
      ensures Valid()
    {
      hide Flow.Ok, RxFields.Valid, Wrap;
      if Wrap(s.seqNo + |s.payload|) == rcv {
        rcv := Wrap(rcv + 1);
      }
      SendAck();
      state := TimeWait;
      timeWait := TIME_WAIT_TICKS;
    }

    method HandleFinWait1(s: Segment)
      requires Valid() && state == FinWait1 && |s.payload| < 0x1_0000
      modifies `state, `buf, `una, `rexmits, `rtoOn, `rtoLeft, `rx, `rcv, `tx, `timeWait
      ensures Abs() == old(Abs()).HandleFinWait1(s)
      ensures Valid()
    {
      hide Flow.Ok, RxFields.Valid, Wrap, SeqLt, Flow.TakePayload, Flow.AdvanceSndUna, Flow.PeerFin;
      if s.flags.ack {
        AdvanceSndUna(s.ackNo);
      }
      TakePayload(s);
      var finAcked := finSent && !(finSent && SeqLt(una, Wrap(finSeq + 1)));
      if s.flags.fin {
        PeerFin(s);
      } else if finAcked {
        state := FinWait2;
      }
    }

    method HandleFinWait2(s: Segment)
      requires Valid() && state == FinWait2 && |s.payload| < 0x1_0000
      modifies `state, `rx, `rcv, `tx, `timeWait
      ensures Abs() == old(Abs()).HandleFinWait2(s)
      ensures Valid()
    {
      hide Flow.Ok, RxFields.Valid, Wrap, Flow.TakePayload, Flow.PeerFin;
      TakePayload(s);
      if s.flags.fin {
        PeerFin(s);
      }
    }

    /** The state switch of `InputPacket`. */
    method Dispatch(s: Segment)
      requires Valid() && |s.payload| < 0x1_0000
      modifies this
      ensures Abs() == old(Abs()).Dispatch(s) && budget == old(budget)
      ensures Valid()
    {
      hide Flow.Ok, RxFields.Valid, Wrap, Flow.HandleListen, Flow.HandleSynSent, Flow.HandleSynReceived,
        Flow.HandleEstablished, Flow.HandleFinWait1, Flow.HandleFinWait2, Flow.AdvanceSndUna, Flow.SendRst;
      match state
      case Listen => HandleListen(s);
      case SynSent => HandleSynSent(s);
      case SynReceived => HandleSynReceived(s);
      case Established => HandleEstablished(s);
      case FinWait1 => HandleFinWait1(s);
      case FinWait2 => HandleFinWait2(s);
      case CloseWait => HandleClosing(s);
      case LastAck => HandleClosing(s);
      case TimeWait =>
      case Closed => SendRst();
    }

    /** CLOSE_WAIT, and LAST_ACK where any acknowledgement closes the flow. */
    method HandleClosing(s: Segment)
      requires Valid() && (state == CloseWait || state == LastAck) && |s.payload| < 0x1_0000
      modifies `state, `buf, `una, `rexmits, `rtoOn, `rtoLeft
      ensures Abs() == old(Abs()).Dispatch(s)
      ensures Valid()
    {
      hide Flow.Ok, RxFields.Valid, Wrap, Flow.AdvanceSndUna;
      if s.flags.ack {
        AdvanceSndUna(s.ackNo);
        if state == LastAck {
          ClosedOk(Abs());
          state := Closed;
        }
      }
    }

    method InputPacket(p: Packet)
      requires Valid() && p.Whole()
      modifies this
      ensures Abs() == old(Abs()).InputPacket(p, old(budget))
      ensures Valid()
    {
      hide Flow.Ok, RxFields.Valid, Wrap, Flow.Dispatch, Flow.PumpSend;
      if p.hdrLen < TCP_HDR || p.hdrLen > 60 { return; }
      if p.ipLen as int < IP_HDR + p.hdrLen { return; }
      var optsLen := p.hdrLen - TCP_HDR;
      var end := p.ipLen as int - IP_HDR - TCP_HDR;
      var s := Segment(p.seqNo, p.ackNo, p.flags, p.wnd, p.body[..optsLen], p.body[optsLen..end]);
      if p.flags.rst {
        state := Closed;
        return;
      }
      Dispatch(s);
      PumpSend();
    }

    // -------------------------------------------------------------- application calls

    method InitiateHandshake()
      requires Valid() && Abs().Fresh() && rexmits <= MAX_REXMIT
      modifies this
      ensures Abs() == old(Abs()).InitiateHandshake()
      ensures Valid()
    {
      hide Flow.Ok, RxFields.Valid, Flow.SendSyn, Flow.StartTimer;
      SendSyn();
      state := SynSent;
      StartTimer();
    }

    method StartPassiveOpen()
      requires Valid() && Abs().Fresh() && rexmits <= MAX_REXMIT
      modifies this
      ensures Abs() == old(Abs()).StartPassiveOpen()
      ensures Valid()
    {
      state := Listen;
    }

    method ShutDown()
      requires Valid()
      modifies this
      ensures Abs() == old(Abs()).ShutDown(old(budget))
      ensures Valid()
    {
      hide Flow.Ok, RxFields.Valid, Wrap, Flow.PumpSend;
      if state == Established || state == CloseWait {
        ClosingOk(Abs());
        finPending := true;
        state := if state == Established then FinWait1 else LastAck;
        PumpSend();
      } else {
        SendRst();
        state := Closed;
        rtoOn := false;
      }
    }

    /** Copies the chain behind a length prefix and rolls back when it is too short. */
    method OutputMessage(msgLen: u32, chain: seq<seq<u8>>)
      requires Valid() && PREFIX + msgLen < TWO32
      modifies this
      ensures Abs() == old(Abs()).OutputMessage(msgLen, chain, old(budget))
      ensures Valid()
    {
      hide Flow.Ok, RxFields.Valid, Flow.PumpSend, Flow.Accepts, Flatten, Frame;
      var ok := Enqueue(msgLen, chain);
      freed := freed + |chain|;
      if ok {
        AcceptedOk(old(Abs()), msgLen, chain);
        PumpSend();
      }
    }

    /** The checks of `OutputMessage` and the copy into the send buffer. */
    method Enqueue(msgLen: u32, chain: seq<seq<u8>>) returns (ok: bool)
      requires PREFIX + msgLen < TWO32
      modifies `buf
      ensures ok == old(Abs()).Accepts(msgLen, chain)
      ensures buf == if ok then old(buf) + Frame(Flatten(chain)[..msgLen]) else old(buf)
    {
      hide Wrap, Flatten, Frame;
      SmallWrap(PREFIX + msgLen);
      if state != Established && state != CloseWait {
        return false;
      }
      var framedLen := PREFIX + msgLen;
      if |buf| + framedLen > MAX_SEND_BUF {
        return false;
      }
      ok := AppendFrame(msgLen, chain);
    }

    /** The prefix and the bytes of the chain, rolled back when the chain is too short. */
    method AppendFrame(msgLen: u32, chain: seq<seq<u8>>) returns (ok: bool)
      modifies `buf
      ensures ok == (|Flatten(chain)| >= msgLen)
      ensures buf == if ok then old(buf) + Frame(Flatten(chain)[..msgLen]) else old(buf)
    {
      hide Flatten, Be32, Wrap;
      SmallWrap(msgLen);
      var before := |buf|;
      buf := buf + Be32(msgLen);
      var copied := CopyChain(msgLen, chain);
      ok := copied == msgLen;
      if !ok {
        buf := buf[..before];
      }
    }

    /** The copy loop of `OutputMessage`. */
    method CopyChain(msgLen: u32, chain: seq<seq<u8>>) returns (copied: nat)
      modifies `buf
      ensures copied == Min(msgLen, |Flatten(chain)|)
      ensures buf == old(buf) + Flatten(chain)[..copied]
    {
      copied := 0;
      var i := 0;
      assert chain[..0] == [];
      while i < |chain| && copied < msgLen
        invariant 0 <= i <= |chain|
        invariant copied == Min(msgLen, |Flatten(chain[..i])|)
        invariant buf == old(buf) + Flatten(chain[..i])[..copied]
      {
        var n := Min(|chain[i]|, msgLen - copied);
        assert chain[..i + 1] == chain[..i] + [chain[i]];
        FlattenSnoc(chain[..i], chain[i]);
        assert (Flatten(chain[..i]) + chain[i])[..copied + n] == Flatten(chain[..i])[..copied] + chain[i][..n];
        buf := buf + chain[i][..n];
        copied := copied + n;
        i := i + 1;
      }
      assert chain == chain[..i] + chain[i..];
      FlattenAppend(chain[..i], chain[i..]);
      if i == |chain| {
        assert chain[..i] == chain;
      }
    }

    method PeriodicCheck() returns (keep: bool)
      requires Valid()
      modifies this
      ensures (Abs(), keep) == old(Abs()).PeriodicCheck(old(budget))
      ensures Valid()
    {
      hide Flow.Ok, Wrap, SeqLt, Flow.Retransmit, RxFields.Valid;
      if state == Closed { return false; }
      if state == TimeWait {
        if timeWait > 0 {
          timeWait := timeWait - 1;
          return true;
        }
        state := Closed;
        return false;
      }
      if !rtoOn { return true; }
      if rtoLeft > 0 {
        rtoLeft := rtoLeft - 1;
        return true;
      }
      rexmits := rexmits + 1;
      if rexmits > MAX_REXMIT {
        notices := notices + [false];
        state := Closed;
        return false;
      }
      RexmitOk(old(Abs()));
      Retransmit();
      rtoLeft := INITIAL_RTO;
      return true;
    }

    /** The state switch of an expired timer. */
    method Retransmit()
      requires Valid()
      modifies this
      ensures Abs() == old(Abs()).Retransmit(old(budget))
      ensures Valid()
    {
      hide Flow.Ok, RxFields.Valid, Wrap, SeqLt, Flow.ZeroWindowProbe, Flow.RetransmitUnacked;
      Abs().SynInFlight();
      if state == SynSent {
        SendSyn();
      } else if state == SynReceived {
        SendSynAck();
      } else if state == Established || state == CloseWait || state == FinWait1 || state == LastAck {
        if wnd == 0 && SeqLt(nxt, Wrap(una + |buf|)) {
          SendZeroWindowProbe();
        } else {
          RetransmitUnacked();
        }
      }
    }
  }
}

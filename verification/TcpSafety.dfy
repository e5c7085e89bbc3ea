/** What one operation of an endpoint does to unbounded stream positions. Position 0 of an
    endpoint's stream is its SYN, byte `i` of the framed messages has position `i + 1`, and
    the FIN follows the last byte. A 32-bit sequence number is `Wrap(isn + position)`. */
module TcpSafety {
  import opened Words
  import opened TcpFraming
  import opened TcpFlowModel

  /** A segment is what its sender's stream says at position `x` and acknowledges the peer's
      stream up to position `y`, of which `hi` have been received. */
  predicate PktAt(isn: u32, str: seq<u8>, finPending: bool, pisn: u32, hi: int, s: Segment, x: int, y: int) {
    && |s.opts| <= 4 && |s.payload| <= DEFAULT_MSS
    && (!s.flags.rst ==>
          && s.seqNo == Wrap(isn + x)
          && (if s.flags.syn then x == 0 && s.payload == [] && !s.flags.fin else x >= 1 && s.flags.ack)
          && (s.flags.ack ==> s.ackNo == Wrap(pisn + y) && 1 <= y <= hi)
          && (s.payload != [] ==> x - 1 + |s.payload| <= |str| && s.payload == str[x - 1..x - 1 + |s.payload|])
          && (s.flags.fin ==> finPending && s.payload == [] && x == 1 + |str|))
  }

  /** The position of sequence number `v`, counted up from `una`. */
  function SeqPos(isn: u32, una: int, v: u32): int {
    una + Wrap(v - Wrap(isn + una))
  }

  /** The position of acknowledgement number `v`, counted down from `hi`. */
  function AckPos(pisn: u32, hi: int, v: u32): int {
    hi - Wrap(Wrap(pisn + hi) - v)
  }

  /** A segment sent while the peer's stream was received up to a position in [lo, hi]. */
  predicate Good(g: Flow, una: int, str: seq<u8>, pisn: u32, lo: int, hi: int, s: Segment) {
    && PktAt(g.isn, str, g.finPending, pisn, hi, s, SeqPos(g.isn, una, s.seqNo), AckPos(pisn, hi, s.ackNo))
    && (s.flags.ack && !s.flags.rst ==> lo <= AckPos(pisn, hi, s.ackNo))
  }

  predicate AllGood(g: Flow, n: nat, una: int, str: seq<u8>, pisn: u32, lo: int, hi: int) {
    && n <= |g.tx|
    && forall i :: n <= i < |g.tx| ==> Good(g, una, str, pisn, lo, hi, g.tx[i])
  }

  /** The send side of a synchronised endpoint: the buffer is the accepted stream from
      `una` on, nothing beyond the stream and its FIN was sent, and the FIN sits right
      behind the stream. */
  predicate SendOk(g: Flow, una: int, str: seq<u8>) {
    && g.Ok() && !g.Opening() && una >= 1 && g.una == Wrap(g.isn + una)
    && g.buf == str[Min(una - 1, |str|)..]
    && (if g.finSent then g.finPending && g.finSeq == Wrap(g.isn + 1 + |str|) && una + g.InFlight() == |str| + 2
        else una + g.InFlight() <= |str| + 1)
  }

  /** The receive side: the deframer has eaten exactly the first `rcv - 1` bytes. */
  predicate RecvOk(g: Flow, rcv: int, pisn: u32, pstr: seq<u8>) {
    && 1 <= rcv && g.rcv == Wrap(pisn + rcv)
    && g.rx == Consume(RxInit(g.rx.cap), pstr[..Min(rcv - 1, |pstr|)])
  }

  // ---------------------------------------------------------------- positions

  lemma SeqPosOf(isn: u32, una: int, x: int)
    requires una <= x < una + TWO32
    ensures SeqPos(isn, una, Wrap(isn + x)) == x
  {
    Distance(isn + x, isn + una);
  }

  lemma AckPosOf(pisn: u32, hi: int, y: int)
    requires y <= hi < y + TWO32
    ensures AckPos(pisn, hi, Wrap(pisn + y)) == y
  {
    Distance(pisn + hi, pisn + y);
  }

  /** `nxt` stands at position `una + InFlight`. */
  lemma NxtPos(g: Flow, una: int)
    requires g.una == Wrap(g.isn + una)
    ensures g.nxt == Wrap(g.isn + (una + g.InFlight()))
    ensures SeqPos(g.isn, una, g.nxt) == una + g.InFlight()
  {
    Offset(g.una, g.nxt);
    WrapParts(g.isn + una, g.InFlight());
    assert g.isn + una + g.InFlight() == g.isn + (una + g.InFlight());
    SeqPosOf(g.isn, una, una + g.InFlight());
  }

  /** Receiving more does not change what earlier segments acknowledge. */
  lemma GoodLater(g: Flow, h: Flow, una: int, str: seq<u8>, pisn: u32, lo: int, hi: int, hi': int, s: Segment)
    requires Good(g, una, str, pisn, lo, hi, s)
    requires h.isn == g.isn && h.finPending == g.finPending
    requires hi <= hi' < lo + TWO32
    ensures Good(h, una, str, pisn, lo, hi', s)
  {
    hide Wrap, Signed, SeqLt, SeqLeq, SeqGt, SeqPos, AckPos;
    if s.flags.ack && !s.flags.rst {
      AckPosOf(pisn, hi', AckPos(pisn, hi, s.ackNo));
    }
  }

  lemma AllGoodSame(g: Flow, h: Flow, n: nat, una: int, str: seq<u8>, pisn: u32, lo: int, hi: int)
    requires AllGood(g, n, una, str, pisn, lo, hi)
    requires h.isn == g.isn && h.finPending == g.finPending && h.tx == g.tx
    ensures AllGood(h, n, una, str, pisn, lo, hi)
  {
    hide Wrap, Signed, SeqLt, SeqLeq, SeqGt, SeqPos, AckPos;
    forall i | n <= i < |h.tx| ensures Good(h, una, str, pisn, lo, hi, h.tx[i]) {
      assert Good(g, una, str, pisn, lo, hi, g.tx[i]);
    }
  }

  lemma AllGoodLater(g: Flow, h: Flow, n: nat, una: int, str: seq<u8>, pisn: u32, lo: int, hi: int, hi': int)
    requires AllGood(g, n, una, str, pisn, lo, hi)
    requires h.isn == g.isn && h.finPending == g.finPending && h.tx == g.tx
    requires hi <= hi' < lo + TWO32
    ensures AllGood(h, n, una, str, pisn, lo, hi')
  {
    hide Wrap, Signed, SeqLt, SeqLeq, SeqGt, SeqPos, AckPos;
    forall i | n <= i < |h.tx| ensures Good(h, una, str, pisn, lo, hi', h.tx[i]) {
      GoodLater(g, h, una, str, pisn, lo, hi, hi', h.tx[i]);
    }
  }

  // ---------------------------------------------------------------- emitting

  /** A control segment at `nxt` that acknowledges everything received. */
  lemma AckGood(g: Flow, n: nat, una: int, str: seq<u8>, pisn: u32, lo: int, hi: int)
    requires AllGood(g, n, una, str, pisn, lo, hi)
    requires g.una == Wrap(g.isn + una) && una >= 1
    requires 1 <= lo <= hi && g.rcv == Wrap(pisn + hi)
    ensures AllGood(g.SendAck(), n, una, str, pisn, lo, hi)
  {
    hide Wrap, Signed, SeqLt, SeqLeq, SeqGt, SeqPos, AckPos;
    NxtPos(g, una);
    AckPosOf(pisn, hi, hi);
    var h := g.SendAck();
    forall i | n <= i < |h.tx| ensures Good(h, una, str, pisn, lo, hi, h.tx[i]) {
      if i < |g.tx| {
        assert Good(g, una, str, pisn, lo, hi, g.tx[i]);
      }
    }
  }

  /** The bytes `Slice` cuts from the buffer are the stream's bytes at that position. */
  lemma SliceOfStream(g: Flow, una: int, str: seq<u8>, n: nat)
    requires SendOk(g, una, str) && g.InFlight() + n <= |g.buf| && n >= 1
    ensures una + g.InFlight() - 1 + n <= |str|
    ensures g.Slice(g.nxt, n) == str[una + g.InFlight() - 1..una + g.InFlight() - 1 + n]
  {
    var o := g.InFlight();
    assert una - 1 <= |str|;
    assert |g.buf| == |str| - (una - 1);
    assert str[una - 1..][o..o + n] == str[una - 1 + o..una - 1 + o + n];
  }

  lemma DataGood(g: Flow, k: nat, una: int, str: seq<u8>, pisn: u32, lo: int, hi: int, n: nat)
    requires AllGood(g, k, una, str, pisn, lo, hi) && SendOk(g, una, str)
    requires 1 <= lo <= hi && g.rcv == Wrap(pisn + hi)
    requires 1 <= n <= DEFAULT_MSS && g.InFlight() + n <= |g.buf|
    ensures var h := g.Emit(g.nxt, g.rcv, ACK_PSH, [], g.Slice(g.nxt, n));
            AllGood(h, k, una, str, pisn, lo, hi)
  {
    hide Wrap, Signed, SeqLt, SeqLeq, SeqGt, SeqPos, AckPos;
    NxtPos(g, una);
    AckPosOf(pisn, hi, hi);
    SliceOfStream(g, una, str, n);
    var h := g.Emit(g.nxt, g.rcv, ACK_PSH, [], g.Slice(g.nxt, n));
    forall i | k <= i < |h.tx| ensures Good(h, una, str, pisn, lo, hi, h.tx[i]) {
      if i < |g.tx| {
        assert Good(g, una, str, pisn, lo, hi, g.tx[i]);
      }
    }
  }

  /** A segment length chosen by `PumpSend` is positive and stays inside the buffer, the
      window and the MSS. */
  lemma SegLenBounds(g: Flow, edge: u32)
    requires g.Ok() && SeqLt(g.nxt, g.BufferedEnd()) && SeqLt(g.nxt, edge)
    ensures 1 <= g.SegLen(edge) <= g.EffMss() <= DEFAULT_MSS
    ensures g.InFlight() + g.SegLen(edge) <= |g.buf|
    ensures g.SegLen(edge) <= Wrap(edge - g.nxt)
  {
    g.Room();
    if Wrap(edge - g.nxt) == 0 {
      Offset(g.nxt, edge);
      SerialOrder(g.nxt, g.nxt);
    }
  }

  lemma {:induction false} SendDataGood(g: Flow, edge: u32, b: nat, n: nat, una: int, str: seq<u8>, pisn: u32,
                                        lo: int, hi: int)
    requires AllGood(g, n, una, str, pisn, lo, hi) && SendOk(g, una, str)
    requires 1 <= lo <= hi && g.rcv == Wrap(pisn + hi)
    ensures var h := g.SendData(edge, b);
            AllGood(h, n, una, str, pisn, lo, hi) && SendOk(h, una, str)
    decreases b
  {
    hide Wrap, Signed, SeqLt, SeqLeq, SeqGt, SeqPos, AckPos;
    g.Room();
    if b > 0 && SeqLt(g.nxt, g.BufferedEnd()) && SeqLt(g.nxt, edge) {
      SegLenBounds(g, edge);
      var k := g.SegLen(edge);
      DataGood(g, n, una, str, pisn, lo, hi, k);
      g.Advance(k);
      var h := g.Emit(g.nxt, g.rcv, ACK_PSH, [], g.Slice(g.nxt, k)).(nxt := Wrap(g.nxt + k));
      AllGoodSame(g.Emit(g.nxt, g.rcv, ACK_PSH, [], g.Slice(g.nxt, k)), h, n, una, str, pisn, lo, hi);
      SendDataGood(h, edge, b - 1, n, una, str, pisn, lo, hi);
    }
  }

  lemma SendFinGood(g: Flow, b: nat, n: nat, una: int, str: seq<u8>, pisn: u32, lo: int, hi: int)
    requires AllGood(g, n, una, str, pisn, lo, hi) && SendOk(g, una, str)
    requires 1 <= lo <= hi && g.rcv == Wrap(pisn + hi)
    ensures var h := g.SendFin(b);
            AllGood(h, n, una, str, pisn, lo, hi) && SendOk(h, una, str)
  {
    hide Wrap, Signed, SeqLt, SeqLeq, SeqGt, SeqPos, AckPos;
    g.Room();
    if g.finPending && !g.finSent && g.nxt == g.BufferedEnd() && b > 0 {
      NxtPos(g, una);
      AckPosOf(pisn, hi, hi);
      g.Advance(1);
      assert una + g.InFlight() == |str| + 1;
      var h := g.SendFin(b);
      forall i | n <= i < |h.tx| ensures Good(h, una, str, pisn, lo, hi, h.tx[i]) {
        if i < |g.tx| {
          assert Good(g, una, str, pisn, lo, hi, g.tx[i]);
        }
      }
    }
  }

  /** `PumpSend` only puts slices of the stream and its FIN on the wire. */
  lemma PumpGood(g: Flow, b: nat, n: nat, una: int, str: seq<u8>, pisn: u32, lo: int, hi: int)
    requires AllGood(g, n, una, str, pisn, lo, hi) && SendOk(g, una, str)
    requires 1 <= lo <= hi && g.rcv == Wrap(pisn + hi)
    ensures var h := g.PumpSend(b);
            AllGood(h, n, una, str, pisn, lo, hi) && SendOk(h, una, str)
  {
    hide Wrap, SeqLt, AllGood, RxFields.Valid, Flow.SendFin, Flow.SendData;
    if g.CanSend() {
      var edge := Wrap(g.una + g.wnd);
      SendDataGood(g, edge, b, n, una, str, pisn, lo, hi);
      var f := g.SendData(edge, b);
      var used := |f.tx| - |g.tx|;
      var left := if used <= b then b - used else 0;
      SendFinGood(f, left, n, una, str, pisn, lo, hi);
      AllGoodSame(f.SendFin(left), f.SendFin(left).ArmTimer(), n, una, str, pisn, lo, hi);
    }
  }

  // ---------------------------------------------------------------- acknowledgements

  /** The two serial comparisons of `AdvanceSndUna` accept exactly the positions in
      (una, una + o]. */
  lemma AckTest(isn: u32, una: int, o: nat, y: int)
    requires o <= 0x100_0001 && una - TWO31 <= y < una + TWO31
    ensures var ack := Wrap(isn + y);
            && (SeqGt(ack, Wrap(isn + una)) && SeqLeq(ack, Wrap(isn + (una + o))) <==> una < y <= una + o)
            && (una <= y ==> Wrap(ack - Wrap(isn + una)) == y - una)
            && (y <= una + o && una <= y ==> Wrap(Wrap(isn + (una + o)) - ack) == una + o - y)
  {
    SerialOrder(isn + y, isn + una);
    if una <= y {
      Distance(isn + y, isn + una);
      SerialOrder(isn + y, isn + (una + o));
      if y <= una + o {
        Distance(isn + (una + o), isn + y);
      }
    }
  }

  lemma DropAcked(str: seq<u8>, una: int, y: int)
    requires 1 <= una <= y && una <= |str| + 2
    ensures var buf := str[Min(una - 1, |str|)..];
            buf[Min(y - una, |buf|)..] == str[Min(y - 1, |str|)..]
  {
  }

  lemma AckTaken(g: Flow, una: int, str: seq<u8>, y: int)
    requires SendOk(g, una, str) && una < y <= una + g.InFlight()
    ensures var h := g.AdvanceSndUna(Wrap(g.isn + y));
            && h.una == Wrap(g.isn + y) && h.InFlight() == una + g.InFlight() - y
            && h.buf == str[Min(y - 1, |str|)..]
            && h == g.(una := h.una, buf := h.buf, rexmits := h.rexmits, rtoOn := h.rtoOn, rtoLeft := h.rtoLeft)
  {
    hide Wrap, Signed, SeqLt, SeqLeq, SeqGt;
    NxtPos(g, una);
    AckTest(g.isn, una, g.InFlight(), y);
    DropAcked(str, una, y);
  }

  /** The ACK test accepts exactly the positions in (una, nxt], the FIN's included, and then
      drops exactly the acknowledged bytes. */
  lemma AckAdvances(g: Flow, una: int, str: seq<u8>, y: int)
    requires SendOk(g, una, str)
    requires una - TWO31 <= y < una + TWO31
    ensures var h := g.AdvanceSndUna(Wrap(g.isn + y));
            var una' := if una < y <= una + g.InFlight() then y else una;
            && SendOk(h, una', str) && una' + h.InFlight() == una + g.InFlight()
            && Wrap(h.una - g.una) == una' - una
            && h == g.(una := h.una, buf := h.buf, rexmits := h.rexmits, rtoOn := h.rtoOn, rtoLeft := h.rtoLeft)
  {
    hide Wrap, Signed, SeqLt, SeqLeq, SeqGt;
    NxtPos(g, una);
    AckTest(g.isn, una, g.InFlight(), y);
    if una < y <= una + g.InFlight() {
      AckTaken(g, una, str, y);
    } else {
      Distance(g.isn + una, g.isn + una);
      assert g.AdvanceSndUna(Wrap(g.isn + y)) == g;
    }
  }

  /** A sent FIN is outstanding exactly while `una` has not passed it. */
  lemma FinAcked(g: Flow, una: int, str: seq<u8>)
    requires SendOk(g, una, str) && g.finSent
    ensures g.FinOutstanding() <==> una < |str| + 2
  {
    WrapParts(g.isn + 1 + |str|, 1);
    SerialOrder(g.isn + una, g.isn + (|str| + 2));
    assert g.isn + 1 + |str| + 1 == g.isn + (|str| + 2);
  }

  // ---------------------------------------------------------------- payload

  /** How the overlap tests read in positions. */
  lemma OverlapPos(pisn: u32, rcv: int, x: int, n: nat)
    requires n >= 1 && rcv - TWO31 <= x && x + n < rcv + TWO31
    ensures Wrap(pisn + x) == Wrap(pisn + rcv) <==> x == rcv
    ensures SeqLeq(Wrap(pisn + x), Wrap(pisn + rcv)) <==> x <= rcv
    ensures SeqGt(Wrap(Wrap(pisn + x) + n), Wrap(pisn + rcv)) <==> x + n > rcv
    ensures x <= rcv ==> Wrap(Wrap(pisn + rcv) - Wrap(pisn + x)) == rcv - x
  {
    SerialOrder(pisn + x, pisn + rcv);
    WrapParts(pisn + x, n);
    SerialOrder(pisn + x + n, pisn + rcv);
    if x <= rcv {
      Distance(pisn + rcv, pisn + x);
    }
  }

  lemma RcvMoves(pisn: u32, rcv: int, n: nat)
    requires n < TWO32
    ensures Wrap(Wrap(pisn + rcv) + n) == Wrap(pisn + (rcv + n))
    ensures Wrap(Wrap(pisn + (rcv + n)) - Wrap(pisn + rcv)) == n
  {
    WrapParts(pisn + rcv, n);
    assert pisn + rcv + n == pisn + (rcv + n);
    Distance(pisn + (rcv + n), pisn + rcv);
  }

  lemma Longer(str: seq<u8>, k: nat, news: seq<u8>)
    requires k + |news| <= |str| && news == str[k..k + |news|]
    ensures str[..k] + news == str[..k + |news|]
  {
  }

  /** The next bytes of the peer's stream take the deframer to the state for all bytes so far. */
  lemma TakeNews(rx: RxState, ms: seq<Message>, str: seq<u8>, k: nat, news: seq<u8>)
    requires AllSendable(ms) && str == FrameAll(ms) && k + |news| <= |str| && news == str[k..k + |news|]
    requires rx == Consume(RxInit(rx.cap), str[..k])
    ensures Consume(rx, news) == Consume(RxInit(rx.cap), str[..k + |news|])
  {
    hide Consume, Clean, FrameAll, AllSendable;
    StreamClean(ms, k, rx.cap);
    Longer(str, k, news);
    ConsumeSplit(RxInit(rx.cap), str[..k], news);
  }

  /** The bytes of `payload` that `ProcessInOrderPayload` passes on. */
  lemma NewBytes(str: seq<u8>, x: int, rcv: int, payload: seq<u8>)
    requires 1 <= x <= rcv < x + |payload| && x - 1 + |payload| <= |str|
    requires payload == str[x - 1..x - 1 + |payload|]
    ensures payload[rcv - x..] == str[rcv - 1..x - 1 + |payload|]
  {
  }

  /** Payload is taken exactly when it reaches past `rcv` and starts no later. */
  lemma TakenWhen(g: Flow, rcv: int, pisn: u32, x: int, payload: seq<u8>)
    requires g.Ok() && g.rcv == Wrap(pisn + rcv) && payload != [] && |payload| <= DEFAULT_MSS
    requires rcv - TWO31 <= x && x + |payload| < rcv + TWO31
    ensures var h := g.ProcessPayload(Wrap(pisn + x), payload).0;
            if x <= rcv < x + |payload| then
              h == g.(rx := Consume(g.rx, payload[rcv - x..]), rcv := Wrap(g.rcv + (x + |payload| - rcv)))
            else h == g
  {
    hide Consume, Wrap, Signed, SeqLt, SeqLeq, SeqGt;
    OverlapPos(pisn, rcv, x, |payload|);
    assert payload[0..] == payload;
  }

  /** `payload` are the bytes of the stream from position `x` on. */
  predicate StreamPart(str: seq<u8>, x: int, payload: seq<u8>) {
    x >= 1 && x - 1 + |payload| <= |str| && payload == str[x - 1..x - 1 + |payload|]
  }

  /** Payload that is taken shows the deframer exactly the next bytes of the peer's stream. */
  lemma PayloadTaken(g: Flow, rcv: int, pisn: u32, ms: seq<Message>, x: int, payload: seq<u8>)
    requires g.Ok() && RecvOk(g, rcv, pisn, FrameAll(ms)) && AllSendable(ms) && rcv <= 1 + |FrameAll(ms)|
    requires payload != [] && |payload| <= DEFAULT_MSS && StreamPart(FrameAll(ms), x, payload)
    requires rcv - TWO31 <= x && x + |payload| < rcv + TWO31
    ensures var h := g.ProcessPayload(Wrap(pisn + x), payload).0;
            var rcv' := if x <= rcv < x + |payload| then x + |payload| else rcv;
            && RecvOk(h, rcv', pisn, FrameAll(ms)) && Wrap(h.rcv - g.rcv) == rcv' - rcv
            && h == g.(rx := h.rx, rcv := h.rcv)
  {
    hide Consume, Wrap, FrameAll, Flow.ProcessPayload;
    TakenWhen(g, rcv, pisn, x, payload);
    if x <= rcv < x + |payload| {
      NewBytes(FrameAll(ms), x, rcv, payload);
      var news := payload[rcv - x..];
      TakeNews(g.rx, ms, FrameAll(ms), rcv - 1, news);
      RcvMoves(pisn, rcv, |news|);
    } else {
      RcvMoves(pisn, rcv, 0);
    }
  }
}

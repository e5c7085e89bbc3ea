/** The TCP endpoint (`TcpFlow`) as a value and one function per operation. The class that
    performs these operations in place is in TcpFlowClass.dfy. */
module TcpFlowModel {
  import opened Words
  import opened Common
  import opened TcpFraming

  const DEFAULT_MSS: nat := 1400
  const WINDOW: u16 := 65535
  const MAX_REXMIT: nat := 10
  const INITIAL_RTO: nat := 3
  const TIME_WAIT_TICKS: nat := 5
  const MAX_SEND_BUF: nat := 2 * MSG_MAX_LEN
  const TCP_HDR: nat := 20
  const IP_HDR: nat := 20

  datatype State =
    | Closed | Listen | SynSent | SynReceived | Established
    | FinWait1 | FinWait2 | CloseWait | LastAck | TimeWait

  datatype Flags = Flags(syn: bool, ack: bool, fin: bool, rst: bool, psh: bool)
  const SYN := Flags(true, false, false, false, false)
  const ACK := Flags(false, true, false, false, false)
  const SYN_ACK := Flags(true, true, false, false, false)
  const FIN_ACK := Flags(false, true, true, false, false)
  const ACK_PSH := Flags(false, true, false, false, true)
  const RST := Flags(false, false, false, true, false)

  datatype Segment = Segment(seqNo: u32, ackNo: u32, flags: Flags, wnd: u16, opts: seq<u8>, payload: seq<u8>)

  // ---------------------------------------------------------------- packets

  /** An Ethernet frame as `InputPacket` sees it. `body` is everything behind the fixed TCP
      header, which may include Ethernet padding behind the IP datagram. */
  datatype Packet = Packet(hdrLen: u8, ipLen: u16, seqNo: u32, ackNo: u32, flags: Flags, wnd: u16, body: seq<u8>)
  {
    /** The frame holds the whole IP datagram. */
    predicate Whole() {
      ipLen as int <= IP_HDR + TCP_HDR + |body|
    }
  }

  /** The header checks of `InputPacket`. The payload length comes from the IP header. */
  function Decode(p: Packet): Option<Segment>
    requires p.Whole()
  {
    if p.hdrLen < TCP_HDR || p.hdrLen > 60 || p.ipLen as int < IP_HDR + p.hdrLen then None
    else
      var o := p.hdrLen - TCP_HDR;
      Some(Segment(p.seqNo, p.ackNo, p.flags, p.wnd, p.body[..o], p.body[o..p.ipLen as int - IP_HDR - TCP_HDR]))
  }

  predicate Fits(s: Segment) {
    |s.opts| <= 40 && IP_HDR + TCP_HDR + |s.opts| + |s.payload| < 0x1_0000
  }

  /** The frame that carries `s`, padded by the link. */
  function Encode(s: Segment, pad: seq<u8>): (p: Packet)
    requires Fits(s)
    ensures p.Whole()
  {
    Packet(TCP_HDR + |s.opts|, IP_HDR + TCP_HDR + |s.opts| + |s.payload|, s.seqNo, s.ackNo, s.flags, s.wnd,
           s.opts + s.payload + pad)
  }

  /** Padding never reaches the byte stream. */
  lemma DecodeEncode(s: Segment, pad: seq<u8>)
    requires Fits(s)
    ensures Decode(Encode(s, pad)) == Some(s)
  {
    var b := s.opts + s.payload + pad;
    assert b[..|s.opts|] == s.opts;
    assert b[|s.opts|..|s.opts| + |s.payload|] == s.payload;
  }

  // ---------------------------------------------------------------- options

  /** What `ParseTcpOptions` finds at offset `i`: nothing more to read, or an option of
      length `len` which may carry an MSS. */
  datatype Found = Stop | Skip(len: nat) | NewMss(len: nat, mss: u16)

  function Scan(opts: seq<u8>, i: nat): (r: Found)
    ensures !r.Stop? ==> r.len >= 1 && i + r.len <= |opts|
    ensures r.NewMss? ==> r.mss >= 1
  {
    if i >= |opts| || opts[i] == 0 then Stop
    else if opts[i] == 1 then Skip(1)
    else if i + 1 >= |opts| || opts[i + 1] < 2 || i + opts[i + 1] > |opts| then Stop
    else if opts[i] == 2 && opts[i + 1] == 4 then NewMss(4, MssValue(opts[i + 2], opts[i + 3]))
    else Skip(opts[i + 1])
  }

  /** `ParseTcpOptions` from offset `i` on, given the MSS learned so far. */
  function ParseMss(opts: seq<u8>, i: nat, mss: u16): (r: u16)
    ensures mss >= 1 ==> r >= 1
    decreases |opts| - i
  {
    match Scan(opts, i)
    case Stop => mss
    case Skip(n) => ParseMss(opts, i + n, mss)
    case NewMss(n, m) => ParseMss(opts, i + n, m)
  }

  /** An advertised MSS of zero counts as the default. */
  function MssValue(hi: u8, lo: u8): (r: u16)
    ensures r >= 1
  {
    if FromBe16(hi, lo) == 0 then DEFAULT_MSS else FromBe16(hi, lo)
  }

  function MssOption(mss: u16): seq<u8> {
    [2, 4] + Be16(mss)
  }

  /** A TCP option as RFC 9293, section 3.1, lays it out. */
  datatype Opt = Nop | Mss(mss: u16) | Other(kind: u8, data: seq<u8>)
  {
    predicate Legal() {
      Other? ==> kind >= 3 && |data| <= 253
    }

    function Bytes(): seq<u8>
      requires Legal()
    {
      match this
      case Nop => [1]
      case Mss(m) => MssOption(m)
      case Other(k, d) => [k, 2 + |d|] + d
    }
  }

  predicate LegalOpts(os: seq<Opt>) {
    forall i :: 0 <= i < |os| ==> os[i].Legal()
  }

  function OptBytes(os: seq<Opt>): seq<u8>
    requires LegalOpts(os)
  {
    if os == [] then [] else os[0].Bytes() + OptBytes(os[1..])
  }

  /** The MSS known after option `o`. */
  function Learned(o: Opt, mss: u16): u16 {
    if o.Mss? then (if o.mss == 0 then DEFAULT_MSS else o.mss) else mss
  }

  /** The MSS a list of options announces: its last MSS option wins. */
  function Announced(os: seq<Opt>, mss: u16): u16 {
    if os == [] then mss else Announced(os[1..], Learned(os[0], mss))
  }

  lemma {:induction false} ParseOne(opts: seq<u8>, i: nat, o: Opt, mss: u16)
    requires o.Legal() && i + |o.Bytes()| <= |opts| && opts[i..i + |o.Bytes()|] == o.Bytes()
    ensures Scan(opts, i) == if o.Mss? then NewMss(|o.Bytes()|, Learned(o, mss)) else Skip(|o.Bytes()|)
  {
    var b := opts[i..i + |o.Bytes()|];
    assert opts[i] == b[0];
    if !o.Nop? {
      assert opts[i + 1] == b[1] == |b|;
      if o.Mss? {
        assert opts[i + 2] == b[2] && opts[i + 3] == b[3];
        assert FromBe16(b[2], b[3]) == o.mss;
      }
    }
  }

  lemma ScanEnd(opts: seq<u8>, i: nat, tail: seq<u8>)
    requires i <= |opts| && opts[i..] == tail && (tail == [] || tail[0] == 0)
    ensures Scan(opts, i) == Stop
  {
    assert tail != [] ==> opts[i..][0] == opts[i];
  }

  /** The parser on the encoding of `os` and a tail that starts with an end-of-list byte or
      is empty. */
  lemma {:induction false} ParseOptions(opts: seq<u8>, i: nat, os: seq<Opt>, tail: seq<u8>, mss: u16)
    requires LegalOpts(os) && (tail == [] || tail[0] == 0)
    requires i <= |opts| && opts[i..] == OptBytes(os) + tail
    ensures ParseMss(opts, i, mss) == Announced(os, mss)
    decreases |os|
  {
    hide Scan, MssValue, Opt.Bytes;
    if os == [] {
      assert OptBytes(os) + tail == tail;
      ScanEnd(opts, i, tail);
    } else {
      var o, rest, b := os[0], OptBytes(os[1..]), os[0].Bytes();
      assert (b + rest) + tail == b + (rest + tail);
      SplitAt(opts, i, b, rest + tail);
      ParseOne(opts, i, o, mss);
      ParseOptions(opts, i + |b|, os[1..], tail, Learned(o, mss));
    }
  }

  /** The MSS survives the trip through `SendControlPacketWithMSS` and back, and in general
      every option list is read for its last MSS. */
  lemma OptionsRoundTrip(os: seq<Opt>, tail: seq<u8>, mss: u16)
    requires LegalOpts(os) && (tail == [] || tail[0] == 0)
    ensures ParseMss(OptBytes(os) + tail, 0, mss) == Announced(os, mss)
    ensures ParseMss(MssOption(DEFAULT_MSS), 0, mss) == DEFAULT_MSS
  {
    var opts := OptBytes(os) + tail;
    assert opts[0..] == opts;
    ParseOptions(opts, 0, os, tail, mss);
    var own := MssOption(DEFAULT_MSS);
    assert own[0..4] == Mss(DEFAULT_MSS).Bytes();
    ParseOne(own, 0, Mss(DEFAULT_MSS), mss);
  }

  // ---------------------------------------------------------------- the endpoint

  /** `tx` logs every segment handed to the transmit ring, `notices` the callbacks to the
      application, `freed` the number of message buffers returned by `OutputMessage`, and
      `rx.delivered` the trains enqueued to the channel. */
  datatype Flow = Flow(
    state: State, una: u32, nxt: u32, isn: u32, buf: seq<u8>,
    finPending: bool, finSent: bool, finSeq: u32,
    rcv: u32, wnd: u16, peerMss: u16,
    rtoLeft: nat, rtoOn: bool, rexmits: nat, timeWait: nat,
    rx: RxState, tx: seq<Segment>, notices: seq<bool>, freed: nat)
  {
    // -------------------------------------------------------------- accessors

    function BufferedEnd(): u32 {
      Wrap(una + |buf|)
    }

    function InFlight(): u32 {
      Wrap(nxt - una)
    }

    predicate FinOutstanding() {
      finSent && SeqLt(una, Wrap(finSeq + 1))
    }

    function EffMss(): u16 {
      Min(peerMss, DEFAULT_MSS)
    }

    predicate CanSend() {
      state == Established || state == CloseWait || state == FinWait1 || state == LastAck
    }

    predicate CanAccept() {
      state == Established || state == CloseWait
    }

    predicate Opening() {
      state == Listen || state == SynSent || state == SynReceived
    }

    predicate Fresh() {
      state == Closed && una == nxt == isn && buf == [] && !finPending && !finSent
    }

    /** What every operation keeps whatever the peer sends. */
    predicate Ok() {
      && peerMss >= 1
      && |buf| <= MAX_SEND_BUF && InFlight() <= |buf| + 1
      && (Opening() ==> una == isn && buf == [] && !finPending && !finSent)
      && rtoLeft <= INITIAL_RTO && timeWait <= TIME_WAIT_TICKS
      && (state != Closed ==> rexmits <= MAX_REXMIT)
    }

    // -------------------------------------------------------------- control packets

    function Emit(seqNo: u32, ackNo: u32, flags: Flags, opts: seq<u8>, payload: seq<u8>): Flow {
      this.(tx := tx + [Segment(seqNo, ackNo, flags, WINDOW, opts, payload)])
    }

    function SendSyn(): Flow {
      Emit(isn, 0, SYN, MssOption(DEFAULT_MSS), []).(nxt := Wrap(isn + 1))
    }

    function SendSynAck(): Flow {
      Emit(isn, rcv, SYN_ACK, MssOption(DEFAULT_MSS), []).(nxt := Wrap(isn + 1))
    }

    function SendAck(): Flow {
      Emit(nxt, rcv, ACK, [], [])
    }

    function SendRst(): Flow {
      Emit(nxt, 0, RST, [], [])
    }

    // -------------------------------------------------------------- parts of several transitions

    function StartTimer(): Flow {
      this.(rtoOn := true, rtoLeft := INITIAL_RTO)
    }

    /** What a SYN tells about the peer. */
    function LearnPeer(s: Segment): Flow {
      this.(peerMss := ParseMss(s.opts, 0, peerMss), rcv := Wrap(s.seqNo + 1))
    }

    /** Our SYN is acknowledged. */
    function Confirm(s: Segment): Flow {
      this.(state := Established, una := s.ackNo, wnd := s.wnd, rtoOn := false, rexmits := 0)
    }

    // -------------------------------------------------------------- window-gated sending

    /** The `n` buffered bytes from sequence number `seqNo` on. */
    function Slice(seqNo: u32, n: nat): seq<u8>
      requires Wrap(seqNo - una) + n <= |buf|
    {
      buf[Wrap(seqNo - una)..Wrap(seqNo - una) + n]
    }

    /** Unsent bytes lie between `nxt` and the buffered end. */
    lemma Room()
      requires Ok()
      ensures SeqLt(nxt, BufferedEnd()) <==> InFlight() < |buf|
      ensures SeqLt(nxt, BufferedEnd()) ==> Wrap(BufferedEnd() - nxt) == |buf| - InFlight()
      ensures nxt == BufferedEnd() <==> InFlight() == |buf|
    {
      var o := InFlight();
      Offset(una, nxt);
      SerialOrder(una + o, una + |buf|);
      if o < |buf| {
        Distance(una + |buf|, una + o);
      }
    }

    /** The segment length `PumpSend` picks at `nxt`. */
    function SegLen(edge: u32): nat {
      Min(Min(Wrap(edge - nxt), Wrap(BufferedEnd() - nxt)), EffMss())
    }

    /** The data loop of `PumpSend`; `budget` packets can still be allocated. */
    function SendData(edge: u32, budget: nat): (f: Flow)
      requires Ok()
      ensures f.Ok() && f == this.(tx := f.tx, nxt := f.nxt)
      decreases budget
    {
      Room();
      if budget > 0 && SeqLt(nxt, BufferedEnd()) && SeqLt(nxt, edge) then
        var n := SegLen(edge);
        Advance(n);
        Emit(nxt, rcv, ACK_PSH, [], Slice(nxt, n)).(nxt := Wrap(nxt + n)).SendData(edge, budget - 1)
      else this
    }

    lemma Advance(n: nat)
      requires Ok() && InFlight() + n <= |buf| + 1
      ensures Wrap(Wrap(nxt + n) - una) == InFlight() + n
    {
      Offset(una, nxt);
      Further(una, InFlight(), n);
    }

    /** The FIN is sent only behind the last buffered byte. */
    function SendFin(budget: nat): (f: Flow)
      requires Ok()
      ensures f.Ok()
    {
      Room();
      Advance(0);
      if finPending && !finSent && nxt == BufferedEnd() && budget > 0 then
        Advance(1);
        Emit(nxt, rcv, FIN_ACK, [], []).(finSeq := nxt, nxt := Wrap(nxt + 1), finSent := true)
      else this
    }

    function ArmTimer(): Flow {
      if (InFlight() > 0 || FinOutstanding() || SeqLt(nxt, BufferedEnd())) && !rtoOn then StartTimer() else this
    }

    function PumpSend(budget: nat): (f: Flow)
      requires Ok()
      ensures f.Ok()
    {
      hide Wrap, SeqLt, RxFields.Valid;
      if CanSend() then
        var f := SendData(Wrap(una + wnd), budget);
        var used := |f.tx| - |tx|;
        f.SendFin(if used <= budget then budget - used else 0).ArmTimer()
      else this
    }

    function RetransmitUnacked(budget: nat): (f: Flow)
      requires Ok()
      ensures f.Ok()
    {
      this.(nxt := una, finSent := false).PumpSend(budget)
    }

    function ZeroWindowProbe(budget: nat): (f: Flow)
      requires Ok()
      ensures f.Ok()
    {
      Room();
      if SeqLt(nxt, BufferedEnd()) && budget > 0 then Emit(nxt, rcv, ACK_PSH, [], Slice(nxt, 1)) else this
    }

    // -------------------------------------------------------------- receiving

    /** Acknowledged bytes leave the buffer; an ACK counts only within (una, nxt]. */
    function AdvanceSndUna(ack: u32): (f: Flow)
      requires Ok() && !Opening()
      ensures f.Ok() && f.state == state
    {
      hide Wrap, Signed, SeqLt, SeqLeq, SeqGt, RxFields.Valid;
      if SeqGt(ack, una) && SeqLeq(ack, nxt) then
        AckedWithin(ack);
        this.(buf := buf[Min(Wrap(ack - una), |buf|)..], una := ack, rexmits := 0).SettleTimer()
      else this
    }

    /** The timer runs on while anything is unacknowledged. */
    function SettleTimer(): Flow {
      if una == nxt && buf == [] && !FinOutstanding() then this.(rtoOn := false) else this.(rtoLeft := INITIAL_RTO)
    }

    lemma AckedWithin(ack: u32)
      requires Ok() && SeqGt(ack, una) && SeqLeq(ack, nxt)
      ensures 0 < Wrap(ack - una) <= InFlight()
      ensures Wrap(nxt - ack) == InFlight() - Wrap(ack - una)
    {
      Offset(una, nxt);
      Within(una, InFlight(), ack);
    }

    /** In-order payload, with the part already received cut off. */
    function ProcessPayload(seqNo: u32, payload: seq<u8>): (r: (Flow, bool))
      requires Ok() && |payload| < 0x1_0000
      ensures r.0.Ok() && r.0.state == state
    {
      if payload == [] then (this, false)
      else if seqNo == rcv then
        (this.(rx := Consume(rx, payload), rcv := Wrap(rcv + |payload|)), true)
      else if SeqLeq(seqNo, rcv) && SeqGt(Wrap(seqNo + |payload|), rcv) then
        OverlapWithin(seqNo, |payload|);
        var news := payload[Wrap(rcv - seqNo)..];
        (this.(rx := Consume(rx, news), rcv := Wrap(rcv + |news|)), true)
      else (this, false)
    }

    lemma OverlapWithin(seqNo: u32, len: nat)
      requires len < 0x1_0000
      requires SeqLeq(seqNo, rcv) && SeqGt(Wrap(seqNo + len), rcv)
      ensures Wrap(rcv - seqNo) < len
    {
      Behind(seqNo, rcv, len);
    }

    function HandleListen(s: Segment): (f: Flow)
      requires Ok() && state == Listen
      ensures f.Ok()
    {
      if s.flags.syn then
        SynInFlight();
        LearnPeer(s).SendSynAck().(state := SynReceived).StartTimer()
      else this
    }

    lemma SynInFlight()
      ensures Wrap(Wrap(isn + 1) - isn) == 1
    {
      WrapParts(isn + 1, isn);
    }

    function HandleSynSent(s: Segment): (f: Flow)
      requires Ok() && state == SynSent
      ensures f.Ok()
    {
      SynInFlight();
      if s.flags.syn && s.flags.ack then
        if s.ackNo != nxt then this
        else
          LearnPeer(s).Confirm(s).SendAck().(notices := notices + [true])
      else if s.flags.syn then
        LearnPeer(s).SendSynAck().(state := SynReceived)
      else this
    }

    function HandleSynReceived(s: Segment): (f: Flow)
      requires Ok() && state == SynReceived && |s.payload| < 0x1_0000
      ensures f.Ok()
    {
      if s.flags.ack && s.ackNo == nxt then
        var (g, isNew) := Confirm(s).ProcessPayload(s.seqNo, s.payload);
        if isNew then g.SendAck() else g
      else this
    }

    /** Payload processing of the states from ESTABLISHED on: every segment that carries
        data is acknowledged, new or not. */
    function TakePayload(s: Segment): (f: Flow)
      requires Ok() && |s.payload| < 0x1_0000
      ensures f.Ok() && f.state == state
    {
      hide Wrap, Signed, SeqLt, SeqLeq, SeqGt;
      if s.payload == [] then this else ProcessPayload(s.seqNo, s.payload).0.SendAck()
    }

    function HandleEstablished(s: Segment): (f: Flow)
      requires Ok() && state == Established && |s.payload| < 0x1_0000
      ensures f.Ok()
    {
      hide Wrap, Signed, SeqLt, SeqLeq, SeqGt, RxFields.Valid;
      if s.flags.syn then SendAck() else EstablishedSegment(s)
    }

    function EstablishedSegment(s: Segment): (f: Flow)
      requires Ok() && state == Established && |s.payload| < 0x1_0000
      ensures f.Ok()
    {
      hide Wrap, Signed, SeqLt, SeqLeq, SeqGt;
      var f := TakeAck(s).TakePayload(s);
      if s.flags.fin then f.EstablishedFin(Wrap(s.seqNo + |s.payload|)) else f
    }

    /** An acknowledgement with its window. */
    function TakeAck(s: Segment): (f: Flow)
      requires Ok() && !Opening()
      ensures f.Ok() && f.state == state
    {
      if s.flags.ack then AdvanceSndUna(s.ackNo).(wnd := s.wnd) else this
    }

    /** A FIN is taken only at the expected sequence number. */
    function EstablishedFin(seqNo: u32): (f: Flow)
      requires Ok() && state == Established
      ensures f.Ok()
    {
      if seqNo == rcv then this.(rcv := Wrap(rcv + 1)).SendAck().(state := CloseWait)
      else if SeqLt(seqNo, rcv) then SendAck()
      else this
    }

    /** The FIN branch shared by FIN_WAIT_1 and FIN_WAIT_2. */
    function PeerFin(s: Segment): (f: Flow)
      requires Ok() && (state == FinWait1 || state == FinWait2) && |s.payload| < 0x1_0000
      ensures f.Ok()
    {
      var f := if Wrap(s.seqNo + |s.payload|) == rcv then this.(rcv := Wrap(rcv + 1)) else this;
      f.SendAck().(state := TimeWait, timeWait := TIME_WAIT_TICKS)
    }

    function HandleFinWait1(s: Segment): (f: Flow)
      requires Ok() && state == FinWait1 && |s.payload| < 0x1_0000
      ensures f.Ok()
    {
      (if s.flags.ack then AdvanceSndUna(s.ackNo) else this).TakePayload(s).CloseFinWait1(s)
    }

    /** Our FIN counts as acknowledged only once it has been sent. */
    function CloseFinWait1(s: Segment): (f: Flow)
      requires Ok() && state == FinWait1 && |s.payload| < 0x1_0000
      ensures f.Ok()
    {
      if s.flags.fin then PeerFin(s)
      else if finSent && !FinOutstanding() then this.(state := FinWait2)
      else this
    }

    function HandleFinWait2(s: Segment): (f: Flow)
      requires Ok() && state == FinWait2 && |s.payload| < 0x1_0000
      ensures f.Ok()
    {
      var f := TakePayload(s);
      if s.flags.fin then f.PeerFin(s) else f
    }

    /** The state switch of `InputPacket`. */
    function Dispatch(s: Segment): (f: Flow)
      requires Ok() && |s.payload| < 0x1_0000
      ensures f.Ok()
    {
      hide Wrap, Signed, SeqLt, SeqLeq, SeqGt, RxFields.Valid;
      match state
      case Listen => HandleListen(s)
      case SynSent => HandleSynSent(s)
      case SynReceived => HandleSynReceived(s)
      case Established => HandleEstablished(s)
      case FinWait1 => HandleFinWait1(s)
      case FinWait2 => HandleFinWait2(s)
      case CloseWait => if s.flags.ack then AdvanceSndUna(s.ackNo) else this
      case LastAck => if s.flags.ack then AdvanceSndUna(s.ackNo).(state := Closed) else this
      case TimeWait => this
      case Closed => SendRst()
    }

    function InputSegment(s: Segment, budget: nat): (f: Flow)
      requires Ok() && |s.payload| < 0x1_0000
      ensures f.Ok()
    {
      if s.flags.rst then this.(state := Closed) else Dispatch(s).PumpSend(budget)
    }

    function InputPacket(p: Packet, budget: nat): (f: Flow)
      requires Ok() && p.Whole()
      ensures f.Ok()
    {
      match Decode(p)
      case None => this
      case Some(s) => InputSegment(s, budget)
    }

    // -------------------------------------------------------------- application calls

    function InitiateHandshake(): (f: Flow)
      requires Ok() && Fresh() && rexmits <= MAX_REXMIT
      ensures f.Ok()
    {
      SynInFlight();
      SendSyn().(state := SynSent).StartTimer()
    }

    function StartPassiveOpen(): (f: Flow)
      requires Ok() && Fresh() && rexmits <= MAX_REXMIT
      ensures f.Ok()
    {
      this.(state := Listen)
    }

    function ShutDown(budget: nat): (f: Flow)
      requires Ok()
      ensures f.Ok()
    {
      if CanAccept() then
        this.(finPending := true, state := if state == Established then FinWait1 else LastAck).PumpSend(budget)
      else SendRst().(state := Closed, rtoOn := false)
    }

    /** Whether `OutputMessage` takes the message: right state, room in the send buffer, and
        as many bytes in the chain as announced. */
    predicate Accepts(msgLen: u32, chain: seq<seq<u8>>) {
      CanAccept() && |buf| + Wrap(PREFIX + msgLen) <= MAX_SEND_BUF && |Flatten(chain)| >= msgLen
    }

    function OutputMessage(msgLen: u32, chain: seq<seq<u8>>, budget: nat): (f: Flow)
      requires Ok() && PREFIX + msgLen < TWO32
      ensures f.Ok()
    {
      var f := this.(freed := freed + |chain|);
      if Accepts(msgLen, chain) then f.(buf := buf + Frame(Flatten(chain)[..msgLen])).PumpSend(budget) else f
    }

    /** One slow tick; the second result is false when the flow is to be removed. */
    function PeriodicCheck(budget: nat): (r: (Flow, bool))
      requires Ok()
      ensures r.0.Ok()
    {
      hide Wrap, Signed, SeqLt, SeqLeq, SeqGt, Flow.Retransmit;
      if state == Closed then (this, false)
      else if state == TimeWait then
        if timeWait > 0 then (this.(timeWait := timeWait - 1), true) else (this.(state := Closed), false)
      else if !rtoOn then (this, true)
      else if rtoLeft > 0 then (this.(rtoLeft := rtoLeft - 1), true)
      else if rexmits + 1 > MAX_REXMIT then
        (this.(rexmits := rexmits + 1, notices := notices + [false], state := Closed), false)
      else (this.(rexmits := rexmits + 1).Retransmit(budget).(rtoLeft := INITIAL_RTO), true)
    }

    /** What is sent when the retransmission timer expires. */
    function Retransmit(budget: nat): (f: Flow)
      requires Ok()
      ensures f.Ok()
    {
      SynInFlight();
      if state == SynSent then SendSyn()
      else if state == SynReceived then SendSynAck()
      else if CanSend() then
        if wnd == 0 && SeqLt(nxt, BufferedEnd()) then ZeroWindowProbe(budget) else RetransmitUnacked(budget)
      else this
    }
  }

  /** A freshly constructed flow. */
  function NewFlow(isn: u32, cap: nat): (f: Flow)
    requires cap >= 1
    ensures f.Ok() && f.Fresh()
  {
    Flow(Closed, isn, isn, isn, [], false, false, 0, 0, WINDOW, DEFAULT_MSS,
         INITIAL_RTO, false, 0, TIME_WAIT_TICKS, RxInit(cap), [], [], 0)
  }
}

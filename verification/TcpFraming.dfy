/** Message framing over the TCP byte stream: a 4-byte big-endian length before every
    message, and the receiver that cuts the stream back into trains of message buffers. */
module TcpFraming {
  import opened Words
  import opened Common

  const PREFIX: nat := 4

  type Message = seq<u8>

  /** What `OutputMessage` appends to the stream for one message. The length is a
      `uint32_t` in the source. */
  function Frame(m: Message): (r: seq<u8>)
    ensures |r| == PREFIX + |m|
  {
    Be32(Wrap(|m|)) + m
  }

  function FrameAll(ms: seq<Message>): (r: seq<u8>) {
    if ms == [] then [] else FrameAll(ms[..|ms| - 1]) + Frame(ms[|ms| - 1])
  }

  predicate Sendable(m: Message) {
    1 <= |m| <= MSG_MAX_LEN
  }

  predicate AllSendable(ms: seq<Message>) {
    forall i :: 0 <= i < |ms| ==> Sendable(ms[i])
  }

  lemma {:induction false} FrameAllPrefix(ms: seq<Message>, d: nat)
    requires d <= |ms|
    ensures FrameAll(ms[..d]) <= FrameAll(ms)
  {
    if d == |ms| {
      assert ms[..d] == ms;
    } else {
      var init := ms[..|ms| - 1];
      FrameAllPrefix(init, d);
      assert init[..d] == ms[..d];
    }
  }

  /** The frame of message `d` sits in the stream right after the frames before it. */
  lemma FrameAt(ms: seq<Message>, d: nat)
    requires d < |ms|
    ensures |FrameAll(ms[..d])| + |Frame(ms[d])| <= |FrameAll(ms)|
    ensures FrameAll(ms[..d + 1]) == FrameAll(ms[..d]) + Frame(ms[d])
    ensures FrameAll(ms)[|FrameAll(ms[..d])|..|FrameAll(ms[..d])| + |Frame(ms[d])|] == Frame(ms[d])
  {
    FrameAllPrefix(ms, d + 1);
    assert ms[..d + 1][..d] == ms[..d];
  }

  // ---------------------------------------------------------------- receiver state

  /** A message buffer of a received train; `msgLen` is set in the head only. The train's
      order stands for the `next` links. */
  datatype RxBuf = RxBuf(syn: bool, sg: bool, fin: bool, msgLen: u32, data: seq<u8>)

  /** The `rx_*` fields. `lenBuf` holds the prefix bytes read so far, `pending` is
      `rx_pending_msg_len_`, `got` is `rx_buf_offset_`, `train` the buffers from
      `rx_msg_train_head_` to the one being filled, and `delivered` the trains handed to
      the channel. `cap` is the channel's usable buffer size. */
  datatype RxFields = Rx(cap: nat, lenBuf: seq<u8>, pending: u32, got: nat, train: seq<RxBuf>,
                         delivered: seq<seq<RxBuf>>)
  {
    predicate Valid() {
      && cap >= 1 && |lenBuf| < PREFIX
      && pending <= MSG_MAX_LEN
      && (if pending == 0 then got == 0 && train == []
          else lenBuf == [] && got < pending && PartTrain(train, got, pending, cap))
    }
  }

  type RxState = r: RxFields | r.Valid() witness Rx(1, [], 0, 0, [], [])

  function RxInit(cap: nat): RxState
    requires cap >= 1
  {
    Rx(cap, [], 0, 0, [], [])
  }

  /** The bytes held by a train. */
  function Payload(train: seq<RxBuf>): seq<u8> {
    if train == [] then [] else Payload(train[..|train| - 1]) + train[|train| - 1].data
  }

  function Payloads(trains: seq<seq<RxBuf>>): (r: seq<Message>)
    ensures |r| == |trains|
    ensures forall i :: 0 <= i < |r| ==> r[i] == Payload(trains[i])
  {
    seq(|trains|, i requires 0 <= i < |trains| => Payload(trains[i]))
  }

  /** A train that is still being filled with a message of length `len`. */
  predicate PartTrain(train: seq<RxBuf>, got: nat, len: u32, cap: nat) {
    && |Payload(train)| == got
    && (got == 0 ==> train == [])
    && (forall i :: 0 <= i < |train| ==>
          && train[i].syn == (i == 0)
          && !train[i].fin
          && train[i].msgLen == (if i == 0 then len else 0)
          && 1 <= |train[i].data| <= cap)
    && (forall i :: 0 <= i < |train| - 1 ==> train[i].sg && |train[i].data| == cap)
  }

  /** A train that is fit for delivery: one SYN head carrying the message length, SG on
      every buffer but the last, FIN on the last only, and every buffer but the last
      filled to the usable size. */
  predicate FullTrain(train: seq<RxBuf>, cap: nat) {
    && train != []
    && train[0].msgLen == |Payload(train)|
    && (forall i :: 0 <= i < |train| ==>
          && train[i].syn == (i == 0)
          && train[i].fin == (i == |train| - 1)
          && train[i].sg == (i < |train| - 1)
          && 1 <= |train[i].data| <= cap)
    && (forall i :: 0 <= i < |train| - 1 ==> |train[i].data| == cap)
  }

  // ---------------------------------------------------------------- receiver steps

  /** One payload byte goes to the buffer being filled, or to a fresh one linked behind it
      when there is none or it is full. */
  function AddByte(train: seq<RxBuf>, len: u32, b: u8, cap: nat): seq<RxBuf> {
    if train == [] then
      [RxBuf(true, false, false, len, [b])]
    else
      var n := |train| - 1;
      var last := train[n];
      if |last.data| == cap then
        train[n := last.(sg := true)] + [RxBuf(false, true, false, 0, [b])]
      else
        train[n := last.(data := last.data + [b])]
  }

  function Fill(train: seq<RxBuf>, len: u32, bytes: seq<u8>, cap: nat): seq<RxBuf>
    decreases |bytes|
  {
    if bytes == [] then train else Fill(AddByte(train, len, bytes[0], cap), len, bytes[1..], cap)
  }

  /** The last buffer loses SG and gets FIN, and the train goes to the channel. */
  function Finish(rx: RxFields): RxFields
    requires rx.train != []
  {
    var n := |rx.train| - 1;
    var last := rx.train[n].(sg := false, fin := true);
    Rx(rx.cap, rx.lenBuf, 0, 0, [], rx.delivered + [rx.train[n := last]])
  }

  datatype Outcome = Go(rx: RxState) | Bad(rx: RxState)

  /** One byte of the stream. `Bad` is the invalid-length exit, on which the rest of the
      segment is dropped. */
  function StepByte(rx: RxState, b: u8): (o: Outcome)
    ensures o.rx.cap == rx.cap
  {
    if rx.pending == 0 then
      var lb := rx.lenBuf + [b];
      if |lb| < PREFIX then Go(rx.(lenBuf := lb))
      else
        var len := FromBe32(lb);
        if len == 0 || len > MSG_MAX_LEN then Bad(rx.(lenBuf := []))
        else Go(rx.(lenBuf := [], pending := len))
    else
      var rx' := rx.(train := AddByte(rx.train, rx.pending, b, rx.cap), got := rx.got + 1);
      AddByteShape(rx.train, rx.got, rx.pending, b, rx.cap);
      if rx'.got >= rx'.pending then Go(Finish(rx')) else Go(rx')
  }

  /** `ConsumePayload`: the bytes of one segment. */
  function Consume(rx: RxState, data: seq<u8>): (r: RxState)
    ensures r.cap == rx.cap
    decreases |data|
  {
    if data == [] then rx
    else
      match StepByte(rx, data[0])
      case Go(rx') => Consume(rx', data[1..])
      case Bad(rx') => rx'
  }

  /** No invalid length is met. */
  predicate Clean(rx: RxState, data: seq<u8>)
    decreases |data|
  {
    data == [] ||
    (var o := StepByte(rx, data[0]);
     o.Go? && Clean(o.rx, data[1..]))
  }

  lemma PayloadSnoc(train: seq<RxBuf>, b: RxBuf)
    ensures Payload(train + [b]) == Payload(train) + b.data
  {
    assert (train + [b])[..|train|] == train;
  }

  /** Rewriting the last buffer only touches the last piece of the payload. */
  lemma PayloadLast(train: seq<RxBuf>, b: RxBuf)
    requires train != []
    ensures Payload(train[|train| - 1 := b]) == Payload(train[..|train| - 1]) + b.data
  {
    assert train[|train| - 1 := b][..|train| - 1] == train[..|train| - 1];
  }

  lemma AddBytePayload(train: seq<RxBuf>, len: u32, b: u8, cap: nat)
    ensures Payload(AddByte(train, len, b, cap)) == Payload(train) + [b]
  {
    if train == [] {
      PayloadSnoc([], RxBuf(true, false, false, len, [b]));
    } else {
      var n := |train| - 1;
      var last := train[n];
      if |last.data| == cap {
        PayloadLast(train, last.(sg := true));
        PayloadSnoc(train[n := last.(sg := true)], RxBuf(false, true, false, 0, [b]));
      } else {
        PayloadLast(train, last.(data := last.data + [b]));
      }
    }
  }

  lemma AddByteShape(train: seq<RxBuf>, got: nat, len: u32, b: u8, cap: nat)
    requires PartTrain(train, got, len, cap) && cap >= 1
    ensures PartTrain(AddByte(train, len, b, cap), got + 1, len, cap)
  {
    hide Payload;
    AddBytePayload(train, len, b, cap);
    if train == [] {
    } else if |train[|train| - 1].data| == cap {
      NewBufShape(train, got, len, b, cap);
    } else {
      SameBufShape(train, got, len, b, cap);
    }
  }

  /** A full last buffer gets a successor. */
  lemma NewBufShape(train: seq<RxBuf>, got: nat, len: u32, b: u8, cap: nat)
    requires PartTrain(train, got, len, cap) && train != [] && |train[|train| - 1].data| == cap >= 1
    requires |Payload(AddByte(train, len, b, cap))| == got + 1
    ensures PartTrain(AddByte(train, len, b, cap), got + 1, len, cap)
  {
    hide Payload;
    var t := AddByte(train, len, b, cap);
    forall i | 0 <= i < |t| - 1 ensures t[i] == train[i].(sg := true) && |t[i].data| == cap {
      assert i < |train| - 1 ==> train[i].sg;
    }
  }

  lemma SameBufShape(train: seq<RxBuf>, got: nat, len: u32, b: u8, cap: nat)
    requires PartTrain(train, got, len, cap) && train != [] && |train[|train| - 1].data| != cap
    requires |Payload(AddByte(train, len, b, cap))| == got + 1
    ensures PartTrain(AddByte(train, len, b, cap), got + 1, len, cap)
  {
    hide Payload;
  }

  lemma FinishTrain(rx: RxFields)
    requires PartTrain(rx.train, rx.got, rx.pending, rx.cap) && rx.got == rx.pending > 0
    ensures rx.train != []
    ensures FullTrain(Finish(rx).delivered[|rx.delivered|], rx.cap)
    ensures Payload(Finish(rx).delivered[|rx.delivered|]) == Payload(rx.train)
  {
    assert rx.train != [];
    var n := |rx.train| - 1;
    var last := rx.train[n].(sg := false, fin := true);
    PayloadLast(rx.train, last);
  }

  /** A step delivers nothing or one train, fit for delivery and of legal length. */
  lemma StepDelivers(rx: RxState, b: u8)
    ensures var d := StepByte(rx, b).rx.delivered;
            d == rx.delivered ||
            (|d| == |rx.delivered| + 1 && d[..|rx.delivered|] == rx.delivered &&
             FullTrain(d[|rx.delivered|], rx.cap) && Sendable(Payload(d[|rx.delivered|])))
  {
    if rx.pending > 0 {
      AddByteShape(rx.train, rx.got, rx.pending, b, rx.cap);
      var rx' := rx.(train := AddByte(rx.train, rx.pending, b, rx.cap), got := rx.got + 1);
      if rx'.got >= rx'.pending {
        FinishTrain(rx');
      }
    }
  }

  // ---------------------------------------------------------------- splitting

  /** Splitting the stream into segments does not matter as long as lengths are legal. */
  lemma {:induction false} ConsumeSplit(rx: RxState, a: seq<u8>, b: seq<u8>)
    requires Clean(rx, a)
    ensures Consume(rx, a + b) == Consume(Consume(rx, a), b)
    ensures Clean(rx, a + b) <==> Clean(Consume(rx, a), b)
    decreases |a|
  {
    if a == [] {
      assert a + b == b;
    } else {
      assert (a + b)[1..] == a[1..] + b;
      ConsumeSplit(StepByte(rx, a[0]).rx, a[1..], b);
    }
  }

  // ---------------------------------------------------------------- inverse of framing

  /** The receiver has taken the first `j` bytes of the frame of `m`. */
  predicate Inside(rx: RxState, m: Message, j: nat) {
    && j < |Frame(m)|
    && (if j < PREFIX then rx.lenBuf == Frame(m)[..j] && rx.pending == 0
        else rx.pending == |m| && rx.got == j - PREFIX && Payload(rx.train) == m[..j - PREFIX])
  }

  predicate Delivered(trains: seq<seq<RxBuf>>, ms: seq<Message>, cap: nat) {
    && |trains| <= |ms|
    && forall i :: 0 <= i < |trains| ==> FullTrain(trains[i], cap) && Payload(trains[i]) == ms[i]
  }

  /** The receiver has taken exactly `d` whole frames and `j` bytes of the next. */
  predicate At(rx: RxState, ms: seq<Message>, d: nat, j: nat) {
    && Delivered(rx.delivered, ms, rx.cap) && |rx.delivered| == d
    && (if d == |ms| then j == 0 && rx.lenBuf == [] && rx.pending == 0 else Inside(rx, ms[d], j))
  }

  lemma PrefixRead(m: Message)
    requires Sendable(m)
    ensures FromBe32(Frame(m)[..PREFIX]) == |m|
  {
    assert Frame(m)[..PREFIX] == Be32(|m|);
    Be32RoundTrip(|m|);
  }

  lemma StepPrefix(rx: RxState, m: Message, j: nat)
    requires Sendable(m) && j < PREFIX && Inside(rx, m, j)
    ensures var o := StepByte(rx, Frame(m)[j]);
            o.Go? && o.rx.delivered == rx.delivered && Inside(o.rx, m, j + 1)
  {
    var lb := rx.lenBuf + [Frame(m)[j]];
    assert lb == Frame(m)[..j + 1];
    if j + 1 == PREFIX {
      PrefixRead(m);
      assert StepByte(rx, Frame(m)[j]) == Go(rx.(lenBuf := [], pending := |m|));
      assert m[..0] == [] == Payload(rx.train);
    } else {
      assert StepByte(rx, Frame(m)[j]) == Go(rx.(lenBuf := lb));
    }
  }

  lemma StepBody(rx: RxState, m: Message)
    requires 1 <= |m| == rx.pending && Payload(rx.train) == m[..rx.got]
    ensures var o := StepByte(rx, m[rx.got]);
            && o.Go?
            && (if rx.got + 1 < |m| then
                  && o.rx.delivered == rx.delivered && o.rx.pending == |m|
                  && o.rx.got == rx.got + 1 && Payload(o.rx.train) == m[..rx.got + 1]
                else
                  && o.rx.lenBuf == [] && o.rx.pending == 0
                  && |o.rx.delivered| == |rx.delivered| + 1
                  && o.rx.delivered[..|rx.delivered|] == rx.delivered
                  && FullTrain(o.rx.delivered[|rx.delivered|], rx.cap)
                  && Payload(o.rx.delivered[|rx.delivered|]) == m)
  {
    hide AddByte, Payload, FullTrain;
    var b := m[rx.got];
    var rx' := rx.(train := AddByte(rx.train, rx.pending, b, rx.cap), got := rx.got + 1);
    AddByteShape(rx.train, rx.got, rx.pending, b, rx.cap);
    AddBytePayload(rx.train, rx.pending, b, rx.cap);
    assert m[..rx.got] + [b] == m[..rx.got + 1];
    if rx.got + 1 == |m| {
      FinishTrain(rx');
      assert m[..rx.got + 1] == m;
    }
  }

  lemma FrameByte(m: Message, j: nat)
    requires PREFIX <= j < |Frame(m)|
    ensures Frame(m)[j] == m[j - PREFIX]
  {
  }

  lemma StepAt(rx: RxState, ms: seq<Message>, d: nat, j: nat)
    requires AllSendable(ms) && At(rx, ms, d, j) && d < |ms|
    ensures var o := StepByte(rx, Frame(ms[d])[j]);
            o.Go? && if j + 1 == |Frame(ms[d])| then At(o.rx, ms, d + 1, 0) else At(o.rx, ms, d, j + 1)
  {
    var m := ms[d];
    assert Sendable(m);
    if j < PREFIX {
      StepPrefix(rx, m, j);
    } else {
      FrameByte(m, j);
      StepBody(rx, m);
      if j + 1 == |Frame(m)| {
        NextMessage(StepByte(rx, Frame(m)[j]).rx, rx.delivered, ms);
      }
    }
  }

  /** One more delivered message: the receiver is idle in front of the next frame. */
  lemma NextMessage(rx: RxState, before: seq<seq<RxBuf>>, ms: seq<Message>)
    requires Delivered(before, ms, rx.cap) && |before| < |ms|
    requires |rx.delivered| == |before| + 1 && rx.delivered[..|before|] == before
    requires FullTrain(rx.delivered[|before|], rx.cap) && Payload(rx.delivered[|before|]) == ms[|before|]
    requires rx.lenBuf == [] && rx.pending == 0
    ensures At(rx, ms, |before| + 1, 0)
  {
    forall i | 0 <= i < |rx.delivered|
      ensures FullTrain(rx.delivered[i], rx.cap) && Payload(rx.delivered[i]) == ms[i]
    {
      if i < |before| {
        assert rx.delivered[i] == before[i];
      }
    }
  }

  /** Byte `k` of the stream, for a receiver that stands at frame `d`, offset `j`. */
  lemma ByteAt(ms: seq<Message>, k: nat, d: nat, j: nat)
    requires d <= |ms| && k < |FrameAll(ms)| && k == |FrameAll(ms[..d])| + j
    requires if d == |ms| then j == 0 else j < |Frame(ms[d])|
    ensures d < |ms| && FrameAll(ms)[k] == Frame(ms[d])[j]
    ensures |FrameAll(ms[..d + 1])| == |FrameAll(ms[..d])| + |Frame(ms[d])|
  {
    assert ms[..|ms|] == ms;
    FrameAt(ms, d);
    var off := |FrameAll(ms[..d])|;
    assert FrameAll(ms)[k] == FrameAll(ms)[off..off + |Frame(ms[d])|][j];
  }

  /** One more byte of a clean stream is one more step. */
  lemma ConsumeNext(s: seq<u8>, k: nat, cap: nat)
    requires cap >= 1 && 0 < k <= |s| && Clean(RxInit(cap), s[..k - 1])
    ensures var o := StepByte(Consume(RxInit(cap), s[..k - 1]), s[k - 1]);
            Consume(RxInit(cap), s[..k]) == o.rx && (Clean(RxInit(cap), s[..k]) <==> o.Go?)
  {
    var b := s[k - 1];
    var rx := Consume(RxInit(cap), s[..k - 1]);
    assert s[..k] == s[..k - 1] + [b];
    ConsumeSplit(RxInit(cap), s[..k - 1], [b]);
    assert [b][1..] == [];
    assert Consume(rx, [b]) == StepByte(rx, b).rx;
  }

  lemma AtBounds(rx: RxState, ms: seq<Message>, d: nat, j: nat)
    requires At(rx, ms, d, j)
    ensures d <= |ms| && if d == |ms| then j == 0 else j < |Frame(ms[d])|
  {
  }

  /** After `k` bytes of the framed stream the receiver stands at some frame and offset. */
  lemma {:induction false} ConsumeAt(ms: seq<Message>, k: nat, cap: nat) returns (d: nat, j: nat)
    requires cap >= 1 && AllSendable(ms) && k <= |FrameAll(ms)|
    ensures Clean(RxInit(cap), FrameAll(ms)[..k])
    ensures At(Consume(RxInit(cap), FrameAll(ms)[..k]), ms, d, j)
    ensures k == |FrameAll(ms[..d])| + j
  {
    hide Consume, Clean, StepByte, FrameAll, Frame, At, AllSendable;
    var s := FrameAll(ms);
    if k == 0 {
      d, j := 0, 0;
      StartAt(ms, cap);
    } else {
      var d0, j0 := ConsumeAt(ms, k - 1, cap);
      AtBounds(Consume(RxInit(cap), s[..k - 1]), ms, d0, j0);
      var rx := Consume(RxInit(cap), s[..k - 1]);
      ByteAt(ms, k - 1, d0, j0);
      StepAt(rx, ms, d0, j0);
      ConsumeNext(s, k, cap);
      d, j := if j0 + 1 == |Frame(ms[d0])| then d0 + 1 else d0, if j0 + 1 == |Frame(ms[d0])| then 0 else j0 + 1;
    }
  }

  lemma StartAt(ms: seq<Message>, cap: nat)
    requires cap >= 1
    ensures Clean(RxInit(cap), FrameAll(ms)[..0]) && At(Consume(RxInit(cap), FrameAll(ms)[..0]), ms, 0, 0)
    ensures |FrameAll(ms[..0])| == 0
  {
    hide StepByte, Frame;
    assert FrameAll(ms)[..0] == [];
    assert ms != [] ==> Frame(ms[0])[..0] == [];
  }

  /** Safety of the deframer: whatever part of the framed stream has arrived, the delivered
      messages are a prefix of the framed ones. */
  lemma DeframePrefix(ms: seq<Message>, k: nat, cap: nat)
    requires cap >= 1 && AllSendable(ms) && k <= |FrameAll(ms)|
    ensures Clean(RxInit(cap), FrameAll(ms)[..k])
    ensures Payloads(Consume(RxInit(cap), FrameAll(ms)[..k]).delivered) <= ms
    ensures forall i :: 0 <= i < |Consume(RxInit(cap), FrameAll(ms)[..k]).delivered| ==>
              FullTrain(Consume(RxInit(cap), FrameAll(ms)[..k]).delivered[i], cap)
  {
    var d, j := ConsumeAt(ms, k, cap);
  }

  /** And nothing is withheld: every message whose frame has arrived completely is delivered. */
  lemma DeframeComplete(ms: seq<Message>, k: nat, cap: nat, d: nat)
    requires cap >= 1 && AllSendable(ms) && k <= |FrameAll(ms)| && d <= |ms| && |FrameAll(ms[..d])| <= k
    ensures d <= |Consume(RxInit(cap), FrameAll(ms)[..k]).delivered|
  {
    hide Consume, FrameAll, Frame, AllSendable;
    var n, j := ConsumeAt(ms, k, cap);
    if n < d {
      FrameAt(ms, n);
      FrameLengths(ms, n + 1, d);
    }
  }

  lemma FrameLengths(ms: seq<Message>, a: nat, b: nat)
    requires a <= b <= |ms|
    ensures |FrameAll(ms[..a])| <= |FrameAll(ms[..b])|
  {
    FrameAllPrefix(ms[..b], a);
    assert ms[..b][..a] == ms[..a];
  }

  lemma StreamClean(ms: seq<Message>, k: nat, cap: nat)
    requires cap >= 1 && AllSendable(ms) && k <= |FrameAll(ms)|
    ensures Clean(RxInit(cap), FrameAll(ms)[..k])
  {
    var d, j := ConsumeAt(ms, k, cap);
  }

  /** Feeding a list of segments one after another. */
  function ConsumeChunks(rx: RxState, chunks: seq<seq<u8>>): (r: RxState)
    ensures r.cap == rx.cap
    decreases |chunks|
  {
    if chunks == [] then rx else ConsumeChunks(Consume(rx, chunks[0]), chunks[1..])
  }

  lemma {:induction false} ChunksJoin(rx: RxState, chunks: seq<seq<u8>>)
    requires Clean(rx, Flatten(chunks))
    ensures ConsumeChunks(rx, chunks) == Consume(rx, Flatten(chunks))
    decreases |chunks|
  {
    if chunks != [] {
      CleanPrefix(rx, chunks[0], Flatten(chunks[1..]));
      ConsumeSplit(rx, chunks[0], Flatten(chunks[1..]));
      ChunksJoin(Consume(rx, chunks[0]), chunks[1..]);
    }
  }

  lemma {:induction false} CleanPrefix(rx: RxState, a: seq<u8>, b: seq<u8>)
    requires Clean(rx, a + b)
    ensures Clean(rx, a)
    decreases |a|
  {
    if a != [] {
      assert (a + b)[1..] == a[1..] + b;
      CleanPrefix(StepByte(rx, a[0]).rx, a[1..], b);
    }
  }

  /** Whatever bytes arrive in whatever segments, only legal messages are delivered. */
  predicate OnlySendable(rx: RxState) {
    AllSendable(Payloads(rx.delivered))
  }

  lemma {:induction false} ConsumeSendable(rx: RxState, data: seq<u8>)
    requires OnlySendable(rx)
    ensures OnlySendable(Consume(rx, data))
    decreases |data|
  {
    if data != [] {
      StepDelivers(rx, data[0]);
      var o := StepByte(rx, data[0]);
      var d := o.rx.delivered;
      forall i | 0 <= i < |d| ensures Sendable(Payload(d[i])) {
        if i < |rx.delivered| {
          assert d[i] == rx.delivered[i];
          assert Sendable(Payloads(rx.delivered)[i]);
        }
      }
      if o.Go? {
        ConsumeSendable(o.rx, data[1..]);
      }
    }
  }

  lemma {:induction false} ChunksSendable(rx: RxState, chunks: seq<seq<u8>>)
    requires OnlySendable(rx)
    ensures OnlySendable(ConsumeChunks(rx, chunks))
    decreases |chunks|
  {
    if chunks != [] {
      ConsumeSendable(rx, chunks[0]);
      ChunksSendable(Consume(rx, chunks[0]), chunks[1..]);
    }
  }

  lemma DeframeAll(ms: seq<Message>, cap: nat)
    requires cap >= 1 && AllSendable(ms)
    ensures Clean(RxInit(cap), FrameAll(ms))
    ensures var rx := Consume(RxInit(cap), FrameAll(ms));
            At(rx, ms, |ms|, 0) && Delivered(rx.delivered, ms, cap)
  {
    var s := FrameAll(ms);
    assert s[..|s|] == s;
    var d, j := ConsumeAt(ms, |s|, cap);
    if d < |ms| {
      FrameAt(ms, d);
    }
    assert d == |ms|;
  }

  /** Deframing inverts framing under every chunking, exactly for lists of messages of
      length 1 to `MSG_MAX_LEN`. */
  lemma DeframeInvertsFrame(ms: seq<Message>, chunks: seq<seq<u8>>, cap: nat)
    requires cap >= 1 && Flatten(chunks) == FrameAll(ms)
    ensures Payloads(ConsumeChunks(RxInit(cap), chunks).delivered) == ms <==> AllSendable(ms)
    ensures AllSendable(ms) ==>
              && ConsumeChunks(RxInit(cap), chunks).(delivered := []) == RxInit(cap)
              && forall i :: 0 <= i < |ms| ==> FullTrain(ConsumeChunks(RxInit(cap), chunks).delivered[i], cap)
  {
    ChunksSendable(RxInit(cap), chunks);
    if AllSendable(ms) {
      DeframeAll(ms, cap);
      ChunksJoin(RxInit(cap), chunks);
    }
  }
}

/** `machnet_sendmsg` and `machnet_recvmsg`: a message is gathered from the application's
    segments into a chain of message buffers, and scattered from such a chain into the
    receiver's segments. */
module MsgPath {
  import opened Words
  import opened Common

  const BATCH: nat := 16
  const NONE: u32 := 0xffff_ffff

  datatype FlowInfo = FlowInfo(srcIp: u32, dstIp: u32, srcPort: u16, dstPort: u16)
  const NO_FLOW := FlowInfo(0, 0, 0, 0)

  /** `MachnetMsgBuf`; `data` are the bytes from the headroom on. */
  datatype MsgBuf = MsgBuf(syn: bool, sg: bool, fin: bool, notify: bool, flow: FlowInfo, msgLen: nat,
                           data: seq<u8>, next: nat, last: nat)

  const INIT_BUF := MsgBuf(false, false, false, false, NO_FLOW, 0, [], NONE, NONE)

  // ---------------------------------------------------------------- chains

  ghost predicate Owned(bufs: seq<MsgBuf>, ids: seq<nat>) {
    Distinct(ids) && forall i :: 0 <= i < |ids| ==> ids[i] < |bufs|
  }

  /** The pieces of a message held by the buffers `ids`. */
  function Datas(bufs: seq<MsgBuf>, ids: seq<nat>): (r: seq<seq<u8>>)
    requires forall i :: 0 <= i < |ids| ==> ids[i] < |bufs|
    ensures |r| == |ids| && forall i :: 0 <= i < |ids| ==> r[i] == bufs[ids[i]].data
  {
    seq(|ids|, i requires 0 <= i < |ids| => bufs[ids[i]].data)
  }

  /** `ids` are linked to each other, SG says that another buffer follows, and none is empty:
      what a receiver relies on. */
  ghost predicate Linked(bufs: seq<MsgBuf>, ids: seq<nat>) {
    && ids != [] && Owned(bufs, ids)
    && forall i :: 0 <= i < |ids| ==>
         && bufs[ids[i]].data != []
         && bufs[ids[i]].sg == (i < |ids| - 1)
         && (i < |ids| - 1 ==> bufs[ids[i]].next == ids[i + 1])
  }

  /** The chain of a message: linked, every buffer but the last full, SYN and the message's
      metadata in the first, FIN in the last. */
  ghost predicate Chain(bufs: seq<MsgBuf>, ids: seq<nat>, mss: nat, m: seq<u8>, flow: FlowInfo, notify: bool) {
    && Linked(bufs, ids) && Flatten(Datas(bufs, ids)) == m
    && (forall i :: 0 <= i < |ids| ==>
          && |bufs[ids[i]].data| <= mss && (i < |ids| - 1 ==> |bufs[ids[i]].data| == mss)
          && bufs[ids[i]].syn == (i == 0) && bufs[ids[i]].fin == (i == |ids| - 1))
    && var first := bufs[ids[0]];
       first.flow == flow && first.msgLen == |m| && first.last == ids[|ids| - 1] && first.notify == notify
  }

  // ---------------------------------------------------------------- gathering

  /** `done` has been gathered into the first `c` buffers of `table`; when `linked`, the last
      of them is full and already points to the next one. */
  ghost predicate Gathered(bufs: seq<MsgBuf>, table: seq<nat>, mss: nat, c: nat, linked: bool, done: seq<u8>) {
    && c <= |table| && Owned(bufs, table) && Flatten(Datas(bufs, table[..c])) == done
    && (forall i :: 0 <= i < c ==> Piece(bufs[table[i]], mss))
    && (forall i {:trigger bufs[table[i]]} :: 0 <= i < (if linked then c else c - 1) ==>
          |bufs[table[i]].data| == mss && i + 1 < |table| && bufs[table[i]].next == table[i + 1])
  }

  predicate Piece(b: MsgBuf, mss: nat) {
    !b.syn && b.sg && !b.fin && !b.notify && 1 <= |b.data| <= mss
  }

  /** Only the buffers of `table` differ. */
  ghost predicate Elsewhere(was: seq<MsgBuf>, bufs: seq<MsgBuf>, table: seq<nat>) {
    |bufs| == |was| && forall x :: 0 <= x < |was| && x !in table ==> bufs[x] == was[x]
  }

  /** Rewriting the last buffer of a prefix rewrites the last piece. */
  lemma DatasLast(bufs: seq<MsgBuf>, table: seq<nat>, c: nat, b: MsgBuf)
    requires Owned(bufs, table) && c < |table|
    ensures var bufs' := bufs[table[c] := b];
            Datas(bufs', table[..c + 1]) == Datas(bufs, table[..c]) + [b.data]
  {
    var bufs' := bufs[table[c] := b];
    forall i | 0 <= i < c ensures bufs'[table[i]] == bufs[table[i]] {
      assert table[i] != table[c];
    }
  }

  lemma FlattenLast(bufs: seq<MsgBuf>, table: seq<nat>, c: nat, b: MsgBuf)
    requires Owned(bufs, table) && c < |table|
    ensures Flatten(Datas(bufs[table[c] := b], table[..c + 1])) == Flatten(Datas(bufs, table[..c])) + b.data
  {
    hide Flatten;
    DatasLast(bufs, table, c, b);
    FlattenSnoc(Datas(bufs, table[..c]), b.data);
  }

  /** A fresh buffer takes the first bytes `x`. */
  lemma Begins(bufs: seq<MsgBuf>, table: seq<nat>, mss: nat, c: nat, done: seq<u8>, x: seq<u8>)
    requires Gathered(bufs, table, mss, c, true, done) && c < |table| && 1 <= |x| <= mss
    ensures Gathered(bufs[table[c] := INIT_BUF.(data := x, sg := true)], table, mss, c + 1, false, done + x)
  {
    hide Flatten;
    FlattenLast(bufs, table, c, INIT_BUF.(data := x, sg := true));
    assert forall i :: 0 <= i < c ==> table[i] != table[c];
  }

  /** The last buffer takes more bytes `x`. */
  lemma Extends(bufs: seq<MsgBuf>, table: seq<nat>, mss: nat, c: nat, done: seq<u8>, x: seq<u8>)
    requires Gathered(bufs, table, mss, c + 1, false, done) && |bufs[table[c]].data| + |x| <= mss
    ensures var b := bufs[table[c]];
            Gathered(bufs[table[c] := b.(data := b.data + x, sg := true)], table, mss, c + 1, false, done + x)
  {
    hide Flatten;
    var b := bufs[table[c]];
    assert bufs[table[c] := b] == bufs;
    FlattenLast(bufs, table, c, b);
    FlattenLast(bufs, table, c, b.(data := b.data + x, sg := true));
    assert Flatten(Datas(bufs, table[..c])) + (b.data + x) == Flatten(Datas(bufs, table[..c])) + b.data + x;
    assert forall i :: 0 <= i < c ==> table[i] != table[c];
  }

  /** A full last buffer is linked to the next one. */
  lemma Links(bufs: seq<MsgBuf>, table: seq<nat>, mss: nat, c: nat, done: seq<u8>)
    requires Gathered(bufs, table, mss, c + 1, false, done) && |bufs[table[c]].data| == mss && c + 1 < |table|
    ensures Gathered(bufs[table[c] := bufs[table[c]].(next := table[c + 1])], table, mss, c + 1, true, done)
  {
    hide Flatten;
    var b := bufs[table[c]];
    assert bufs[table[c] := b] == bufs;
    FlattenLast(bufs, table, c, b);
    FlattenLast(bufs, table, c, b.(next := table[c + 1]));
    assert forall i :: 0 <= i < c ==> table[i] != table[c];
  }

  /** Full buffers hold `mss` bytes each. */
  lemma {:induction false} FullLength(bufs: seq<MsgBuf>, table: seq<nat>, mss: nat, k: nat)
    requires Owned(bufs, table) && k <= |table| && forall i :: 0 <= i < k ==> |bufs[table[i]].data| == mss
    ensures |Flatten(Datas(bufs, table[..k]))| == Times(k, mss)
  {
    hide Flatten;
    if k == 0 {
      assert Datas(bufs, table[..0]) == [];
      FlattenEmpty<u8>();
    } else {
      FullLength(bufs, table, mss, k - 1);
      assert bufs[table[k - 1] := bufs[table[k - 1]]] == bufs;
      FlattenLast(bufs, table, k - 1, bufs[table[k - 1]]);
      Scales(k - 1, 1, mss);
    }
  }

  lemma FlattenEmpty<T>()
    ensures Flatten<T>([]) == []
  {
  }

  lemma GatheredLength(bufs: seq<MsgBuf>, table: seq<nat>, mss: nat, c: nat, linked: bool, done: seq<u8>)
    requires Gathered(bufs, table, mss, c + 1, linked, done)
    ensures |done| == Times(c, mss) + |bufs[table[c]].data|
  {
    hide Flatten, Times;
    FullLength(bufs, table, mss, c);
    assert bufs[table[c] := bufs[table[c]]] == bufs;
    FlattenLast(bufs, table, c, bufs[table[c]]);
  }

  /** The number of buffers for a message. */
  function Needed(size: nat, mss: nat): nat
    requires mss > 0
  {
    (size + mss - 1) / mss
  }

  /** `c` buffers, all full but the last, are what a message of their total size needs. */
  lemma NeededExact(c: nat, last: nat, mss: nat)
    requires 1 <= last <= mss
    ensures Needed(Times(c, mss) + last, mss) == c + 1
  {
    var x := Times(c, mss) + last + mss - 1;
    assert x == (c + 1) * mss + (last - 1);
    DivUnique(x, c + 1, last - 1, mss);
  }

  lemma DivUnique(x: int, d: int, r: int, m: int)
    requires m > 0 && 0 <= r < m && x == d * m + r
    ensures x / m == d
  {
    ModUnique(x, d, r, m);
    assert m * (x / m) == m * d;
    Multiple(m, x / m - d);
  }

  /** The needed buffers have room for the message. */
  lemma NeededRoom(size: nat, mss: nat)
    requires mss > 0
    ensures Times(Needed(size, mss), mss) >= size
  {
    var x := size + mss - 1;
    assert x == mss * (x / mss) + x % mss;
  }

  // ---------------------------------------------------------------- the channel

  /** `Dropped` is the -1 for a message that the full ring does not take. */
  datatype Outcome = Sent | Refused | Dropped | Aborted

  class Channel {
    /** `buf_mss`. */
    const mss: nat
    var bufs: seq<MsgBuf>

    /** One turn of the copy loop of `machnet_sendmsg`: bytes of `seg` go into buffer `cur`,
        and when it is full and bytes are left, the next buffer is linked. */
    method CopyPiece(table: seq<nat>, cur: nat, newBuf: bool, seg: seq<u8>, ghost done: seq<u8>)
      returns (n: nat, next: nat, isNew: bool, aborted: bool)
      requires mss > 0 && cur < |table| && seg != []
      requires Gathered(bufs, table, mss, if newBuf then cur else cur + 1, newBuf, done)
      modifies `bufs
      ensures n <= |seg| && Elsewhere(old(bufs), bufs, table)
      ensures !aborted ==>
                next < |table| && Gathered(bufs, table, mss, if isNew then next else next + 1, isNew, done + seg[..n])
      ensures !aborted ==> n > 0 || (isNew && !newBuf)
      ensures aborted ==> |done| + |seg| > Times(|table|, mss)
      ensures !aborted && n == |seg| ==> !isNew
    {
      hide Gathered, Times;
      ghost var c := if newBuf then cur else cur + 1;
      Reach(bufs, table, mss, c, newBuf, done);
      var id := table[cur];
      var b := if newBuf then INIT_BUF else bufs[id];
      n := Min(|seg|, mss - |b.data|);
      if newBuf {
        Begins(bufs, table, mss, cur, done, seg[..n]);
        assert [] + seg[..n] == seg[..n];
      } else {
        Extends(bufs, table, mss, cur, done, seg[..n]);
      }
      b := b.(data := b.data + seg[..n], sg := true);
      bufs := bufs[id := b];
      next, isNew, aborted := cur, false, false;
      if mss - |b.data| == 0 && |seg| - n > 0 {
        next := cur + 1;
        isNew := true;
        GatheredLength(bufs, table, mss, cur, false, done + seg[..n]);
        if next >= |table| {
          Scales(cur, 1, mss);
          OneTimes(mss);
          aborted := true;
          return;
        }
        Links(bufs, table, mss, cur, done + seg[..n]);
        bufs := bufs[id := b.(next := table[next])];
      }
    }
  
    /** The inner loop of `machnet_sendmsg` over one segment. */
    method GatherSegment(table: seq<nat>, start: nat, startNew: bool, seg: seq<u8>, ghost done: seq<u8>)
      returns (cur: nat, newBuf: bool, aborted: bool)
      requires mss > 0 && start < |table|
      requires Gathered(bufs, table, mss, if startNew then start else start + 1, startNew, done)
      modifies `bufs
      ensures Elsewhere(old(bufs), bufs, table)
      ensures !aborted ==>
                cur < |table| && Gathered(bufs, table, mss, if newBuf then cur else cur + 1, newBuf, done + seg)
      ensures aborted ==> |done| + |seg| > Times(|table|, mss)
      ensures !aborted && newBuf ==> startNew && seg == [] && cur == start
    {
      hide Gathered, Times;
      cur, newBuf, aborted := start, startNew, false;
      var off := 0;
      assert done + seg[..0] == done;
      while off < |seg|
        invariant 0 <= off <= |seg| && Elsewhere(old(bufs), bufs, table) && cur < |table|
        invariant Gathered(bufs, table, mss, if newBuf then cur else cur + 1, newBuf, done + seg[..off])
        invariant |seg| == 0 ==> cur == start && newBuf == startNew
        invariant off == |seg| > 0 ==> !newBuf
        decreases |seg| - off, if newBuf then 0 else 1
      {
        var n;
        n, cur, newBuf, aborted := CopyPiece(table, cur, newBuf, seg[off..], done + seg[..off]);
        if aborted { return; }
        assert (done + seg[..off]) + seg[off..][..n] == done + seg[..off + n];
        off := off + n;
      }
      assert seg[..off] == seg;
    }
  
    /** The loop of `machnet_sendmsg` over all segments. */
    method Gather(table: seq<nat>, iovs: seq<seq<u8>>) returns (copied: nat, cur: nat, aborted: bool)
      requires mss > 0 && table != [] && Owned(bufs, table)
      modifies `bufs
      ensures Elsewhere(old(bufs), bufs, table)
      ensures aborted ==> |Flatten(iovs)| > Times(|table|, mss)
      ensures !aborted ==> copied == |Flatten(iovs)|
      ensures !aborted && copied > 0 ==> cur < |table| && Gathered(bufs, table, mss, cur + 1, false, Flatten(iovs))
    {
      hide Gathered, Times, Flatten;
      var newBuf, k := true, 0;
      copied, cur, aborted := 0, 0, false;
      Nothing(bufs, table, mss);
      FlattenEmpty<u8>();
      assert iovs[..0] == [];
      while k < |iovs|
        invariant 0 <= k <= |iovs| && cur < |table| && Elsewhere(old(bufs), bufs, table)
        invariant Gathered(bufs, table, mss, if newBuf then cur else cur + 1, newBuf, Flatten(iovs[..k]))
        invariant copied == |Flatten(iovs[..k])| && (newBuf ==> copied == 0)
      {
        ghost var done := Flatten(iovs[..k]);
        assert iovs[..k + 1] == iovs[..k] + [iovs[k]];
        FlattenSnoc(iovs[..k], iovs[k]);
        cur, newBuf, aborted := GatherSegment(table, cur, newBuf, iovs[k], done);
        if aborted {
          assert iovs == iovs[..k + 1] + iovs[k + 1..];
          FlattenAppend(iovs[..k + 1], iovs[k + 1..]);
          return;
        }
        copied := copied + |iovs[k]|;
        k := k + 1;
      }
      assert iovs[..k] == iovs;
    }

    /** `machnet_sendmsg`. `table` are the buffers that `_machnet_buffers_alloc` returned, if
        any, and `room` says whether the ring to the stack takes the message; a failed assertion
        counts as abort(). */
    method SendMsg(iovs: seq<seq<u8>>, msgSize: nat, flow: FlowInfo, notify: bool, table: seq<nat>, gotTable: bool,
                   room: bool)
      returns (o: Outcome)
      requires mss > 0
      requires gotTable && 0 < msgSize <= MSG_MAX_LEN ==> |table| == Needed(msgSize, mss) && Owned(bufs, table)
      modifies `bufs
      ensures o == Refused <==> msgSize == 0 || msgSize > MSG_MAX_LEN || !gotTable
      ensures o == Sent || o == Dropped <==> 0 < msgSize <= MSG_MAX_LEN && gotTable && |Flatten(iovs)| == msgSize
      ensures o == Sent ==> room
      ensures o == Dropped ==> !room
      ensures o == Sent || o == Dropped ==> Chain(bufs, table, mss, Flatten(iovs), flow, notify)
      ensures Elsewhere(old(bufs), bufs, table)
      ensures o == Refused ==> bufs == old(bufs)
    {
      hide Gathered, Times, Flatten, Chain, Needed;
      if msgSize > MSG_MAX_LEN || msgSize == 0 { return Refused; }
      if !gotTable { return Refused; }
      NeededRoom(msgSize, mss);
      NeededSome(msgSize, mss);
      var copied, c, aborted := Gather(table, iovs);
      if aborted || copied != msgSize { return Aborted; }
      ghost var m := Flatten(iovs);
      GatheredLength(bufs, table, mss, c, false, m);
      Reach(bufs, table, mss, c + 1, false, m);
      NeededExact(c, |bufs[table[c]].data|, mss);
      Finishes(bufs, table, mss, m, flow, notify);
      var last := table[|table| - 1];
      bufs := bufs[last := bufs[last].(fin := true, sg := false)];
      var first := table[0];
      bufs := bufs[first := bufs[first].(syn := true, notify := notify, flow := flow, msgLen := msgSize, last := last)];
      o := if room then Sent else Dropped;
    }
  
    /** The failure path of `machnet_recvmsg`: the rest of the chain is released. */
    method ReleaseRest(start: nat, pending: seq<nat>, sofar: seq<seq<nat>>, ghost ids: seq<nat>, ghost at: nat)
      returns (released: seq<seq<nat>>)
      requires Linked(bufs, ids) && at < |ids| && start == ids[at]
      requires |pending| < BATCH && Batches(sofar) && Flatten(sofar) + pending == ids[..at]
      ensures Batches(released) && Flatten(released) == ids
    {
      hide Flatten;
      var cur, batch, more := start, pending, true;
      released := sofar;
      ghost var j := at;
      while more
        invariant |batch| < BATCH && Batches(released)
        invariant more ==> j < |ids| && cur == ids[j] && Flatten(released) + batch == ids[..j]
        invariant !more ==> batch == [] && Flatten(released) == ids
        decreases |ids| - j, more
      {
        assert ids[..j] + [cur] == ids[..j + 1];
        batch := batch + [cur];
        if bufs[cur].sg {
          cur := bufs[cur].next;
          j := j + 1;
        } else {
          assert ids[..j + 1] == ids;
          more := false;
        }
        if !more || |batch| == BATCH {
          FlattenSnoc(released, batch);
          released := released + [batch];
          batch := [];
        }
      }
    }
  
    /** A buffer that is copied out waits for release, and the next one follows. */
    method NextBuffer(s: Scatter, ghost ids: seq<nat>, ghost j: nat) returns (t: Scatter, ghost k: nat)
      requires Drained(bufs, ids, j, s)
      ensures Scattered(bufs, ids, k, t) && t.Bytes() == s.Bytes() && t.full == s.full && t.part == s.part
    {
      hide Flatten;
      var b := bufs[s.cur];
      assert ids[..j] + [s.cur] == ids[..j + 1];
      assert b.data[..s.ofs] == b.data;
      PrefixBytes(bufs, ids, j);
      t := s.(batch := s.batch + [s.cur]);
      k := j;
      if b.sg {
        t := t.(cur := b.next, ofs := 0);
        k := j + 1;
      } else {
        assert ids[..j + 1] == ids;
      }
      if |t.batch| == BATCH {
        FlattenSnoc(t.released, t.batch);
        t := t.(released := t.released + [t.batch], batch := []);
      }
    }

    /** One turn of the copy loop of `machnet_recvmsg` into a segment of length `len`. */
    method CopyOut(s: Scatter, len: nat, ghost ids: seq<nat>, ghost j: nat, ghost lens: seq<nat>)
      returns (t: Scatter, ghost k: nat)
      requires Scattered(bufs, ids, j, s) && s.ofs < |bufs[s.cur].data| && Placed(s, lens)
      requires |s.full| < |lens| && len == lens[|s.full|] > 0
      ensures Scattered(bufs, ids, k, t) && Placed(t, lens) && |t.Bytes()| > |s.Bytes()|
    {
      hide Drained, Flatten, Scatter.Bytes;
      var b := bufs[s.cur];
      var n := Min(len - |s.part|, |b.data| - s.ofs);
      Copied(bufs, ids, j, s, n);
      t, k := s.(part := s.part + b.data[s.ofs..s.ofs + n], ofs := s.ofs + n), j;
      if t.ofs == |b.data| {
        t, k := NextBuffer(t, ids, j);
      }
      EndSegment(t, lens);
      if |t.part| == len {
        t := t.(full := t.full + [t.part], part := []);
      }
    }

    /** `machnet_recvmsg` of the chain `ids` that starts with buffer `head`, into segments of
        lengths `lens`. `segs` is what the segments then hold, `released` the batches of
        buffers given back. */
    method RecvMsg(hasMsg: bool, head: nat, lens: seq<nat>, ghost ids: seq<nat>)
      returns (ret: int, segs: seq<seq<u8>>, size: nat, flow: FlowInfo, released: seq<seq<nat>>)
      requires hasMsg ==> Linked(bufs, ids) && head == ids[0]
      ensures !hasMsg ==> ret == 0
      ensures hasMsg ==> Batches(released) && Flatten(released) == ids && (ret == 1 || ret == -1)
      ensures hasMsg ==> (ret == 1 <==> Sum(lens) >= |Flatten(Datas(bufs, ids))|)
      ensures ret == 1 ==>
                Flatten(segs) == Flatten(Datas(bufs, ids)) && size == |Flatten(segs)| && flow == bufs[head].flow
      ensures ret == 1 ==>
                |segs| <= |lens| + 1 && forall k :: 0 <= k < |segs| ==> |segs[k]| <= if k < |lens| then lens[k] else 0
    {
      hide Flatten, Sum, Datas, Placed, Batches, Scattered, Scatter.Bytes;
      ret, segs, size, flow, released := 0, [], 0, NO_FLOW, [];
      if !hasMsg { return; }
      flow := bufs[head].flow;
      var s := Scatter(head, 0, [], [], [], []);
      ghost var m, j := Flatten(Datas(bufs, ids)), 0;
      Starts(bufs, ids, lens);
      Remains(bufs, ids, j, s);
      while |bufs[s.cur].data| > s.ofs
        invariant Scattered(bufs, ids, j, s) && Placed(s, lens) && s.cur < |bufs|
        invariant |s.Bytes()| <= |m|
        decreases |m| - |s.Bytes()|, |lens| - |s.full|
      {
        Remains(bufs, ids, j, s);
        Reached(bufs, ids, j, s, lens);
        if |s.full| >= |lens| {
          NoSpace(s, lens);
          released := ReleaseRest(s.cur, s.batch, s.released, ids, j);
          ret := -1;
          return;
        }
        var len := lens[|s.full|];
        if len == 0 {
          Skipped(bufs, ids, j, s, lens);
          s := s.(full := s.full + [[]]);
          continue;
        }
        s, j := CopyOut(s, len, ids, j, lens);
        Remains(bufs, ids, j, s);
      }
      Ended(bufs, ids, j, s, lens);
      segs := s.full + [s.part];
      size := |s.Bytes()|;
      released := s.released + [s.batch];
      ret := 1;
    }
  }

  /** Buffers are released in batches of at most 16. */
  ghost predicate Batches(released: seq<seq<nat>>) {
    forall i :: 0 <= i < |released| ==> |released[i]| <= BATCH
  }

  // ---------------------------------------------------------------- scattering

  function Sum(lens: seq<nat>): nat {
    if lens == [] then 0 else Sum(lens[..|lens| - 1]) + lens[|lens| - 1]
  }

  /** Where `machnet_recvmsg` stands: `ofs` bytes of buffer `cur` are copied, the segments
      before `iov` hold `full`, segment `iov` holds `part`, and `batch` waits to be released. */
  datatype Scatter = Scatter(cur: nat, ofs: nat, full: seq<seq<u8>>, part: seq<u8>, batch: seq<nat>,
                             released: seq<seq<nat>>)
  {
    function Bytes(): seq<u8> {
      Flatten(full) + part
    }
  }

  /** The segments are filled one after the other. */
  ghost predicate Placed(s: Scatter, lens: seq<nat>) {
    && |s.full| <= |lens| && (forall k :: 0 <= k < |s.full| ==> |s.full[k]| == lens[k])
    && (s.part != [] ==> |s.full| < |lens| && |s.part| < lens[|s.full|])
  }

  /** Buffer `ids[j]` is being copied, and every buffer before it is released or about to be. */
  ghost predicate Scattered(bufs: seq<MsgBuf>, ids: seq<nat>, j: nat, s: Scatter) {
    && Linked(bufs, ids) && j < |ids| && s.cur == ids[j] && s.ofs <= |bufs[ids[j]].data|
    && s.Bytes() == Flatten(Datas(bufs, ids[..j])) + bufs[ids[j]].data[..s.ofs]
    && |s.batch| < BATCH && Batches(s.released)
    && (if s.ofs < |bufs[ids[j]].data| then Flatten(s.released) + s.batch == ids[..j]
        else j == |ids| - 1 && Flatten(s.released) + s.batch == ids)
  }

  /** Buffer `ids[j]` is copied out but not yet put aside for release. */
  ghost predicate Drained(bufs: seq<MsgBuf>, ids: seq<nat>, j: nat, s: Scatter) {
    && Linked(bufs, ids) && j < |ids| && s.cur == ids[j] && s.ofs == |bufs[ids[j]].data|
    && s.Bytes() == Flatten(Datas(bufs, ids[..j])) + bufs[ids[j]].data[..s.ofs]
    && |s.batch| < BATCH && Batches(s.released) && Flatten(s.released) + s.batch == ids[..j]
  }

  lemma Copied(bufs: seq<MsgBuf>, ids: seq<nat>, j: nat, s: Scatter, n: nat)
    requires Scattered(bufs, ids, j, s) && s.ofs + n <= |bufs[ids[j]].data| && n > 0
    ensures var data := bufs[ids[j]].data;
            var t := s.(part := s.part + data[s.ofs..s.ofs + n], ofs := s.ofs + n);
            && |t.Bytes()| == |s.Bytes()| + n
            && (if t.ofs < |data| then Scattered(bufs, ids, j, t) else Drained(bufs, ids, j, t))
  {
    hide Flatten, Datas, Batches;
    assert Owned(bufs, ids);
    hide Linked;
    var data, before := bufs[ids[j]].data, Flatten(Datas(bufs, ids[..j]));
    var chunk := data[s.ofs..s.ofs + n];
    assert data[..s.ofs] + chunk == data[..s.ofs + n];
    assert Flatten(s.full) + (s.part + chunk) == s.Bytes() + chunk;
    assert (before + data[..s.ofs]) + chunk == before + (data[..s.ofs] + chunk);
  }

  lemma EndSegment(s: Scatter, lens: seq<nat>)
    requires |s.full| < |lens| && |s.part| <= lens[|s.full|] && Placed(s.(part := []), lens)
    ensures |s.part| < lens[|s.full|] ==> Placed(s, lens)
    ensures |s.part| == lens[|s.full|] ==>
              var t := s.(full := s.full + [s.part], part := []);
              Placed(t, lens) && t.Bytes() == s.Bytes()
  {
    FlattenSnoc(s.full, s.part);
  }

  lemma PrefixBytes(bufs: seq<MsgBuf>, ids: seq<nat>, j: nat)
    requires Owned(bufs, ids) && j < |ids|
    ensures Flatten(Datas(bufs, ids[..j + 1])) == Flatten(Datas(bufs, ids[..j])) + bufs[ids[j]].data
  {
    assert bufs[ids[j] := bufs[ids[j]]] == bufs;
    FlattenLast(bufs, ids, j, bufs[ids[j]]);
  }

  lemma Starts(bufs: seq<MsgBuf>, ids: seq<nat>, lens: seq<nat>)
    requires Linked(bufs, ids)
    ensures var s := Scatter(ids[0], 0, [], [], [], []);
            Scattered(bufs, ids, 0, s) && Placed(s, lens) && s.Bytes() == []
  {
    assert Datas(bufs, ids[..0]) == [];
  }

  /** What is copied is a prefix of the message, a proper one while the loop runs. */
  lemma Remains(bufs: seq<MsgBuf>, ids: seq<nat>, j: nat, s: Scatter)
    requires Scattered(bufs, ids, j, s)
    ensures var m := Flatten(Datas(bufs, ids));
            && |s.Bytes()| <= |m| && s.cur == ids[j] < |bufs|
            && (s.ofs < |bufs[ids[j]].data| ==> |s.Bytes()| < |m|)
  {
    hide Flatten;
    assert Owned(bufs, ids);
    PrefixBytes(bufs, ids, j);
    DatasSplit(bufs, ids, j + 1);
    FlattenAppend(Datas(bufs, ids[..j + 1]), Datas(bufs, ids[j + 1..]));
  }

  lemma DatasSplit(bufs: seq<MsgBuf>, ids: seq<nat>, k: nat)
    requires k <= |ids| && forall i :: 0 <= i < |ids| ==> ids[i] < |bufs|
    ensures Datas(bufs, ids) == Datas(bufs, ids[..k]) + Datas(bufs, ids[k..])
  {
  }

  lemma Complete(bufs: seq<MsgBuf>, ids: seq<nat>, j: nat, s: Scatter)
    requires Scattered(bufs, ids, j, s) && s.ofs == |bufs[ids[j]].data|
    ensures s.Bytes() == Flatten(Datas(bufs, ids)) && Flatten(s.released) + s.batch == ids
  {
    hide Flatten;
    PrefixBytes(bufs, ids, j);
    assert ids[..j + 1] == ids;
    var d := bufs[ids[j]].data;
    assert d[..|d|] == d;
  }

  lemma {:induction false} FullSum(full: seq<seq<u8>>, lens: seq<nat>)
    requires |full| <= |lens| && forall k :: 0 <= k < |full| ==> |full[k]| == lens[k]
    ensures |Flatten(full)| == Sum(lens[..|full|])
    decreases |full|
  {
    hide Flatten;
    if full == [] {
      FlattenEmpty<u8>();
    } else {
      var n := |full| - 1;
      FullSum(full[..n], lens);
      assert full == full[..n] + [full[n]];
      FlattenSnoc(full[..n], full[n]);
      assert lens[..n + 1][..n] == lens[..n];
    }
  }

  lemma {:induction false} SumPrefix(lens: seq<nat>, k: nat)
    requires k <= |lens|
    ensures Sum(lens[..k]) <= Sum(lens)
    ensures k < |lens| ==> Sum(lens[..k]) + lens[k] <= Sum(lens)
    decreases |lens|
  {
    if k == |lens| {
      assert lens[..k] == lens;
    } else {
      var n := |lens| - 1;
      assert lens[..n][..k] == lens[..k];
      SumPrefix(lens[..n], k);
    }
  }

  /** What the copy loop relies on. */
  lemma Reached(bufs: seq<MsgBuf>, ids: seq<nat>, j: nat, s: Scatter, lens: seq<nat>)
    requires Scattered(bufs, ids, j, s) && Placed(s, lens)
    ensures Linked(bufs, ids) && j < |ids| && s.cur == ids[j] && |s.full| <= |lens| && |s.batch| < BATCH
    ensures Batches(s.released)
    ensures s.ofs < |bufs[ids[j]].data| ==> Flatten(s.released) + s.batch == ids[..j]
  {
    hide Flatten, Datas, Batches, Linked;
  }

  /** An empty segment is passed over. */
  lemma Skipped(bufs: seq<MsgBuf>, ids: seq<nat>, j: nat, s: Scatter, lens: seq<nat>)
    requires Scattered(bufs, ids, j, s) && Placed(s, lens) && |s.full| < |lens| && lens[|s.full|] == 0
    ensures var t := s.(full := s.full + [[]]);
            Scattered(bufs, ids, j, t) && Placed(t, lens) && t.Bytes() == s.Bytes()
  {
    hide Flatten, Datas, Batches, Linked;
    FlattenSnoc(s.full, []);
  }

  /** The whole message is in the segments and all its buffers are released or about to be. */
  lemma Ended(bufs: seq<MsgBuf>, ids: seq<nat>, j: nat, s: Scatter, lens: seq<nat>)
    requires Scattered(bufs, ids, j, s) && Placed(s, lens) && s.cur < |bufs| && |bufs[s.cur].data| <= s.ofs
    ensures var segs := s.full + [s.part];
            && Flatten(segs) == s.Bytes() == Flatten(Datas(bufs, ids)) && |s.Bytes()| <= Sum(lens)
            && |segs| <= |lens| + 1
            && forall k :: 0 <= k < |segs| ==> |segs[k]| <= if k < |lens| then lens[k] else 0
    ensures Batches(s.released + [s.batch]) && Flatten(s.released + [s.batch]) == ids
  {
    hide Flatten, Sum, Datas;
    Complete(bufs, ids, j, s);
    Space(s, lens);
    FlattenSnoc(s.full, s.part);
    FlattenSnoc(s.released, s.batch);
  }

  lemma NoSpace(s: Scatter, lens: seq<nat>)
    requires Placed(s, lens) && |s.full| == |lens|
    ensures |s.Bytes()| == Sum(lens)
  {
    FullSum(s.full, lens);
    assert lens[..|lens|] == lens;
  }

  lemma Space(s: Scatter, lens: seq<nat>)
    requires Placed(s, lens)
    ensures |s.Bytes()| <= Sum(lens)
  {
    hide Flatten, Sum;
    FullSum(s.full, lens);
    SumPrefix(lens, |s.full|);
  }

  lemma Nothing(bufs: seq<MsgBuf>, table: seq<nat>, mss: nat)
    requires Owned(bufs, table)
    ensures Gathered(bufs, table, mss, 0, true, [])
  {
    assert Datas(bufs, table[..0]) == [];
  }

  lemma NeededSome(size: nat, mss: nat)
    requires mss > 0 && size > 0
    ensures Needed(size, mss) > 0
  {
    NeededRoom(size, mss);
  }

  /** The marks on the last and the first buffer. */
  function Marked(bufs: seq<MsgBuf>, table: seq<nat>, len: nat, flow: FlowInfo, notify: bool): (r: seq<MsgBuf>)
    requires table != [] && table[0] < |bufs| && table[|table| - 1] < |bufs|
    ensures |r| == |bufs|
  {
    var last := table[|table| - 1];
    var r := bufs[last := bufs[last].(fin := true, sg := false)];
    r[table[0] := r[table[0]].(syn := true, notify := notify, flow := flow, msgLen := len, last := last)]
  }

  lemma MarkedAt(bufs: seq<MsgBuf>, table: seq<nat>, len: nat, flow: FlowInfo, notify: bool, i: nat)
    requires table != [] && Owned(bufs, table) && i < |table|
    ensures var b, r := bufs[table[i]], Marked(bufs, table, len, flow, notify)[table[i]];
            && r.data == b.data && r.next == b.next
            && r.sg == (b.sg && i < |table| - 1) && r.fin == (b.fin || i == |table| - 1) && r.syn == (b.syn || i == 0)
            && (i == 0 ==> r.flow == flow && r.msgLen == len && r.notify == notify && r.last == table[|table| - 1])
  {
    assert i > 0 ==> table[i] != table[0];
    assert i < |table| - 1 ==> table[i] != table[|table| - 1];
  }

  /** They complete the chain. */
  lemma Finishes(bufs: seq<MsgBuf>, table: seq<nat>, mss: nat, m: seq<u8>, flow: FlowInfo, notify: bool)
    requires table != [] && Gathered(bufs, table, mss, |table|, false, m)
    ensures Chain(Marked(bufs, table, |m|, flow, notify), table, mss, m, flow, notify)
  {
    hide Flatten, Marked;
    var r := Marked(bufs, table, |m|, flow, notify);
    forall i | 0 <= i < |table|
      ensures r[table[i]].data == bufs[table[i]].data && r[table[i]].next == bufs[table[i]].next
      ensures r[table[i]].sg == (i < |table| - 1) && r[table[i]].fin == (i == |table| - 1)
      ensures r[table[i]].syn == (i == 0)
    {
      MarkedAt(bufs, table, |m|, flow, notify, i);
    }
    MarkedAt(bufs, table, |m|, flow, notify, 0);
    assert table[..|table|] == table;
    assert Datas(r, table) == Datas(bufs, table);
  }

  lemma OneTimes(mss: nat)
    ensures Times(1, mss) == mss
  {
  }

  lemma Reach(bufs: seq<MsgBuf>, table: seq<nat>, mss: nat, c: nat, linked: bool, done: seq<u8>)
    requires Gathered(bufs, table, mss, c, linked, done)
    ensures Owned(bufs, table) && c <= |table|
    ensures c > 0 ==> 1 <= |bufs[table[c - 1]].data| <= mss
  {
  }

  /** A message sent in any segments is received, byte for byte, into any segments with room
      for it; otherwise -1 is returned. Either way every buffer is released exactly once. */
  method SendAndReceive(ch: Channel, iovs: seq<seq<u8>>, flow: FlowInfo, table: seq<nat>, lens: seq<nat>)
    returns (ret: int, segs: seq<seq<u8>>, size: nat, from: FlowInfo, released: seq<seq<nat>>)
    requires ch.mss > 0 && 0 < |Flatten(iovs)| <= MSG_MAX_LEN
    requires |table| == Needed(|Flatten(iovs)|, ch.mss) && Owned(ch.bufs, table)
    modifies ch
    ensures ret == 1 <==> Sum(lens) >= |Flatten(iovs)|
    ensures ret == 1 ==> Flatten(segs) == Flatten(iovs) && size == |Flatten(iovs)| && from == flow
    ensures ret != 1 ==> ret == -1
    ensures Flatten(released) == table
  {
    hide Flatten, Sum, Needed;
    var o := ch.SendMsg(iovs, |Flatten(iovs)|, flow, false, table, true, true);
    ret, segs, size, from, released := ch.RecvMsg(true, table[0], lens, table);
  }
}

/** Messages and the pool: the buffers of a message come from the pool when it is sent and
    all return to it when it is received. */
module PoolPath {
  import opened Words
  import opened Common
  import opened BufferPool
  import opened MsgPath

  lemma CountedTwice(xs: seq<nat>, i: nat, j: nat)
    requires i < j < |xs| && xs[i] == xs[j]
    ensures multiset(xs)[xs[i]] >= 2
  {
    Cut(xs, j);
    assert xs[i] in xs[..j] && xs[j] in xs[j..];
  }

  /** Buffers that the pool has handed out are different buffers of the channel, and not the
      ones handed out before. */
  lemma HandedOut(pool: Pool, bufs: seq<MsgBuf>, before: multiset<nat>, table: seq<nat>)
    requires pool.Valid() && |bufs| == pool.capacity && pool.held == before + multiset(table)
    ensures Owned(bufs, table) && forall b :: b in table ==> b !in before
  {
    forall i | 0 <= i < |table| ensures table[i] < |bufs| && table[i] !in before {
      pool.Partition(table[i]);
      assert table[i] in multiset(table);
    }
    forall i, j | 0 <= i < j < |table| ensures table[i] != table[j] {
      pool.Partition(table[i]);
      if table[i] == table[j] {
        CountedTwice(table, i, j);
        assert false;
      }
    }
  }

  /** The condition under which the application gets `n` buffers. */
  ghost predicate Available(pool: Pool, n: nat)
    reads pool
  {
    if n > CACHED then n <= |pool.free| else n <= |pool.app| || CACHED <= |pool.free|
  }

  /** `machnet_sendmsg` with its allocation: a message of legal length is refused exactly if
      the pool cannot provide its buffers, and then nothing changes; otherwise its buffers are
      taken, also when the ring then drops it, and no buffer held before is written. */
  method Send(pool: Pool, ch: Channel, iovs: seq<seq<u8>>, msgSize: nat, flow: FlowInfo, notify: bool, room: bool)
    returns (o: Outcome, table: seq<nat>)
    requires pool.Valid() && |ch.bufs| == pool.capacity && ch.mss > 0
    modifies pool, ch
    ensures pool.Valid() && |ch.bufs| == pool.capacity
    ensures o == Refused <==> msgSize == 0 || msgSize > MSG_MAX_LEN || !old(Available(pool, Needed(msgSize, ch.mss)))
    ensures o == Refused ==> pool.held == old(pool.held) && ch.bufs == old(ch.bufs)
    ensures o == Sent <==> o != Refused && msgSize == |Flatten(iovs)| && room
    ensures o == Dropped <==> o != Refused && msgSize == |Flatten(iovs)| && !room
    ensures o == Sent || o == Dropped ==>
              && Chain(ch.bufs, table, ch.mss, Flatten(iovs), flow, notify)
              && pool.held == old(pool.held) + multiset(table)
              && forall b :: b in old(pool.held) && b < |ch.bufs| ==> ch.bufs[b] == old(ch.bufs[b])
  {
    hide Pool.Valid, Chain, Flatten, Needed;
    table := [];
    if msgSize == 0 || msgSize > MSG_MAX_LEN {
      o := ch.SendMsg(iovs, msgSize, flow, notify, [], false, room);
      return;
    }
    var r := pool.AppAlloc(Needed(msgSize, ch.mss));
    if r.None? {
      o := ch.SendMsg(iovs, msgSize, flow, notify, [], false, room);
      return;
    }
    table := r.value;
    HandedOut(pool, ch.bufs, old(pool.held), table);
    o := ch.SendMsg(iovs, msgSize, flow, notify, table, true, room);
  }

  /** `machnet_recvmsg` with its releases: every buffer of the message returns to the pool. */
  method Receive(pool: Pool, ch: Channel, head: nat, lens: seq<nat>, ghost ids: seq<nat>)
    returns (ret: int, segs: seq<seq<u8>>, aborted: bool)
    requires pool.Valid() && Linked(ch.bufs, ids) && head == ids[0] && multiset(ids) <= pool.held
    modifies pool
    ensures pool.Valid() && !aborted && pool.held == old(pool.held) - multiset(ids) && (ret == 1 || ret == -1)
    ensures ret == 1 <==> Sum(lens) >= |Flatten(Datas(ch.bufs, ids))|
    ensures ret == 1 ==> Flatten(segs) == Flatten(Datas(ch.bufs, ids))
  {
    hide Pool.Valid, Linked, Flatten, Sum;
    var size, flow, released;
    ret, segs, size, flow, released := ch.RecvMsg(true, head, lens, ids);
    aborted := ReleaseAll(pool, released);
  }

  method ReleaseAll(pool: Pool, released: seq<seq<nat>>) returns (aborted: bool)
    requires pool.Valid() && multiset(Flatten(released)) <= pool.held
    modifies pool
    ensures pool.Valid() && !aborted && pool.held == old(pool.held) - multiset(Flatten(released))
  {
    hide Pool.Valid, Flatten;
    var i := 0;
    aborted := false;
    FlattenEmpty<nat>();
    assert released[..0] == [];
    while i < |released|
      invariant 0 <= i <= |released| && pool.Valid() && !aborted
      invariant pool.held == old(pool.held) - multiset(Flatten(released[..i]))
    {
      NextBatch(old(pool.held), released, i);
      aborted := pool.AppRelease(released[i]);
      i := i + 1;
    }
    assert released[..i] == released;
  }

  lemma NextBatch(held: multiset<nat>, released: seq<seq<nat>>, i: nat)
    requires i < |released| && multiset(Flatten(released)) <= held
    ensures multiset(released[i]) <= held - multiset(Flatten(released[..i]))
    ensures held - multiset(Flatten(released[..i])) - multiset(released[i])
            == held - multiset(Flatten(released[..i + 1]))
  {
    hide Flatten;
    assert released[..i + 1] == released[..i] + [released[i]];
    FlattenSnoc(released[..i], released[i]);
    assert released == released[..i + 1] + released[i + 1..];
    FlattenAppend(released[..i + 1], released[i + 1..]);
    Nested(held, multiset(Flatten(released[..i])), multiset(released[i]), multiset(Flatten(released[i + 1..])));
  }

  lemma Nested(a: multiset<nat>, x: multiset<nat>, y: multiset<nat>, z: multiset<nat>)
    requires x + y + z <= a
    ensures y <= a - x && a - x - y == a - (x + y)
  {
  }

  /** A message sent and received, or refused, leaves the pool as it was: what was handed out
      before still is and nothing else. The one exception is a message of legal length for which
      the pool has buffers and the ring has no room: its buffers are not released. */
  method SendThenReceive(pool: Pool, ch: Channel, iovs: seq<seq<u8>>, flow: FlowInfo, lens: seq<nat>, room: bool)
    returns (o: Outcome, ret: int, segs: seq<seq<u8>>)
    requires pool.Valid() && |ch.bufs| == pool.capacity && ch.mss > 0
    modifies pool, ch
    ensures pool.Valid() && o != Aborted && (o == Dropped ==> !room)
    ensures o == Refused <==>
              || |Flatten(iovs)| == 0 || |Flatten(iovs)| > MSG_MAX_LEN
              || !old(Available(pool, Needed(|Flatten(iovs)|, ch.mss)))
    ensures pool.held == old(pool.held) <==> o != Dropped
    ensures pool.held == old(pool.held) <==>
              || room || |Flatten(iovs)| == 0 || |Flatten(iovs)| > MSG_MAX_LEN
              || !old(Available(pool, Needed(|Flatten(iovs)|, ch.mss)))
    ensures o == Sent ==> (ret == 1 <==> Sum(lens) >= |Flatten(iovs)|) && (ret == 1 ==> Flatten(segs) == Flatten(iovs))
  {
    hide Pool.Valid, Flatten, Sum, Needed, Available;
    ret, segs := 0, [];
    var table;
    o, table := Send(pool, ch, iovs, |Flatten(iovs)|, flow, false, room);
    if o == Sent {
      var aborted;
      ret, segs, aborted := Receive(pool, ch, table[0], lens, table);
    } else if o == Dropped {
      assert table[0] in multiset(table);
    }
  }
}

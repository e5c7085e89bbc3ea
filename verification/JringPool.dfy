/** A `jring` that keeps the free buffers of a pool. Callers return only buffers that they
    have: such a return is never refused, at any interleaving of loads, compare-and-swaps,
    copies and stores. This is why PoolThreads.dfy may take a ring that refuses only when it
    is full. */
module JringPool {
  import opened Words
  import opened Jring

  ghost predicate Disjoint<T>(a: seq<T>, b: seq<T>) {
    forall x :: x in a ==> x !in b
  }

  /** The thread is about to enqueue its `vals`. */
  predicate Returning<T>(th: Thread<T>) {
    (th.Loaded? || th.Checked?) && th.side == Prod
  }

  /** Everything the ring has: from the oldest dequeue that has not ended to the newest
      reservation. */
  function Inside<T>(s: State<T>): seq<T>
    requires 0 <= s.cons.tail <= |s.log|
  {
    s.log[s.cons.tail..]
  }

  /** Buffer `x` is in the hands of a caller: neither in the ring nor on its way back. */
  ghost predicate HandedOut<T>(s: State<T>, x: T)
    requires 0 <= s.cons.tail <= |s.log|
  {
    x !in Inside(s) && forall i :: i in s.threads && Returning(s.threads[i]) ==> x !in s.threads[i].vals
  }

  /** What a caller has to see to: it returns different buffers of the pool that it has. */
  ghost predicate Allowed<T>(s: State<T>, pool: set<T>, ev: Event<T>)
    requires 0 <= s.cons.tail <= |s.log|
  {
    ev.EvBegin? && ev.id == Prod ==> Distinct(ev.vals) && forall x :: x in ev.vals ==> x in pool && HandedOut(s, x)
  }

  /** The buffers that `th` is returning. */
  function Pending<T>(th: Thread<T>): seq<T> {
    if Returning(th) then th.vals else []
  }

  /** No buffer is in the ring twice, on its way back twice, or both. */
  ghost predicate Once<T>(s: State<T>, pool: set<T>) {
    && 0 <= s.cons.tail <= |s.log|
    && Distinct(Inside(s)) && (forall x :: x in Inside(s) ==> x in pool)
    && (forall i :: i in s.threads ==> OnceAt(s, pool, s.threads[i]))
    && (forall i, j :: i in s.threads && j in s.threads && i != j ==>
          Disjoint(Pending(s.threads[i]), Pending(s.threads[j])))
  }

  ghost predicate OnceAt<T>(s: State<T>, pool: set<T>, th: Thread<T>)
    requires 0 <= s.cons.tail <= |s.log|
  {
    && Distinct(Pending(th)) && (forall x :: x in Pending(th) ==> x in pool) && Disjoint(Pending(th), Inside(s))
  }

  // ---------------------------------------------------------------- every step keeps it

  /** One thread changes and the ring's content does not grow. */
  lemma ChangeOnce<T>(s: State<T>, t: State<T>, pool: set<T>, i: nat)
    requires Once(s, pool) && i in s.threads && i in t.threads && t.threads == s.threads[i := t.threads[i]]
    requires 0 <= t.cons.tail <= |t.log| && Distinct(Inside(t)) && (forall x :: x in Inside(t) ==> x in pool)
    requires OnceAt(t, pool, t.threads[i])
    requires forall j :: j in s.threads && j != i ==>
               Disjoint(Pending(s.threads[j]), Inside(t)) && Disjoint(Pending(s.threads[j]), Pending(t.threads[i]))
    ensures Once(t, pool)
  {
    hide Distinct, Pending, Inside;
    forall j | j in t.threads ensures OnceAt(t, pool, t.threads[j]) {
      if j != i {
        assert OnceAt(s, pool, s.threads[j]);
      }
    }
    forall j, k | j in t.threads && k in t.threads && j != k
      ensures Disjoint(Pending(t.threads[j]), Pending(t.threads[k]))
    {
      assert j != i && k != i ==> Disjoint(Pending(s.threads[j]), Pending(s.threads[k]));
    }
  }

  /** Steps that leave the ring's content alone and bring nothing new. */
  lemma LocalOnce<T>(s: State<T>, t: State<T>, pool: set<T>, i: nat)
    requires Once(s, pool) && i in s.threads && i in t.threads && t.threads == s.threads[i := t.threads[i]]
    requires t.log == s.log && t.cons.tail == s.cons.tail
    requires Pending(t.threads[i]) == [] || Pending(t.threads[i]) == Pending(s.threads[i])
    ensures Once(t, pool)
  {
    hide Pending, Inside;
    assert Inside(t) == Inside(s) by {
      SameInside(s, t);
    }
    assert OnceAt(s, pool, s.threads[i]);
    forall j | j in s.threads && j != i
      ensures Disjoint(Pending(s.threads[j]), Inside(t)) && Disjoint(Pending(s.threads[j]), Pending(t.threads[i]))
    {
      assert OnceAt(s, pool, s.threads[j]);
      assert Disjoint(Pending(s.threads[j]), Pending(s.threads[i]));
    }
    ChangeOnce(s, t, pool, i);
  }

  lemma SameInside<T>(s: State<T>, t: State<T>)
    requires 0 <= s.cons.tail <= |s.log| && t.log == s.log && t.cons.tail == s.cons.tail
    ensures Inside(t) == Inside(s)
  {
  }

  lemma BeginOnce<T>(s: State<T>, pool: set<T>, i: nat, n: u32, fixed: bool, vals: seq<T>)
    requires Once(s, pool) && Enabled(s, i, EvBegin(Prod, n, fixed, vals))
    requires Allowed(s, pool, EvBegin(Prod, n, fixed, vals))
    ensures Once(Begin(s, i, Prod, n, fixed, vals), pool)
  {
    var t := Begin(s, i, Prod, n, fixed, vals);
    SameInside(s, t);
    hide Inside, Distinct;
    forall j | j in s.threads && j != i
      ensures Disjoint(Pending(s.threads[j]), Inside(t)) && Disjoint(Pending(s.threads[j]), vals)
    {
      assert OnceAt(s, pool, s.threads[j]);
      forall x | x in vals ensures x !in Pending(s.threads[j]) {
        assert HandedOut(s, x);
      }
    }
    ChangeOnce(s, t, pool, i);
  }

  lemma AppendDistinct<T>(a: seq<T>, b: seq<T>, k: nat)
    requires Distinct(a) && Distinct(b) && Disjoint(b, a) && k <= |b|
    ensures Distinct(a + b[..k])
  {
    var c := a + b[..k];
    forall x, y | 0 <= x < y < |c| ensures c[x] != c[y] {
      if x < |a| <= y {
        assert c[y] == b[y - |a|] && b[y - |a|] in b;
        assert c[x] in a;
      }
    }
  }

  lemma WinInside<T>(s: State<T>, i: nat)
    requires Inv(s) && Wins(s, i) && s.threads[i].side == Prod
    ensures var t, th := MoveHead(s, i), s.threads[i];
            && t.cons.tail == s.cons.tail && th.k <= |th.vals| && t.threads == s.threads[i := t.threads[i]]
            && t.threads[i].Copying? && 0 <= s.cons.tail <= |s.log| && |s.log| <= |t.log|
            && Inside(t) == Inside(s) + th.vals[..th.k]
  {
    hide Holds, Apart, Tiled, Alone, Wrap;
    var t, th := MoveHead(s, i), s.threads[i];
    assert t.log == s.log + th.vals[..th.k];
  }

  lemma NothingPending<T>(s: State<T>, pool: set<T>, th: Thread<T>)
    requires 0 <= s.cons.tail <= |s.log| && Pending(th) == []
    ensures OnceAt(s, pool, th)
  {
  }

  lemma WinOnce<T>(s: State<T>, pool: set<T>, i: nat)
    requires Inv(s) && Once(s, pool) && Wins(s, i) && s.threads[i].side == Prod
    ensures Once(MoveHead(s, i), pool)
  {
    hide Inside, Distinct, Inv, MoveHead;
    WinInside(s, i);
    var t, th := MoveHead(s, i), s.threads[i];
    assert OnceAt(s, pool, th) && Pending(th) == th.vals;
    AppendDistinct(Inside(s), th.vals, th.k);
    forall x | x in Inside(t) ensures x in pool {
      assert x in th.vals[..th.k] ==> x in Pending(th);
    }
    forall j | j in s.threads && j != i ensures Disjoint(Pending(s.threads[j]), Inside(t)) {
      assert OnceAt(s, pool, s.threads[j]);
      assert Disjoint(Pending(s.threads[j]), th.vals);
      NotInPrefix(Pending(s.threads[j]), th.vals, th.k);
    }
    NothingPending(t, pool, t.threads[i]);
    ChangeOnce(s, t, pool, i);
  }

  lemma NotInPrefix<T>(a: seq<T>, b: seq<T>, k: nat)
    requires Disjoint(a, b) && k <= |b|
    ensures Disjoint(a, b[..k])
  {
  }

  lemma PublishOnce<T>(s: State<T>, pool: set<T>, i: nat)
    requires Inv(s) && Once(s, pool) && MayPublish(s, i) && s.threads[i].side == Cons
    ensures Once(Publish(s, i), pool)
  {
    OurTurn(s, i);
    var t, th := Publish(s, i), s.threads[i];
    assert ThreadOk(s, th);
    assert Inside(t) == Inside(s)[th.k..];
    hide Inside, Inv, MayPublish;
    forall j | j in s.threads && j != i ensures Disjoint(Pending(s.threads[j]), Inside(t)) {
      assert OnceAt(s, pool, s.threads[j]);
    }
    ChangeOnce(s, t, pool, i);
  }

  lemma MoveHeadOnce<T>(s: State<T>, pool: set<T>, i: nat)
    requires Inv(s) && Once(s, pool) && Enabled(s, i, EvMoveHead)
    ensures Once(MoveHead(s, i), pool)
  {
    var th := s.threads[i];
    if s.Own(th.side).single || Wrap(s.Own(th.side).head) == Wrap(th.h) {
      HeadIsCurrent(s, i);
      if th.side == Prod {
        WinOnce(s, pool, i);
      } else {
        hide Wrap, Inv, Once;
        LocalOnce(s, MoveHead(s, i), pool, i);
      }
    } else {
      hide Wrap, Inv, Once;
      LocalOnce(s, MoveHead(s, i), pool, i);
    }
  }

  lemma StepOnce<T>(s: State<T>, pool: set<T>, i: nat, ev: Event<T>)
    requires Inv(s) && Once(s, pool) && Enabled(s, i, ev) && Allowed(s, pool, ev)
    ensures Once(Do(s, i, ev), pool)
  {
    hide Inv, Wrap, Index, Entries;
    match ev
    case EvBegin(id, n, fixed, vals) =>
      if id == Prod {
        BeginOnce(s, pool, i, n, fixed, vals);
      } else {
        LocalOnce(s, Begin(s, i, id, n, fixed, vals), pool, i);
      }
    case EvLoadTail => LocalOnce(s, LoadTail(s, i), pool, i);
    case EvMoveHead => MoveHeadOnce(s, pool, i);
    case EvCopy => LocalOnce(s, Copy(s, i), pool, i);
    case EvPublish =>
      if s.threads[i].side == Cons {
        PublishOnce(s, pool, i);
      } else {
        LocalOnce(s, Publish(s, i), pool, i);
      }
  }

  // ---------------------------------------------------------------- who has what

  lemma PublishInside<T>(s: State<T>, i: nat)
    requires Inv(s) && MayPublish(s, i) && s.threads[i].side == Cons
    ensures 0 <= s.cons.tail <= |s.log| && 0 <= Publish(s, i).cons.tail <= |Publish(s, i).log|
    ensures Inside(s) == s.threads[i].vals + Inside(Publish(s, i))
  {
    OurTurn(s, i);
    assert ThreadOk(s, s.threads[i]);
    hide Wrap, Holds, Tiled, Apart, Alone;
  }

  lemma DistinctParts<T>(a: seq<T>, b: seq<T>, x: T)
    requires Distinct(a + b) && x in a
    ensures x in a + b && x !in b
  {
    var i :| 0 <= i < |a| && a[i] == x;
    assert (a + b)[i] == x;
    forall j | 0 <= j < |b| ensures b[j] != x {
      assert (a + b)[|a| + j] == b[j];
    }
  }

  /** What a dequeue returns is, from the moment it returns, in the hands of its caller. */
  lemma DequeueHandsOut<T>(s: State<T>, pool: set<T>, i: nat, x: T)
    requires Inv(s) && Once(s, pool) && MayPublish(s, i) && s.threads[i].side == Cons && x in s.threads[i].vals
    ensures 0 <= Publish(s, i).cons.tail <= |Publish(s, i).log|
    ensures !HandedOut(s, x) && HandedOut(Publish(s, i), x)
  {
    PublishInside(s, i);
    hide Inv, Inside, Distinct;
    var t := Publish(s, i);
    DistinctParts(s.threads[i].vals, Inside(t), x);
    forall j | j in t.threads && Returning(t.threads[j]) ensures x !in t.threads[j].vals {
      assert OnceAt(s, pool, s.threads[j]);
    }
  }

  /** What is handed out stays so until it is returned. */
  lemma StaysHandedOut<T>(s: State<T>, i: nat, ev: Event<T>, x: T)
    requires Inv(s) && Enabled(s, i, ev) && HandedOut(s, x)
    requires ev.EvBegin? && ev.id == Prod ==> x !in ev.vals
    ensures 0 <= Do(s, i, ev).cons.tail <= |Do(s, i, ev).log| && HandedOut(Do(s, i, ev), x)
  {
    StepInv(s, i, ev);
    StepGrows(s, i, ev);
    InsideGrows(s, i, ev, x);
    hide Inv, Enabled, Do, Inside;
    var t := Do(s, i, ev);
    forall j | j in t.threads && Returning(t.threads[j]) ensures x !in t.threads[j].vals {
      StillReturning(s, i, ev, j);
    }
  }

  /** A thread that returns buffers has begun to return them. */
  lemma StillReturning<T>(s: State<T>, i: nat, ev: Event<T>, j: nat)
    requires Enabled(s, i, ev) && j in Do(s, i, ev).threads && Returning(Do(s, i, ev).threads[j])
    ensures || (ev.EvBegin? && ev.id == Prod && i == j && Do(s, i, ev).threads[j].vals == ev.vals)
            || (j in s.threads && Returning(s.threads[j]) && s.threads[j].vals == Do(s, i, ev).threads[j].vals)
  {
    hide Wrap, Index, Entries;
  }

  lemma InsideGrows<T>(s: State<T>, i: nat, ev: Event<T>, x: T)
    requires Inv(s) && Enabled(s, i, ev) && Inv(Do(s, i, ev)) && Grows(s, Do(s, i, ev)) && HandedOut(s, x)
    ensures x !in Inside(Do(s, i, ev))
  {
    hide Wrap, Holds, Index, Entries, Apart, Tiled, Alone;
    var t, th := Do(s, i, ev), s.threads[i];
    if ev.EvMoveHead? && th.side == Prod && t.log != s.log {
      assert Inside(t) == Inside(s) + th.vals[..th.k];
    } else {
      assert t.log == s.log;
    }
  }

  // ---------------------------------------------------------------- every run

  /** A run in which callers return only what they have. */
  ghost predicate PoolRun<T(!new)>(r: seq<State<T>>, pool: set<T>) {
    && r != [] && Init(r[0]) && |pool| <= r[0].size - 1
    && forall k :: 0 <= k < |r| - 1 ==> PoolNext(r[k], r[k + 1], pool)
  }

  ghost predicate PoolNext<T(!new)>(s: State<T>, t: State<T>, pool: set<T>) {
    && 0 <= s.cons.tail <= |s.log|
    && exists i, ev :: Enabled(s, i, ev) && Allowed(s, pool, ev) && t == Do(s, i, ev)
  }

  lemma {:induction false} PoolRunKeeps<T(!new)>(r: seq<State<T>>, pool: set<T>, k: nat)
    requires PoolRun(r, pool) && k < |r|
    ensures Inv(r[k]) && Once(r[k], pool) && r[k].size == r[0].size
  {
    hide Inv, Once, Enabled, Do, Allowed;
    if k == 0 {
      InitInv(r[0]);
      InitOnce(r[0], pool);
    } else {
      PoolRunKeeps(r, pool, k - 1);
      assert PoolNext(r[k - 1], r[k - 1 + 1], pool);
      var i, ev :| Enabled(r[k - 1], i, ev) && Allowed(r[k - 1], pool, ev) && r[k] == Do(r[k - 1], i, ev);
      StepInv(r[k - 1], i, ev);
      StepGrows(r[k - 1], i, ev);
      StepOnce(r[k - 1], pool, i, ev);
    }
  }

  lemma InitOnce<T>(s: State<T>, pool: set<T>)
    requires Init(s)
    ensures Once(s, pool)
  {
  }

  lemma AllGranted<T>(s: State<T>, pool: set<T>, i: nat)
    requires Inv(s) && Once(s, pool) && |pool| <= s.size - 1 && i in s.threads && s.threads[i].Loaded?
    requires s.threads[i].side == Prod && s.threads[i].n > 0 && Recent(s, Prod, s.threads[i].h)
    ensures var th := s.threads[i];
            LoadTail(s, i).threads[i] == Checked(Prod, th.n, th.fixed, th.vals, th.h, th.n)
  {
    var th := s.threads[i];
    assert ThreadOk(s, th) && OnceAt(s, pool, th);
    EntriesExact(s, Prod, th.h);
    AppendDistinct(Inside(s), th.vals, |th.vals|);
    var all := Inside(s) + th.vals[..|th.vals|];
    hide Distinct, Entries;
    DistinctBound(all, pool);
  }

  /** In every run in which callers return only buffers that they have, a return is granted
      all its buffers: with correct use it always succeeds. */
  lemma ReturnNeverRefused<T(!new)>(r: seq<State<T>>, pool: set<T>, k: nat, i: nat)
    requires PoolRun(r, pool) && k < |r| && i in r[k].threads && r[k].threads[i].Loaded?
    requires r[k].threads[i].side == Prod && r[k].threads[i].n > 0 && Recent(r[k], Prod, r[k].threads[i].h)
    ensures var th := r[k].threads[i];
            LoadTail(r[k], i).threads[i] == Checked(Prod, th.n, th.fixed, th.vals, th.h, th.n)
  {
    hide Inv, Once, LoadTail;
    PoolRunKeeps(r, pool, k);
    AllGranted(r[k], pool, i);
  }
}

/** Whole calls on a `jring`: what an enqueue or dequeue does when no other thread interferes.
    Together with `Jring.StepRefines` this says that calls are not only sound but complete. */
module JringCall {
  import opened Words
  import opened Jring

  /** Thread `i` can take the steps `evs` one after the other. */
  predicate Follows<T>(s: State<T>, i: nat, evs: seq<Event<T>>)
    decreases |evs|
  {
    evs == [] || (Enabled(s, i, evs[0]) && Follows(Do(s, i, evs[0]), i, evs[1..]))
  }

  function Final<T>(s: State<T>, i: nat, evs: seq<Event<T>>): State<T>
    requires Follows(s, i, evs)
    decreases |evs|
  {
    if evs == [] then s else Final(Do(s, i, evs[0]), i, evs[1..])
  }

  lemma {:induction false} ThenFollows<T>(s: State<T>, i: nat, a: seq<Event<T>>, b: seq<Event<T>>)
    requires Follows(s, i, a) && Follows(Final(s, i, a), i, b)
    ensures Follows(s, i, a + b) && Final(s, i, a + b) == Final(Final(s, i, a), i, b)
    decreases |a|
  {
    hide Enabled, Do;
    if a == [] {
      assert a + b == b;
    } else {
      assert (a + b)[1..] == a[1..] + b;
      ThenFollows(Do(s, i, a[0]), i, a[1..], b);
    }
  }

  lemma One<T>(s: State<T>, i: nat, ev: Event<T>)
    requires Enabled(s, i, ev)
    ensures Follows(s, i, [ev]) && Final(s, i, [ev]) == Do(s, i, ev)
  {
    hide Enabled, Do;
    assert [ev][1..] == [];
  }

  /** The copy loop runs to its end; only slots and the thread change. */
  lemma {:induction false} CopiesAll<T>(s: State<T>, i: nat) returns (evs: seq<Event<T>>, t: State<T>)
    requires Inv(s) && i in s.threads && s.threads[i].Copying?
    ensures Follows(s, i, evs) && t == Final(s, i, evs) && Inv(t)
    ensures t == s.(slots := t.slots, threads := t.threads) && i in t.threads
    ensures t.threads[i].Copying? && t.threads[i].done == t.threads[i].k == s.threads[i].k
    ensures t.threads[i].h == s.threads[i].h && t.threads[i].side == s.threads[i].side
    decreases s.threads[i].k - s.threads[i].done
  {
    hide Inv, Follows, Final, Copy, Enabled;
    CopyingOk(s, i);
    if s.threads[i].done == s.threads[i].k {
      evs, t := [], s;
      Nothing(s, i);
    } else {
      StepInv(s, i, EvCopy);
      One(s, i, EvCopy);
      CopyAdvances(s, i);
      var rest;
      rest, t := CopiesAll(Do(s, i, EvCopy), i);
      evs := [EvCopy] + rest;
      ThenFollows(s, i, [EvCopy], rest);
    }
  }

  lemma CopyAdvances<T>(s: State<T>, i: nat)
    requires Enabled(s, i, EvCopy)
    ensures var t := Do(s, i, EvCopy);
            && t == s.(slots := t.slots, threads := t.threads) && i in t.threads
            && t.threads[i].Copying? && t.threads[i].done == s.threads[i].done + 1 && t.threads[i].k == s.threads[i].k
            && t.threads[i].h == s.threads[i].h && t.threads[i].side == s.threads[i].side
  {
    hide Index;
  }

  lemma Nothing<T>(s: State<T>, i: nat)
    ensures Follows(s, i, []) && Final(s, i, []) == s
  {
  }

  lemma CopyingOk<T>(s: State<T>, i: nat)
    requires Inv(s) && i in s.threads && s.threads[i].Copying?
    ensures s.threads[i].done <= s.threads[i].k
    ensures s.threads[i].done < s.threads[i].k ==> Enabled(s, i, EvCopy)
  {
    hide Wrap, Holds, Tiled, Apart, Alone;
    assert ThreadOk(s, s.threads[i]);
  }

  /** No other thread is between its head move and its tail update on this side. */
  predicate Settled<T>(s: State<T>, id: SideId) {
    s.Own(id).tail == s.Own(id).head
  }

  /** `k` elements have been enqueued or dequeued at once. */
  ghost predicate Took<T>(s: State<T>, t: State<T>, id: SideId, vals: seq<T>, k: nat) {
    && 0 <= s.cons.head <= s.prod.tail <= |s.log| && 0 <= t.cons.head <= t.prod.tail <= |t.log|
    && (if id == Prod then k <= |vals| && t.Queue() == s.Queue() + vals[..k] && t.out == s.out
        else k <= |s.Queue()| && t.Queue() == s.Queue()[k..] && t.out == s.out + s.Queue()[..k])
  }

  /** A thread that has been granted `k` elements from the current head takes them. */
  lemma TakesGrant<T>(s: State<T>, i: nat) returns (evs: seq<Event<T>>, t: State<T>)
    requires Inv(s) && i in s.threads && s.threads[i].Checked? && Settled(s, s.threads[i].side)
    requires s.threads[i].h == s.Own(s.threads[i].side).head
    ensures Follows(s, i, evs) && t == Final(s, i, evs) && Inv(t) && i in t.threads && t.threads[i].Idle?
    ensures Took(s, t, s.threads[i].side, s.threads[i].vals, s.threads[i].k)
  {
    hide Inv, Follows, Final, Wrap, Took, MoveHead, MayPublish;
    Ready(s, i);
    StepInv(s, i, EvMoveHead);
    One(s, i, EvMoveHead);
    HeadMoves(s, i);
    var m := Do(s, i, EvMoveHead);
    var copies, c := CopiesAll(m, i);
    MayPublishNow(c, i);
    StepInv(c, i, EvPublish);
    One(c, i, EvPublish);
    t := Do(c, i, EvPublish);
    evs := [EvMoveHead] + copies + [EvPublish];
    ThenFollows(s, i, [EvMoveHead], copies);
    ThenFollows(s, i, [EvMoveHead] + copies, [EvPublish]);
    if s.threads[i].side == Prod {
      Enqueued(s, i, m, c, t);
    } else {
      Dequeued(s, i, m, c, t);
    }
  }

  lemma Ready<T>(s: State<T>, i: nat)
    requires Inv(s) && i in s.threads && s.threads[i].Checked? && s.threads[i].h == s.Own(s.threads[i].side).head
    ensures Enabled(s, i, EvMoveHead)
  {
    hide Wrap, Holds, Tiled, Apart, Alone;
    assert ThreadOk(s, s.threads[i]);
  }

  lemma HeadMoves<T>(s: State<T>, i: nat)
    requires Enabled(s, i, EvMoveHead) && s.threads[i].h == s.Own(s.threads[i].side).head
    ensures var th, m := s.threads[i], Do(s, i, EvMoveHead);
            && i in m.threads
            && m.threads[i] == Copying(th.side, if th.side == Prod then th.vals[..th.k] else [], th.h, th.k, 0)
            && m.Own(th.side) == s.Own(th.side).(head := th.h + th.k) && m.size == s.size && m.out == s.out
            && (th.side == Prod ==> m.cons == s.cons && m.log == s.log + th.vals[..th.k])
            && (th.side == Cons ==> m.prod == s.prod && m.log == s.log)
  {
  }

  lemma MayPublishNow<T>(s: State<T>, i: nat)
    requires i in s.threads && s.threads[i].Copying? && s.threads[i].done == s.threads[i].k
    requires s.threads[i].h == s.Own(s.threads[i].side).tail
    ensures MayPublish(s, i)
  {
  }

  lemma Enqueued<T>(s: State<T>, i: nat, m: State<T>, c: State<T>, t: State<T>)
    requires Inv(s) && Settled(s, Prod) && i in s.threads && s.threads[i].Checked? && s.threads[i].side == Prod
    requires s.threads[i].h == s.prod.head && s.threads[i].k <= |s.threads[i].vals|
    requires m.prod == s.prod.(head := s.prod.head + s.threads[i].k) && m.out == s.out && m.cons == s.cons
    requires m.log == s.log + s.threads[i].vals[..s.threads[i].k]
    requires c == m.(slots := c.slots, threads := c.threads) && MayPublish(c, i) && t == Publish(c, i)
    requires c.threads[i].side == Prod && c.threads[i].h == s.threads[i].h && c.threads[i].k == s.threads[i].k
    ensures Took(s, t, Prod, s.threads[i].vals, s.threads[i].k)
  {
    var more := s.threads[i].vals[..s.threads[i].k];
    InOrder(s);
    hide Wrap, Inv;
    Appended(s.log, more, s.cons.head);
    assert t.log[t.cons.head..t.prod.tail] == (s.log + more)[s.cons.head..];
    assert s.log[s.cons.head..s.prod.tail] == s.log[s.cons.head..];
  }

  lemma InOrder<T>(s: State<T>)
    requires Inv(s)
    ensures 0 <= s.cons.tail <= s.cons.head <= s.prod.tail <= s.prod.head == |s.log|
  {
    hide Holds, ThreadsOk, Tiled, Apart, Alone;
  }

  lemma Appended<T>(a: seq<T>, b: seq<T>, k: nat)
    requires k <= |a|
    ensures (a + b)[k..] == a[k..] + b
  {
  }

  lemma Dequeued<T>(s: State<T>, i: nat, m: State<T>, c: State<T>, t: State<T>)
    requires Inv(s) && Inv(c) && Settled(s, Cons)
    requires i in s.threads && s.threads[i].Checked? && s.threads[i].side == Cons
    requires s.threads[i].h == s.cons.head && m.out == s.out && m.prod == s.prod && m.log == s.log
    requires m.cons == s.cons.(head := s.cons.head + s.threads[i].k)
    requires c == m.(slots := c.slots, threads := c.threads) && MayPublish(c, i) && t == Publish(c, i)
    requires c.threads[i].side == Cons && c.threads[i].h == s.threads[i].h && c.threads[i].k == s.threads[i].k
    ensures Took(s, t, Cons, s.threads[i].vals, s.threads[i].k)
  {
    hide Wrap, Holds, Tiled, Apart, Alone;
    assert ThreadOk(s, s.threads[i]) && ThreadOk(c, c.threads[i]);
    hide ThreadsOk;
    var h, k := s.threads[i].h, s.threads[i].k;
    assert s.log[h..h + k] == s.Queue()[..k];
    assert s.log[h + k..s.prod.tail] == s.Queue()[k..];
  }

  /** A call that no other thread interferes with does exactly what it is asked for: a bulk call
      takes `n` elements or returns with none, a burst takes as many as there are up to `n`. */
  lemma CallAlone<T>(s: State<T>, i: nat, id: SideId, n: u32, fixed: bool, vals: seq<T>)
    returns (evs: seq<Event<T>>, t: State<T>)
    requires Inv(s) && Settled(s, id) && Enabled(s, i, EvBegin(id, n, fixed, vals))
    ensures Follows(s, i, evs) && t == Final(s, i, evs) && Inv(t) && i in t.threads && t.threads[i].Idle?
    ensures 0 <= Share(n, s.Avail(id), fixed) && Took(s, t, id, vals, Share(n, s.Avail(id), fixed))
  {
    hide Inv, Follows, Final, Wrap, Took, Share, LoadTail;
    var begin := EvBegin(id, n, fixed, vals);
    StepInv(s, i, begin);
    One(s, i, begin);
    var l := Do(s, i, begin);
    JustRead(s, l, id);
    LoadTailExact(l, i);
    StepInv(l, i, EvLoadTail);
    One(l, i, EvLoadTail);
    var c := Do(l, i, EvLoadTail);
    ThenFollows(s, i, [begin], [EvLoadTail]);
    if Share(n, s.Avail(id), fixed) == 0 {
      evs, t := [begin] + [EvLoadTail], c;
      TookNone(s, t, id, vals);
    } else {
      var rest;
      rest, t := TakesGrant(c, i);
      evs := [begin] + [EvLoadTail] + rest;
      ThenFollows(s, i, [begin] + [EvLoadTail], rest);
      TookSame(s, c, t, id, vals, Share(n, s.Avail(id), fixed));
    }
  }

  lemma JustRead<T>(s: State<T>, l: State<T>, id: SideId)
    requires Inv(s) && l == s.(threads := l.threads)
    ensures Recent(l, id, s.Own(id).head) && l.Limit(id) - s.Own(id).head == s.Avail(id)
  {
    SmallSize(s.size);
    hide Wrap, Holds, ThreadsOk, Tiled, Apart, Alone;
  }

  lemma TookNone<T>(s: State<T>, t: State<T>, id: SideId, vals: seq<T>)
    requires Inv(s) && t == s.(threads := t.threads)
    ensures Took(s, t, id, vals, 0)
  {
    hide Wrap, Holds, ThreadsOk, Tiled, Apart, Alone;
    assert s.Queue() + vals[..0] == s.Queue() && s.out + s.Queue()[..0] == s.out;
  }

  lemma TookSame<T>(s: State<T>, c: State<T>, t: State<T>, id: SideId, vals: seq<T>, k: nat)
    requires c == s.(threads := c.threads) && Took(c, t, id, vals, k)
    ensures Took(s, t, id, vals, k)
  {
  }

  /** With other threads in between: a grant is kept until the swap is lost or the call returns,
      and a dequeue returns as many elements as it was granted. */
  lemma GrantKept<T>(s: State<T>, j: nat, ev: Event<T>, i: nat)
    requires Inv(s) && Enabled(s, j, ev) && i in s.threads && (s.threads[i].Checked? || s.threads[i].Copying?)
    ensures i in Do(s, j, ev).threads
    ensures var t, a, b := Do(s, j, ev), s.threads[i], Do(s, j, ev).threads[i];
            || ((b.Checked? || b.Copying?) && b.k == a.k && b.side == a.side)
            || (j == i && ev.EvMoveHead? && b.Loaded? && b.side == a.side && a.Checked?)
            || (j == i && ev.EvPublish? && b.Idle? && (a.side == Cons ==> |t.out| == |s.out| + a.k))
  {
    if j == i && ev.EvPublish? && s.threads[i].side == Cons {
      DequeueReturns(s, i);
      assert ThreadOk(s, s.threads[i]);
    }
    hide Inv, Wrap, Index, Entries;
  }
}

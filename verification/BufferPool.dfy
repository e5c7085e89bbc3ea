/** The message-buffer pool of a channel: a free ring shared by application and stack, and a
    cache of up to 64 buffers on either side, one call at a time. PoolThreads.dfy lets the two
    sides run concurrently, one ring operation at a time. */
module BufferPool {
  import opened Words
  import opened Common

  const CACHED: nat := 64
  const RETRIES: nat := 5

  /** The buffers 0 to n - 1, each once. */
  function Buffers(n: nat): (r: multiset<nat>)
    ensures |r| == n
  {
    if n == 0 then multiset{} else Buffers(n - 1) + multiset{n - 1}
  }

  lemma {:induction false} EachOnce(n: nat, b: nat)
    ensures Buffers(n)[b] == if b < n then 1 else 0
  {
    if n > 0 {
      EachOnce(n - 1, b);
    }
  }

  lemma Cut(xs: seq<nat>, k: nat)
    requires k <= |xs|
    ensures multiset(xs) == multiset(xs[..k]) + multiset(xs[k..])
  {
    assert xs == xs[..k] + xs[k..];
  }

  lemma Without(a: multiset<nat>, x: multiset<nat>)
    requires x <= a
    ensures a == (a - x) + x && |a| == |a - x| + |x|
  {
  }

  lemma OneLess(rest: multiset<nat>, xs: seq<nat>, i: nat)
    requires i < |xs|
    ensures xs[i] in rest + multiset(xs[i..])
    ensures rest + multiset(xs[i..]) - multiset{xs[i]} == rest + multiset(xs[i + 1..])
  {
    assert xs[i..] == [xs[i]] + xs[i + 1..];
  }

  /** Where the buffers are; `held` are in the hands of the application, the stack, or a
      message ring. */
  datatype Places = Places(free: multiset<nat>, app: multiset<nat>, stack: multiset<nat>, held: multiset<nat>)
  {
    function All(): multiset<nat> {
      free + app + stack + held
    }
  }

  /** `q` is `p` with `x` moved from one place to another. */
  ghost predicate Move(p: Places, q: Places, x: multiset<nat>) {
    || (p.free == q.free + x && q == p.(free := q.free, app := p.app + x))
    || (p.free == q.free + x && q == p.(free := q.free, stack := p.stack + x))
    || (p.free == q.free + x && q == p.(free := q.free, held := p.held + x))
    || (p.app == q.app + x && q == p.(app := q.app, held := p.held + x))
    || (p.stack == q.stack + x && q == p.(stack := q.stack, held := p.held + x))
  }

  /** Moving buffers, either way, loses and duplicates none. */
  lemma Conserved(p: Places, q: Places, x: multiset<nat>)
    requires Move(p, q, x) || Move(q, p, x)
    ensures p.All() == q.All()
  {
  }

  lemma Returned(p: Places, q: Places, x: multiset<nat>)
    requires x <= p.held && q == p.(held := p.held - x, free := p.free + x)
    ensures p.All() == q.All()
  {
    Without(p.held, x);
    Conserved(p, q, x);
  }

  lemma Card(p: Places)
    ensures |p.All()| == |p.free| + |p.app| + |p.stack| + |p.held|
  {
  }

  class Pool {
    /** The number of buffers and the capacity of the free ring. */
    const capacity: nat
    var free: seq<nat>
    var app: seq<nat>
    var stack: seq<nat>
    ghost var held: multiset<nat>

    ghost function Where(): Places
      reads this
    {
      Places(multiset(free), multiset(app), multiset(stack), held)
    }

    /** Every buffer is in exactly one place, and the caches are within bounds. */
    ghost predicate Valid()
      reads this
    {
      |app| <= CACHED && |stack| <= CACHED && Where().All() == Buffers(capacity)
    }

    /** No buffer is in two places or twice in one, and none is missing. */
    lemma Partition(b: nat)
      requires Valid()
      ensures multiset(free)[b] + multiset(app)[b] + multiset(stack)[b] + held[b] == if b < capacity then 1 else 0
    {
      EachOnce(capacity, b);
      assert Where().All()[b] == Buffers(capacity)[b];
    }

    /** Whoever holds buffers finds room for them in the free ring. */
    lemma RoomFor(xs: seq<nat>)
      requires Valid() && multiset(xs) <= held
      ensures |free| + |xs| <= capacity
    {
      Total();
      Without(held, multiset(xs));
    }

    lemma Total()
      requires Valid()
      ensures |free| + |app| + |stack| + |held| == capacity
    {
      Card(Where());
    }

    constructor (capacity: nat)
      ensures Valid() && this.capacity == capacity && held == multiset{} && app == [] && stack == []
    {
      this.capacity := capacity;
      free, app, stack, held := seq(capacity, i => i), [], [], multiset{};
      new;
      AllFree(capacity);
    }

    static lemma {:induction false} AllFree(n: nat)
      ensures multiset(seq(n, i => i)) == Buffers(n)
    {
      if n > 0 {
        AllFree(n - 1);
        assert seq(n, i => i) == seq(n - 1, i => i) + [n - 1];
      }
    }

    // -------------------------------------------------------------- the shared ring

    /** `__machnet_channel_buf_alloc_bulk`: `n` buffers or none. */
    method BulkTake(n: nat) returns (xs: seq<nat>)
      modifies `free
      ensures xs == if n <= |old(free)| then old(free)[..n] else []
      ensures old(free) == xs + free
      ensures multiset(old(free)) == multiset(free) + multiset(xs)
    {
      if n > |free| { return []; }
      Cut(free, n);
      xs := free[..n];
      free := free[n..];
    }

    /** `__machnet_channel_buf_free_bulk`: all of `xs` or none. */
    method BulkPut(xs: seq<nat>) returns (n: nat)
      modifies `free
      ensures n == if |old(free)| + |xs| <= capacity then |xs| else 0
      ensures free == if n == |xs| then old(free) + xs else old(free)
      ensures n == |xs| ==> multiset(free) == multiset(old(free)) + multiset(xs)
    {
      if |free| + |xs| > capacity { return 0; }
      free := free + xs;
      n := |xs|;
    }

    // -------------------------------------------------------------- the application

    /** The last buffer of the application's cache. */
    method PopApp() returns (b: nat)
      requires Valid() && app != []
      modifies `app, `held
      ensures Valid() && |app| == |old(app)| - 1 && held == old(held) + multiset{b} && old(app) == app + [b]
    {
      hide Places.All;
      ghost var was := Where();
      b := app[|app| - 1];
      Cut(app, |app| - 1);
      assert app[|app| - 1..] == [b];
      app := app[..|app| - 1];
      held := held + multiset{b};
      Conserved(was, Where(), multiset{b});
    }

    /** A full cache's worth from the ring, or nothing. */
    method RefillApp()
      requires Valid() && app == []
      modifies `free, `app
      ensures Valid() && |app| == if CACHED <= |old(free)| then CACHED else 0
      ensures app == [] ==> free == old(free)
    {
      hide Places.All;
      ghost var was := Where();
      var xs := BulkTake(CACHED);
      app := app + xs;
      Conserved(was, Where(), multiset(xs));
    }

    /** `_machnet_buffers_alloc`: `cnt` buffers or none. */
    method AppAlloc(cnt: nat) returns (r: Option<seq<nat>>)
      requires Valid()
      modifies `free, `app, `held
      ensures Valid()
      ensures r.Some? <==> if cnt > CACHED then cnt <= |old(free)| else cnt <= |old(app)| || CACHED <= |old(free)|
      ensures r.Some? ==> |r.value| == cnt && held == old(held) + multiset(r.value)
      ensures r.None? ==> free == old(free) && held == old(held) && multiset(app) == multiset(old(app))
    {
      hide Places.All;
      if cnt > CACHED {
        ghost var was := Where();
        var xs := BulkTake(cnt);
        if |xs| != cnt {
          assert xs + free == free;
          return None;
        }
        held := held + multiset(xs);
        Conserved(was, Where(), multiset(xs));
        return Some(xs);
      }
      r := AppAllocCached(cnt);
    }

    /** The loop over the cache. A failed refill puts the buffers taken so far back. */
    method AppAllocCached(cnt: nat) returns (r: Option<seq<nat>>)
      requires Valid() && cnt <= CACHED
      modifies `free, `app, `held
      ensures Valid()
      ensures r.Some? <==> cnt <= |old(app)| || CACHED <= |old(free)|
      ensures r.Some? ==> |r.value| == cnt && held == old(held) + multiset(r.value)
      ensures r.None? ==> free == old(free) && held == old(held) && multiset(app) == multiset(old(app))
    {
      hide Pool.Valid;
      var got: seq<nat> := [];
      ghost var refilled := false;
      while |got| < cnt
        invariant |got| <= cnt && Valid() && held == old(held) + multiset(got)
        invariant !refilled ==> free == old(free) && |app| + |got| == |old(app)|
        invariant !refilled ==> multiset(app) + multiset(got) == multiset(old(app))
        invariant refilled ==> |old(app)| < cnt && CACHED <= |old(free)| && |app| + |got| == |old(app)| + CACHED
      {
        if |app| == 0 {
          RefillApp();
          if |app| == 0 {
            PutBack(got);
            return None;
          }
          refilled := true;
        }
        var b := PopApp();
        got := got + [b];
      }
      r := Some(got);
    }

    method PutBack(got: seq<nat>)
      requires Valid() && app == [] && |got| <= CACHED && multiset(got) <= held
      modifies `app, `held
      ensures Valid() && app == got && held == old(held) - multiset(got)
    {
      hide Places.All;
      ghost var was := Where();
      Without(held, multiset(got));
      app := got;
      held := held - multiset(got);
      Conserved(was, Where(), multiset(got));
    }

    /** Half of a full cache goes to the ring. */
    method SpillHalf() returns (n: nat)
      requires Valid() && |app| == CACHED
      modifies `free, `app
      ensures Valid() && n == CACHED / 2 && |app| == CACHED - n
    {
      Total();
      hide Places.All, Buffers;
      ghost var was := Where();
      var toFree := |app| / 2;
      var xs := app[CACHED - toFree..];
      Cut(app, CACHED - toFree);
      n := BulkPut(xs);
      app := app[..|app| - n];
      Conserved(was, Where(), multiset(xs));
    }

    /** The inner loop of `_machnet_buffers_release`; `aborted` is its call of abort(). */
    method SpillApp() returns (aborted: bool)
      requires Valid()
      modifies `free, `app
      ensures Valid() && !aborted && |app| < CACHED
    {
      var retries := RETRIES;
      while |app| == CACHED
        invariant Valid()
        decreases |app|
      {
        var _ := SpillHalf();
        if retries == 0 && |app| == CACHED {
          return true;
        }
        retries := if retries == 0 then 0 else retries - 1;
      }
      aborted := false;
    }

    method AppReleaseOne(b: nat) returns (aborted: bool)
      requires Valid() && b in held
      modifies `free, `app, `held
      ensures Valid() && !aborted && held == old(held) - multiset{b}
    {
      hide Pool.Valid;
      aborted := SpillApp();
      CacheOne(b);
    }

    method CacheOne(b: nat)
      requires Valid() && b in held && |app| < CACHED
      modifies `app, `held
      ensures Valid() && held == old(held) - multiset{b}
    {
      hide Places.All;
      ghost var was := Where();
      Without(held, multiset{b});
      app := app + [b];
      held := held - multiset{b};
      Conserved(was, Where(), multiset{b});
    }

    /** `_machnet_buffers_release`: the abort() is never reached. */
    method AppRelease(xs: seq<nat>) returns (aborted: bool)
      requires Valid() && multiset(xs) <= held
      modifies `free, `app, `held
      ensures Valid() && !aborted && held == old(held) - multiset(xs)
    {
      hide Places.All, Buffers;
      ghost var rest := held - multiset(xs);
      Without(held, multiset(xs));
      assert xs[0..] == xs;
      var i := 0;
      aborted := false;
      while i < |xs|
        invariant 0 <= i <= |xs| && Valid() && !aborted
        invariant held == rest + multiset(xs[i..])
      {
        OneLess(rest, xs, i);
        aborted := AppReleaseOne(xs[i]);
        i := i + 1;
      }
      assert xs[i..] == [];
    }

    // -------------------------------------------------------------- the stack

    /** `MsgBufAlloc`. */
    method StackAlloc() returns (r: Option<nat>)
      requires Valid()
      modifies `free, `stack, `held
      ensures Valid()
      ensures r.Some? <==> old(stack) != [] || CACHED <= |old(free)|
      ensures held == if r.Some? then old(held) + multiset{r.value} else old(held)
    {
      hide Places.All;
      if |stack| == 0 {
        ghost var was := Where();
        var xs := BulkTake(CACHED);
        if |xs| != CACHED {
          assert xs + free == free;
          return None;
        }
        stack := xs;
        Conserved(was, Where(), multiset(xs));
      }
      var last := PopStack();
      r := Some(last);
    }

    method PopStack() returns (b: nat)
      requires Valid() && stack != []
      modifies `stack, `held
      ensures Valid() && held == old(held) + multiset{b} && old(stack) == stack + [b]
    {
      hide Places.All;
      ghost var was := Where();
      b := stack[|stack| - 1];
      Cut(stack, |stack| - 1);
      assert stack[|stack| - 1..] == [b];
      stack := stack[..|stack| - 1];
      held := held + multiset{b};
      Conserved(was, Where(), multiset{b});
    }

    /** A ring operation that is retried while it fails, and never has to be. */
    method PutRetrying(xs: seq<nat>) returns (n: nat)
      requires Valid() && multiset(xs) <= held
      modifies `free, `held
      ensures Valid() && n == |xs| && held == old(held) - multiset(xs)
    {
      n := PutHeld(xs);
      var retries := RETRIES;
      while n == 0 && retries > 0
        invariant n == |xs| && Valid() && held == old(held) - multiset(xs)
        decreases retries
      {
        assert xs == [];
        n := PutHeld(xs);
        retries := retries - 1;
      }
    }

    method PutHeld(xs: seq<nat>) returns (n: nat)
      requires Valid() && multiset(xs) <= held
      modifies `free, `held
      ensures Valid() && n == |xs| && held == old(held) - multiset(xs)
    {
      hide Places.All, Move, Buffers;
      RoomFor(xs);
      ghost var was := Where();
      n := BulkPut(xs);
      held := held - multiset(xs);
      Returned(was, Where(), multiset(xs));
    }

    /** `MsgBufFree`. */
    method StackFree(b: nat) returns (ok: bool)
      requires Valid() && b in held
      modifies `free, `stack, `held
      ensures Valid() && ok && held == old(held) - multiset{b}
    {
      hide Places.All;
      if |stack| < CACHED {
        ghost var was := Where();
        Without(held, multiset{b});
        stack := stack + [b];
        held := held - multiset{b};
        Conserved(was, Where(), multiset{b});
        return true;
      }
      var n := PutRetrying([b]);
      ok := n != 0;
    }

    /** `MsgBufBulkAlloc`: `n` buffers straight from the ring, or none. */
    method StackBulkAlloc(n: nat) returns (xs: seq<nat>)
      requires Valid()
      modifies `free, `held
      ensures Valid() && |xs| == (if n <= |old(free)| then n else 0) && held == old(held) + multiset(xs)
    {
      hide Places.All;
      ghost var was := Where();
      xs := BulkTake(n);
      held := held + multiset(xs);
      Conserved(was, Where(), multiset(xs));
    }

    /** As many of `xs` as the stack's cache has room for. */
    method CacheStack(xs: seq<nat>) returns (freed: nat)
      requires Valid() && multiset(xs) <= held
      modifies `stack, `held
      ensures Valid() && freed == Min(|xs|, CACHED - |old(stack)|) && multiset(xs[..freed]) <= old(held)
      ensures held == old(held) - multiset(xs[..freed])
    {
      hide Places.All;
      freed := Min(|xs|, CACHED - |stack|);
      Cut(xs, freed);
      ghost var was := Where();
      AppendCache(xs[..freed]);
      Without(held, multiset(xs[..freed]));
      held := held - multiset(xs[..freed]);
      Conserved(was, Where(), multiset(xs[..freed]));
    }

    method AppendCache(xs: seq<nat>)
      modifies `stack
      ensures stack == old(stack) + xs
    {
      var i := 0;
      while i < |xs|
        invariant 0 <= i <= |xs| && stack == old(stack) + xs[..i]
      {
        stack := stack + [xs[i]];
        i := i + 1;
      }
    }

    /** `MsgBufBulkFree` of a batch: it succeeds. */
    method StackBulkFree(xs: seq<nat>) returns (ok: bool)
      requires Valid() && multiset(xs) <= held
      modifies `free, `stack, `held
      ensures Valid() && ok && held == old(held) - multiset(xs)
    {
      hide Places.All;
      if |xs| == 0 { return true; }
      var freed := CacheStack(xs);
      Cut(xs, freed);
      if |xs| > freed {
        var n := PutRetrying(xs[freed..]);
        freed := freed + n;
      } else {
        assert xs[..freed] == xs;
      }
      ok := freed != 0;
    }

    /** `GetAllCachedBufferIndices`: the stack's cache goes to the caller. */
    method StackDrain() returns (xs: seq<nat>)
      requires Valid()
      modifies `stack, `held
      ensures Valid() && stack == [] && xs == old(stack) && held == old(held) + multiset(xs)
    {
      hide Places.All;
      ghost var was := Where();
      xs := stack;
      held := held + multiset(xs);
      stack := [];
      Conserved(was, Where(), multiset(xs));
    }
  }
}

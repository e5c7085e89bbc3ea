/** The buffer pool under concurrency: application and stack run at the same time, each with
    its own cache, and meet only in the free ring. A step makes at most one ring operation;
    between any two steps the other thread may take any number of its own. Ring operations are
    atomic here, which `Jring.StepRefines` and `JringPool.ReturnNeverRefused` justify. */
module PoolThreads {
  import opened Words
  import opened Common
  import opened BufferPool

  const SPILL: nat := CACHED / 2

  /** What a thread is in the middle of, with the buffers it has in hand: an allocation of
      `cnt` buffers, a release of which `rest` is left, or the ring part of a release by the
      stack. `Aborted` is the call of abort(). */
  datatype Task =
    | Idle
    | Allocating(cnt: nat, got: seq<nat>)
    | Releasing(rest: seq<nat>, retries: nat)
    | Freeing(rest: seq<nat>, retries: nat)
    | Aborted(rest: seq<nat>)
  {
    function InHand(): seq<nat> {
      match this
      case Idle => []
      case Allocating(_, got) => got
      case Releasing(rest, _) => rest
      case Freeing(rest, _) => rest
      case Aborted(rest) => rest
    }
  }

  /** `held` are the buffers that the thread's owner works with. `lost` were released but are
      nowhere. */
  datatype Thread = Thread(cache: seq<nat>, task: Task, held: multiset<nat>, lost: multiset<nat>)
  {
    function Owns(): multiset<nat> {
      multiset(cache) + multiset(task.InHand()) + held + lost
    }
  }

  /** The free ring and one thread. */
  datatype View = View(free: seq<nat>, t: Thread)
  {
    function All(): multiset<nat> {
      multiset(free) + t.Owns()
    }
  }

  datatype Event =
    | BulkAlloc(cnt: nat)
    | Ask(cnt: nat)
    | Next
    | Release(xs: seq<nat>)
    | Spill(refused: bool)
    | StackAlloc
    | StackFree(xs: seq<nat>)
    | Put(refused: bool)
    | Drain

  // ---------------------------------------------------------------- one step

  /** What the next ring operation of a release wants to put into the ring. */
  function ToPut(t: Thread): seq<nat> {
    match t.task
    case Releasing(rest, _) => if rest != [] && |t.cache| == CACHED then t.cache[SPILL..] else []
    case Freeing(rest, _) => rest
    case _ => []
  }

  /** The ring takes `ToPut` only if there is room. It refuses when there is none, and if
      `transient` also at other times; that is a hypothetical ring, since by
      `JringPool.ReturnNeverRefused` the real one never refuses what a caller has. */
  predicate PutAllowed(v: View, capacity: nat, transient: bool, refused: bool) {
    var room := |v.free| + |ToPut(v.t)| <= capacity;
    if refused then transient || !room else room
  }

  /** The application's steps; all other events are the stack's. */
  predicate ByApp(ev: Event) {
    ev.BulkAlloc? || ev.Ask? || ev.Next? || ev.Release? || ev.Spill?
  }

  predicate Enabled(v: View, ev: Event, capacity: nat, transient: bool) {
    match ev
    case BulkAlloc(cnt) => v.t.task.Idle? && cnt > CACHED
    case Ask(cnt) => v.t.task.Idle? && cnt <= CACHED
    case Next => v.t.task.Allocating?
    case Release(xs) => v.t.task.Idle? && multiset(xs) <= v.t.held
    case Spill(refused) => v.t.task.Releasing? && PutAllowed(v, capacity, transient, refused)
    case StackAlloc => v.t.task.Idle?
    case StackFree(xs) => v.t.task.Idle? && multiset(xs) <= v.t.held
    case Put(refused) => v.t.task.Freeing? && PutAllowed(v, capacity, transient, refused)
    case Drain => v.t.task.Idle?
  }

  /** A bulk allocation: straight from the ring, `n` buffers or none. */
  function TakeHeld(v: View, n: nat): View {
    if n > |v.free| then v else View(v.free[n..], v.t.(held := v.t.held + multiset(v.free[..n])))
  }

  /** The loop body of `_machnet_buffers_alloc`. A failed refill returns the partial
      allocation to the empty cache. */
  function AllocStep(v: View): View
    requires v.t.task.Allocating?
  {
    var Allocating(cnt, got) := v.t.task;
    if |got| >= cnt then v.(t := v.t.(task := Idle, held := v.t.held + multiset(got)))
    else if v.t.cache == [] then
      if CACHED <= |v.free| then View(v.free[CACHED..], v.t.(cache := v.free[..CACHED]))
      else v.(t := v.t.(cache := got, task := Idle))
    else
      var n := |v.t.cache| - 1;
      v.(t := v.t.(cache := v.t.cache[..n], task := Allocating(cnt, got + [v.t.cache[n]])))
  }

  /** The loop body of `_machnet_buffers_release`. */
  function ReleaseStep(v: View, refused: bool): View
    requires v.t.task.Releasing?
  {
    var Releasing(rest, retries) := v.t.task;
    if rest == [] then v.(t := v.t.(task := Idle))
    else if |v.t.cache| != CACHED then
      v.(t := v.t.(cache := v.t.cache + [rest[0]], task := Releasing(rest[1..], RETRIES)))
    else if !refused then View(v.free + v.t.cache[SPILL..], v.t.(cache := v.t.cache[..SPILL]))
    else v.(t := v.t.(task := if retries == 0 then Aborted(rest) else Releasing(rest, retries - 1)))
  }

  /** `MsgBufAlloc`. */
  function StackTake(v: View): View {
    if v.t.cache != [] then PopHeld(v)
    else if CACHED <= |v.free| then PopHeld(View(v.free[CACHED..], v.t.(cache := v.free[..CACHED])))
    else v
  }

  function PopHeld(v: View): View
    requires v.t.cache != []
  {
    var n := |v.t.cache| - 1;
    v.(t := v.t.(cache := v.t.cache[..n], held := v.t.held + multiset{v.t.cache[n]}))
  }

  /** `MsgBufFree` and `MsgBufBulkFree`: the cache takes what it has room for, the ring is to
      take the rest. The ring operation is only retried if the cache took nothing. */
  function StackGive(v: View, xs: seq<nat>): View
    requires |v.t.cache| <= CACHED
  {
    var n := Min(|xs|, CACHED - |v.t.cache|);
    var t := v.t.(cache := v.t.cache + xs[..n], held := v.t.held - multiset(xs));
    v.(t := t.(task := if n == |xs| then Idle else Freeing(xs[n..], if n == 0 then RETRIES else 0)))
  }

  /** A ring operation of a release by the stack; after the last refusal the buffers are
      lost. */
  function PutStep(v: View, refused: bool): View
    requires v.t.task.Freeing?
  {
    var Freeing(rest, retries) := v.t.task;
    if !refused then View(v.free + rest, v.t.(task := Idle))
    else if retries > 0 then v.(t := v.t.(task := Freeing(rest, retries - 1)))
    else v.(t := v.t.(task := Idle, lost := v.t.lost + multiset(rest)))
  }

  function Do(v: View, ev: Event): View
    requires |v.t.cache| <= CACHED
    requires ev.Next? ==> v.t.task.Allocating?
    requires ev.Spill? ==> v.t.task.Releasing?
    requires ev.Put? ==> v.t.task.Freeing?
  {
    match ev
    case BulkAlloc(cnt) => TakeHeld(v, cnt)
    case Ask(cnt) => v.(t := v.t.(task := Allocating(cnt, [])))
    case Next => AllocStep(v)
    case Release(xs) => v.(t := v.t.(task := Releasing(xs, RETRIES), held := v.t.held - multiset(xs)))
    case Spill(refused) => ReleaseStep(v, refused)
    case StackAlloc => StackTake(v)
    case StackFree(xs) => StackGive(v, xs)
    case Put(refused) => PutStep(v, refused)
    case Drain => v.(t := v.t.(cache := [], held := v.t.held + multiset(v.t.cache)))
  }

  // ---------------------------------------------------------------- the system

  datatype State = State(capacity: nat, free: seq<nat>, app: Thread, stack: Thread)
  {
    function All(): multiset<nat> {
      multiset(free) + app.Owns() + stack.Owns()
    }
  }

  /** A step of either thread, or a message passed through one of the message rings. */
  ghost predicate Steps(s: State, s': State, transient: bool) {
    || (exists ev :: AppSteps(s, s', transient, ev))
    || (exists ev :: StackSteps(s, s', transient, ev))
    || (exists xs :: Passes(s, s', xs))
  }

  predicate AppSteps(s: State, s': State, transient: bool, ev: Event) {
    var v := View(s.free, s.app);
    && |s.app.cache| <= CACHED && ByApp(ev) && Enabled(v, ev, s.capacity, transient)
    && s' == s.(free := Do(v, ev).free, app := Do(v, ev).t)
  }

  predicate StackSteps(s: State, s': State, transient: bool, ev: Event) {
    var v := View(s.free, s.stack);
    && |s.stack.cache| <= CACHED && !ByApp(ev) && Enabled(v, ev, s.capacity, transient)
    && s' == s.(free := Do(v, ev).free, stack := Do(v, ev).t)
  }

  predicate Passes(s: State, s': State, xs: multiset<nat>) {
    || (xs <= s.app.held
        && s' == s.(app := s.app.(held := s.app.held - xs), stack := s.stack.(held := s.stack.held + xs)))
    || (xs <= s.stack.held
        && s' == s.(stack := s.stack.(held := s.stack.held - xs), app := s.app.(held := s.app.held + xs)))
  }

  predicate Init(s: State) {
    s == State(s.capacity, seq(s.capacity, i => i), Thread([], Idle, multiset{}, multiset{}),
               Thread([], Idle, multiset{}, multiset{}))
  }

  ghost predicate Run(r: seq<State>, transient: bool) {
    && r != [] && Init(r[0])
    && forall k :: 0 <= k < |r| - 1 ==> Steps(r[k], r[k + 1], transient)
  }

  // ---------------------------------------------------------------- no buffer is made or lost

  /** The caches stay in bounds: a partial allocation fits the cache it came from. */
  predicate Bounded(t: Thread) {
    |t.cache| <= CACHED && (t.task.Allocating? ==> |t.task.got| <= t.task.cnt <= CACHED)
  }

  lemma HeldLess(t: Thread, xs: multiset<nat>)
    requires xs <= t.held
    ensures t.Owns() == t.(held := t.held - xs).Owns() + xs
  {
    Without(t.held, xs);
  }

  lemma HeldMore(t: Thread, xs: multiset<nat>)
    ensures t.(held := t.held + xs).Owns() == t.Owns() + xs
  {
  }

  lemma TakeConserves(v: View, n: nat)
    ensures TakeHeld(v, n).All() == v.All()
  {
    if n <= |v.free| {
      Cut(v.free, n);
    }
  }

  lemma AllocConserves(v: View)
    requires v.t.task.Allocating? && Bounded(v.t)
    ensures AllocStep(v).All() == v.All() && Bounded(AllocStep(v).t)
  {
    hide View.All;
    var Allocating(cnt, got) := v.t.task;
    if |got| >= cnt {
      DoneConserves(v);
    } else if v.t.cache != [] {
      PopConserves(v);
    } else if CACHED <= |v.free| {
      RefillConserves(v);
    } else {
      FailConserves(v);
    }
  }

  lemma DoneConserves(v: View)
    requires v.t.task.Allocating?
    ensures v.(t := v.t.(task := Idle, held := v.t.held + multiset(v.t.task.got))).All() == v.All()
  {
  }

  lemma FailConserves(v: View)
    requires v.t.task.Allocating? && v.t.cache == []
    ensures v.(t := v.t.(cache := v.t.task.got, task := Idle)).All() == v.All()
  {
  }

  lemma RefillConserves(v: View)
    requires v.t.cache == [] && CACHED <= |v.free|
    ensures View(v.free[CACHED..], v.t.(cache := v.free[..CACHED])).All() == v.All()
  {
    Cut(v.free, CACHED);
  }

  lemma PopConserves(v: View)
    requires v.t.task.Allocating? && v.t.cache != []
    ensures var n := |v.t.cache| - 1;
            v.(t := v.t.(cache := v.t.cache[..n],
                         task := Allocating(v.t.task.cnt, v.t.task.got + [v.t.cache[n]]))).All() == v.All()
  {
    PopLast(v.t.cache);
  }

  lemma PopLast(xs: seq<nat>)
    requires xs != []
    ensures multiset(xs) == multiset(xs[..|xs| - 1]) + multiset{xs[|xs| - 1]}
  {
    Cut(xs, |xs| - 1);
    assert xs[|xs| - 1..] == [xs[|xs| - 1]];
  }

  lemma CacheOneConserves(v: View, retries: nat)
    requires v.t.task.Releasing? && v.t.task.rest != []
    ensures var rest := v.t.task.rest;
            v.(t := v.t.(cache := v.t.cache + [rest[0]], task := Releasing(rest[1..], retries))).All() == v.All()
  {
    var rest := v.t.task.rest;
    assert rest == [rest[0]] + rest[1..];
  }

  lemma SpillConserves(v: View)
    requires SPILL <= |v.t.cache|
    ensures View(v.free + v.t.cache[SPILL..], v.t.(cache := v.t.cache[..SPILL])).All() == v.All()
  {
    Cut(v.t.cache, SPILL);
  }

  /** Another task with the same buffers in hand. */
  lemma TaskConserves(v: View, task: Task)
    requires task.InHand() == v.t.task.InHand()
    ensures v.(t := v.t.(task := task)).All() == v.All()
  {
  }

  lemma ReleaseConserves(v: View, refused: bool)
    requires v.t.task.Releasing? && Bounded(v.t)
    ensures ReleaseStep(v, refused).All() == v.All() && Bounded(ReleaseStep(v, refused).t)
  {
    hide View.All;
    var Releasing(rest, retries) := v.t.task;
    if rest == [] {
      TaskConserves(v, Idle);
    } else if |v.t.cache| != CACHED {
      CacheOneConserves(v, RETRIES);
    } else if !refused {
      SpillConserves(v);
    } else if retries == 0 {
      TaskConserves(v, Aborted(rest));
    } else {
      TaskConserves(v, Releasing(rest, retries - 1));
    }
  }

  lemma PopHeldConserves(v: View)
    requires v.t.cache != []
    ensures PopHeld(v).All() == v.All()
  {
    PopLast(v.t.cache);
  }

  lemma StackTakeConserves(v: View)
    requires Bounded(v.t)
    ensures StackTake(v).All() == v.All() && Bounded(StackTake(v).t)
  {
    hide View.All;
    if v.t.cache != [] {
      PopHeldConserves(v);
    } else if CACHED <= |v.free| {
      RefillConserves(v);
      PopHeldConserves(View(v.free[CACHED..], v.t.(cache := v.free[..CACHED])));
    }
  }

  lemma GiveConserves(v: View, xs: seq<nat>)
    requires Bounded(v.t) && v.t.task.Idle? && multiset(xs) <= v.t.held
    ensures StackGive(v, xs).All() == v.All() && Bounded(StackGive(v, xs).t)
  {
    var n := Min(|xs|, CACHED - |v.t.cache|);
    Cut(xs, n);
    Without(v.t.held, multiset(xs));
    assert n == |xs| ==> xs[n..] == [];
  }

  lemma PutConserves(v: View, refused: bool)
    requires v.t.task.Freeing? && Bounded(v.t)
    ensures PutStep(v, refused).All() == v.All() && Bounded(PutStep(v, refused).t)
  {
  }

  lemma DrainConserves(v: View)
    requires v.t.task.Idle?
    ensures v.(t := v.t.(cache := [], held := v.t.held + multiset(v.t.cache))).All() == v.All()
  {
  }

  lemma ReleaseBegins(v: View, xs: seq<nat>)
    requires v.t.task.Idle? && multiset(xs) <= v.t.held
    ensures v.(t := v.t.(task := Releasing(xs, RETRIES), held := v.t.held - multiset(xs))).All() == v.All()
  {
    Without(v.t.held, multiset(xs));
  }

  lemma AskBegins(v: View, cnt: nat)
    requires v.t.task.Idle?
    ensures v.(t := v.t.(task := Allocating(cnt, []))).All() == v.All()
  {
  }

  /** Every step of a thread keeps the buffers of the ring and the thread together. */
  lemma StepConserves(v: View, ev: Event, capacity: nat, transient: bool)
    requires Bounded(v.t) && Enabled(v, ev, capacity, transient)
    ensures Do(v, ev).All() == v.All() && Bounded(Do(v, ev).t)
  {
    hide View.All, PutAllowed, AllocStep, ReleaseStep, StackTake, StackGive, PutStep;
    match ev
    case BulkAlloc(cnt) => TakeConserves(v, cnt);
    case Ask(cnt) => AskBegins(v, cnt);
    case Next => AllocConserves(v);
    case Release(xs) => ReleaseBegins(v, xs);
    case Spill(refused) => ReleaseConserves(v, refused);
    case StackAlloc => StackTakeConserves(v);
    case StackFree(xs) => GiveConserves(v, xs);
    case Put(refused) => PutConserves(v, refused);
    case Drain => DrainConserves(v);
  }

  ghost predicate Inv(s: State) {
    s.All() == Buffers(s.capacity) && Bounded(s.app) && Bounded(s.stack)
  }

  lemma StepKeeps(s: State, s': State, transient: bool)
    requires Inv(s) && Steps(s, s', transient)
    ensures Inv(s')
  {
    hide Do, Enabled, Bounded, Thread.Owns, Buffers;
    if ev :| AppSteps(s, s', transient, ev) {
      StepConserves(View(s.free, s.app), ev, s.capacity, transient);
    } else if ev :| StackSteps(s, s', transient, ev) {
      StepConserves(View(s.free, s.stack), ev, s.capacity, transient);
      Beside(multiset(s.free), multiset(s'.free), s.stack.Owns(), s'.stack.Owns(), s.app.Owns());
    } else {
      var xs :| Passes(s, s', xs);
      PassKeeps(s, s', xs);
    }
  }

  lemma Beside(free: multiset<nat>, free': multiset<nat>, own: multiset<nat>, own': multiset<nat>, other: multiset<nat>)
    requires free + own == free' + own'
    ensures free + other + own == free' + other + own'
  {
    assert free + other + own == free + own + other;
    assert free' + other + own' == free' + own' + other;
  }

  lemma PassKeeps(s: State, s': State, xs: multiset<nat>)
    requires Inv(s) && Passes(s, s', xs)
    ensures Inv(s')
  {
    hide Buffers, Thread.Owns;
    if && xs <= s.app.held
       && s' == s.(app := s.app.(held := s.app.held - xs), stack := s.stack.(held := s.stack.held + xs)) {
      HeldLess(s.app, xs);
      HeldMore(s.stack, xs);
      Shift(multiset(s.free), s'.app.Owns(), s.stack.Owns(), xs);
    } else {
      HeldLess(s.stack, xs);
      HeldMore(s.app, xs);
      Shift(multiset(s.free), s.app.Owns(), s'.stack.Owns(), xs);
    }
  }

  lemma Shift(free: multiset<nat>, a: multiset<nat>, b: multiset<nat>, x: multiset<nat>)
    ensures free + (a + x) + b == free + a + (b + x)
  {
  }

  lemma {:induction false} RunKeeps(r: seq<State>, k: nat, transient: bool)
    requires Run(r, transient) && k < |r|
    ensures Inv(r[k])
  {
    hide Inv, Steps;
    if k == 0 {
      InitInv(r[0]);
    } else {
      RunKeeps(r, k - 1, transient);
      assert Steps(r[k - 1], r[k - 1 + 1], transient);
      StepKeeps(r[k - 1], r[k], transient);
    }
  }

  lemma InitInv(s: State)
    requires Init(s)
    ensures Inv(s)
  {
    Pool.AllFree(s.capacity);
  }

  /** In every interleaving, even of a ring that refuses for no reason, every buffer is at
      every moment in exactly one place. */
  lemma OnePlace(r: seq<State>, k: nat, transient: bool, b: nat)
    requires Run(r, transient) && k < |r|
    ensures var s := r[k];
            multiset(s.free)[b] + s.app.Owns()[b] + s.stack.Owns()[b] == if b < s.capacity then 1 else 0
  {
    RunKeeps(r, k, transient);
    EachOnce(r[k].capacity, b);
    assert r[k].All()[b] == Buffers(r[k].capacity)[b];
  }

  // ---------------------------------------------------------------- releases succeed

  /** Whatever a thread is about to put into the ring fits. */
  lemma PutFits(s: State)
    requires Inv(s)
    ensures |s.free| + |ToPut(s.app)| <= s.capacity && |s.free| + |ToPut(s.stack)| <= s.capacity
  {
    ToPutOwned(s.app);
    ToPutOwned(s.stack);
    hide ToPut, Thread.Owns, Bounded;
    assert multiset(s.free) + s.stack.Owns() + s.app.Owns() == s.All();
    assert |Buffers(s.capacity)| == s.capacity;
    hide Buffers;
    Fits(multiset(s.free), s.app.Owns(), s.stack.Owns(), multiset(ToPut(s.app)));
    Fits(multiset(s.free), s.stack.Owns(), s.app.Owns(), multiset(ToPut(s.stack)));
  }

  lemma ToPutOwned(t: Thread)
    ensures multiset(ToPut(t)) <= t.Owns()
  {
    if t.task.Releasing? && |t.cache| == CACHED {
      Cut(t.cache, SPILL);
    }
  }

  lemma Fits(free: multiset<nat>, owns: multiset<nat>, other: multiset<nat>, x: multiset<nat>)
    requires x <= owns
    ensures |free| + |x| <= |free + owns + other|
  {
    Without(owns, x);
  }

  predicate Sound(t: Thread) {
    t.lost == multiset{} && !t.task.Aborted?
  }

  lemma {:induction false} RunSound(r: seq<State>, k: nat)
    requires Run(r, false) && k < |r|
    ensures Sound(r[k].app) && Sound(r[k].stack)
  {
    hide Inv, Steps;
    if k > 0 {
      RunSound(r, k - 1);
      RunKeeps(r, k - 1, false);
      PutFits(r[k - 1]);
      assert Steps(r[k - 1], r[k - 1 + 1], false);
      StepSound(r[k - 1], r[k]);
    }
  }

  lemma StepSound(s: State, s': State)
    requires Sound(s.app) && Sound(s.stack) && Steps(s, s', false)
    requires |s.free| + |ToPut(s.app)| <= s.capacity && |s.free| + |ToPut(s.stack)| <= s.capacity
    ensures Sound(s'.app) && Sound(s'.stack)
  {
    hide ToPut;
    if ev :| AppSteps(s, s', false, ev) {
    } else if ev :| StackSteps(s, s', false, ev) {
    } else {
      var xs :| Passes(s, s', xs);
    }
  }

  /** In every interleaving over a ring that refuses only when it is full: it is never full
      for a release, the abort() is never reached, and no buffer is lost. */
  lemma ReleasesSucceed(r: seq<State>, k: nat)
    requires Run(r, false) && k < |r|
    ensures var s := r[k];
            && |s.free| + |ToPut(s.app)| <= s.capacity && |s.free| + |ToPut(s.stack)| <= s.capacity
            && !s.app.task.Aborted? && s.app.lost == multiset{} && s.stack.lost == multiset{}
  {
    hide Inv, Run;
    RunKeeps(r, k, false);
    PutFits(r[k]);
    RunSound(r, k);
  }

  // ---------------------------------------------------------------- calls come to an end

  /** The rest of an allocation, with the ring to itself. */
  function Allocate(v: View, m: nat): View
    decreases m
  {
    if m == 0 || !v.t.task.Allocating? then v else Allocate(AllocStep(v), m - 1)
  }

  /** It ends, and has got all its buffers if and only if the cache has enough or the ring can
      refill it. */
  lemma {:induction false} AllocationEnds(v: View) returns (m: nat)
    requires Bounded(v.t) && v.t.task.Allocating?
    ensures var w, want := Allocate(v, m), v.t.task.cnt - |v.t.task.got|;
            && w.t.task.Idle? && Bounded(w.t) && w.All() == v.All() && w.t.lost == v.t.lost && v.t.held <= w.t.held
            && |w.t.held| == |v.t.held| + if want <= |v.t.cache| || CACHED <= |v.free| then v.t.task.cnt else 0
    decreases v.t.task.cnt - |v.t.task.got|, if v.t.cache == [] then 1 else 0
  {
    hide View.All;
    AllocConserves(v);
    var w := AllocStep(v);
    if w.t.task.Idle? {
      m := 1;
      assert Allocate(w, 0) == w;
    } else {
      var rest := AllocationEnds(w);
      m := rest + 1;
    }
  }

  /** The rest of a release by the application, over a ring that takes what it is given. */
  function Return(v: View, m: nat): View
    decreases m
  {
    if m == 0 || !v.t.task.Releasing? then v else Return(ReleaseStep(v, false), m - 1)
  }

  /** It ends with every buffer in the cache or in the ring. */
  lemma {:induction false} ReleaseEnds(v: View) returns (m: nat)
    requires Bounded(v.t) && v.t.task.Releasing?
    ensures var w := Return(v, m);
            w.t.task.Idle? && Bounded(w.t) && w.All() == v.All() && w.t.held == v.t.held && w.t.lost == v.t.lost
    decreases |v.t.task.rest|, |v.t.cache|
  {
    hide View.All;
    ReleaseConserves(v, false);
    var w := ReleaseStep(v, false);
    if w.t.task.Idle? {
      m := 1;
      assert Return(w, 0) == w;
    } else {
      var rest := ReleaseEnds(w);
      m := rest + 1;
    }
  }

  /** A single allocation by the stack gets a buffer if and only if its cache has one or the ring
      can refill it; a bulk allocation if and only if the ring has that many. */
  lemma StackTakesIff(v: View, n: nat)
    ensures |StackTake(v).t.held| == |v.t.held| + if v.t.cache != [] || CACHED <= |v.free| then 1 else 0
    ensures |TakeHeld(v, n).t.held| == |v.t.held| + if n <= |v.free| then n else 0
  {
  }

  /** A full cache gives half of its buffers to the ring, and a release by the stack fills the
      cache first. */
  lemma CachesUsed(v: View, xs: seq<nat>)
    requires Bounded(v.t)
    ensures v.t.task.Releasing? && v.t.task.rest != [] && |v.t.cache| == CACHED ==>
              |ReleaseStep(v, false).t.cache| == 32 && |ReleaseStep(v, false).free| == |v.free| + 32
    ensures |StackGive(v, xs).t.cache| == Min(64, |v.t.cache| + |xs|)
  {
  }

  /** A release by the stack ends with at most one ring operation that is not refused. */
  lemma StackReleaseEnds(v: View, xs: seq<nat>)
    requires Bounded(v.t) && v.t.task.Idle? && multiset(xs) <= v.t.held
    ensures var g := StackGive(v, xs);
            var w := if g.t.task.Freeing? then PutStep(g, false) else g;
            && w.t.task.Idle? && w.t.held == v.t.held - multiset(xs) && w.t.lost == v.t.lost && w.All() == v.All()
            && Bounded(w.t)
  {
    GiveConserves(v, xs);
    var g := StackGive(v, xs);
    if g.t.task.Freeing? {
      PutConserves(g, false);
    }
    hide View.All;
  }
}

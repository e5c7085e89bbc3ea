/** `jring`, the multi-producer multi-consumer ring: any number of threads, interleaved at
    every load, compare-and-swap, element copy and store. Heads and tails are unbounded
    tickets here; every decision of the code is taken on their 32-bit images. */
module Jring {
  import opened Words

  datatype SideId = Prod | Cons

  /** `jring_headtail`; `single` is the JRING_SYNC_ST mode. */
  datatype Side = Side(head: int, tail: int, single: bool)

  /** Where a thread stands inside `__jring_do_enqueue_elem` or `__jring_do_dequeue_elem`.
      `n` elements were asked for, all or nothing when `fixed`; `h` is `*old_head`.
      `vals` are the elements to enqueue or, for a dequeue, the ones copied out so far. */
  datatype Thread<T> =
    | Idle
    | Loaded(side: SideId, n: u32, fixed: bool, vals: seq<T>, h: int)
    | Checked(side: SideId, n: u32, fixed: bool, vals: seq<T>, h: int, k: nat)
    | Copying(side: SideId, vals: seq<T>, h: int, k: nat, done: nat)

  /** The ring and its threads. `log` lists the elements by enqueue ticket and `out` the
      elements returned by dequeues, in the order of the tail updates. */
  datatype State<T> = State(size: nat, prod: Side, cons: Side, slots: seq<T>, threads: map<nat, Thread<T>>,
                            log: seq<T>, out: seq<T>)
  {
    function Own(id: SideId): Side {
      if id == Prod then prod else cons
    }

    /** How far the head of a side may go. */
    function Limit(id: SideId): int {
      if id == Prod then cons.tail + (size - 1) else prod.tail
    }

    /** Slots that can be filled, or entries that can be taken, right now. */
    function Avail(id: SideId): int {
      Limit(id) - Own(id).head
    }

    function SetThread(i: nat, th: Thread<T>): State<T> {
      this.(threads := threads[i := th])
    }

    function SetSide(id: SideId, sd: Side): State<T> {
      if id == Prod then this.(prod := sd) else this.(cons := sd)
    }

    /** The elements a dequeue can still claim, oldest first: the abstract queue. */
    function Queue(): seq<T>
      requires 0 <= cons.head <= prod.tail <= |log|
    {
      log[cons.head..prod.tail]
    }
  }

  // ---------------------------------------------------------------- steps

  /** `free_entries` or `entries`, as computed on 32-bit values. */
  function Entries<T>(s: State<T>, id: SideId, h: int): u32 {
    if id == Prod then Wrap(s.size - 1 + Wrap(s.cons.tail) - Wrap(h)) else Wrap(Wrap(s.prod.tail) - Wrap(h))
  }

  function Granted(n: u32, entries: u32, fixed: bool): u32 {
    if n > entries then (if fixed then 0 else entries) else n
  }

  /** Load `*old_head`. */
  function Begin<T>(s: State<T>, i: nat, id: SideId, n: u32, fixed: bool, vals: seq<T>): State<T> {
    s.SetThread(i, Loaded(id, n, fixed, vals, s.Own(id).head))
  }

  /** Load the opposite tail and decide; a call that gets nothing returns 0. */
  function LoadTail<T>(s: State<T>, i: nat): State<T>
    requires i in s.threads && s.threads[i].Loaded?
  {
    var th := s.threads[i];
    var k := Granted(th.n, Entries(s, th.side, th.h), th.fixed);
    s.SetThread(i, if k == 0 then Idle else Checked(th.side, th.n, th.fixed, th.vals, th.h, k))
  }

  /** Move the head: a plain store in single mode, else a compare-and-swap of 32-bit values
      which on failure reloads `*old_head`. */
  function MoveHead<T>(s: State<T>, i: nat): State<T>
    requires i in s.threads && s.threads[i].Checked?
    requires s.threads[i].side == Prod ==> |s.threads[i].vals| == s.threads[i].n >= s.threads[i].k
  {
    var th := s.threads[i];
    var own := s.Own(th.side);
    if own.single || Wrap(own.head) == Wrap(th.h) then
      var t := s.SetSide(th.side, own.(head := th.h + th.k));
      if th.side == Prod then
        t.(log := s.log + th.vals[..th.k]).SetThread(i, Copying(Prod, th.vals[..th.k], th.h, th.k, 0))
      else t.SetThread(i, Copying(Cons, [], th.h, th.k, 0))
    else s.SetThread(i, Loaded(th.side, th.n, th.fixed, th.vals, own.head))
  }

  /** The slot of the `j`-th element from head `h`. */
  function Index(h: int, j: nat, size: nat): nat
    requires size > 0
  {
    (Wrap(h) % size + j) % size
  }

  /** Copy one element. */
  function Copy<T>(s: State<T>, i: nat): State<T>
    requires s.size > 0 && |s.slots| == s.size
    requires i in s.threads && s.threads[i].Copying? && s.threads[i].done < s.threads[i].k
    requires s.threads[i].side == Prod ==> |s.threads[i].vals| == s.threads[i].k
  {
    var th := s.threads[i];
    var x := Index(th.h, th.done, s.size);
    if th.side == Prod then
      s.(slots := s.slots[x := th.vals[th.done]]).SetThread(i, th.(done := th.done + 1))
    else s.SetThread(i, th.(vals := th.vals + [s.slots[x]], done := th.done + 1))
  }

  /** The tail may be stored: always in single mode, else once it has reached `*old_head`. */
  predicate MayPublish<T>(s: State<T>, i: nat) {
    && i in s.threads && s.threads[i].Copying?
    && var th := s.threads[i];
       th.done == th.k && (s.Own(th.side).single || Wrap(s.Own(th.side).tail) == Wrap(th.h))
  }

  /** Store the tail and return. */
  function Publish<T>(s: State<T>, i: nat): State<T>
    requires MayPublish(s, i)
  {
    var th := s.threads[i];
    var t := s.SetSide(th.side, s.Own(th.side).(tail := th.h + th.k)).SetThread(i, Idle);
    if th.side == Cons then t.(out := s.out + th.vals) else t
  }

  datatype Event<T> =
    | EvBegin(id: SideId, n: u32, fixed: bool, vals: seq<T>)
    | EvLoadTail
    | EvMoveHead
    | EvCopy
    | EvPublish

  /** Thread `th` is inside a call on side `id`. */
  predicate Active<T>(th: Thread<T>, id: SideId) {
    !th.Idle? && th.side == id
  }

  /** The head read as `h` has since moved by no positive multiple of 2^32 tickets. */
  predicate Awake<T>(s: State<T>, id: SideId, h: int) {
    var moved := s.Own(id).head - h;
    moved == 0 || moved % TWO32 != 0
  }

  /** The head read as `h` is less than 2^32 tickets short of what may be taken now. */
  predicate Recent<T>(s: State<T>, id: SideId, h: int) {
    s.Limit(id) - h < TWO32
  }

  /** A call may begin at any time, but a side in single mode is entered by one thread at a
      time, and an enqueue brings its `n` elements. The one assumption on timing is made at
      the compare-and-swap (see `SwapNeedsAwake`). */
  predicate Enabled<T>(s: State<T>, i: nat, ev: Event<T>) {
    i in s.threads &&
    match ev
    case EvBegin(id, n, _, vals) =>
      && s.threads[i].Idle? && (id == Prod ==> |vals| == n)
      && (s.Own(id).single ==> forall j :: j in s.threads ==> !Active(s.threads[j], id))
    case EvLoadTail => s.threads[i].Loaded?
    case EvMoveHead =>
      && s.threads[i].Checked? && Awake(s, s.threads[i].side, s.threads[i].h)
      && (s.threads[i].side == Prod ==> |s.threads[i].vals| == s.threads[i].n >= s.threads[i].k)
    case EvCopy =>
      && s.size > 0 && |s.slots| == s.size && s.threads[i].Copying? && s.threads[i].done < s.threads[i].k
      && (s.threads[i].side == Prod ==> |s.threads[i].vals| == s.threads[i].k)
    case EvPublish => MayPublish(s, i)
  }

  function Do<T>(s: State<T>, i: nat, ev: Event<T>): State<T>
    requires Enabled(s, i, ev)
  {
    match ev
    case EvBegin(id, n, fixed, vals) => Begin(s, i, id, n, fixed, vals)
    case EvLoadTail => LoadTail(s, i)
    case EvMoveHead => MoveHead(s, i)
    case EvCopy => Copy(s, i)
    case EvPublish => Publish(s, i)
  }

  /** `jring_init`: a power-of-two size, heads and tails at zero. */
  predicate Init<T>(s: State<T>) {
    && s.size > 0 && TWO32 % s.size == 0 && |s.slots| == s.size
    && s.prod.head == s.prod.tail == s.cons.head == s.cons.tail == 0
    && s.log == [] && s.out == []
    && forall i :: i in s.threads ==> s.threads[i].Idle?
  }

  ghost predicate Run<T(!new)>(r: seq<State<T>>) {
    && r != [] && Init(r[0])
    && forall k :: 0 <= k < |r| - 1 ==> Next(r[k], r[k + 1])
  }

  ghost predicate Next<T(!new)>(s: State<T>, t: State<T>) {
    exists i, ev :: Enabled(s, i, ev) && t == Do(s, i, ev)
  }

  // ---------------------------------------------------------------- invariant

  ghost predicate Ordered<T>(s: State<T>) {
    && s.size > 0 && TWO32 % s.size == 0 && |s.slots| == s.size
    && 0 <= s.cons.tail <= s.cons.head <= s.prod.tail <= s.prod.head <= s.cons.tail + (s.size - 1)
    && |s.log| == s.prod.head && s.out == s.log[..s.cons.tail]
  }

  /** The slots of tickets `a` to `b` hold what was enqueued with them. */
  ghost predicate Holds<T>(s: State<T>, a: int, b: int)
    requires Ordered(s) && 0 <= a && b <= |s.log|
  {
    forall t :: a <= t < b ==> s.slots[t % s.size] == s.log[t]
  }

  ghost predicate ThreadOk<T>(s: State<T>, th: Thread<T>)
    requires Ordered(s)
  {
    match th
    case Idle => true
    case Loaded(id, n, _, vals, h) =>
      && h <= s.Own(id).head && (id == Prod ==> |vals| == n)
      && (s.Own(id).single ==> h == s.Own(id).head == s.Own(id).tail)
    case Checked(id, n, _, vals, h, k) =>
      && h <= s.Own(id).head && (id == Prod ==> |vals| == n)
      && (s.Own(id).single ==> h == s.Own(id).head == s.Own(id).tail)
      && 1 <= k <= n && h + k <= s.Limit(id)
    case Copying(id, vals, h, k, done) =>
      && s.Own(id).tail <= h && h + k <= s.Own(id).head && 1 <= k && done <= k
      && (s.Own(id).single ==> h == s.Own(id).tail)
      && (if id == Prod then vals == s.log[h..h + k] && Holds(s, h, h + done)
          else vals == s.log[h..h + done])
  }

  ghost predicate ThreadsOk<T>(s: State<T>)
    requires Ordered(s)
  {
    forall i :: i in s.threads ==> ThreadOk(s, s.threads[i])
  }

  /** The reservation of `th` contains ticket `t` of side `id`. */
  ghost predicate Reserves<T>(th: Thread<T>, id: SideId, t: int) {
    th.Copying? && th.side == id && th.h <= t < th.h + th.k
  }

  ghost predicate Clear<T>(a: Thread<T>, b: Thread<T>) {
    a.Copying? && b.Copying? && a.side == b.side ==> a.h + a.k <= b.h || b.h + b.k <= a.h
  }

  ghost predicate Apart<T>(s: State<T>) {
    forall i, j :: i in s.threads && j in s.threads && i != j ==> Clear(s.threads[i], s.threads[j])
  }

  /** Some thread has ticket `t` of side `id` reserved. */
  ghost predicate Taken<T>(s: State<T>, id: SideId, t: int) {
    exists i :: i in s.threads && Reserves(s.threads[i], id, t)
  }

  ghost predicate Tiled<T>(s: State<T>, id: SideId) {
    forall t :: s.Own(id).tail <= t < s.Own(id).head ==> Taken(s, id, t)
  }

  ghost predicate Alone<T>(s: State<T>, id: SideId) {
    s.Own(id).single ==>
      forall i, j :: i in s.threads && j in s.threads && Active(s.threads[i], id) && Active(s.threads[j], id) ==> i == j
  }

  ghost predicate Inv<T>(s: State<T>) {
    && Ordered(s) && Holds(s, s.cons.tail, s.prod.tail) && ThreadsOk(s)
    && Apart(s) && Tiled(s, Prod) && Tiled(s, Cons) && Alone(s, Prod) && Alone(s, Cons)
  }

  // ---------------------------------------------------------------- arithmetic

  lemma SameSlot(h: int, j: nat, size: nat)
    requires size > 0 && TWO32 % size == 0 && h >= 0
    ensures Index(h, j, size) == (h + j) % size
  {
    var q := TWO32 / size;
    assert TWO32 == q * size;
    ModOfMod(h, q, size);
    ModAdd(h, j, size);
  }

  /** The 32-bit subtraction is the true distance modulo 2^32. */
  lemma EntriesWrap<T>(s: State<T>, id: SideId, h: int)
    ensures Entries(s, id, h) == Wrap(s.Limit(id) - h)
  {
    hide Wrap;
    if id == Prod {
      var x := s.size - 1 + Wrap(s.cons.tail);
      WrapParts(x, h);
      WrapParts(s.cons.tail, s.size - 1 - h);
      assert x - h == Wrap(s.cons.tail) + (s.size - 1 - h);
      assert s.cons.tail + (s.size - 1 - h) == s.Limit(Prod) - h;
    } else {
      WrapParts(s.prod.tail, h);
    }
  }

  /** It never exceeds the true distance, and equals it exactly for a recent head. */
  lemma EntriesExact<T>(s: State<T>, id: SideId, h: int)
    requires Ordered(s) && h <= s.Own(id).head
    ensures Entries(s, id, h) <= s.Limit(id) - h
    ensures Entries(s, id, h) == s.Limit(id) - h <==> Recent(s, id, h)
  {
    EntriesWrap(s, id, h);
    if Recent(s, id, h) {
      SmallWrap(s.Limit(id) - h);
    }
    hide Entries;
  }

  /** Tickets with equal images are a multiple of 2^32 apart. */
  lemma SameImage(a: int, b: int)
    ensures Wrap(a) == Wrap(b) <==> (a - b) % TWO32 == 0
  {
    WrapParts(a, b);
  }

  /** Two tickets less than 2^32 apart are equal when their images are. */
  lemma SameTicket(a: int, b: int)
    requires 0 <= a - b < TWO32 && Wrap(a) == Wrap(b)
    ensures a == b
  {
    SameImage(a, b);
  }

  // ---------------------------------------------------------------- frames

  /** Nothing moves backwards and what was enqueued stays. */
  ghost predicate Grows<T>(s: State<T>, t: State<T>) {
    && t.size == s.size && s.log <= t.log
    && s.prod.head <= t.prod.head && s.prod.tail <= t.prod.tail && s.prod.single == t.prod.single
    && s.cons.head <= t.cons.head && s.cons.tail <= t.cons.tail && s.cons.single == t.cons.single
  }

  lemma HoldsSame<T>(s: State<T>, t: State<T>, a: int, b: int)
    requires Ordered(s) && Ordered(t) && Grows(s, t) && t.slots == s.slots
    requires 0 <= a && b <= |s.log| && Holds(s, a, b)
    ensures Holds(t, a, b)
  {
    forall u | a <= u < b ensures t.slots[u % t.size] == t.log[u] {
      assert s.log[u] == t.log[u];
    }
  }

  /** Writing the slot of ticket `u` disturbs no ticket less than `size` away. */
  lemma HoldsWrite<T>(s: State<T>, t: State<T>, u: int, a: int, b: int)
    requires Ordered(s) && Ordered(t) && Grows(s, t) && t.log == s.log && 0 <= u < |s.log|
    requires t.slots == s.slots[u % s.size := s.log[u]]
    requires 0 <= a && b <= |s.log| && Holds(s, a, b) && u - s.size < a && b <= u + s.size
    ensures Holds(t, a, b)
    ensures b == u ==> Holds(t, a, u + 1)
  {
    forall x | a <= x < b ensures t.slots[x % t.size] == t.log[x] {
      assert s.slots[x % s.size] == s.log[x];
      if x != u {
        ModApart(x, u, s.size);
      }
    }
  }

  /** A thread that does not move is still in order when its side's tail has not passed it. */
  lemma ThreadKeeps<T>(s: State<T>, t: State<T>, th: Thread<T>)
    requires Ordered(s) && Ordered(t) && Grows(s, t) && ThreadOk(s, th)
    requires !th.Idle? && s.Own(th.side).single ==> t.Own(th.side) == s.Own(th.side)
    requires th.Copying? ==> t.Own(th.side).tail <= th.h
    requires th.Copying? && th.side == Prod ==> Holds(t, th.h, th.h + th.done)
    ensures ThreadOk(t, th)
  {
    hide Holds;
    if th.Copying? {
      assert s.log[th.h..th.h + th.k] == t.log[th.h..th.h + th.k];
      assert s.log[th.h..th.h + th.done] == t.log[th.h..th.h + th.done];
    }
  }

  /** A step that leaves slots and this side's tail alone leaves a thread in order. */
  lemma ThreadStill<T>(s: State<T>, t: State<T>, th: Thread<T>)
    requires Ordered(s) && Ordered(t) && Grows(s, t) && ThreadOk(s, th) && t.slots == s.slots
    requires !th.Idle? && s.Own(th.side).single ==> t.Own(th.side) == s.Own(th.side)
    requires th.Copying? ==> t.Own(th.side).tail <= th.h
    ensures ThreadOk(t, th)
  {
    hide Holds;
    if th.Copying? && th.side == Prod {
      HoldsSame(s, t, th.h, th.h + th.done);
    }
    ThreadKeeps(s, t, th);
  }

  // ---------------------------------------------------------------- a step inside one thread

  /** Thread `th` may take the place of thread `i`: it enters a side in single mode only if no
      other thread is inside. */
  ghost predicate MayEnter<T>(s: State<T>, i: nat, th: Thread<T>, id: SideId)
    requires i in s.threads
  {
    Active(th, id) ==>
      Active(s.threads[i], id) || (s.Own(id).single ==> forall j :: j in s.threads ==> !Active(s.threads[j], id))
  }

  lemma LocalThreads<T>(s: State<T>, i: nat, th: Thread<T>)
    requires Ordered(s) && ThreadsOk(s) && i in s.threads && ThreadOk(s, th) && Ordered(s.SetThread(i, th))
    requires forall j :: j in s.threads && s.threads[j].Copying? ==> s.Own(s.threads[j].side).tail <= s.threads[j].h
    requires !th.Copying?
    ensures ThreadsOk(s.SetThread(i, th))
  {
    hide Holds, Ordered, ThreadOk;
    var t := s.SetThread(i, th);
    forall j | j in t.threads ensures ThreadOk(t, t.threads[j]) {
      ThreadStill(s, t, if j != i then s.threads[j] else th);
    }
  }

  lemma LocalTiled<T>(s: State<T>, i: nat, th: Thread<T>, id: SideId)
    requires Tiled(s, id) && i in s.threads && !s.threads[i].Copying?
    ensures Tiled(s.SetThread(i, th), id)
  {
    var t := s.SetThread(i, th);
    forall x | s.Own(id).tail <= x < s.Own(id).head ensures Taken(t, id, x) {
      assert Taken(s, id, x);
      var j :| j in s.threads && Reserves(s.threads[j], id, x);
      assert Reserves(t.threads[j], id, x);
    }
  }

  lemma LocalAlone<T>(s: State<T>, i: nat, th: Thread<T>, id: SideId)
    requires Alone(s, id) && i in s.threads && MayEnter(s, i, th, id)
    ensures Alone(s.SetThread(i, th), id)
  {
  }

  lemma LocalApart<T>(s: State<T>, i: nat, th: Thread<T>)
    requires Apart(s) && i in s.threads && !th.Copying?
    ensures Apart(s.SetThread(i, th))
  {
    var t := s.SetThread(i, th);
    forall a, b | a in t.threads && b in t.threads && a != b ensures Clear(t.threads[a], t.threads[b]) {
      assert a in s.threads && b in s.threads;
      assert Clear(s.threads[a], s.threads[b]);
    }
  }

  lemma CopyingBehindTail<T>(s: State<T>, j: nat)
    requires Inv(s) && j in s.threads && s.threads[j].Copying?
    ensures s.Own(s.threads[j].side).tail <= s.threads[j].h
  {
    hide Holds, Tiled, Apart, Alone;
    assert ThreadOk(s, s.threads[j]);
  }

  /** Steps that only move thread `i` to a place without a reservation. */
  lemma LocalKeeps<T>(s: State<T>, i: nat, th: Thread<T>)
    requires Inv(s) && i in s.threads && !s.threads[i].Copying? && !th.Copying?
    requires ThreadOk(s, th) && MayEnter(s, i, th, Prod) && MayEnter(s, i, th, Cons)
    ensures Inv(s.SetThread(i, th))
  {
    hide Holds, ThreadOk, ThreadsOk, Tiled, Apart, Alone, MayEnter;
    var t := s.SetThread(i, th);
    forall j | j in s.threads && s.threads[j].Copying? ensures s.Own(s.threads[j].side).tail <= s.threads[j].h {
      CopyingBehindTail(s, j);
    }
    LocalThreads(s, i, th);
    HoldsSame(s, t, s.cons.tail, s.prod.tail);
    LocalTiled(s, i, th, Prod);
    LocalTiled(s, i, th, Cons);
    LocalAlone(s, i, th, Prod);
    LocalAlone(s, i, th, Cons);
    LocalApart(s, i, th);
  }

  /** The reservation that the tail waits for can always move on. */
  lemma SomeoneMoves<T>(s: State<T>, id: SideId) returns (i: nat)
    requires Inv(s) && s.Own(id).tail < s.Own(id).head
    ensures i in s.threads && s.threads[i].Copying? && s.threads[i].side == id && s.threads[i].h == s.Own(id).tail
    ensures Enabled(s, i, EvCopy) || Enabled(s, i, EvPublish)
  {
    assert Taken(s, id, s.Own(id).tail);
    i :| i in s.threads && Reserves(s.threads[i], id, s.Own(id).tail);
    assert ThreadOk(s, s.threads[i]);
  }

  lemma Quiescent<T>(s: State<T>, id: SideId)
    requires Inv(s) && (forall j :: j in s.threads ==> !Active(s.threads[j], id))
    ensures s.Own(id).tail == s.Own(id).head
  {
    hide Wrap, Enabled;
    if s.Own(id).tail < s.Own(id).head {
      var i := SomeoneMoves(s, id);
      assert false;
    }
  }

  lemma BeginInv<T>(s: State<T>, i: nat, id: SideId, n: u32, fixed: bool, vals: seq<T>)
    requires Inv(s) && Enabled(s, i, EvBegin(id, n, fixed, vals))
    ensures Inv(Begin(s, i, id, n, fixed, vals))
  {
    if s.Own(id).single {
      Quiescent(s, id);
    }
    LocalKeeps(s, i, Loaded(id, n, fixed, vals, s.Own(id).head));
  }

  lemma LoadTailInv<T>(s: State<T>, i: nat)
    requires Inv(s) && Enabled(s, i, EvLoadTail)
    ensures Inv(LoadTail(s, i))
  {
    var th := s.threads[i];
    assert ThreadOk(s, th);
    EntriesExact(s, th.side, th.h);
    hide Inv, Entries;
    LoadTailLocal(s, i);
  }

  lemma LoadTailLocal<T>(s: State<T>, i: nat)
    requires Inv(s) && Enabled(s, i, EvLoadTail) && ThreadOk(s, s.threads[i])
    requires Entries(s, s.threads[i].side, s.threads[i].h) <= s.Limit(s.threads[i].side) - s.threads[i].h
    ensures Inv(LoadTail(s, i))
  {
    hide Entries, Wrap, Holds, Tiled, Apart;
    var th := s.threads[i];
    var k := Granted(th.n, Entries(s, th.side, th.h), th.fixed);
    LocalKeeps(s, i, if k == 0 then Idle else Checked(th.side, th.n, th.fixed, th.vals, th.h, k));
  }

  // ---------------------------------------------------------------- moving the head

  /** The compare-and-swap succeeds only if the head is still where it was read. */
  lemma HeadIsCurrent<T>(s: State<T>, i: nat)
    requires Inv(s) && Enabled(s, i, EvMoveHead)
    requires var th := s.threads[i]; s.Own(th.side).single || Wrap(s.Own(th.side).head) == Wrap(th.h)
    ensures s.threads[i].h == s.Own(s.threads[i].side).head
  {
    var th := s.threads[i];
    assert ThreadOk(s, th);
    if !s.Own(th.side).single {
      SameImage(s.Own(th.side).head, th.h);
    }
  }

  /** The assumption cannot be weakened: a swap that succeeds on an older head breaks the ring. */
  lemma SwapNeedsAwake<T>(s: State<T>, i: nat)
    requires Inv(s) && i in s.threads && s.threads[i].Checked? && !s.Own(s.threads[i].side).single
    requires s.threads[i].side == Prod ==> |s.threads[i].vals| == s.threads[i].n >= s.threads[i].k
    requires Wrap(s.Own(s.threads[i].side).head) == Wrap(s.threads[i].h)
    ensures Inv(MoveHead(s, i)) <==> Awake(s, s.threads[i].side, s.threads[i].h)
  {
    hide Inv, MoveHead, Wrap, Awake;
    if Awake(s, s.threads[i].side, s.threads[i].h) {
      MoveHeadInv(s, i);
    } else {
      WholeTurns(s, i);
      OlderHead(s, i);
    }
  }

  lemma WholeTurns<T>(s: State<T>, i: nat)
    requires Inv(s) && i in s.threads && s.threads[i].Checked? && !Awake(s, s.threads[i].side, s.threads[i].h)
    ensures s.Own(s.threads[i].side).head >= s.threads[i].h + TWO32 && s.size <= TWO32
  {
    SmallSize(s.size);
    assert ThreadOk(s, s.threads[i]);
    hide Wrap, Holds, Tiled, Apart, Alone, ThreadsOk;
  }

  lemma OlderHead<T>(s: State<T>, i: nat)
    requires Inv(s) && i in s.threads && s.threads[i].Checked?
    requires s.threads[i].side == Prod ==> |s.threads[i].vals| == s.threads[i].n >= s.threads[i].k
    requires Wrap(s.Own(s.threads[i].side).head) == Wrap(s.threads[i].h)
    requires s.Own(s.threads[i].side).head >= s.threads[i].h + TWO32 && s.size <= TWO32
    ensures !Inv(MoveHead(s, i))
  {
    hide Wrap, Holds, Tiled, Apart, Alone;
    var t, th := MoveHead(s, i), s.threads[i];
    assert !(Ordered(t) && ThreadOk(t, t.threads[i]));
  }

  ghost predicate Wins<T>(s: State<T>, i: nat) {
    && Enabled(s, i, EvMoveHead)
    && s.threads[i].h == s.Own(s.threads[i].side).head
    && (s.Own(s.threads[i].side).single || Wrap(s.Own(s.threads[i].side).head) == Wrap(s.threads[i].h))
  }

  lemma WinOrdered<T>(s: State<T>, i: nat)
    requires Inv(s) && Wins(s, i)
    ensures Ordered(MoveHead(s, i)) && Grows(s, MoveHead(s, i))
  {
    assert ThreadOk(s, s.threads[i]);
    hide Wrap, Holds, Tiled, Apart, Alone;
    var t := MoveHead(s, i);
    assert s.log == t.log[..|s.log|];
    assert s.log[..s.cons.tail] == t.log[..s.cons.tail];
  }

  lemma WinThreads<T>(s: State<T>, i: nat)
    requires Inv(s) && Wins(s, i) && Ordered(MoveHead(s, i)) && Grows(s, MoveHead(s, i))
    ensures ThreadsOk(MoveHead(s, i))
  {
    assert ThreadOk(s, s.threads[i]);
    hide Wrap, Holds, Tiled, Apart;
    var t, th := MoveHead(s, i), s.threads[i];
    forall j | j in t.threads ensures ThreadOk(t, t.threads[j]) {
      if j != i {
        assert ThreadOk(s, s.threads[j]);
        ThreadStill(s, t, s.threads[j]);
      } else {
        HoldsNone(t, th.h);
        assert th.side == Prod ==> th.vals[..th.k] == t.log[th.h..th.h + th.k];
      }
    }
  }

  lemma HoldsNone<T>(s: State<T>, a: int)
    requires Ordered(s) && 0 <= a <= |s.log|
    ensures Holds(s, a, a)
  {
  }

  lemma WinApart<T>(s: State<T>, i: nat)
    requires Inv(s) && Wins(s, i)
    ensures Apart(MoveHead(s, i))
  {
    hide Wrap, Holds, Tiled, Alone;
    var t := MoveHead(s, i);
    forall a, b | a in t.threads && b in t.threads && a != b ensures Clear(t.threads[a], t.threads[b]) {
      assert ThreadOk(s, s.threads[a]) && ThreadOk(s, s.threads[b]);
      assert Clear(s.threads[a], s.threads[b]);
    }
  }

  lemma WinTiled<T>(s: State<T>, i: nat, id: SideId)
    requires Tiled(s, id) && Wins(s, i)
    ensures Tiled(MoveHead(s, i), id)
  {
    hide Wrap;
    var t := MoveHead(s, i);
    forall x | t.Own(id).tail <= x < t.Own(id).head ensures Taken(t, id, x) {
      if x < s.Own(id).head {
        assert Taken(s, id, x);
        var j :| j in s.threads && Reserves(s.threads[j], id, x);
        assert Reserves(t.threads[j], id, x);
      } else {
        assert Reserves(t.threads[i], id, x);
      }
    }
  }

  lemma WinShape<T>(s: State<T>, i: nat)
    requires Inv(s) && Wins(s, i)
    ensures var t := MoveHead(s, i);
            Apart(t) && Tiled(t, Prod) && Tiled(t, Cons) && Alone(t, Prod) && Alone(t, Cons)
  {
    hide Wrap, Holds, ThreadsOk, Apart, Tiled;
    WinApart(s, i);
    WinTiled(s, i, Prod);
    WinTiled(s, i, Cons);
  }

  lemma MoveHeadInv<T>(s: State<T>, i: nat)
    requires Inv(s) && Enabled(s, i, EvMoveHead)
    ensures Inv(MoveHead(s, i))
  {
    var th := s.threads[i];
    var own := s.Own(th.side);
    if own.single || Wrap(own.head) == Wrap(th.h) {
      HeadIsCurrent(s, i);
      WinOrdered(s, i);
      WinThreads(s, i);
      WinShape(s, i);
      HoldsSame(s, MoveHead(s, i), s.cons.tail, s.prod.tail);
      hide Wrap, Holds, ThreadsOk, Apart, Tiled, Alone;
    } else {
      hide Wrap, Holds, Apart, Tiled, Alone;
      assert ThreadOk(s, th);
      LocalKeeps(s, i, Loaded(th.side, th.n, th.fixed, th.vals, own.head));
    }
  }

  // ---------------------------------------------------------------- copying

  lemma CopyOrdered<T>(s: State<T>, i: nat)
    requires Inv(s) && Enabled(s, i, EvCopy)
    ensures Ordered(Copy(s, i)) && Grows(s, Copy(s, i))
  {
    hide Holds, Tiled, Apart, Alone, ThreadsOk;
  }

  /** An enqueuing thread writes the slot of its ticket, a dequeuing one reads it. */
  lemma CopySlot<T>(s: State<T>, i: nat)
    requires Inv(s) && Enabled(s, i, EvCopy)
    ensures var th := s.threads[i];
            && 0 <= th.h + th.done < |s.log| && Index(th.h, th.done, s.size) == (th.h + th.done) % s.size
            && (th.side == Prod ==> th.vals[th.done] == s.log[th.h + th.done])
            && (th.side == Cons ==> s.slots[(th.h + th.done) % s.size] == s.log[th.h + th.done])
  {
    hide Wrap, Tiled, Apart, Alone, Index;
    var th := s.threads[i];
    assert ThreadOk(s, th);
    SameSlot(th.h, th.done, s.size);
    if th.side == Prod {
      assert s.log[th.h..th.h + th.k][th.done] == s.log[th.h + th.done];
    }
  }

  lemma CopyOther<T>(s: State<T>, i: nat, j: nat)
    requires Inv(s) && Enabled(s, i, EvCopy) && Ordered(Copy(s, i)) && Grows(s, Copy(s, i))
    requires j in s.threads && j != i
    ensures ThreadOk(Copy(s, i), s.threads[j])
  {
    CopySlot(s, i);
    hide Wrap, Holds, Tiled, Apart, Alone, Index;
    var t, th, tj := Copy(s, i), s.threads[i], s.threads[j];
    assert ThreadOk(s, th) && ThreadOk(s, tj);
    if tj.Copying? && tj.side == Prod {
      if th.side == Prod {
        HoldsWrite(s, t, th.h + th.done, tj.h, tj.h + tj.done);
      } else {
        HoldsSame(s, t, tj.h, tj.h + tj.done);
      }
    }
    ThreadKeeps(s, t, tj);
  }

  lemma CopyIn<T>(s: State<T>, i: nat)
    requires Inv(s) && Enabled(s, i, EvCopy) && Ordered(Copy(s, i)) && Grows(s, Copy(s, i)) && s.threads[i].side == Prod
    ensures ThreadOk(Copy(s, i), Copy(s, i).threads[i]) && Holds(Copy(s, i), s.cons.tail, s.prod.tail)
  {
    hide Wrap, Holds, Tiled, Apart, Alone, Index;
    CopySlot(s, i);
    var t, th := Copy(s, i), s.threads[i];
    var u := th.h + th.done;
    assert ThreadOk(s, th);
    HoldsWrite(s, t, u, s.cons.tail, s.prod.tail);
    HoldsWrite(s, t, u, th.h, u);
  }

  lemma CopyOut<T>(s: State<T>, i: nat)
    requires Inv(s) && Enabled(s, i, EvCopy) && Ordered(Copy(s, i)) && Grows(s, Copy(s, i)) && s.threads[i].side == Cons
    ensures ThreadOk(Copy(s, i), Copy(s, i).threads[i]) && Holds(Copy(s, i), s.cons.tail, s.prod.tail)
  {
    hide Wrap, Holds, Tiled, Apart, Alone, Index;
    CopySlot(s, i);
    var t, th := Copy(s, i), s.threads[i];
    var u := th.h + th.done;
    assert ThreadOk(s, th);
    HoldsSame(s, t, s.cons.tail, s.prod.tail);
    assert s.log[th.h..u] + [s.log[u]] == s.log[th.h..u + 1];
  }

  lemma CopyOwn<T>(s: State<T>, i: nat)
    requires Inv(s) && Enabled(s, i, EvCopy) && Ordered(Copy(s, i)) && Grows(s, Copy(s, i))
    ensures ThreadOk(Copy(s, i), Copy(s, i).threads[i]) && Holds(Copy(s, i), s.cons.tail, s.prod.tail)
  {
    hide Inv, Holds, ThreadOk, Ordered, Copy, Grows;
    if s.threads[i].side == Prod {
      CopyIn(s, i);
    } else {
      CopyOut(s, i);
    }
  }

  lemma CopyThreads<T>(s: State<T>, i: nat)
    requires Inv(s) && Enabled(s, i, EvCopy) && Ordered(Copy(s, i)) && Grows(s, Copy(s, i))
    ensures ThreadsOk(Copy(s, i)) && Holds(Copy(s, i), s.cons.tail, s.prod.tail)
  {
    hide Wrap, Inv, Holds, Index, ThreadOk, Ordered;
    CopyOwn(s, i);
    var t := Copy(s, i);
    forall j | j in t.threads ensures ThreadOk(t, t.threads[j]) {
      if j != i {
        CopyOther(s, i, j);
      }
    }
  }

  lemma CopyShape<T>(s: State<T>, i: nat)
    requires Inv(s) && Enabled(s, i, EvCopy)
    ensures var t := Copy(s, i);
            Apart(t) && Tiled(t, Prod) && Tiled(t, Cons) && Alone(t, Prod) && Alone(t, Cons)
  {
    hide Wrap, Holds, ThreadsOk, Index;
    var t := Copy(s, i);
    forall a, b | a in t.threads && b in t.threads && a != b ensures Clear(t.threads[a], t.threads[b]) {
      assert Clear(s.threads[a], s.threads[b]);
    }
    forall id, x | t.Own(id).tail <= x < t.Own(id).head ensures Taken(t, id, x) {
      assert Taken(s, id, x);
      var j :| j in s.threads && Reserves(s.threads[j], id, x);
      assert Reserves(t.threads[j], id, x);
    }
  }

  lemma CopyInv<T>(s: State<T>, i: nat)
    requires Inv(s) && Enabled(s, i, EvCopy)
    ensures Inv(Copy(s, i))
  {
    CopyOrdered(s, i);
    CopyThreads(s, i);
    CopyShape(s, i);
    hide Wrap, Holds, ThreadsOk, Apart, Tiled, Alone, Index;
  }

  // ---------------------------------------------------------------- publishing

  /** The wait ends only when every earlier reservation has been published. */
  lemma OurTurn<T>(s: State<T>, i: nat)
    requires Inv(s) && MayPublish(s, i)
    ensures s.threads[i].h == s.Own(s.threads[i].side).tail
  {
    var th := s.threads[i];
    assert ThreadOk(s, th);
    if !s.Own(th.side).single {
      SameTicket(th.h, s.Own(th.side).tail);
    }
  }

  lemma PublishOrdered<T>(s: State<T>, i: nat)
    requires Inv(s) && MayPublish(s, i) && s.threads[i].h == s.Own(s.threads[i].side).tail
    ensures var t := Publish(s, i);
            Ordered(t) && Grows(s, t) && Holds(t, t.cons.tail, t.prod.tail)
  {
    var t, th := Publish(s, i), s.threads[i];
    assert ThreadOk(s, th);
    hide Wrap, Tiled, Apart, Alone;
    if th.side == Cons {
      assert s.log[..th.h] + s.log[th.h..th.h + th.k] == s.log[..th.h + th.k];
    }
  }

  lemma PublishThreads<T>(s: State<T>, i: nat)
    requires Inv(s) && MayPublish(s, i) && s.threads[i].h == s.Own(s.threads[i].side).tail
    requires Ordered(Publish(s, i)) && Grows(s, Publish(s, i))
    ensures ThreadsOk(Publish(s, i))
  {
    hide Wrap, Holds, Tiled;
    var t, th := Publish(s, i), s.threads[i];
    assert ThreadOk(s, th);
    forall j | j in t.threads ensures ThreadOk(t, t.threads[j]) {
      var tj := s.threads[j];
      assert ThreadOk(s, tj);
      if j != i {
        assert Clear(th, tj);
        ThreadStill(s, t, tj);
      }
    }
  }

  lemma PublishShape<T>(s: State<T>, i: nat)
    requires Inv(s) && MayPublish(s, i) && s.threads[i].h == s.Own(s.threads[i].side).tail
    ensures var t := Publish(s, i);
            Apart(t) && Tiled(t, Prod) && Tiled(t, Cons) && Alone(t, Prod) && Alone(t, Cons)
  {
    hide Wrap, Holds, ThreadsOk;
    var t := Publish(s, i);
    forall a, b | a in t.threads && b in t.threads && a != b ensures Clear(t.threads[a], t.threads[b]) {
      assert Clear(s.threads[a], s.threads[b]);
    }
    forall id, x | t.Own(id).tail <= x < t.Own(id).head ensures Taken(t, id, x) {
      assert ThreadsOk(s);
      assert Taken(s, id, x);
      var j :| j in s.threads && Reserves(s.threads[j], id, x);
      assert Reserves(t.threads[j], id, x);
    }
  }

  lemma PublishInv<T>(s: State<T>, i: nat)
    requires Inv(s) && MayPublish(s, i)
    ensures Inv(Publish(s, i))
  {
    OurTurn(s, i);
    PublishOrdered(s, i);
    PublishThreads(s, i);
    PublishShape(s, i);
    hide Wrap, Holds, ThreadsOk, Apart, Tiled, Alone;
  }

  // ---------------------------------------------------------------- every run

  lemma InitInv<T>(s: State<T>)
    requires Init(s)
    ensures Inv(s)
  {
  }

  lemma StepInv<T>(s: State<T>, i: nat, ev: Event<T>)
    requires Inv(s) && Enabled(s, i, ev)
    ensures Inv(Do(s, i, ev))
  {
    hide Inv;
    match ev
    case EvBegin(id, n, fixed, vals) => BeginInv(s, i, id, n, fixed, vals);
    case EvLoadTail => LoadTailInv(s, i);
    case EvMoveHead => MoveHeadInv(s, i);
    case EvCopy => CopyInv(s, i);
    case EvPublish => PublishInv(s, i);
  }

  lemma {:induction false} RunInv<T(!new)>(r: seq<State<T>>, k: nat)
    requires Run(r) && k < |r|
    ensures Inv(r[k])
  {
    hide Inv, Init, Enabled, Do;
    if k == 0 {
      InitInv(r[0]);
    } else {
      RunInv(r, k - 1);
      assert Next(r[k - 1], r[k - 1 + 1]);
      var i, ev :| Enabled(r[k - 1], i, ev) && r[k] == Do(r[k - 1], i, ev);
      StepInv(r[k - 1], i, ev);
    }
  }

  // ---------------------------------------------------------------- what it means

  /** In every run the indices keep their order and distance, the tickets between the tail
      and the head of a side are each reserved by exactly one thread, and the elements
      dequeued so far are the first ones enqueued, in the same order. */
  lemma RingSafe<T(!new)>(r: seq<State<T>>, k: nat, id: SideId, t: int)
    requires Run(r) && k < |r|
    ensures var s := r[k];
            && 0 <= s.cons.tail <= s.cons.head <= s.prod.tail <= s.prod.head <= s.cons.tail + (s.size - 1)
            && |s.log| == s.prod.head && s.out == s.log[..s.cons.tail]
            && (s.Own(id).tail <= t < s.Own(id).head ==>
                  exists i :: i in s.threads && Reserves(s.threads[i], id, t)
                              && forall j :: j in s.threads && Reserves(s.threads[j], id, t) ==> j == i)
  {
    RunInv(r, k);
    hide Run, Holds, ThreadsOk, Alone;
    var s := r[k];
    if s.Own(id).tail <= t < s.Own(id).head {
      assert Taken(s, id, t);
      var i :| i in s.threads && Reserves(s.threads[i], id, t);
      forall j | j in s.threads && Reserves(s.threads[j], id, t) ensures j == i {
        var apart := Clear(s.threads[i], s.threads[j]);
      }
    }
  }

  lemma StepGrows<T>(s: State<T>, i: nat, ev: Event<T>)
    requires Inv(s) && Enabled(s, i, ev)
    ensures Grows(s, Do(s, i, ev)) && s.out <= Do(s, i, ev).out
  {
    assert ThreadOk(s, s.threads[i]);
    if ev.EvMoveHead? {
      MoveHeadGrows(s, i);
    } else if ev.EvPublish? {
      OurTurn(s, i);
    }
    hide Wrap, Holds, Apart, Tiled, Alone;
  }

  lemma MoveHeadGrows<T>(s: State<T>, i: nat)
    requires Inv(s) && Enabled(s, i, EvMoveHead)
    ensures Grows(s, MoveHead(s, i)) && s.out == MoveHead(s, i).out
  {
    var th := s.threads[i];
    if s.Own(th.side).single || Wrap(s.Own(th.side).head) == Wrap(th.h) {
      HeadIsCurrent(s, i);
      WinOrdered(s, i);
    }
    hide Wrap, Inv;
  }

  /** An element keeps the ticket it was enqueued with, and nothing dequeued is taken back. */
  lemma {:induction false} HistoryFixed<T(!new)>(r: seq<State<T>>, j: nat, k: nat)
    requires Run(r) && j <= k < |r|
    ensures r[j].log <= r[k].log && r[j].out <= r[k].out
  {
    hide Init, Enabled, Do, Inv;
    if j < k {
      HistoryFixed(r, j, k - 1);
      RunInv(r, k - 1);
      assert Next(r[k - 1], r[k - 1 + 1]);
      var i, ev :| Enabled(r[k - 1], i, ev) && r[k] == Do(r[k - 1], i, ev);
      StepGrows(r[k - 1], i, ev);
    }
  }

  /** An operation on a bounded queue: nothing, an atomic bulk enqueue or an atomic bulk dequeue. */
  datatype QueueOp<T> = Stutter | Enqueue(xs: seq<T>) | Dequeue(k: nat)

  ghost predicate QueueStep<T>(q: seq<T>, op: QueueOp<T>, q': seq<T>, cap: int) {
    |q'| <= cap &&
    match op
    case Stutter => q' == q
    case Enqueue(xs) => q' == q + xs
    case Dequeue(k) => k <= |q| && q' == q[k..]
  }

  /** Which queue operation a step performs: an enqueue takes effect when the tail is
      stored, a dequeue when the head moves. */
  ghost function Effect<T>(s: State<T>, i: nat, ev: Event<T>): QueueOp<T>
    requires Enabled(s, i, ev)
  {
    var th := s.threads[i];
    if ev.EvPublish? && th.side == Prod then Enqueue(th.vals)
    else if ev.EvMoveHead? && th.side == Cons && Do(s, i, ev).cons.head != s.cons.head then Dequeue(th.k)
    else Stutter
  }

  lemma PublishRefines<T>(s: State<T>, i: nat)
    requires Inv(s) && MayPublish(s, i)
    ensures var t := Publish(s, i);
            && 0 <= t.cons.head <= t.prod.tail <= |t.log|
            && t.Queue() == s.Queue() + (if s.threads[i].side == Prod then s.threads[i].vals else [])
  {
    OurTurn(s, i);
    var th := s.threads[i];
    assert ThreadOk(s, th);
    hide Wrap, Holds, Tiled, Apart, Alone;
    if th.side == Prod {
      assert s.log[s.cons.head..th.h] + s.log[th.h..th.h + th.k] == s.log[s.cons.head..th.h + th.k];
    }
  }

  lemma MoveHeadRefines<T>(s: State<T>, i: nat)
    requires Inv(s) && Enabled(s, i, EvMoveHead)
    ensures var t := MoveHead(s, i);
            && 0 <= t.cons.head <= t.prod.tail <= |t.log|
            && (t.cons.head == s.cons.head ==> t.Queue() == s.Queue())
            && (t.cons.head != s.cons.head ==>
                  && s.threads[i].side == Cons && s.threads[i].k <= |s.Queue()|
                  && t.Queue() == s.Queue()[s.threads[i].k..])
  {
    var t, th := MoveHead(s, i), s.threads[i];
    assert ThreadOk(s, th);
    if s.Own(th.side).single || Wrap(s.Own(th.side).head) == Wrap(th.h) {
      HeadIsCurrent(s, i);
    }
    hide Wrap, Holds, Tiled, Apart, Alone;
    assert t.log[t.cons.head..t.prod.tail] == s.log[t.cons.head..t.prod.tail];
  }

  /** Every step refines a FIFO queue of capacity size - 1. */
  lemma StepRefines<T>(s: State<T>, i: nat, ev: Event<T>)
    requires Inv(s) && Enabled(s, i, ev)
    ensures var t := Do(s, i, ev);
            && Inv(t) && 0 <= t.cons.head <= t.prod.tail <= |t.log|
            && QueueStep(s.Queue(), Effect(s, i, ev), t.Queue(), s.size - 1)
  {
    StepInv(s, i, ev);
    hide Wrap, Holds, Tiled, Apart, Alone, ThreadsOk;
    if ev.EvPublish? {
      PublishRefines(s, i);
    } else if ev.EvMoveHead? {
      MoveHeadRefines(s, i);
    }
  }

  /** What a dequeuing thread returns is what left the queue when it moved the head. */
  lemma DequeueReturns<T>(s: State<T>, i: nat)
    requires Inv(s) && MayPublish(s, i) && s.threads[i].side == Cons
    ensures var th := s.threads[i];
            th.vals == s.log[th.h..th.h + th.k] && Publish(s, i).out == s.out + th.vals
            && |s.out| == th.h
  {
    assert ThreadOk(s, s.threads[i]);
    OurTurn(s, i);
  }

  // ---------------------------------------------------------------- returning 0, and progress

  /** How many of `n` elements a call gets when `a` are available: all or nothing for a bulk call,
      as many as there are for a burst. */
  function Share(n: u32, a: int, fixed: bool): int {
    if n <= a then n else if fixed then 0 else a
  }

  /** Exactly that many are granted, counted from the head that was read; with none the call
      returns. */
  lemma LoadTailExact<T>(s: State<T>, i: nat)
    requires Inv(s) && Enabled(s, i, EvLoadTail) && Recent(s, s.threads[i].side, s.threads[i].h)
    ensures var th := s.threads[i];
            var k := Share(th.n, s.Limit(th.side) - th.h, th.fixed);
            && 0 <= k <= th.n
            && LoadTail(s, i)
               == s.SetThread(i, if k == 0 then Idle else Checked(th.side, th.n, th.fixed, th.vals, th.h, k))
  {
    var th := s.threads[i];
    assert ThreadOk(s, th);
    EntriesExact(s, th.side, th.h);
    hide Entries;
  }

  /** A call returns 0 only if fewer than `n` entries (or none, for a burst) were available
      at the moment it read the opposite tail, unless its head is 2^32 tickets old. */
  lemma ZeroOnlyIfShort<T>(s: State<T>, i: nat)
    requires Inv(s) && Enabled(s, i, EvLoadTail) && LoadTail(s, i).threads[i].Idle?
    requires Recent(s, s.threads[i].side, s.threads[i].h)
    ensures var th := s.threads[i];
            if th.fixed then th.n == 0 || s.Avail(th.side) < th.n else th.n == 0 || s.Avail(th.side) == 0
  {
    var th := s.threads[i];
    assert ThreadOk(s, th);
    EntriesExact(s, th.side, th.h);
  }

  /** Enqueueing `n` elements that leave room for the ones inside the ring fails only while
      some thread is inside a dequeue, between its head move and its tail update. */
  lemma FailsOnlyInDequeue<T>(s: State<T>, i: nat) returns (j: nat)
    requires Inv(s) && Enabled(s, i, EvLoadTail) && LoadTail(s, i).threads[i].Idle?
    requires s.threads[i].side == Prod && s.threads[i].n > 0 && Recent(s, Prod, s.threads[i].h)
    requires s.threads[i].n + (s.prod.head - s.cons.head) <= s.size - 1
    ensures j in s.threads && s.threads[j].Copying? && s.threads[j].side == Cons
  {
    ZeroOnlyIfShort(s, i);
    j := SomeoneMoves(s, Cons);
  }

  /** `jring_count`, both tails read at one moment. */
  function Count<T>(s: State<T>): nat
    requires s.size > 0
  {
    var c := Wrap(Wrap(s.prod.tail) - Wrap(s.cons.tail)) % s.size;
    if c > s.size - 1 then s.size - 1 else c
  }

  /** It counts the entries that are published and not yet given back. */
  lemma CountExact<T>(s: State<T>)
    requires Inv(s)
    ensures |s.Queue()| <= Count(s) == s.prod.tail - s.cons.tail <= s.size - 1
  {
    hide Holds, ThreadsOk, Apart, Tiled, Alone;
    var n := s.prod.tail - s.cons.tail;
    SmallSize(s.size);
    Distance(s.prod.tail, s.cons.tail);
    ModUnique(n, 0, n, s.size);
  }

  lemma SmallSize(size: nat)
    requires size > 0 && TWO32 % size == 0
    ensures size <= TWO32
  {
    if size > TWO32 {
      ModUnique(TWO32, 0, TWO32, size);
      assert false;
    }
  }
}

/** `jring2`, the single-producer single-consumer ring with a done flag per slot. One writer
    and one reader run interleaved at every access to shared memory; a `memcpy` of an element
    is not atomic. */
module Jring2 {
  import opened Words

  const TWO64: int := TWO32 * TWO32

  /** The bytes of a slot: half-written while a `memcpy` into it runs. */
  datatype Data<T> = Torn | Whole(v: T)

  datatype Slot<T> = Slot(dd: bool, data: Data<T>)

  /** Where the writer stands in `jring2_enqueue_bulk` (a single enqueue has one object):
      loading `read_idx`, or inserting object `i`: before the copy, inside it, after it, and
      after the store to `dd`. */
  datatype Writer<T> =
    | WIdle
    | WRead(objs: seq<T>)
    | WStart(objs: seq<T>, i: nat)
    | WCopy(objs: seq<T>, i: nat)
    | WDone(objs: seq<T>, i: nat)
    | WFlagged(objs: seq<T>, i: nat)

  /** Where the reader stands in `jring2_dequeue_burst`, with `left` elements to go. */
  datatype Reader<T> =
    | RIdle
    | RCheck(left: nat)
    | RCopy(left: nat, seen: Data<T>)
    | RDone(left: nat, got: Data<T>)
    | RCleared(left: nat)

  /** `enq` lists the elements whose `dd` was set, `out` the elements taken out. */
  datatype State<T> = State(cnt: nat, writeIdx: nat, freeCnt: nat, readIdx: nat, slots: seq<Slot<T>>,
                            w: Writer<T>, r: Reader<T>, enq: seq<T>, out: seq<Data<T>>)
  {
    /** The abstract queue. */
    function Queue(): seq<T>
      requires |out| <= |enq|
    {
      enq[|out|..]
    }

    /** How often `write_idx` and `read_idx` have been advanced. */
    function Written(): int {
      if w.WFlagged? then |enq| - 1 else |enq|
    }

    function Read(): int {
      if r.RCleared? then |out| - 1 else |out|
    }
  }

  // ---------------------------------------------------------------- the writer

  /** The circular arithmetic on 64-bit values. */
  function FreeCount(readIdx: nat, writeIdx: nat, cnt: nat): nat
    requires cnt > 0
  {
    (readIdx - writeIdx + cnt - 1) % TWO64 % cnt
  }

  predicate Sized<T>(s: State<T>) {
    s.cnt > 0 && |s.slots| == s.cnt && s.writeIdx < s.cnt && s.readIdx < s.cnt
  }

  /** One step of the writer; `objs` is the call it makes when idle. */
  function WriterStep<T>(s: State<T>, objs: seq<T>): State<T>
    requires Sized(s)
  {
    match s.w
    case WIdle =>
      if objs == [] then s
      else if s.freeCnt < |objs| then s.(w := WRead(objs)) else s.(w := WStart(objs, 0))
    case WRead(os) =>
      var free := FreeCount(s.readIdx, s.writeIdx, s.cnt);
      s.(freeCnt := free, w := if free < |os| then WIdle else WStart(os, 0))
    case WStart(os, i) => s.(slots := s.slots[s.writeIdx := s.slots[s.writeIdx].(data := Torn)], w := WCopy(os, i))
    case WCopy(os, i) =>
      if i >= |os| then s
      else s.(slots := s.slots[s.writeIdx := s.slots[s.writeIdx].(data := Whole(os[i]))], w := WDone(os, i))
    case WDone(os, i) =>
      if i >= |os| then s
      else
        s.(slots := s.slots[s.writeIdx := s.slots[s.writeIdx].(dd := true)], w := WFlagged(os, i),
           enq := s.enq + [os[i]])
    case WFlagged(os, i) =>
      var t := s.(writeIdx := (s.writeIdx + 1) % s.cnt);
      if i + 1 < |os| then t.(w := WStart(os, i + 1))
      else t.(w := WIdle, freeCnt := (s.freeCnt - |os|) % TWO64)
  }

  /** `jring2_count`, called by the writer between operations. */
  function Count<T>(s: State<T>): (State<T>, int)
    requires Sized(s)
  {
    var free := FreeCount(s.readIdx, s.writeIdx, s.cnt);
    (s.(freeCnt := free), s.cnt - 1 - free)
  }

  // ---------------------------------------------------------------- the reader

  /** One step of the reader; `n` is the burst it asks for when idle. */
  function ReaderStep<T(==)>(s: State<T>, n: nat): State<T>
    requires Sized(s)
  {
    match s.r
    case RIdle => if n == 0 then s else s.(r := RCheck(n))
    case RCheck(left) =>
      if !s.slots[s.readIdx].dd then s.(r := RIdle) else s.(r := RCopy(left, s.slots[s.readIdx].data))
    case RCopy(left, seen) =>
      s.(r := RDone(left, if s.slots[s.readIdx].data == seen then seen else Torn))
    case RDone(left, got) =>
      s.(slots := s.slots[s.readIdx := s.slots[s.readIdx].(dd := false)], r := RCleared(left), out := s.out + [got])
    case RCleared(left) =>
      s.(readIdx := (s.readIdx + 1) % s.cnt, r := if left > 1 then RCheck(left - 1) else RIdle)
  }

  /** Any step of the two threads. */
  ghost predicate Next<T(!new)>(s: State<T>, t: State<T>) {
    Sized(s) &&
    (|| (exists objs :: t == WriterStep(s, objs))
     || (s.w.WIdle? && t == Count(s).0)
     || (exists n :: t == ReaderStep(s, n)))
  }

  /** `jring2_init`. */
  ghost predicate Init<T>(s: State<T>) {
    && s.cnt > 0 && TWO64 % s.cnt == 0 && |s.slots| == s.cnt && s.writeIdx == s.readIdx == 0 && s.freeCnt == s.cnt - 1
    && (forall i :: 0 <= i < s.cnt ==> !s.slots[i].dd)
    && s.w == WIdle && s.r == RIdle && s.enq == [] && s.out == []
  }

  ghost predicate Run<T(!new)>(r: seq<State<T>>) {
    && r != [] && Init(r[0])
    && forall k :: 0 <= k < |r| - 1 ==> Next(r[k], r[k + 1])
  }

  // ---------------------------------------------------------------- invariant

  /** Objects of the current call that are already flagged. */
  function Flagged<T>(w: Writer<T>): nat {
    match w
    case WIdle => 0
    case WRead(_) => 0
    case WStart(_, i) => i
    case WCopy(_, i) => i
    case WDone(_, i) => i
    case WFlagged(_, i) => i + 1
  }

  /** The cached count never promises a slot that is not free: it counts from the start of
      the current call. */
  ghost predicate Counted<T>(s: State<T>) {
    && |s.enq| - Flagged(s.w) + s.freeCnt <= s.Read() + (s.cnt - 1)
    && match s.w
       case WIdle => true
       case WRead(os) => os != []
       case WStart(os, i) => i < |os| <= s.freeCnt
       case WCopy(os, i) => i < |os| <= s.freeCnt
       case WDone(os, i) => i < |os| <= s.freeCnt
       case WFlagged(os, i) => i < |os| <= s.freeCnt && s.enq != []
  }

  ghost predicate Placed<T>(s: State<T>) {
    && s.cnt > 0 && TWO64 % s.cnt == 0 && |s.slots| == s.cnt
    && 0 <= s.Read() <= |s.out| <= |s.enq| && 0 <= s.Written()
    && |s.enq| <= s.Read() + (s.cnt - 1)
    && s.writeIdx == s.Written() % s.cnt && s.readIdx == s.Read() % s.cnt
  }

  /** Exactly the slots of the queued elements are flagged, and they hold them. */
  ghost predicate Filled<T>(s: State<T>)
    requires Placed(s)
  {
    && (forall t :: |s.out| <= t < |s.enq| ==> s.slots[t % s.cnt] == Slot(true, Whole(s.enq[t])))
    && (forall t {:trigger s.slots[t % s.cnt]} :: |s.enq| <= t < |s.out| + s.cnt ==> !s.slots[t % s.cnt].dd)
  }

  ghost predicate Taken<T>(s: State<T>) {
    |s.out| <= |s.enq| && forall j :: 0 <= j < |s.out| ==> s.out[j] == Whole(s.enq[j])
  }

  ghost predicate InHand<T>(s: State<T>)
    requires Placed(s)
  {
    && (s.w.WDone? ==> s.w.i < |s.w.objs| && s.slots[s.writeIdx].data == Whole(s.w.objs[s.w.i]))
    && (s.r.RCopy? ==> |s.out| < |s.enq| && s.r.seen == Whole(s.enq[|s.out|]))
    && (s.r.RDone? ==> |s.out| < |s.enq| && s.r.got == Whole(s.enq[|s.out|]))
    && (s.r.RCleared? ==> s.out != [])
    && (!s.r.RIdle? ==> s.r.left >= 1)
  }

  ghost predicate Inv<T>(s: State<T>) {
    Placed(s) && Counted(s) && Filled(s) && Taken(s) && InHand(s)
  }

  // ---------------------------------------------------------------- arithmetic

  /** Advancing an index by one. */
  lemma Advance(x: int, cnt: nat)
    requires cnt > 0
    ensures (x % cnt + 1) % cnt == (x + 1) % cnt
  {
    ModAdd(x, 1, cnt);
  }

  lemma Circular(rd: int, wr: int, cnt: nat)
    requires cnt > 0 && rd <= wr <= rd + (cnt - 1)
    ensures (rd % cnt - wr % cnt + cnt - 1) % cnt == rd + (cnt - 1) - wr
  {
    var x, free := rd % cnt - wr % cnt + cnt - 1, rd + (cnt - 1) - wr;
    var a, b := rd / cnt, wr / cnt;
    assert cnt * (b - a) == cnt * b - cnt * a;
    ModUnique(x, b - a, free, cnt);
  }

  lemma Reduced(x: int, m: int, cnt: nat)
    requires cnt > 0 && m > 0 && m % cnt == 0
    ensures x % m % cnt == x % cnt
  {
    var q := m / cnt;
    assert m == q * cnt;
    assert q > 0;
    ModOfMod(x, q, cnt);
  }

  /** The circular distance is the true number of free slots. */
  lemma FreeExact(rd: int, wr: int, cnt: nat)
    requires cnt > 0 && TWO64 % cnt == 0 && rd <= wr <= rd + (cnt - 1)
    ensures FreeCount(rd % cnt, wr % cnt, cnt) == rd + (cnt - 1) - wr
  {
    Circular(rd, wr, cnt);
    Reduced(rd % cnt - wr % cnt + cnt - 1, TWO64, cnt);
  }

  lemma NoGrowth(x: int, m: int)
    requires x >= 0 && m > 0
    ensures 0 <= x % m <= x
  {
    if x < m {
      ModUnique(x, 0, x, m);
    }
  }

  // ---------------------------------------------------------------- the writer keeps it

  lemma InvSized<T>(s: State<T>)
    requires Placed(s)
    ensures Sized(s)
  {
  }

  /** `slots` is as it should be but for the next free slot. */
  ghost predicate Others<T>(s: State<T>, slots: seq<Slot<T>>)
    requires Placed(s) && |slots| == s.cnt
  {
    && (forall u :: |s.out| <= u < |s.enq| ==> slots[u % s.cnt] == Slot(true, Whole(s.enq[u])))
    && (forall u {:trigger slots[u % s.cnt]} :: |s.enq| < u < |s.out| + s.cnt ==> !slots[u % s.cnt].dd)
  }

  /** A change of the next free slot. */
  lemma NextSlot<T>(s: State<T>, x: Slot<T>)
    requires Placed(s) && Filled(s) && |s.enq| < |s.out| + s.cnt && s.Written() == |s.enq|
    ensures !s.slots[s.writeIdx].dd
    ensures Others(s, s.slots[s.writeIdx := x])
  {
    var t := s.(slots := s.slots[s.writeIdx := x]);
    assert s.slots[|s.enq| % s.cnt] == s.slots[s.writeIdx];
    forall u | |s.out| <= u < |s.out| + s.cnt && u != |s.enq| ensures t.slots[u % s.cnt] == s.slots[u % s.cnt] {
      ModApart(u, |s.enq|, s.cnt);
    }
    forall u | |s.out| <= u < |s.enq| ensures t.slots[u % s.cnt] == Slot(true, Whole(s.enq[u])) {
      assert t.slots[u % s.cnt] == s.slots[u % s.cnt];
    }
    forall u | |s.enq| < u < |s.out| + s.cnt ensures !t.slots[u % s.cnt].dd {
      assert t.slots[u % s.cnt] == s.slots[u % s.cnt];
    }
  }

  /** There is room for every object of a call in progress. */
  lemma RoomLeft<T>(s: State<T>)
    requires Placed(s) && Counted(s) && (s.w.WStart? || s.w.WCopy? || s.w.WDone?)
    ensures |s.enq| + 1 <= s.Read() + (s.cnt - 1) && s.Written() == |s.enq|
  {
  }

  lemma CopyInv<T>(s: State<T>)
    requires Inv(s) && (s.w.WStart? || s.w.WCopy?)
    ensures Sized(s) && Inv(WriterStep(s, []))
  {
    RoomLeft(s);
    var t := WriterStep(s, []);
    NextSlot(s, t.slots[s.writeIdx]);
    assert t.slots[|s.enq| % s.cnt] == t.slots[s.writeIdx];
  }

  lemma FlagInv<T>(s: State<T>)
    requires Inv(s) && s.w.WDone?
    ensures Sized(s) && Inv(WriterStep(s, []))
  {
    hide Filled, Others, Taken;
    RoomLeft(s);
    var t := WriterStep(s, []);
    NextSlot(s, t.slots[s.writeIdx]);
    FlagFilled(s, t);
    FlagHand(s, t);
  }

  lemma FlagFilled<T>(s: State<T>, t: State<T>)
    requires Placed(s) && Placed(t) && t.cnt == s.cnt && t.out == s.out && |t.enq| == |s.enq| + 1 && s.enq <= t.enq
    requires s.writeIdx == |s.enq| % s.cnt && t.slots[s.writeIdx] == Slot(true, Whole(t.enq[|s.enq|]))
    requires Others(s, t.slots)
    ensures Filled(t)
  {
    forall u | |t.out| <= u < |t.enq| ensures t.slots[u % t.cnt] == Slot(true, Whole(t.enq[u])) {
      if u < |s.enq| {
        assert t.enq[u] == s.enq[u];
      }
    }
  }

  lemma FlagHand<T>(s: State<T>, t: State<T>)
    requires Inv(s) && s.w.WDone? && t == WriterStep(s, []) && Placed(t)
    ensures InHand(t) && Taken(t) && Counted(t)
  {
    hide Filled;
  }

  lemma AdvanceInv<T>(s: State<T>)
    requires Inv(s) && s.w.WFlagged?
    ensures Sized(s) && Inv(WriterStep(s, []))
  {
    Advance(s.Written(), s.cnt);
    NoGrowth(s.freeCnt - |s.w.objs|, TWO64);
    hide Filled, Taken;
    FilledSame(s, WriterStep(s, []));
    TakenSame(s, WriterStep(s, []));
  }

  lemma FilledSame<T>(s: State<T>, t: State<T>)
    requires Placed(s) && Placed(t) && Filled(s)
    requires t.slots == s.slots && t.enq == s.enq && t.out == s.out && t.cnt == s.cnt
    ensures Filled(t)
  {
  }

  lemma TakenSame<T>(s: State<T>, t: State<T>)
    requires Taken(s) && t.enq == s.enq && t.out == s.out
    ensures Taken(t)
  {
  }

  lemma RecountInv<T>(s: State<T>, t: State<T>)
    requires Inv(s) && (s.w.WIdle? || s.w.WRead?)
    requires t == s.(w := t.w, freeCnt := t.freeCnt)
    requires t.freeCnt == s.freeCnt || t.freeCnt == FreeCount(s.readIdx, s.writeIdx, s.cnt)
    requires t.w == WIdle || (t.w.WRead? && t.w.objs != []) || (t.w.WStart? && t.w.i == 0 < |t.w.objs| <= t.freeCnt)
    ensures Inv(t)
  {
    FreeExact(s.Read(), s.Written(), s.cnt);
    hide Filled, Taken, FreeCount;
    FilledSame(s, t);
    TakenSame(s, t);
  }

  lemma WriterInv<T>(s: State<T>, objs: seq<T>)
    requires Inv(s)
    ensures Sized(s) && Inv(WriterStep(s, objs))
  {
    InvSized(s);
    match s.w
    case WIdle => RecountInv(s, WriterStep(s, objs));
    case WRead(_) => RecountInv(s, WriterStep(s, objs));
    case WStart(_, _) => CopyInv(s);
    case WCopy(_, _) => CopyInv(s);
    case WDone(_, _) => FlagInv(s);
    case WFlagged(_, _) => AdvanceInv(s);
  }

  // ---------------------------------------------------------------- the reader keeps it

  /** The flag of the next slot says whether anything is queued. */
  lemma FlagExact<T>(s: State<T>)
    requires Inv(s) && !s.r.RCleared?
    ensures s.slots[s.readIdx].dd <==> |s.out| < |s.enq|
    ensures |s.out| < |s.enq| ==> s.slots[s.readIdx] == Slot(true, Whole(s.enq[|s.out|]))
  {
    assert s.slots[|s.out| % s.cnt] == s.slots[s.readIdx];
  }

  lemma PeekInv<T>(s: State<T>, n: nat)
    requires Inv(s) && !s.r.RDone? && !s.r.RCleared?
    ensures Sized(s) && Inv(ReaderStep(s, n))
  {
    FlagExact(s);
    hide Filled, Taken;
    FilledSame(s, ReaderStep(s, n));
    TakenSame(s, ReaderStep(s, n));
  }

  lemma ClearInv<T>(s: State<T>)
    requires Inv(s) && s.r.RDone?
    ensures Sized(s) && Inv(ReaderStep(s, 0))
  {
    var t, o := ReaderStep(s, 0), |s.out|;
    FlagExact(s);
    forall u | o < u < o + s.cnt ensures t.slots[u % s.cnt] == s.slots[u % s.cnt] {
      ModApart(u, o, s.cnt);
    }
    assert t.slots[o % s.cnt] == Slot(false, s.slots[s.readIdx].data);
    ModShift(o, 1, s.cnt);
    assert (o + s.cnt) % s.cnt == o % s.cnt;
    assert Filled(t);
    ReaderHand(s, t);
  }

  lemma ReaderHand<T>(s: State<T>, t: State<T>)
    requires Inv(s) && s.r.RDone? && Placed(t) && t.w == s.w
    requires t.r.RCleared? && t.r.left == s.r.left && t.writeIdx == s.writeIdx
    requires t.cnt == s.cnt && t.out == s.out + [s.r.got] && t.enq == s.enq && t.freeCnt == s.freeCnt
    requires forall i :: 0 <= i < s.cnt ==> t.slots[i].data == s.slots[i].data
    ensures InHand(t) && Taken(t) && Counted(t)
  {
  }

  lemma ReleaseInv<T>(s: State<T>)
    requires Inv(s) && s.r.RCleared?
    ensures Sized(s) && Inv(ReaderStep(s, 0))
  {
    Advance(s.Read(), s.cnt);
    hide Filled, Taken;
    FilledSame(s, ReaderStep(s, 0));
    TakenSame(s, ReaderStep(s, 0));
  }

  lemma ReaderInv<T>(s: State<T>, n: nat)
    requires Inv(s)
    ensures Sized(s) && Inv(ReaderStep(s, n))
  {
    if s.r.RDone? {
      ClearInv(s);
    } else if s.r.RCleared? {
      ReleaseInv(s);
    } else {
      PeekInv(s, n);
    }
  }

  // ---------------------------------------------------------------- every run

  lemma InitInv<T>(s: State<T>)
    requires Init(s)
    ensures Inv(s)
  {
  }

  lemma CountInv<T>(s: State<T>)
    requires Inv(s) && s.w.WIdle?
    ensures Sized(s) && Inv(Count(s).0)
  {
    InvSized(s);
    RecountInv(s, Count(s).0);
  }

  lemma StepInv<T(!new)>(s: State<T>, t: State<T>)
    requires Inv(s) && Next(s, t)
    ensures Inv(t)
  {
    hide Inv, WriterStep, ReaderStep, Count;
    if s.w.WIdle? && t == Count(s).0 {
      CountInv(s);
    } else if objs :| t == WriterStep(s, objs) {
      WriterInv(s, objs);
    } else {
      var n :| t == ReaderStep(s, n);
      ReaderInv(s, n);
    }
  }

  lemma {:induction false} RunInv<T(!new)>(r: seq<State<T>>, k: nat)
    requires Run(r) && k < |r|
    ensures Inv(r[k])
  {
    hide Inv, Init, Next;
    if k == 0 {
      InitInv(r[0]);
    } else {
      RunInv(r, k - 1);
      assert Next(r[k - 1], r[k - 1 + 1]);
      StepInv(r[k - 1], r[k]);
    }
  }

  /** In every run the elements taken out are the first ones put in, whole and in order; at
      most cnt - 1 are queued; the cached count never exceeds the true number of free slots;
      and the slot about to be written is not flagged. */
  lemma RingSafe<T(!new)>(r: seq<State<T>>, k: nat)
    requires Run(r) && k < |r|
    ensures var s := r[k];
            && |s.out| <= |s.enq| && (forall j :: 0 <= j < |s.out| ==> s.out[j] == Whole(s.enq[j]))
            && |s.Queue()| <= s.cnt - 1
            && (s.w.WIdle? ==> s.freeCnt <= s.cnt - 1 - (s.Written() - s.Read()))
            && (s.w.WStart? || s.w.WCopy? || s.w.WDone? ==> s.writeIdx < |s.slots| && !s.slots[s.writeIdx].dd)
  {
    RunInv(r, k);
    var s := r[k];
    hide Run;
    if s.w.WStart? || s.w.WCopy? || s.w.WDone? {
      RoomLeft(s);
      NextSlot(s, s.slots[s.writeIdx]);
    }
  }

  /** An enqueue is refused exactly when fewer than `n` slots were free as it loaded `read_idx`. */
  lemma RefusedIffFull<T>(s: State<T>)
    requires Inv(s) && s.w.WRead?
    ensures Sized(s) && (WriterStep(s, []).w.WIdle? <==> s.cnt - 1 - (s.Written() - s.Read()) < |s.w.objs|)
  {
    FreeExact(s.Read(), s.Written(), s.cnt);
  }

  /** A dequeue stops early exactly when nothing is queued. */
  lemma StopsIffEmpty<T>(s: State<T>)
    requires Inv(s) && s.r.RCheck?
    ensures Sized(s) && (ReaderStep(s, 0).r.RIdle? <==> s.Queue() == [])
  {
    FlagExact(s);
  }

  /** `jring2_count` reports the slots not yet given back, which are at least the queued elements. */
  lemma CountConservative<T>(s: State<T>)
    requires Inv(s) && s.w.WIdle?
    ensures Sized(s) && |s.Queue()| <= Count(s).1 == s.Written() - s.Read()
    ensures Count(s).0.freeCnt == s.cnt - 1 - (s.Written() - s.Read())
  {
    FreeExact(s.Read(), s.Written(), s.cnt);
  }

  /** Every step of the writer leaves the queue alone or appends the object being inserted,
      every step of the reader leaves it alone or takes off its first element. */
  lemma StepRefines<T>(s: State<T>, objs: seq<T>, n: nat)
    requires Inv(s)
    ensures Sized(s)
    ensures var t := WriterStep(s, objs);
            && |t.out| <= |t.enq|
            && t.Queue() == s.Queue() + (if s.w.WDone? then [s.w.objs[s.w.i]] else [])
    ensures var t := ReaderStep(s, n);
            && |t.out| <= |t.enq|
            && (if s.r.RDone? then s.Queue() != [] && s.r.got == Whole(s.Queue()[0]) && t.Queue() == s.Queue()[1..]
                else t.Queue() == s.Queue())
  {
    InvSized(s);
    hide Inv;
    WriterRefines(s, objs);
    ReaderRefines(s, n);
  }

  lemma WriterRefines<T>(s: State<T>, objs: seq<T>)
    requires Inv(s) && Sized(s)
    ensures var t := WriterStep(s, objs);
            && |t.out| <= |t.enq|
            && t.Queue() == s.Queue() + (if s.w.WDone? then [s.w.objs[s.w.i]] else [])
  {
    hide Filled;
  }

  lemma ReaderRefines<T>(s: State<T>, n: nat)
    requires Inv(s) && Sized(s)
    ensures var t := ReaderStep(s, n);
            && |t.out| <= |t.enq|
            && (if s.r.RDone? then s.Queue() != [] && s.r.got == Whole(s.Queue()[0]) && t.Queue() == s.Queue()[1..]
                else t.Queue() == s.Queue())
  {
    hide Filled;
    if s.r.RDone? {
      assert s.enq[|s.out| + 1..] == s.enq[|s.out|..][1..];
    }
  }
}

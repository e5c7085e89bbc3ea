/** Whole calls on a `jring2`: what an enqueue or a dequeue comes to, with the other thread's
    steps in between. */
module Jring2Call {
  import opened Words
  import opened Jring2

  /** A turn of the writer, or of the reader, which asks for `n` elements when idle. */
  datatype Turn = W | R(n: nat)

  // ---------------------------------------------------------------- enqueue

  /** An enqueue of at least one object is under way after its first step: with the cached count
      if that suffices, else by loading `read_idx`. After the load it is refused if and only if
      fewer slots than objects are free, and otherwise it goes on to insert all of them. */
  lemma EnqueueDecides<T>(s: State<T>, objs: seq<T>)
    requires Inv(s) && s.w.WIdle? && objs != []
    ensures Sized(s) && WriterStep(s, objs).w == (if s.freeCnt < |objs| then WRead(objs) else WStart(objs, 0))
    ensures Inv(WriterStep(s, objs)) && Sized(WriterStep(s, objs))
    ensures var t := WriterStep(s, objs);
            var u := if t.w.WRead? then WriterStep(t, []) else t;
            u.w == if s.cnt - 1 - (s.Written() - s.Read()) < |objs| then WIdle else WStart(objs, 0)
  {
    InvSized(s);
    WriterInv(s, objs);
    var t := WriterStep(s, objs);
    InvSized(t);
    if t.w.WRead? {
      RefusedIffFull(t);
    }
    hide Filled, Taken, InHand;
  }

  /** The objects of the call that are not in the queue yet. */
  function Pending<T>(w: Writer<T>): seq<T> {
    match w
    case WIdle => []
    case WRead(os) => os
    case WStart(os, i) => if i <= |os| then os[i..] else []
    case WCopy(os, i) => if i <= |os| then os[i..] else []
    case WDone(os, i) => if i <= |os| then os[i..] else []
    case WFlagged(os, i) => if i < |os| then os[i + 1..] else []
  }

  /** The writer's steps to the end of its call. */
  function Todo<T>(w: Writer<T>): int {
    match w
    case WIdle => 0
    case WRead(os) => 4 * |os| + 1
    case WStart(os, i) => 4 * (|os| - i)
    case WCopy(os, i) => 4 * (|os| - i) - 1
    case WDone(os, i) => 4 * (|os| - i) - 2
    case WFlagged(os, i) => 4 * (|os| - i) - 3
  }

  /** What the call takes off the cached count when it ends. */
  function Owed<T>(w: Writer<T>): nat {
    match w
    case WIdle => 0
    case WRead(os) => |os|
    case WStart(os, _) => |os|
    case WCopy(os, _) => |os|
    case WDone(os, _) => |os|
    case WFlagged(os, _) => |os|
  }

  lemma CacheSmall<T>(s: State<T>)
    requires Inv(s) && Inserting(s.w)
    ensures 0 <= s.freeCnt - Owed(s.w) < TWO64 && (s.freeCnt - Owed(s.w)) % TWO64 == s.freeCnt - Owed(s.w)
  {
    hide Filled, Taken, InHand;
    SmallCount(s.cnt);
    ModUnique(s.freeCnt - Owed(s.w), 0, s.freeCnt - Owed(s.w), TWO64);
  }

  lemma SmallCount(cnt: nat)
    requires cnt > 0 && TWO64 % cnt == 0
    ensures cnt <= TWO64
  {
    if cnt > TWO64 {
      ModUnique(TWO64, 0, TWO64, cnt);
      assert false;
    }
  }

  predicate Inserting<T>(w: Writer<T>) {
    w.WStart? || w.WCopy? || w.WDone? || w.WFlagged?
  }

  lemma WriterAdvances<T>(s: State<T>)
    requires Inv(s) && Inserting(s.w)
    ensures Sized(s)
    ensures var t := WriterStep(s, []);
            && Todo(t.w) == Todo(s.w) - 1 && t.enq + Pending(t.w) == s.enq + Pending(s.w)
            && (Inserting(t.w) <==> Todo(t.w) > 0) && (t.w.WIdle? <==> Todo(t.w) == 0)
            && t.freeCnt - Owed(t.w) == s.freeCnt - Owed(s.w)
  {
    InvSized(s);
    CacheSmall(s);
    InTheCall(s);
    hide Inv;
    match s.w
    case WDone(os, i) => assert s.enq + os[i..] == (s.enq + [os[i]]) + os[i + 1..];
    case _ =>
  }

  lemma InTheCall<T>(s: State<T>)
    requires Inv(s) && Inserting(s.w)
    ensures s.w.i < |s.w.objs|
  {
    hide Filled, Taken, InHand;
  }

  lemma ReaderLeaves<T>(s: State<T>, n: nat)
    requires Sized(s)
    ensures ReaderStep(s, n).w == s.w && ReaderStep(s, n).enq == s.enq && ReaderStep(s, n).freeCnt == s.freeCnt
  {
  }

  function Turns<T(==)>(s: State<T>, ts: seq<Turn>): State<T>
    requires Sized(s)
    decreases |ts|
  {
    if ts == [] then s
    else
      var t := if ts[0].W? then WriterStep(s, []) else ReaderStep(s, ts[0].n);
      if Sized(t) then Turns(t, ts[1..]) else s
  }

  function WriterTurns(ts: seq<Turn>): nat {
    if ts == [] then 0 else (if ts[0].W? then 1 else 0) + WriterTurns(ts[1..])
  }

  /** An enqueue that was not refused puts all its objects, in order, into the queue: after its
      4 n steps, however the reader's steps are mixed in, the call is over and has appended
      them, and the cached count is that much lower. */
  lemma {:induction false} EnqueueCompletes<T>(s: State<T>, ts: seq<Turn>)
    requires Inv(s) && Inserting(s.w) && WriterTurns(ts) == Todo(s.w)
    requires ts != [] && ts[|ts| - 1].W?
    ensures Sized(s) && Turns(s, ts).w.WIdle? && Turns(s, ts).enq == s.enq + Pending(s.w)
    ensures Turns(s, ts).freeCnt == s.freeCnt - Owed(s.w)
    decreases |ts|
  {
    InvSized(s);
    hide Inv, WriterStep, ReaderStep;
    var t := if ts[0].W? then WriterStep(s, []) else ReaderStep(s, ts[0].n);
    if ts[0].W? {
      WriterAdvances(s);
      WriterInv(s, []);
    } else {
      ReaderLeaves(s, ts[0].n);
      ReaderInv(s, ts[0].n);
    }
    SizedOf(t);
    if |ts| == 1 {
      assert ts[1..] == [];
      Over(t);
    } else {
      LastWriter(ts[1..]);
      EnqueueCompletes(t, ts[1..]);
    }
  }

  lemma SizedOf<T>(s: State<T>)
    requires Inv(s)
    ensures Sized(s)
  {
    InvSized(s);
  }

  lemma Over<T>(s: State<T>)
    requires s.w.WIdle?
    ensures s.enq + Pending(s.w) == s.enq
  {
  }

  lemma {:induction false} LastWriter(ts: seq<Turn>)
    requires ts != [] && ts[|ts| - 1].W?
    ensures WriterTurns(ts) > 0
    decreases |ts|
  {
    if |ts| > 1 {
      LastWriter(ts[1..]);
    }
  }

  // ---------------------------------------------------------------- dequeue

  /** The state after `m` steps of the reader that begin no call. */
  function Reads<T(==)>(s: State<T>, m: nat): State<T>
    requires Sized(s)
    decreases m
  {
    if m == 0 then s
    else
      var t := ReaderStep(s, 0);
      if Sized(t) then Reads(t, m - 1) else s
  }

  function Wholes<T>(xs: seq<T>): (r: seq<Data<T>>)
    ensures |r| == |xs| && forall i :: 0 <= i < |xs| ==> r[i] == Whole(xs[i])
  {
    seq(|xs|, i requires 0 <= i < |xs| => Whole(xs[i]))
  }

  lemma {:induction false} ReadsMore<T>(s: State<T>, a: nat, b: nat)
    requires Inv(s)
    ensures Sized(s) && Inv(Reads(s, a)) && Sized(Reads(s, a)) && Reads(s, a + b) == Reads(Reads(s, a), b)
    decreases a
  {
    hide Inv, ReaderStep;
    SizedOf(s);
    if a > 0 {
      ReaderInv(s, 0);
      SizedOf(ReaderStep(s, 0));
      ReadsMore(ReaderStep(s, 0), a - 1, b);
    }
  }

  /** One element: four steps. */
  lemma TakesOne<T>(s: State<T>)
    requires Inv(s) && s.r.RCheck? && |s.out| <= |s.enq| && s.Queue() != []
    ensures Sized(s) && Inv(Reads(s, 4))
    ensures var t := Reads(s, 4);
            && t.enq == s.enq && t.out == s.out + [Whole(s.Queue()[0])]
            && t.r == if s.r.left > 1 then RCheck(s.r.left - 1) else RIdle
  {
    hide Inv, ReaderStep;
    SizedOf(s);
    Checked(s);
    var a := ReaderStep(s, 0);
    Copied(a);
    var b := ReaderStep(a, 0);
    Cleared(b);
    var c := ReaderStep(b, 0);
    Released(c);
    var d := ReaderStep(c, 0);
    Four(s);
  }

  lemma Four<T>(s: State<T>)
    requires Sized(s) && Sized(ReaderStep(s, 0)) && Sized(ReaderStep(ReaderStep(s, 0), 0))
    requires Sized(ReaderStep(ReaderStep(ReaderStep(s, 0), 0), 0))
    requires Sized(ReaderStep(ReaderStep(ReaderStep(ReaderStep(s, 0), 0), 0), 0))
    ensures Reads(s, 4) == ReaderStep(ReaderStep(ReaderStep(ReaderStep(s, 0), 0), 0), 0)
  {
    hide ReaderStep, Sized;
    var a := ReaderStep(s, 0);
    var b := ReaderStep(a, 0);
    var c := ReaderStep(b, 0);
    var d := ReaderStep(c, 0);
    assert Reads(d, 0) == d;
    assert Reads(c, 1) == d;
    assert Reads(b, 2) == d;
    assert Reads(a, 3) == d;
  }

  lemma Checked<T>(s: State<T>)
    requires Inv(s) && s.r.RCheck? && |s.out| <= |s.enq| && s.Queue() != []
    ensures Sized(s)
    ensures var t := ReaderStep(s, 0);
            Inv(t) && Sized(t) && t.r.RCopy? && t.r.left == s.r.left && t.enq == s.enq && t.out == s.out
  {
    SizedOf(s);
    ReaderInv(s, 0);
    StopsIffEmpty(s);
    hide Filled, Taken;
    SizedOf(ReaderStep(s, 0));
  }

  lemma Copied<T>(s: State<T>)
    requires Inv(s) && s.r.RCopy?
    ensures Sized(s)
    ensures var t := ReaderStep(s, 0);
            Inv(t) && Sized(t) && t.r.RDone? && t.r.left == s.r.left && t.enq == s.enq && t.out == s.out
  {
    SizedOf(s);
    ReaderInv(s, 0);
    hide Inv;
    SizedOf(ReaderStep(s, 0));
  }

  lemma Cleared<T>(s: State<T>)
    requires Inv(s) && s.r.RDone?
    ensures Sized(s) && |s.out| <= |s.enq| && s.Queue() != []
    ensures var t := ReaderStep(s, 0);
            && Inv(t) && Sized(t) && t.r == RCleared(s.r.left) && t.enq == s.enq
            && t.out == s.out + [Whole(s.Queue()[0])]
  {
    SizedOf(s);
    ReaderInv(s, 0);
    ReaderRefines(s, 0);
    hide Filled;
    SizedOf(ReaderStep(s, 0));
  }

  lemma Released<T>(s: State<T>)
    requires Inv(s) && s.r.RCleared?
    ensures Sized(s)
    ensures var t := ReaderStep(s, 0);
            && Inv(t) && Sized(t) && t.enq == s.enq && t.out == s.out
            && t.r == if s.r.left > 1 then RCheck(s.r.left - 1) else RIdle
  {
    SizedOf(s);
    ReaderInv(s, 0);
    hide Inv;
    SizedOf(ReaderStep(s, 0));
  }

  /** The rest of a burst, with nothing enqueued meanwhile. */
  lemma {:induction false} BurstTakes<T>(s: State<T>) returns (m: nat)
    requires Inv(s) && s.r.RCheck? && s.r.left >= 1 && |s.out| <= |s.enq|
    ensures Sized(s) && Inv(Reads(s, m)) && Reads(s, m).r.RIdle? && Reads(s, m).enq == s.enq
    ensures Reads(s, m).out == s.out + Wholes(s.Queue()[..Min(s.r.left, |s.Queue()|)])
    decreases s.r.left
  {
    hide Inv, ReaderStep, Wholes;
    SizedOf(s);
    if s.Queue() == [] {
      m := 1;
      StopsIffEmpty(s);
      Stopped(s);
      NoWholes<T>();
      assert s.Queue()[..0] == [];
    } else {
      TakesOne(s);
      var t := Reads(s, 4);
      SizedOf(t);
      if s.r.left == 1 {
        m := 4;
        OneWhole(s.Queue()[0]);
        assert s.Queue()[..1] == [s.Queue()[0]];
      } else {
        LengthOk(t);
        var more := BurstTakes(t);
        m := 4 + more;
        ReadsMore(s, 4, more);
        NextWhole(s.Queue(), Min(s.r.left, |s.Queue()|));
        assert t.Queue() == s.Queue()[1..];
      }
    }
  }

  lemma Stopped<T>(s: State<T>)
    requires Inv(s) && Sized(s) && s.r.RCheck? && ReaderStep(s, 0).r.RIdle?
    ensures Inv(Reads(s, 1)) && Reads(s, 1) == s.(r := RIdle)
  {
    ReaderInv(s, 0);
    SizedOf(ReaderStep(s, 0));
    hide Inv;
    assert Reads(ReaderStep(s, 0), 0) == ReaderStep(s, 0);
  }

  lemma LengthOk<T>(s: State<T>)
    requires Inv(s)
    ensures |s.out| <= |s.enq|
  {
  }

  lemma NoWholes<T>()
    ensures Wholes<T>([]) == []
  {
  }

  lemma OneWhole<T>(x: T)
    ensures Wholes([x]) == [Whole(x)]
  {
  }

  lemma NextWhole<T>(xs: seq<T>, k: nat)
    requires 1 <= k <= |xs|
    ensures Wholes(xs[..k]) == [Whole(xs[0])] + Wholes(xs[1..][..k - 1])
  {
  }

  /** A burst of `n` takes the first min(n, queued) elements, whole and in order, and ends. */
  lemma DequeueCompletes<T>(s: State<T>, n: nat) returns (m: nat)
    requires Inv(s) && s.r.RIdle? && n > 0
    ensures Sized(s) && Sized(ReaderStep(s, n)) && |s.out| <= |s.enq|
    ensures var t := Reads(ReaderStep(s, n), m);
            && Inv(t) && t.r.RIdle? && t.enq == s.enq
            && t.out == s.out + Wholes(s.Queue()[..Min(n, |s.Queue()|)])
  {
    SizedOf(s);
    LengthOk(s);
    ReaderInv(s, n);
    var t := ReaderStep(s, n);
    SizedOf(t);
    hide Inv;
    m := BurstTakes(t);
  }
}

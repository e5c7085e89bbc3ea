/** `MachnetEngineSharedState`: source-port allocation and listener registration over a bitmap
    per local address that grows on demand. */
module Ports {
  import opened Words
  import opened Common

  const SRC_PORT_MIN: nat := 1024
  const SRC_PORT_MAX: nat := 65535
  const SLOT_BITS: nat := 64
  const BITMAP_SIZE: nat := 1024

  type Ip = u32

  /** A 64-bit word of the bitmap, lowest bit first; a set bit is a free port. */
  type Slot = s: seq<bool> | |s| == SLOT_BITS witness seq(SLOT_BITS, _ => true)

  function AllFree(): Slot {
    seq(SLOT_BITS, _ => true)
  }

  type Bitmap = seq<Slot>

  /** Ports beyond the end of the bitmap are free. */
  predicate Free(bm: Bitmap, p: u16) {
    p / SLOT_BITS < |bm| ==> bm[p / SLOT_BITS][p % SLOT_BITS]
  }

  function SetBit(bm: Bitmap, p: u16, b: bool): (r: Bitmap)
    requires p / SLOT_BITS < |bm|
    ensures |r| == |bm|
  {
    bm[p / SLOT_BITS := bm[p / SLOT_BITS][p % SLOT_BITS := b]]
  }

  /** Exactly one bit changes. */
  lemma SetBitFree(bm: Bitmap, p: u16, b: bool, q: u16)
    requires p / SLOT_BITS < |bm|
    ensures Free(SetBit(bm, p, b), q) == if q == p then b else Free(bm, q)
  {
    if q / SLOT_BITS == p / SLOT_BITS && q % SLOT_BITS == p % SLOT_BITS {
      assert p == SLOT_BITS * (p / SLOT_BITS) + p % SLOT_BITS;
      assert q == SLOT_BITS * (q / SLOT_BITS) + q % SLOT_BITS;
    }
  }

  /** Growing the bitmap frees and takes nothing. */
  ghost predicate SamePorts(a: Bitmap, b: Bitmap) {
    forall q: u16 :: Free(a, q) == Free(b, q)
  }

  /** `__builtin_ffsll` of the bits from `lo` on: one more than the lowest free one, or 0. */
  function Ffs(s: Slot, lo: nat): (pos: nat)
    requires lo <= SLOT_BITS
    ensures pos <= SLOT_BITS && (pos > 0 ==> lo < pos && s[pos - 1])
    ensures forall b :: lo <= b < (if pos > 0 then pos - 1 else SLOT_BITS) ==> !s[b]
    decreases SLOT_BITS - lo
  {
    if lo == SLOT_BITS then 0 else if s[lo] then lo + 1 else Ffs(s, lo + 1)
  }

  /** A port that may be handed out. */
  predicate Fit(bm: Bitmap, pred: nat -> bool, p: u16) {
    Free(bm, p) && pred(p)
  }

  /** No port from `lo` up to `hi` may be handed out. */
  ghost predicate NoneFit(bm: Bitmap, pred: nat -> bool, lo: nat, hi: nat) {
    forall p: u16 :: lo <= p < hi ==> !Fit(bm, pred, p)
  }

  /** `find_free_port`: the lowest fitting port of slot `index`. */
  method FindFreePort(bm: Bitmap, index: nat, pred: nat -> bool) returns (r: Option<u16>)
    requires index < |bm| <= BITMAP_SIZE
    ensures r.Some? ==> r.value / SLOT_BITS == index && Fit(bm, pred, r.value)
                        && NoneFit(bm, pred, index * SLOT_BITS, r.value)
    ensures r.None? ==> NoneFit(bm, pred, index * SLOT_BITS, (index + 1) * SLOT_BITS)
  {
    var lo := 0;
    while true
      invariant lo < SLOT_BITS
      invariant NoneFit(bm, pred, index * SLOT_BITS, index * SLOT_BITS + lo)
      decreases SLOT_BITS - lo
    {
      var pos := Ffs(bm[index], lo);
      SkipUsed(bm, index, pred, lo, if pos > 0 then pos - 1 else SLOT_BITS);
      if pos == 0 { return None; }
      var candidate := index * SLOT_BITS + pos - 1;
      if candidate > SRC_PORT_MAX { return None; }
      if pred(candidate) {
        return Some(candidate);
      }
      if pos == SLOT_BITS { return None; }
      lo := pos;
    }
  }

  lemma SkipUsed(bm: Bitmap, index: nat, pred: nat -> bool, lo: nat, hi: nat)
    requires index < |bm| && lo <= hi <= SLOT_BITS && (forall b :: lo <= b < hi ==> !bm[index][b])
    requires NoneFit(bm, pred, index * SLOT_BITS, index * SLOT_BITS + lo)
    ensures NoneFit(bm, pred, index * SLOT_BITS, index * SLOT_BITS + hi)
  {
    forall p: u16 | index * SLOT_BITS <= p < index * SLOT_BITS + hi ensures !Fit(bm, pred, p) {
      if p >= index * SLOT_BITS + lo {
        assert p / SLOT_BITS == index;
        assert p % SLOT_BITS == p - index * SLOT_BITS;
      }
    }
  }

  lemma NoneFitJoin(bm: Bitmap, pred: nat -> bool, a: nat, b: nat, c: nat)
    requires NoneFit(bm, pred, a, b) && NoneFit(bm, pred, b, c)
    ensures NoneFit(bm, pred, a, c)
  {
    forall p: u16 | a <= p < c ensures !Fit(bm, pred, p) {
    }
  }

  lemma NoneFitSame(a: Bitmap, b: Bitmap, pred: nat -> bool, lo: nat, hi: nat)
    requires SamePorts(a, b) && NoneFit(a, pred, lo, hi)
    ensures NoneFit(b, pred, lo, hi)
  {
    forall p: u16 | lo <= p < hi ensures !Fit(b, pred, p) {
      assert Free(a, p) == Free(b, p);
      assert !Fit(a, pred, p);
    }
  }

  lemma Grown(bm: Bitmap)
    ensures SamePorts(bm, bm + [AllFree()])
  {
    forall q: u16 ensures Free(bm, q) == Free(bm + [AllFree()], q) {
      if q / SLOT_BITS == |bm| {
        assert (bm + [AllFree()])[q / SLOT_BITS] == AllFree();
      }
    }
  }

  lemma SameChain(a: Bitmap, b: Bitmap, c: Bitmap)
    requires SamePorts(a, b) && SamePorts(b, c)
    ensures SamePorts(a, c)
  {
    forall q: u16 ensures Free(a, q) == Free(c, q) {
      assert Free(a, q) == Free(b, q) == Free(c, q);
    }
  }

  /** `vector::resize` with all-free slots. */
  method Resize(bm: Bitmap, n: nat) returns (r: Bitmap)
    ensures |r| == (if n > |bm| then n else |bm|) && SamePorts(bm, r)
  {
    r := bm;
    while |r| < n
      invariant |bm| <= |r| <= (if n > |bm| then n else |bm|) && SamePorts(bm, r)
    {
      Grown(r);
      SameChain(bm, r, r + [AllFree()]);
      r := r + [AllFree()];
    }
  }

  /** The search of `SrcPortAlloc`: the least fitting port, with the bitmap grown as far as
      needed. */
  method FindPort(bm: Bitmap, pred: nat -> bool) returns (r: Option<u16>, grown: Bitmap)
    requires |bm| <= BITMAP_SIZE
    ensures |bm| <= |grown| <= BITMAP_SIZE && SamePorts(bm, grown)
    ensures r.Some? ==> SRC_PORT_MIN <= r.value && r.value / SLOT_BITS < |grown| && Fit(bm, pred, r.value)
                        && NoneFit(bm, pred, SRC_PORT_MIN, r.value)
    ensures r.None? ==> NoneFit(bm, pred, SRC_PORT_MIN, SRC_PORT_MAX + 1)
  {
    var first := SRC_PORT_MIN / SLOT_BITS;
    grown := Resize(bm, first + 1);
    var i := first;
    while i < |grown|
      invariant first <= i <= |grown| && NoneFit(grown, pred, SRC_PORT_MIN, i * SLOT_BITS)
    {
      r := FindFreePort(grown, i, pred);
      if r.Some? {
        Found(bm, grown, pred, i, r.value);
        return;
      }
      NoneFitJoin(grown, pred, SRC_PORT_MIN, i * SLOT_BITS, (i + 1) * SLOT_BITS);
      i := i + 1;
    }
    while |grown| < BITMAP_SIZE
      invariant |bm| <= |grown| <= BITMAP_SIZE && SamePorts(bm, grown) && first < |grown|
      invariant NoneFit(grown, pred, SRC_PORT_MIN, |grown| * SLOT_BITS)
    {
      ghost var was := grown;
      Grown(grown);
      grown := grown + [AllFree()];
      SameChain(bm, was, grown);
      NoneFitSame(was, grown, pred, SRC_PORT_MIN, |was| * SLOT_BITS);
      r := FindFreePort(grown, |grown| - 1, pred);
      if r.Some? {
        Found(bm, grown, pred, |grown| - 1, r.value);
        return;
      }
      NoneFitJoin(grown, pred, SRC_PORT_MIN, |was| * SLOT_BITS, |grown| * SLOT_BITS);
    }
    SameBack(bm, grown);
    NoneFitSame(grown, bm, pred, SRC_PORT_MIN, SRC_PORT_MAX + 1);
    r := None;
  }

  lemma SameBack(a: Bitmap, b: Bitmap)
    requires SamePorts(a, b)
    ensures SamePorts(b, a)
  {
    forall q: u16 ensures Free(b, q) == Free(a, q) {
      assert Free(a, q) == Free(b, q);
    }
  }

  lemma Found(bm: Bitmap, grown: Bitmap, pred: nat -> bool, i: nat, p: u16)
    requires SamePorts(bm, grown) && i >= SRC_PORT_MIN / SLOT_BITS && p / SLOT_BITS == i
    requires NoneFit(grown, pred, SRC_PORT_MIN, i * SLOT_BITS) && NoneFit(grown, pred, i * SLOT_BITS, p)
    requires Fit(grown, pred, p)
    ensures SRC_PORT_MIN <= p && Fit(bm, pred, p) && NoneFit(bm, pred, SRC_PORT_MIN, p)
  {
    assert Free(bm, p) == Free(grown, p);
    SameBack(bm, grown);
    NoneFitJoin(grown, pred, SRC_PORT_MIN, i * SLOT_BITS, p);
    NoneFitSame(grown, bm, pred, SRC_PORT_MIN, p);
  }

  // ---------------------------------------------------------------- histories

  /** A port handed out (allocated or registered), or given back. */
  datatype PortEvent = Got(ip: Ip, port: u16) | Gone(ip: Ip, port: u16)

  /** The ports in use after a history. */
  function InUse(trace: seq<PortEvent>): set<(Ip, u16)> {
    if trace == [] then {}
    else
      var was, ev := InUse(trace[..|trace| - 1]), trace[|trace| - 1];
      if ev.Got? then was + {(ev.ip, ev.port)} else was - {(ev.ip, ev.port)}
  }

  /** Nothing in use is handed out. */
  ghost predicate Fair(trace: seq<PortEvent>) {
    forall i :: 0 <= i < |trace| && trace[i].Got? ==> (trace[i].ip, trace[i].port) !in InUse(trace[..i])
  }

  lemma FairMore(trace: seq<PortEvent>, ev: PortEvent)
    requires Fair(trace) && (ev.Got? ==> (ev.ip, ev.port) !in InUse(trace))
    ensures Fair(trace + [ev])
  {
    var more := trace + [ev];
    forall i | 0 <= i < |more| && more[i].Got? ensures (more[i].ip, more[i].port) !in InUse(more[..i]) {
      assert more[..i] == trace[..i];
      assert trace[..|trace|] == trace;
    }
  }

  lemma InUseMore(trace: seq<PortEvent>, ev: PortEvent)
    ensures InUse(trace + [ev])
            == if ev.Got? then InUse(trace) + {(ev.ip, ev.port)} else InUse(trace) - {(ev.ip, ev.port)}
  {
    assert (trace + [ev])[..|trace|] == trace;
  }

  /** What is handed out stays in use until it is given back. */
  lemma {:induction false} StaysInUse(trace: seq<PortEvent>, i: nat, j: nat)
    requires i < j <= |trace| && trace[i].Got?
    requires forall k :: i < k < j ==> trace[k] != Gone(trace[i].ip, trace[i].port)
    ensures (trace[i].ip, trace[i].port) in InUse(trace[..j])
    decreases j
  {
    assert trace[..j][..j - 1] == trace[..j - 1];
    if j > i + 1 {
      StaysInUse(trace, i, j - 1);
    }
  }

  /** Between two hand-outs of the same port there is a release. */
  lemma TwiceNeedsRelease(trace: seq<PortEvent>, i: nat, j: nat) returns (k: nat)
    requires Fair(trace) && i < j < |trace| && trace[i].Got? && trace[j] == trace[i]
    ensures i < k < j && trace[k] == Gone(trace[i].ip, trace[i].port)
  {
    var gone := Gone(trace[i].ip, trace[i].port);
    k := i + 1;
    while k < j && trace[k] != gone
      invariant i < k <= j && forall x :: i < x < k ==> trace[x] != gone
    {
      k := k + 1;
    }
    if k == j {
      StaysInUse(trace, i, j);
      assert false;
    }
  }

  // ---------------------------------------------------------------- the shared state

  class SharedState {
    var bitmaps: map<Ip, Bitmap>
    var listeners: map<(Ip, u16), nat>
    /** The ports in use, by address, and how they came to be. */
    ghost var used: set<(Ip, u16)>
    ghost var trace: seq<PortEvent>

    /** The bitmaps say exactly which ports are in use. */
    ghost predicate Valid()
      reads this
    {
      && (forall ip :: ip in bitmaps ==> 1 <= |bitmaps[ip]| <= BITMAP_SIZE)
      && (forall ip: Ip, p: u16 :: (ip, p) in used <==> ip in bitmaps && !Free(bitmaps[ip], p))
      && (forall ip: Ip, p: u16 :: (ip, p) in listeners ==> ip in bitmaps && p / SLOT_BITS < |bitmaps[ip]|)
      && used == InUse(trace) && Fair(trace)
    }

    constructor (ips: set<Ip>)
      ensures Valid() && bitmaps.Keys == ips && used == {} && listeners == map[] && trace == []
    {
      bitmaps := map ip | ip in ips :: [AllFree()];
      listeners := map[];
      used, trace := {}, [];
    }

    /** One address gets a bitmap in which exactly port `p` has changed. */
    method Store(ip: Ip, grown: Bitmap, p: u16, b: bool)
      requires Valid() && ip in bitmaps && SamePorts(bitmaps[ip], grown) && |bitmaps[ip]| <= |grown| <= BITMAP_SIZE
      requires p / SLOT_BITS < |grown| && (!b ==> (ip, p) !in used)
      modifies `bitmaps, `used, `trace
      ensures Valid() && bitmaps.Keys == old(bitmaps.Keys)
      ensures used == if b then old(used) - {(ip, p)} else old(used) + {(ip, p)}
      ensures p / SLOT_BITS < |bitmaps[ip]| && trace == old(trace) + [if b then Gone(ip, p) else Got(ip, p)]
    {
      hide Fair, InUse;
      ghost var ev := if b then Gone(ip, p) else Got(ip, p);
      FairMore(trace, ev);
      InUseMore(trace, ev);
      trace := trace + [ev];
      ghost var was := bitmaps;
      bitmaps := bitmaps[ip := SetBit(grown, p, b)];
      used := if b then used - {(ip, p)} else used + {(ip, p)};
      forall q: u16 ensures Free(bitmaps[ip], q) == if q == p then b else Free(was[ip], q) {
        SetBitFree(grown, p, b, q);
        assert Free(was[ip], q) == Free(grown, q);
      }
    }

    /** `SrcPortAlloc`: the least free port from 1024 on that satisfies the predicate; none
        exactly if the address is not local or no such port exists. A port in use is never
        returned. */
    method SrcPortAlloc(ip: Ip, pred: nat -> bool) returns (r: Option<u16>)
      requires Valid()
      modifies `bitmaps, `used, `trace
      ensures Valid() && bitmaps.Keys == old(bitmaps.Keys)
      ensures trace == if r.Some? then old(trace) + [Got(ip, r.value)] else old(trace)
      ensures r.None? <==>
                ip !in old(bitmaps) || forall p: u16 :: SRC_PORT_MIN <= p ==> (ip, p) in old(used) || !pred(p)
      ensures r.None? ==> used == old(used)
      ensures r.Some? ==>
                && SRC_PORT_MIN <= r.value && pred(r.value) && (ip, r.value) !in old(used)
                && used == old(used) + {(ip, r.value)}
                && forall p: u16 :: SRC_PORT_MIN <= p < r.value ==> (ip, p) in old(used) || !pred(p)
    {
      if ip !in bitmaps { return None; }
      ghost var bm := bitmaps[ip];
      var grown;
      r, grown := FindPort(bitmaps[ip], pred);
      forall p: u16 | SRC_PORT_MIN <= p < (if r.Some? then r.value else SRC_PORT_MAX + 1)
        ensures (ip, p) in used || !pred(p)
      {
        assert !Fit(bm, pred, p);
        assert (ip, p) in used <==> !Free(bitmaps[ip], p);
      }
      if r.Some? {
        assert (ip, r.value) in used <==> !Free(bitmaps[ip], r.value);
        Store(ip, grown, r.value, false);
      } else {
        assert forall q: u16 :: Free(bm, q) == Free(grown, q);
        bitmaps := bitmaps[ip := grown];
      }
    }

    /** `SrcPortReleaseLocked` of a port that the bitmap covers. */
    method SrcPortRelease(ip: Ip, p: u16)
      requires Valid() && (ip in bitmaps ==> p / SLOT_BITS < |bitmaps[ip]|)
      modifies `bitmaps, `used, `trace
      ensures Valid() && bitmaps.Keys == old(bitmaps.Keys) && used == old(used) - {(ip, p)}
      ensures trace == if ip in old(bitmaps) then old(trace) + [Gone(ip, p)] else old(trace)
    {
      if ip !in bitmaps { return; }
      Store(ip, bitmaps[ip], p, true);
    }

    /** `RegisterListener`: succeeds exactly if the address is local and the port is free. */
    method RegisterListener(ip: Ip, p: u16, queue: nat) returns (ok: bool)
      requires Valid()
      modifies this
      ensures Valid() && bitmaps.Keys == old(bitmaps.Keys)
      ensures ok <==> ip in old(bitmaps) && (ip, p) !in old(used)
      ensures used == (if ok then old(used) + {(ip, p)} else old(used))
      ensures listeners == if ok then old(listeners)[(ip, p) := queue] else old(listeners)
      ensures trace == if ok then old(trace) + [Got(ip, p)] else old(trace)
    {
      if ip !in bitmaps { return false; }
      var grown := Resize(bitmaps[ip], p / SLOT_BITS + 1);
      assert Free(bitmaps[ip], p) == Free(grown, p);
      if !grown[p / SLOT_BITS][p % SLOT_BITS] {
        assert forall q: u16 :: Free(bitmaps[ip], q) == Free(grown, q);
        bitmaps := bitmaps[ip := grown];
        return false;
      }
      Store(ip, grown, p, false);
      listeners := listeners[(ip, p) := queue];
      ok := true;
    }

    /** `UnregisterListener`: releases the port exactly if a listener is registered. */
    method UnregisterListener(ip: Ip, p: u16)
      requires Valid()
      modifies this
      ensures Valid() && bitmaps.Keys == old(bitmaps.Keys) && listeners == old(listeners) - {(ip, p)}
      ensures used == if (ip, p) in old(listeners) then old(used) - {(ip, p)} else old(used)
      ensures trace == if (ip, p) in old(listeners) then old(trace) + [Gone(ip, p)] else old(trace)
    {
      if (ip, p) !in listeners {
        assert listeners - {(ip, p)} == listeners;
        return;
      }
      listeners := listeners - {(ip, p)};
      SrcPortRelease(ip, p);
    }
  }
}

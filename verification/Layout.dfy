/** The shared-memory layout of a channel: header, statistics, five rings, the buffer index
    table and the buffer pool, one after the other. */
module Layout {
  import opened Words
  import opened Common

  const LINE: nat := 64
  const CTX_SIZE: nat := 832
  const STATS_SIZE: nat := 64
  const RING_HEADER: nat := 320
  const CTRL_ENTRY: nat := 32
  const CTRL_SLOTS: nat := 2
  const SLOT_SIZE: nat := 4
  const RING_MAX: nat := 0x0fff_ffff
  const BUF_HEADER: nat := 64
  const HEADROOM: nat := 128

  // ---------------------------------------------------------------- powers of two and alignment

  predicate Pow2(x: nat) {
    x == 1 || (x > 1 && x % 2 == 0 && Pow2(x / 2))
  }

  /** The next multiple of `a`. */
  function Align(x: nat, a: nat): nat
    requires a > 0
  {
    (x + a - 1) / a * a
  }

  lemma AlignBounds(x: nat, a: nat)
    requires a > 0
    ensures x <= Align(x, a) < x + a && Align(x, a) % a == 0
  {
    var q := (x + a - 1) / a;
    assert x + a - 1 == a * q + (x + a - 1) % a;
    ModUnique(q * a, q, 0, a);
  }

  lemma AlignedSum(x: nat, y: nat, a: nat)
    requires a > 0 && x % a == 0 && y % a == 0
    ensures (x + y) % a == 0
  {
    ModAdd(x, y, a);
  }

  lemma Twice(x: nat, p: nat)
    requires p > 0 && x % p == 0
    ensures 2 * x % (2 * p) == 0
  {
    assert x == p * (x / p);
    ModUnique(2 * x, x / p, 0, 2 * p);
  }

  /** A power of two is a multiple of every smaller one. */
  lemma {:induction false} Pow2Divides(x: nat, p: nat)
    requires Pow2(x) && Pow2(p) && p <= x
    ensures x % p == 0
    decreases p
  {
    if p > 1 {
      Pow2Divides(x / 2, p / 2);
      Twice(x / 2, p / 2);
    }
  }

  lemma Pow2Double(x: nat)
    requires Pow2(x)
    ensures Pow2(2 * x)
  {
    assert 2 * x / 2 == x && 2 * x % 2 == 0;
  }

  /** `ROUNDUP_U64_POW2`. */
  function RoundUp(x: nat): (r: nat)
    requires x >= 1
    ensures x <= r < 2 * x && Pow2(r)
    decreases x
  {
    if x == 1 then 1
    else
      var h := RoundUp((x + 1) / 2);
      Pow2Double(h);
      2 * h
  }

  lemma {:induction false} Pow2Within(a: nat, b: nat, x: nat)
    requires Pow2(a) && Pow2(b) && x <= a < 2 * x && x <= b < 2 * x
    ensures a == b
    decreases x
  {
    if a > 1 && b > 1 {
      Pow2Within(a / 2, b / 2, (x + 1) / 2);
    }
  }

  /** No smaller power of two will do. */
  lemma RoundUpLeast(x: nat, p: nat)
    requires x >= 1 && Pow2(p) && p >= x
    ensures RoundUp(x) <= p
  {
    if p < 2 * x {
      Pow2Within(RoundUp(x), p, x);
    }
  }

  // ---------------------------------------------------------------- rings

  /** `jring_get_buf_ring_size`; both parameters and their product are 32 bits wide. */
  function RingSize(esize: nat, count: nat): Option<nat> {
    var c := count % TWO32;
    if esize % 4 != 0 || !Pow2(c) || c > RING_MAX then None
    else Some(Align(RING_HEADER + c * esize % TWO32, LINE))
  }

  /** A slot count that is accepted: the truncation to 32 bits lets no larger one through. */
  predicate Slots(n: nat) {
    Pow2(n) && n <= RING_MAX
  }

  function Exp(n: nat): nat {
    if n == 0 then 1 else 2 * Exp(n - 1)
  }

  lemma {:induction false} Pow2Exp(n: nat)
    ensures Pow2(Exp(n))
  {
    if n > 0 {
      Pow2Exp(n - 1);
      Pow2Double(Exp(n - 1));
    }
  }

  lemma Exp32()
    ensures Exp(32) == TWO32
  {
    assert Exp(8) == 0x100;
    assert Exp(16) == 0x1_0000;
    assert Exp(24) == 0x100_0000;
  }

  lemma RingSizeSome(esize: nat, count: nat)
    requires count == 0 || Pow2(count)
    ensures esize % 4 == 0 ==> (RingSize(esize, count).Some? <==> Slots(count))
  {
    hide Align;
    if count >= TWO32 {
      Exp32();
      Pow2Exp(32);
      Pow2Divides(count, TWO32);
    } else {
      SmallMod(count, TWO32);
    }
  }

  lemma RingSizeExact(esize: nat, count: nat)
    requires esize % 4 == 0 && Slots(count) && count * esize < TWO32
    ensures RingSize(esize, count).Some?
    ensures var r := RingSize(esize, count).value;
            RING_HEADER + count * esize <= r < RING_HEADER + count * esize + LINE && r % LINE == 0
  {
    hide Align, Pow2;
    SmallMod(count, TWO32);
    SmallMod(count * esize, TWO32);
    AlignBounds(RING_HEADER + count * esize, LINE);
  }

  lemma SmallMod(x: int, m: int)
    requires 0 <= x < m
    ensures x % m == x
  {
  }

  // ---------------------------------------------------------------- the channel

  datatype Params = Params(machnetSlots: nat, appSlots: nat, bufSlots: nat, bufferSize: nat, pageSize: nat)

  /** What channel creation accepts. */
  predicate Legal(p: Params) {
    Slots(p.machnetSlots) && Slots(p.appSlots) && Slots(p.bufSlots) && p.bufferSize <= p.pageSize
  }

  /** The bytes of an accepted ring. */
  function RingBytes(esize: nat, count: nat): (r: nat)
    requires esize % 4 == 0 && Slots(count) && count * esize < TWO32
    ensures RingSize(esize, count) == Some(r)
    ensures RING_HEADER + count * esize <= r && r % LINE == 0
  {
    RingSizeExact(esize, count);
    RingSize(esize, count).value
  }

  function CtrlRing(): (r: nat)
    ensures RingSize(CTRL_ENTRY, CTRL_SLOTS) == Some(r)
    ensures RING_HEADER + CTRL_SLOTS * CTRL_ENTRY <= r && r % LINE == 0
  {
    assert Slots(CTRL_SLOTS);
    RingBytes(CTRL_ENTRY, CTRL_SLOTS)
  }

  function DataRing(count: nat): (r: nat)
    requires Slots(count)
    ensures RingSize(SLOT_SIZE, count) == Some(r)
    ensures RING_HEADER + count * SLOT_SIZE <= r && r % LINE == 0
  {
    RingBytes(SLOT_SIZE, count)
  }

  /** The offsets that channel initialisation stores, the distance between two buffers, and
      the size of the whole. */
  datatype Offsets = Offsets(stats: nat, ctrlSq: nat, ctrlCq: nat, machnet: nat, app: nat, buf: nat, table: nat,
                             pool: nat, stride: nat, total: nat)

  function Lay(p: Params): (o: Offsets)
    requires Legal(p) && p.pageSize > 0
    ensures o.stride > 0
  {
    var stats := CTX_SIZE;
    var ctrlSq := stats + STATS_SIZE;
    var ctrlCq := ctrlSq + CtrlRing();
    var machnet := ctrlCq + CtrlRing();
    var app := machnet + DataRing(p.machnetSlots);
    var buf := app + DataRing(p.appSlots);
    var table := Align(buf + DataRing(p.bufSlots), LINE);
    var pool := Align(table + p.bufSlots * SLOT_SIZE, p.pageSize);
    var stride := RoundUp(p.bufferSize + BUF_HEADER + HEADROOM);
    Offsets(stats, ctrlSq, ctrlCq, machnet, app, buf, table, pool, stride,
            Align(pool + Times(p.bufSlots, stride), p.pageSize))
  }

  /** The regions are in order and do not overlap, and everything ends within the computed
      size. */
  lemma RegionsApart(p: Params)
    requires Legal(p) && p.pageSize > 0
    ensures var o := Lay(p);
            && CTX_SIZE <= o.stats && o.stats + STATS_SIZE <= o.ctrlSq
            && o.ctrlSq + RING_HEADER + CTRL_SLOTS * CTRL_ENTRY <= o.ctrlCq
            && o.ctrlCq + RING_HEADER + CTRL_SLOTS * CTRL_ENTRY <= o.machnet
            && o.machnet + RING_HEADER + p.machnetSlots * SLOT_SIZE <= o.app
            && o.app + RING_HEADER + p.appSlots * SLOT_SIZE <= o.buf
            && o.buf + RING_HEADER + p.bufSlots * SLOT_SIZE <= o.table
            && o.table + p.bufSlots * SLOT_SIZE <= o.pool
            && o.pool + Times(p.bufSlots, o.stride) <= o.total
  {
    hide Align, Times, RoundUp, Slots, RingSize, CtrlRing, DataRing;
    var o := Lay(p);
    AtLeast(o.buf + DataRing(p.bufSlots), LINE);
    AtLeast(o.table + p.bufSlots * SLOT_SIZE, p.pageSize);
    AtLeast(o.pool + Times(p.bufSlots, o.stride), p.pageSize);
  }

  /** No region starts later than its alignment demands, and the buffers have the least stride
      that will do, so the size is the least of any such layout. */
  lemma NoWaste(p: Params)
    requires Legal(p) && p.pageSize > 0
    ensures var o := Lay(p);
            && o.stats == CTX_SIZE && o.ctrlSq == o.stats + STATS_SIZE
            && o.ctrlCq < o.ctrlSq + RING_HEADER + CTRL_SLOTS * CTRL_ENTRY + LINE
            && o.machnet < o.ctrlCq + RING_HEADER + CTRL_SLOTS * CTRL_ENTRY + LINE
            && o.app < o.machnet + RING_HEADER + p.machnetSlots * SLOT_SIZE + LINE
            && o.buf < o.app + RING_HEADER + p.appSlots * SLOT_SIZE + LINE
            && o.table < o.buf + RING_HEADER + p.bufSlots * SLOT_SIZE + LINE
            && o.pool < o.table + p.bufSlots * SLOT_SIZE + p.pageSize
            && o.total < o.pool + Times(p.bufSlots, o.stride) + p.pageSize
            && forall q: nat :: Pow2(q) && q >= p.bufferSize + BUF_HEADER + HEADROOM ==> o.stride <= q
  {
    hide Align, Times, RoundUp, RingSize, Pow2;
    var o := Lay(p);
    RingsTight(p);
    RegionsAligned(p);
    AlignsLine(o.buf, DataRing(p.bufSlots));
    AlignBounds(o.table + p.bufSlots * SLOT_SIZE, p.pageSize);
    AlignBounds(o.pool + Times(p.bufSlots, o.stride), p.pageSize);
    forall q: nat | Pow2(q) && q >= p.bufferSize + BUF_HEADER + HEADROOM ensures o.stride <= q {
      RoundUpLeast(p.bufferSize + BUF_HEADER + HEADROOM, q);
    }
  }

  lemma RingsTight(p: Params)
    requires Legal(p)
    ensures CtrlRing() < RING_HEADER + CTRL_SLOTS * CTRL_ENTRY + LINE
    ensures DataRing(p.machnetSlots) < RING_HEADER + p.machnetSlots * SLOT_SIZE + LINE
    ensures DataRing(p.appSlots) < RING_HEADER + p.appSlots * SLOT_SIZE + LINE
    ensures DataRing(p.bufSlots) < RING_HEADER + p.bufSlots * SLOT_SIZE + LINE
  {
    hide Align, RingSize;
    assert Slots(CTRL_SLOTS);
    hide Pow2;
    RingSizeExact(CTRL_ENTRY, CTRL_SLOTS);
    RingSizeExact(SLOT_SIZE, p.machnetSlots);
    RingSizeExact(SLOT_SIZE, p.appSlots);
    RingSizeExact(SLOT_SIZE, p.bufSlots);
  }

  /** A sum of whole cache lines needs no padding. */
  lemma AlignsLine(a: nat, b: nat)
    requires a % LINE == 0 && b % LINE == 0
    ensures Align(a + b, LINE) == a + b
  {
    AlignedSum(a, b, LINE);
    AlignBounds(a + b, LINE);
  }

  lemma AtLeast(x: nat, a: nat)
    requires a > 0
    ensures x <= Align(x, a)
  {
    AlignBounds(x, a);
  }

  /** Rings and index table start on cache lines, the pool on a page, and the size is whole
      pages. */
  lemma RegionsAligned(p: Params)
    requires Legal(p) && p.pageSize > 0
    ensures var o := Lay(p);
            && o.stats % LINE == 0 && o.ctrlSq % LINE == 0 && o.ctrlCq % LINE == 0 && o.machnet % LINE == 0
            && o.app % LINE == 0 && o.buf % LINE == 0 && o.table % LINE == 0
            && o.pool % p.pageSize == 0 && o.total % p.pageSize == 0
  {
    hide Align, Times, RoundUp, Slots, RingSize, CtrlRing, DataRing;
    var o := Lay(p);
    AlignedSum(o.ctrlSq, CtrlRing(), LINE);
    AlignedSum(o.ctrlCq, CtrlRing(), LINE);
    AlignedSum(o.machnet, DataRing(p.machnetSlots), LINE);
    AlignedSum(o.app, DataRing(p.appSlots), LINE);
    AlignBounds(o.buf + DataRing(p.bufSlots), LINE);
    AlignBounds(o.table + p.bufSlots * SLOT_SIZE, p.pageSize);
    AlignBounds(o.pool + Times(p.bufSlots, o.stride), p.pageSize);
  }

  /** `__machnet_channel_buf`. */
  function Address(p: Params, i: nat): nat
    requires Legal(p) && p.pageSize > 0
  {
    Lay(p).pool + Times(i, Lay(p).stride)
  }

  lemma DivNat(x: nat, y: nat)
    requires y > 0
    ensures x / y >= 0
  {
    assert x == y * (x / y) + x % y;
    Multiple(y, x / y);
  }

  /** `__machnet_channel_buf_index`. */
  function BufIndex(p: Params, addr: nat): nat
    requires Legal(p) && p.pageSize > 0 && addr >= Lay(p).pool
  {
    hide Lay;
    DivNat(addr - Lay(p).pool, Lay(p).stride);
    (addr - Lay(p).pool) / Lay(p).stride
  }

  /** Header, headroom and payload of a buffer fit its power-of-two stride; buffers do not
      overlap and lie inside the channel; and the index is the inverse of the address. */
  lemma BuffersSound(p: Params, i: nat)
    requires Legal(p) && p.pageSize > 0 && i < p.bufSlots
    ensures var o := Lay(p);
            && Pow2(o.stride) && BUF_HEADER + HEADROOM + p.bufferSize <= o.stride
            && o.pool <= Address(p, i) && Address(p, i) + o.stride == Address(p, i + 1) <= o.total
            && BufIndex(p, Address(p, i)) == i
  {
    hide Align, Times, RoundUp, Slots, RingSize, CtrlRing, DataRing, Pow2;
    var o := Lay(p);
    AlignBounds(o.pool + Times(p.bufSlots, o.stride), p.pageSize);
    IndexOf(i, p.bufSlots, o.stride);
  }

  lemma IndexOf(i: nat, n: nat, stride: nat)
    requires i < n && stride > 0
    ensures Times(i, stride) + stride == Times(i + 1, stride) <= Times(n, stride)
    ensures Times(i, stride) / stride == i
  {
    Scales(i, 1, stride);
    Scales(i + 1, n - i - 1, stride);
    ModUnique(Times(i, stride), i, 0, stride);
    Multiple(stride, Times(i, stride) / stride - i);
  }

  /** `__machnet_channel_dataplane_calculate_size`, by accumulation. */
  method CalculateSize(p: Params) returns (r: Option<nat>)
    requires p.pageSize > 0
    ensures r.Some? <==> Legal(p)
    ensures r.Some? ==> r.value == Lay(p).total
  {
    hide Align, Times, Pow2, RingSize, CtrlRing, DataRing, RoundUp;
    if !(IsPow2(p.machnetSlots) && IsPow2(p.appSlots) && IsPow2(p.bufSlots)) { return None; }
    var stride := RoundUp(p.bufferSize + BUF_HEADER + HEADROOM);
    if p.bufferSize > p.pageSize { return None; }
    var total := CTX_SIZE;
    total := total + STATS_SIZE;
    for i := 0 to 2
      invariant total == CTX_SIZE + STATS_SIZE + (if i >= 1 then CtrlRing() else 0) + if i >= 2 then CtrlRing() else 0
    {
      ghost var ctrl := CtrlRing();
      var acc := RingSize(CTRL_ENTRY, CTRL_SLOTS);
      if acc.None? { return None; }
      total := total + acc.value;
    }
    var slots := [p.machnetSlots, p.appSlots, p.bufSlots];
    for i := 0 to 3
      invariant forall k :: 0 <= k < i ==> Slots(slots[k])
      invariant total == CTX_SIZE + STATS_SIZE + CtrlRing() + CtrlRing() + RingSum(slots, i)
    {
      RingSizeSome(SLOT_SIZE, slots[i]);
      var acc := RingSize(SLOT_SIZE, slots[i]);
      if acc.None? { return None; }
      ghost var bytes := DataRing(slots[i]);
      total := total + acc.value;
    }
    RingSumAll(slots);
    total := Align(total, LINE);
    total := total + p.bufSlots * SLOT_SIZE;
    total := Align(total, p.pageSize);
    total := total + Times(p.bufSlots, stride);
    total := Align(total, p.pageSize);
    r := Some(total);
  }

  /** The IS_POW2 macro, which also lets zero through. */
  predicate IsPow2(x: nat) {
    x == 0 || Pow2(x)
  }

  function RingSum(slots: seq<nat>, n: nat): nat
    requires n <= |slots| && forall k :: 0 <= k < n ==> Slots(slots[k])
  {
    if n == 0 then 0 else RingSum(slots, n - 1) + DataRing(slots[n - 1])
  }

  lemma RingSumAll(slots: seq<nat>)
    requires |slots| == 3 && forall k :: 0 <= k < 3 ==> Slots(slots[k])
    ensures RingSum(slots, 3) == DataRing(slots[0]) + DataRing(slots[1]) + DataRing(slots[2])
  {
    hide DataRing, Slots;
    assert RingSum(slots, 1) == DataRing(slots[0]);
    assert RingSum(slots, 2) == DataRing(slots[0]) + DataRing(slots[1]);
  }
}

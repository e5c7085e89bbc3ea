/** Machine words. Integers are unbounded in Dafny, so every 32-bit wrap-around of the
    C/C++ code is written out with `Wrap`. */
module Words {
  const TWO32: int := 0x1_0000_0000
  const TWO31: int := 0x8000_0000

  type u8 = x: int | 0 <= x < 0x100
  type u16 = x: int | 0 <= x < 0x1_0000
  type u32 = x: int | 0 <= x < 0x1_0000_0000

  /** Conversion to `uint32_t`. */
  function Wrap(x: int): u32 {
    x % TWO32
  }

  /** Conversion of a `uint32_t` to `int32_t`. */
  function Signed(x: u32): int {
    if x < TWO31 then x else x - TWO32
  }

  function Min(a: int, b: int): int {
    if a < b then a else b
  }

  // Serial-number comparisons, as `static_cast<int32_t>(a - b)` against 0.
  predicate SeqLt(a: u32, b: u32) {
    Signed(Wrap(a - b)) < 0
  }

  predicate SeqLeq(a: u32, b: u32) {
    Signed(Wrap(a - b)) <= 0
  }

  predicate SeqGt(a: u32, b: u32) {
    Signed(Wrap(a - b)) > 0
  }

  lemma SmallWrap(x: int)
    requires 0 <= x < TWO32
    ensures Wrap(x) == x
  {
  }

  lemma WrapAdd(x: int, k: int)
    ensures Wrap(x + k * TWO32) == Wrap(x)
  {
  }

  /** Wrapping only the parts of a sum or difference does not change its wrapped value. */
  lemma WrapParts(x: int, y: int)
    ensures Wrap(Wrap(x) + y) == Wrap(x + y)
    ensures Wrap(Wrap(x) - Wrap(y)) == Wrap(x - y)
    ensures Wrap(x - Wrap(y)) == Wrap(x - y)
  {
    var a, b := x / TWO32, y / TWO32;
    assert x == a * TWO32 + Wrap(x) && y == b * TWO32 + Wrap(y);
    WrapAdd(Wrap(x) + y, a);
    WrapAdd(Wrap(x) - Wrap(y), a - b);
    WrapAdd(x - Wrap(y), -b);
  }

  /** The wrapped comparisons agree with those of the unbounded numbers while these are within
      half the number circle of each other: `a` at most 2^31 behind and less than 2^31 ahead. */
  lemma SerialOrder(a: int, b: int)
    requires -TWO31 <= a - b < TWO31
    ensures Signed(Wrap(Wrap(a) - Wrap(b))) == a - b
    ensures SeqLt(Wrap(a), Wrap(b)) <==> a < b
    ensures SeqLeq(Wrap(a), Wrap(b)) <==> a <= b
    ensures SeqGt(Wrap(a), Wrap(b)) <==> a > b
  {
    WrapParts(a, b);
  }

  /** A wrapped difference is the true difference when that is a 32-bit number. */
  lemma Distance(a: int, b: int)
    requires 0 <= a - b < TWO32
    ensures Wrap(Wrap(a) - Wrap(b)) == a - b
  {
    WrapParts(a, b);
  }

  /** The offset of `v` from `base` leads from `base` back to `v`. */
  lemma Offset(base: u32, v: u32)
    ensures Wrap(base + Wrap(v - base)) == v
  {
    WrapParts(v - base, base);
  }

  /** Going `n` further from offset `o`. */
  lemma Further(base: u32, o: int, n: int)
    ensures Wrap(Wrap(base + o) + n) == Wrap(base + o + n)
    ensures 0 <= o + n < TWO32 ==> Wrap(Wrap(base + o + n) - base) == o + n
  {
    WrapParts(base + o, n);
    SmallWrap(base);
    hide Wrap;
    if 0 <= o + n < TWO32 {
      Distance(base + o + n, base);
    }
  }

  /** A value in serial order within (base, base + o] lies at an offset in (0, o]. */
  lemma Within(base: u32, o: nat, v: u32)
    requires o < TWO31 && SeqGt(v, base) && SeqLeq(v, Wrap(base + o))
    ensures 0 < Wrap(v - base) <= o
    ensures Wrap(Wrap(base + o) - v) == o - Wrap(v - base)
  {
    var d := Wrap(v - base);
    Offset(base, v);
    SerialOrder(base + d, base + o);
    Distance(base + o, base + d);
  }

  /** A range of `len` numbers from `v` on that starts no later than `base` and ends behind
      it in serial order covers `base`. */
  lemma Behind(v: u32, base: u32, len: nat)
    requires len < TWO31 && SeqLeq(v, base) && SeqGt(Wrap(v + len), base)
    ensures Wrap(base - v) < len
  {
    var back := Wrap(base - v);
    Offset(v, base);
    hide SeqLeq, SeqGt;
    if len <= back < TWO31 {
      SerialOrder(v + len, v + back);
    } else if TWO31 < back {
      WrapAdd(v + back - TWO32, 1);
      SerialOrder(v, v + back - TWO32);
    } else if back == TWO31 {
      SerialOrder(v + len, v + back);
    }
  }

  /** `htobe32`: the four bytes of a length, most significant first. */
  function Be32(n: u32): (r: seq<u8>)
    ensures |r| == 4
  {
    [n / 0x100_0000, n / 0x1_0000 % 0x100, n / 0x100 % 0x100, n % 0x100]
  }

  /** `be32toh`. */
  function FromBe32(s: seq<u8>): u32
    requires |s| == 4
  {
    s[0] as int * 0x100_0000 + s[1] as int * 0x1_0000 + s[2] as int * 0x100 + s[3] as int
  }

  lemma Be32RoundTrip(n: u32)
    ensures FromBe32(Be32(n)) == n
  {
    var h := n / 0x1_0000;
    var l := n % 0x1_0000;
    assert n == h * 0x1_0000 + l;
    assert n / 0x100_0000 == h / 0x100;
    assert h == (h / 0x100) * 0x100 + h % 0x100;
    assert n / 0x100 == h * 0x100 + l / 0x100;
    assert n / 0x100 % 0x100 == l / 0x100;
  }

  function Be16(n: u16): (r: seq<u8>)
    ensures |r| == 2
  {
    [n / 0x100, n % 0x100]
  }

  function FromBe16(a: u8, b: u8): u16 {
    a as int * 0x100 + b as int
  }

  lemma SplitAt<T>(s: seq<T>, i: nat, x: seq<T>, y: seq<T>)
    requires i <= |s| && s[i..] == x + y
    ensures i + |x| <= |s| && s[i..i + |x|] == x && s[i + |x|..] == y
  {
    assert s[i..i + |x|] == s[i..][..|x|];
    assert s[i + |x|..] == s[i..][|x|..];
  }

  /** The concatenation of a list of byte strings. */
  function Flatten<T>(s: seq<seq<T>>): seq<T> {
    if s == [] then [] else s[0] + Flatten(s[1..])
  }

  lemma {:induction false} FlattenAppend<T>(a: seq<seq<T>>, b: seq<seq<T>>)
    ensures Flatten(a + b) == Flatten(a) + Flatten(b)
  {
    if a == [] {
      assert a + b == b;
    } else {
      assert (a + b)[1..] == a[1..] + b;
      FlattenAppend(a[1..], b);
    }
  }

  lemma FlattenSnoc<T>(a: seq<seq<T>>, x: seq<T>)
    ensures Flatten(a + [x]) == Flatten(a) + x
  {
    FlattenAppend(a, [x]);
    assert [x][1..] == [];
  }

  // ---------------------------------------------------------------- remainders

  lemma Multiple(size: int, d: int)
    requires size > 0
    ensures d >= 1 ==> size * d >= size
    ensures d <= -1 ==> size * d <= -size
  {
    if d >= 1 {
      assert size * (d - 1) >= 0;
    } else if d <= -1 {
      assert size * (-d - 1) >= 0;
    }
  }

  lemma ModUnique(x: int, d: int, r: int, size: int)
    requires size > 0 && 0 <= r < size && x == size * d + r
    ensures x % size == r
  {
    assert x == size * (x / size) + x % size;
    assert size * (d - x / size) == x % size - r;
    Multiple(size, d - x / size);
  }

  lemma ModShift(r: int, d: int, size: int)
    requires size > 0
    ensures (size * d + r) % size == r % size
  {
    assert size * d + r == size * (d + r / size) + r % size;
    ModUnique(size * d + r, d + r / size, r % size, size);
  }

  /** Reducing by a multiple of `size` first changes nothing. */
  lemma ModOfMod(h: int, q: int, size: int)
    requires size > 0 && q > 0
    ensures h % (q * size) % size == h % size
  {
    var m := q * size;
    Multiple(size, q);
    assert h == m * (h / m) + h % m;
    assert m * (h / m) == size * (q * (h / m));
    ModShift(h % m, q * (h / m), size);
  }

  lemma ModAdd(h: int, j: int, size: int)
    requires size > 0
    ensures (h % size + j) % size == (h + j) % size
  {
    assert h + j == size * (h / size) + (h % size + j);
    ModShift(h % size + j, h / size, size);
  }

  /** Numbers less than `size` apart have different remainders. */
  lemma ModApart(t: int, u: int, size: int)
    requires size > 0 && t != u && -size < t - u < size
    ensures t % size != u % size
  {
    var a, b := t / size, u / size;
    assert t - u == size * (a - b) + (t % size - u % size);
    Multiple(size, a - b);
  }

  /** A product, kept apart from the linear arithmetic around it. */
  function Times(x: nat, scale: nat): nat {
    x * scale
  }

  lemma Scales(x: nat, y: nat, scale: nat)
    ensures Times(x + y, scale) == Times(x, scale) + Times(y, scale)
    ensures y > 0 && scale > 0 ==> Times(y, scale) > 0
  {
    if y > 0 && scale > 0 {
      Multiple(scale, y);
    }
  }

  // ---------------------------------------------------------------- sequences without repetition

  ghost predicate Distinct<T>(xs: seq<T>) {
    forall i, j :: 0 <= i < j < |xs| ==> xs[i] != xs[j]
  }

  /** Pigeonhole. */
  lemma {:induction false} DistinctBound<T>(xs: seq<T>, all: set<T>)
    requires Distinct(xs) && (forall i :: 0 <= i < |xs| ==> xs[i] in all)
    ensures |xs| <= |all|
    decreases |xs|
  {
    if xs != [] {
      DistinctBound(xs[1..], all - {xs[0]});
    }
  }
}

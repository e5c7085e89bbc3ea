/** The element copies of `jring`: unrolled 8, 4 and 2 ways with a fallthrough tail while the
    elements do not reach the end of the ring, two plain loops when they wrap around. */
module JringCopy {
  import opened Words
  import Jring

  // ---------------------------------------------------------------- the simple copy

  /** `s` with `xs` written from index `at` on. */
  function Put<T>(s: seq<T>, at: nat, xs: seq<T>): (r: seq<T>)
    requires at + |xs| <= |s|
    ensures |r| == |s|
  {
    s[..at] + xs + s[at + |xs|..]
  }

  /** `xs` stored in the ring from slot `idx` on, around its end. */
  function Stored<T>(s: seq<T>, idx: nat, xs: seq<T>): (r: seq<T>)
    requires idx <= |s| && |xs| <= |s|
    ensures |r| == |s|
  {
    var m := |s| - idx;
    if |xs| <= m then Put(s, idx, xs) else Put(Put(s, idx, xs[..m]), 0, xs[m..])
  }

  /** The `n` elements from slot `idx` on, around the end of the ring. */
  function Fetched<T>(s: seq<T>, idx: nat, n: nat): (r: seq<T>)
    requires idx <= |s| && n <= |s|
    ensures |r| == n
  {
    if idx + n <= |s| then s[idx..idx + n] else s[idx..] + s[..idx + n - |s|]
  }

  /** The slot of element `k` from head `h`. */
  function Slot(h: nat, k: nat, size: nat): nat
    requires size > 0
  {
    (h + k) % size
  }

  /** Element `k` goes to slot (h + k) mod size. */
  lemma StoredAt<T>(s: seq<T>, h: nat, xs: seq<T>, k: nat)
    requires |s| > 0 && |xs| <= |s| && k < |xs|
    ensures Stored(s, h % |s|, xs)[Slot(h, k, |s|)] == xs[k]
  {
    Around(h, k, |s|);
  }

  /** No other slot changes. */
  lemma StoredElsewhere<T>(s: seq<T>, h: nat, xs: seq<T>, x: nat)
    requires |s| > 0 && |xs| <= |s| && x < |s|
    ensures Stored(s, h % |s|, xs)[x] == s[x] || exists k :: 0 <= k < |xs| && Slot(h, k, |s|) == x
  {
    var idx := h % |s|;
    var k := if x >= idx then x - idx else x + |s| - idx;
    SlotBack(h, x, |s|);
    if k >= |xs| {
      StoredOutside(s, idx, xs, x);
    }
  }

  lemma SlotBack(h: nat, x: nat, size: nat)
    requires x < size
    ensures var idx := h % size;
            var k := if x >= idx then x - idx else x + size - idx;
            Slot(h, k, size) == x
  {
    Around(h, if x >= h % size then x - h % size else x + size - h % size, size);
  }

  lemma StoredOutside<T>(s: seq<T>, idx: nat, xs: seq<T>, x: nat)
    requires idx <= |s| && |xs| <= |s| && x < |s|
    requires (if x >= idx then x - idx else x + |s| - idx) >= |xs|
    ensures Stored(s, idx, xs)[x] == s[x]
  {
  }

  lemma FetchedAt<T>(s: seq<T>, h: nat, n: nat, k: nat)
    requires |s| > 0 && k < n <= |s|
    ensures Fetched(s, h % |s|, n)[k] == s[Slot(h, k, |s|)]
  {
    Around(h, k, |s|);
  }

  /** The code takes the slot from the 32-bit image of the head; the size divides 2^32. */
  lemma SlotOfWord(h: nat, k: nat, size: nat)
    requires size > 0 && TWO32 % size == 0
    ensures Slot(Wrap(h), k, size) == Slot(h, k, size) == Jring.Index(h, k, size)
  {
    Jring.SameSlot(h, k, size);
    ModAdd(Wrap(h), k, size);
  }

  lemma Around(h: nat, k: nat, size: nat)
    requires 0 < size && k < size
    ensures var idx := h % size;
            (h + k) % size == if idx + k < size then idx + k else idx + k - size
  {
    ModAdd(h, k, size);
    var y := h % size + k;
    if y < size {
      ModUnique(y, 0, y, size);
    } else {
      ModUnique(y, 1, y - size, size);
    }
  }

  lemma PutGet<T>(s: seq<T>, at: nat, xs: seq<T>)
    requires at + |xs| <= |s|
    ensures Put(s, at, xs)[at..at + |xs|] == xs
    ensures Put(s, at, xs)[at + |xs|..] == s[at + |xs|..]
  {
  }

  /** What an enqueue stored, a dequeue at the same head fetches. */
  lemma StoreFetch<T>(s: seq<T>, idx: nat, xs: seq<T>)
    requires idx <= |s| && |xs| <= |s|
    ensures Fetched(Stored(s, idx, xs), idx, |xs|) == xs
  {
    hide Put;
    var m := |s| - idx;
    if |xs| <= m {
      PutGet(s, idx, xs);
    } else {
      var a := Put(s, idx, xs[..m]);
      var r := Put(a, 0, xs[m..]);
      PutGet(s, idx, xs[..m]);
      PutGet(a, 0, xs[m..]);
      assert r[idx..] == r[|xs| - m..][idx - (|xs| - m)..] == a[idx..];
      assert xs == xs[..m] + xs[m..];
    }
  }

  lemma PutTwice<T>(s: seq<T>, at: nat, xs: seq<T>, ys: seq<T>)
    requires at + |xs| + |ys| <= |s|
    ensures Put(Put(s, at, xs), at + |xs|, ys) == Put(s, at, xs + ys)
  {
  }

  lemma PutNone<T>(s: seq<T>, at: nat, xs: seq<T>, k: nat)
    requires at <= |s| && k <= |xs|
    ensures Put(s, at, xs[k..k]) == s
  {
    assert xs[k..k] == [];
  }

  // ---------------------------------------------------------------- copying in place

  /** One assignment, with `i` elements already in place. */
  method Assign<T>(dst: array<T>, d: nat, src: seq<T>, s: nat, i: nat, ghost was: seq<T>)
    requires d + i < dst.Length == |was| && s + i < |src|
    requires dst[..] == Put(was, d, src[s..s + i])
    modifies dst
    ensures dst[..] == Put(was, d, src[s..s + (i + 1)])
  {
    dst[d + i] := src[s + i];
    assert src[s..s + (i + 1)] == src[s..s + i] + [src[s + i]];
  }

  /** The body of the 8-way loop. */
  method Group8<T>(dst: array<T>, d: nat, src: seq<T>, s: nat, i: nat, ghost was: seq<T>)
    requires d + i + 8 <= dst.Length == |was| && s + i + 8 <= |src|
    requires dst[..] == Put(was, d, src[s..s + i])
    modifies dst
    ensures dst[..] == Put(was, d, src[s..s + (i + 8)])
  {
    hide Put;
    Assign(dst, d, src, s, i, was);
    Assign(dst, d, src, s, i + 1, was);
    Assign(dst, d, src, s, i + 2, was);
    Assign(dst, d, src, s, i + 3, was);
    Assign(dst, d, src, s, i + 4, was);
    Assign(dst, d, src, s, i + 5, was);
    Assign(dst, d, src, s, i + 6, was);
    Assign(dst, d, src, s, i + 7, was);
  }

  /** The fallthrough switch behind the 8-way loop. */
  method Rest8<T>(dst: array<T>, d: nat, src: seq<T>, s: nat, start: nat, rem: nat, ghost was: seq<T>)
    requires rem < 8 && d + start + rem <= dst.Length == |was| && s + start + rem <= |src|
    requires dst[..] == Put(was, d, src[s..s + start])
    modifies dst
    ensures dst[..] == Put(was, d, src[s..s + (start + rem)])
  {
    hide Put;
    var i := start;
    if rem >= 7 {
      Assign(dst, d, src, s, i, was);
      i := i + 1;
    }
    if rem >= 6 {
      Assign(dst, d, src, s, i, was);
      i := i + 1;
    }
    if rem >= 5 {
      Assign(dst, d, src, s, i, was);
      i := i + 1;
    }
    if rem >= 4 {
      Assign(dst, d, src, s, i, was);
      i := i + 1;
    }
    if rem >= 3 {
      Assign(dst, d, src, s, i, was);
      i := i + 1;
    }
    if rem >= 2 {
      Assign(dst, d, src, s, i, was);
      i := i + 1;
    }
    if rem >= 1 {
      Assign(dst, d, src, s, i, was);
      i := i + 1;
    }
  }

  method Unrolled8<T>(dst: array<T>, d: nat, src: seq<T>, s: nat, n: nat)
    requires d + n <= dst.Length && s + n <= |src|
    modifies dst
    ensures dst[..] == Put(old(dst[..]), d, src[s..s + n])
  {
    hide Put;
    ghost var was := dst[..];
    PutNone(was, d, src, s);
    var i := 0;
    while i < n - n % 8
      invariant 0 <= i <= n - n % 8 && i % 8 == 0
      invariant dst[..] == Put(was, d, src[s..s + i])
    {
      Group8(dst, d, src, s, i, was);
      i := i + 8;
    }
    Rest8(dst, d, src, s, i, n % 8, was);
  }

  method Unrolled4<T>(dst: array<T>, d: nat, src: seq<T>, s: nat, n: nat)
    requires d + n <= dst.Length && s + n <= |src|
    modifies dst
    ensures dst[..] == Put(old(dst[..]), d, src[s..s + n])
  {
    hide Put;
    ghost var was := dst[..];
    PutNone(was, d, src, s);
    var i := 0;
    while i < n - n % 4
      invariant 0 <= i <= n - n % 4 && i % 4 == 0
      invariant dst[..] == Put(was, d, src[s..s + i])
    {
      Assign(dst, d, src, s, i, was);
      Assign(dst, d, src, s, i + 1, was);
      Assign(dst, d, src, s, i + 2, was);
      Assign(dst, d, src, s, i + 3, was);
      i := i + 4;
    }
    var rem := n % 4;
    if rem >= 3 {
      Assign(dst, d, src, s, i, was);
      i := i + 1;
    }
    if rem >= 2 {
      Assign(dst, d, src, s, i, was);
      i := i + 1;
    }
    if rem >= 1 {
      Assign(dst, d, src, s, i, was);
      i := i + 1;
    }
  }

  method Unrolled2<T>(dst: array<T>, d: nat, src: seq<T>, s: nat, n: nat)
    requires d + n <= dst.Length && s + n <= |src|
    modifies dst
    ensures dst[..] == Put(old(dst[..]), d, src[s..s + n])
  {
    hide Put;
    ghost var was := dst[..];
    PutNone(was, d, src, s);
    var i := 0;
    while i < n - n % 2
      invariant 0 <= i <= n - n % 2 && i % 2 == 0
      invariant dst[..] == Put(was, d, src[s..s + i])
    {
      Assign(dst, d, src, s, i, was);
      Assign(dst, d, src, s, i + 1, was);
      i := i + 2;
    }
    var rem := n % 2;
    if rem >= 1 {
      Assign(dst, d, src, s, i, was);
      i := i + 1;
    }
  }

  /** One plain loop. */
  method Plain<T>(dst: array<T>, d: nat, src: seq<T>, s: nat, n: nat)
    requires d + n <= dst.Length && s + n <= |src|
    modifies dst
    ensures dst[..] == Put(old(dst[..]), d, src[s..s + n])
  {
    ghost var was := dst[..];
    for i := 0 to n
      invariant dst[..] == Put(was, d, src[s..s + i])
    {
      Assign(dst, d, src, s, i, was);
    }
  }

  /** Which unrolling the element size selects. */
  datatype Width = Words32 | Words64 | Words128

  method Straight<T>(w: Width, dst: array<T>, d: nat, src: seq<T>, s: nat, n: nat)
    requires d + n <= dst.Length && s + n <= |src|
    modifies dst
    ensures dst[..] == Put(old(dst[..]), d, src[s..s + n])
  {
    match w
    case Words32 => Unrolled8(dst, d, src, s, n);
    case Words64 => Unrolled4(dst, d, src, s, n);
    case Words128 => Unrolled2(dst, d, src, s, n);
  }

  /** `__jring_enqueue_elems_32`, `_64` and `_128`. */
  method EnqueueElems<T>(w: Width, ring: array<T>, idx: nat, obj: seq<T>, n: nat)
    requires idx <= ring.Length && n <= ring.Length && n <= |obj|
    modifies ring
    ensures ring[..] == Stored(old(ring[..]), idx, obj[..n])
  {
    hide Put;
    if idx + n < ring.Length {
      Straight(w, ring, idx, obj, 0, n);
      assert obj[0..0 + n] == obj[..n];
    } else {
      var m := ring.Length - idx;
      Plain(ring, idx, obj, 0, m);
      Plain(ring, 0, obj, m, n - m);
      assert obj[..n][..m] == obj[0..0 + m] && obj[..n][m..] == obj[m..m + (n - m)];
      if n == m {
        PutNone(Put(old(ring[..]), idx, obj[0..0 + m]), 0, obj, m);
        assert obj[0..0 + m] == obj[..n];
      }
    }
  }

  /** `__jring_dequeue_elems_32`, `_64` and `_128`. */
  method DequeueElems<T>(w: Width, ring: seq<T>, idx: nat, obj: array<T>, n: nat)
    requires idx <= |ring| && n <= |ring| && n <= obj.Length
    modifies obj
    ensures obj[..] == Put(old(obj[..]), 0, Fetched(ring, idx, n))
  {
    hide Put;
    if idx + n < |ring| {
      Straight(w, obj, 0, ring, idx, n);
    } else {
      var m := |ring| - idx;
      Plain(obj, 0, ring, idx, m);
      Plain(obj, m, ring, 0, n - m);
      assert Fetched(ring, idx, n) == ring[idx..idx + m] + ring[0..0 + (n - m)];
      PutTwice(old(obj[..]), 0, ring[idx..idx + m], ring[0..0 + (n - m)]);
    }
  }

  // ---------------------------------------------------------------- elements of any size

  /** Every element is `scale` words. */
  ghost predicate Scaled<T>(s: seq<seq<T>>, scale: nat) {
    forall i :: 0 <= i < |s| ==> |s[i]| == scale
  }

  lemma {:induction false} FlattenLength<T>(s: seq<seq<T>>, scale: nat)
    requires Scaled(s, scale)
    ensures |Flatten(s)| == Times(|s|, scale)
    decreases |s|
  {
    if s != [] {
      FlattenLength(s[1..], scale);
      Scales(1, |s| - 1, scale);
    }
  }

  /** A run of elements is a run of words. */
  lemma SliceWords<T>(s: seq<seq<T>>, a: nat, b: nat, scale: nat)
    requires Scaled(s, scale) && a <= b <= |s|
    ensures Times(a, scale) <= Times(b, scale) <= |Flatten(s)|
    ensures Flatten(s[a..b]) == Flatten(s)[Times(a, scale)..Times(b, scale)]
  {
    hide Flatten, Times;
    var x, y, z := s[..a], s[a..b], s[b..];
    Thirds(s, a, b);
    Scales(a, b - a, scale);
    FlattenLength(x, scale);
    FlattenLength(y, scale);
    FlattenAppend(x + y, z);
    FlattenAppend(x, y);
  }

  lemma Thirds<T>(s: seq<T>, a: nat, b: nat)
    requires a <= b <= |s|
    ensures s == (s[..a] + s[a..b]) + s[b..]
  {
  }

  lemma PutMiddle<T>(a: seq<T>, b: seq<T>, c: seq<T>, x: seq<T>)
    requires |x| == |b|
    ensures Put((a + b) + c, |a|, x) == (a + x) + c
  {
  }

  lemma PutWords<T>(s: seq<seq<T>>, at: nat, xs: seq<seq<T>>, scale: nat)
    requires Scaled(s, scale) && Scaled(xs, scale) && at + |xs| <= |s|
    ensures Scaled(Put(s, at, xs), scale) && Times(at, scale) + |Flatten(xs)| <= |Flatten(s)|
    ensures Flatten(Put(s, at, xs)) == Put(Flatten(s), Times(at, scale), Flatten(xs))
  {
    hide Flatten, Times;
    var a, b, c := s[..at], s[at..at + |xs|], s[at + |xs|..];
    Thirds(s, at, at + |xs|);
    PutWordsParts(a, b, c, xs, scale);
  }

  lemma PutWordsParts<T>(a: seq<seq<T>>, b: seq<seq<T>>, c: seq<seq<T>>, xs: seq<seq<T>>, scale: nat)
    requires Scaled(a, scale) && Scaled(b, scale) && Scaled(xs, scale) && |b| == |xs|
    ensures |Flatten(a)| == Times(|a|, scale)
    ensures |Flatten(a)| + |Flatten(xs)| <= |Flatten((a + b) + c)|
    ensures Flatten((a + xs) + c) == Put(Flatten((a + b) + c), |Flatten(a)|, Flatten(xs))
  {
    hide Flatten, Times, Put, Scaled;
    FlattenLength(a, scale);
    FlattenLength(b, scale);
    FlattenLength(xs, scale);
    FlattenAppend(a + b, c);
    FlattenAppend(a, b);
    FlattenAppend(a + xs, c);
    FlattenAppend(a, xs);
    PutMiddle(Flatten(a), Flatten(b), Flatten(c), Flatten(xs));
  }

  /** The sizes of a copy in words. */
  lemma WordBounds<T>(s: seq<seq<T>>, idx: nat, n: nat, scale: nat)
    requires Scaled(s, scale) && idx <= |s| && n <= |s| && scale > 0
    ensures Times(idx, scale) <= |Flatten(s)| && Times(n, scale) <= |Flatten(s)|
    ensures Times(idx, scale) + Times(n, scale) == Times(idx + n, scale)
    ensures |Flatten(s)| - Times(idx, scale) == Times(|s| - idx, scale)
    ensures n <= |s| - idx <==> Times(n, scale) <= |Flatten(s)| - Times(idx, scale)
  {
    hide Flatten, Times;
    FlattenLength(s, scale);
    Scales(idx, |s| - idx, scale);
    Scales(n, |s| - n, scale);
    Scales(idx, n, scale);
    var m := |s| - idx;
    if n <= m {
      Scales(n, m - n, scale);
    } else {
      Scales(m, n - m, scale);
    }
  }

  /** Copying `n * scale` words from word `idx * scale` on is copying `n` elements of `scale`
      words from slot `idx` on. */
  lemma StoredWords<T>(s: seq<seq<T>>, idx: nat, xs: seq<seq<T>>, scale: nat)
    requires Scaled(s, scale) && Scaled(xs, scale) && idx <= |s| && |xs| <= |s| && scale > 0
    ensures Times(idx, scale) <= |Flatten(s)| && |Flatten(xs)| <= |Flatten(s)|
    ensures Flatten(Stored(s, idx, xs)) == Stored(Flatten(s), Times(idx, scale), Flatten(xs))
  {
    hide Flatten, Times, Put;
    FlattenLength(xs, scale);
    WordBounds(s, idx, |xs|, scale);
    var m := |s| - idx;
    if |xs| <= m {
      PutWords(s, idx, xs, scale);
    } else {
      var a, b := xs[..m], xs[m..];
      assert xs == a + b;
      FlattenAppend(a, b);
      FlattenLength(a, scale);
      PutWords(s, idx, a, scale);
      PutWordsFront(Put(s, idx, a), b, scale);
      assert Flatten(xs)[..Times(m, scale)] == Flatten(a) && Flatten(xs)[Times(m, scale)..] == Flatten(b);
    }
  }

  lemma PutWordsFront<T>(s: seq<seq<T>>, xs: seq<seq<T>>, scale: nat)
    requires Scaled(s, scale) && Scaled(xs, scale) && |xs| <= |s|
    ensures |Flatten(xs)| <= |Flatten(s)| && Flatten(Put(s, 0, xs)) == Put(Flatten(s), 0, Flatten(xs))
  {
    PutWords(s, 0, xs, scale);
  }

  lemma FetchedWords<T>(s: seq<seq<T>>, idx: nat, n: nat, scale: nat)
    requires Scaled(s, scale) && idx <= |s| && n <= |s| && scale > 0
    ensures Times(idx, scale) <= |Flatten(s)| && Times(n, scale) <= |Flatten(s)|
    ensures Flatten(Fetched(s, idx, n)) == Fetched(Flatten(s), Times(idx, scale), Times(n, scale))
  {
    hide Flatten, Times, Scaled;
    WordBounds(s, idx, n, scale);
    if idx + n <= |s| {
      SliceWords(s, idx, idx + n, scale);
    } else {
      FlattenLength(s, scale);
      Scales(idx + n - |s|, |s|, scale);
      FetchedAround(s, idx, idx + n - |s|, scale);
    }
  }

  lemma FetchedAround<T>(s: seq<seq<T>>, idx: nat, k: nat, scale: nat)
    requires Scaled(s, scale) && idx <= |s| && k <= |s|
    ensures Times(k, scale) <= |Flatten(s)| && Times(idx, scale) <= |Flatten(s)|
    ensures Flatten(s[idx..] + s[..k]) == Flatten(s)[Times(idx, scale)..] + Flatten(s)[..Times(k, scale)]
  {
    hide Flatten, Times, Scaled;
    SliceWords(s, idx, |s|, scale);
    FlattenLength(s, scale);
    SliceWordsFront(s, k, scale);
    assert s[idx..|s|] == s[idx..];
    FlattenAppend(s[idx..], s[..k]);
  }

  lemma SliceWordsFront<T>(s: seq<seq<T>>, k: nat, scale: nat)
    requires Scaled(s, scale) && k <= |s|
    ensures Times(k, scale) <= |Flatten(s)| && Flatten(s[..k]) == Flatten(s)[..Times(k, scale)]
  {
    SliceWords(s, 0, k, scale);
    assert s[0..k] == s[..k];
  }

  /** The general case of `__jring_enqueue_elems`: `num` elements of `scale` words, given as
      words, for a ring whose elements are `elems`. */
  method EnqueueScaled<T>(ring: array<T>, head: nat, size: nat, scale: nat, obj: seq<T>, num: nat,
                          ghost elems: seq<seq<T>>, ghost xs: seq<seq<T>>)
    requires scale > 0 && size == |elems| > 0 && num == |xs| <= size
    requires Scaled(elems, scale) && Scaled(xs, scale) && ring[..] == Flatten(elems) && obj == Flatten(xs)
    modifies ring
    ensures ring[..] == Flatten(Stored(elems, head % size, xs))
  {
    hide Flatten, Stored, Times;
    var idx := head % size;
    StoredWords(elems, idx, xs, scale);
    FlattenLength(xs, scale);
    assert obj[..Times(num, scale)] == obj;
    EnqueueElems(Words32, ring, Times(idx, scale), obj, Times(num, scale));
  }

  /** The general case of `__jring_dequeue_elems`. */
  method DequeueScaled<T>(ring: seq<T>, head: nat, size: nat, scale: nat, obj: array<T>, num: nat,
                          ghost elems: seq<seq<T>>)
    requires scale > 0 && size == |elems| > 0 && num <= size && Times(num, scale) <= obj.Length
    requires Scaled(elems, scale) && ring == Flatten(elems)
    modifies obj
    ensures obj[..Times(num, scale)] == Flatten(Fetched(elems, head % size, num))
  {
    hide Flatten, Fetched, Times;
    var idx := head % size;
    FetchedWords(elems, idx, num, scale);
    DequeueElems(Words32, ring, Times(idx, scale), obj, Times(num, scale));
  }
}

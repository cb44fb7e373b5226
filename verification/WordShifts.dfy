/** Adding to words of a byte string, wrapping around. */
module WordShifts {
  import opened ByteStrings
  import opened Remainders

  /** Little-endian value of a byte string. */
  function Little(s: Bytes): (n: nat) {
    if s == [] then 0 else s[0] + 256 * Little(s[1..])
  }

  function ToLittle(n: nat, width: nat): (s: Bytes)
    ensures |s| == width
  {
    if width == 0 then [] else [n % 256] + ToLittle(n / 256, width - 1)
  }

  lemma {:induction false} LittleBound(s: Bytes)
    ensures Little(s) < Pow256(|s|)
  {
    if s != [] {
      LittleBound(s[1..]);
    }
  }

  lemma {:induction false} LittleInverts(n: nat, width: nat)
    requires n < Pow256(width)
    ensures Little(ToLittle(n, width)) == n
  {
    if width > 0 {
      LittleInverts(n / 256, width - 1);
      assert ToLittle(n, width)[1..] == ToLittle(n / 256, width - 1);
    }
  }

  lemma Digit(b: byte, n: nat)
    ensures (b + 256 * n) % 256 == b && (b + 256 * n) / 256 == n
  {
  }

  lemma {:induction false} ToLittleInverts(s: Bytes)
    ensures ToLittle(Little(s), |s|) == s
  {
    if s != [] {
      ToLittleInverts(s[1..]);
      Digit(s[0], Little(s[1..]));
      assert [s[0]] + s[1..] == s;
    }
  }

  // ---------------------------------------------------------------- shifting words

  /** A word of the image to be shifted. */
  datatype Target = Target(at: nat, width: nat)

  function Wrapped(v: int, width: nat): nat { v % Pow256(width) }

  predicate Inside(s: Bytes, t: Target) { t.at + t.width <= |s| }

  predicate AllInside(s: Bytes, ts: seq<Target>) {
    forall i :: 0 <= i < |ts| ==> Inside(s, ts[i])
  }

  function Word(s: Bytes, t: Target): nat
    requires Inside(s, t)
  {
    Little(s[t.at..t.at + t.width])
  }

  /** `s` with the bytes from `at` on replaced by `word`. */
  function Patched(s: Bytes, at: nat, word: Bytes): (r: Bytes)
    requires at + |word| <= |s|
    ensures |r| == |s|
    decreases |word|
  {
    if word == [] then s else Patched(s[at := word[0]], at + 1, word[1..])
  }

  lemma {:induction false} PatchedBytes(s: Bytes, at: nat, word: Bytes)
    requires at + |word| <= |s|
    ensures forall k :: 0 <= k < |s| ==> Patched(s, at, word)[k] == if at <= k < at + |word| then word[k - at] else s[k]
    decreases |word|
  {
    if word != [] {
      PatchedBytes(s[at := word[0]], at + 1, word[1..]);
    }
  }

  /** Adds `delta` to the word at `t`, wrapping around. */
  function Shifted(s: Bytes, t: Target, delta: int): (r: Bytes)
    requires Inside(s, t)
    ensures |r| == |s|
  {
    Patched(s, t.at, ToLittle(Wrapped(Word(s, t) + delta, t.width), t.width))
  }

  function AllShifted(s: Bytes, ts: seq<Target>, delta: int): (r: Bytes)
    requires AllInside(s, ts)
    ensures |r| == |s|
    decreases |ts|
  {
    if ts == [] then s else AllShifted(Shifted(s, ts[0], delta), ts[1..], delta)
  }

  predicate Apart(t: Target, u: Target) {
    t.at + t.width <= u.at || u.at + u.width <= t.at
  }

  /** Each target is the word `t` or disjoint from it. */
  predicate ClearOf(t: Target, ts: seq<Target>) {
    forall i :: 0 <= i < |ts| ==> ts[i] == t || Apart(t, ts[i])
  }

  /** Targets are pairwise the same word or disjoint words. */
  predicate Compatible(ts: seq<Target>) {
    forall i, j :: 0 <= i < j < |ts| ==> ts[i] == ts[j] || Apart(ts[i], ts[j])
  }

  lemma ShiftedElsewhere(s: Bytes, t: Target, delta: int, k: nat)
    requires Inside(s, t) && k < |s| && !(t.at <= k < t.at + t.width)
    ensures Shifted(s, t, delta)[k] == s[k]
  {
    PatchedBytes(s, t.at, ToLittle(Wrapped(Word(s, t) + delta, t.width), t.width));
  }

  lemma ShiftedWord(s: Bytes, t: Target, delta: int)
    requires Inside(s, t)
    ensures Word(Shifted(s, t, delta), t) == Wrapped(Word(s, t) + delta, t.width)
  {
    var r := Shifted(s, t, delta);
    PatchedBytes(s, t.at, ToLittle(Wrapped(Word(s, t) + delta, t.width), t.width));
    assert r[t.at..t.at + t.width] == ToLittle(Wrapped(Word(s, t) + delta, t.width), t.width);
    LittleInverts(Wrapped(Word(s, t) + delta, t.width), t.width);
  }

  lemma OtherWord(s: Bytes, t: Target, u: Target, delta: int)
    requires Inside(s, t) && Inside(s, u) && Apart(t, u)
    ensures Word(Shifted(s, t, delta), u) == Word(s, u)
  {
    PatchedBytes(s, t.at, ToLittle(Wrapped(Word(s, t) + delta, t.width), t.width));
    assert Shifted(s, t, delta)[u.at..u.at + u.width] == s[u.at..u.at + u.width];
  }

  /** An image is settled by its words: equal outside a word and in the word's value, equal. */
  lemma SameImage(a: Bytes, b: Bytes, t: Target)
    requires |a| == |b| && Inside(a, t) && Word(a, t) == Word(b, t)
    requires forall k :: 0 <= k < |a| && !(t.at <= k < t.at + t.width) ==> a[k] == b[k]
    ensures a == b
  {
    ToLittleInverts(a[t.at..t.at + t.width]);
    ToLittleInverts(b[t.at..t.at + t.width]);
    assert a[t.at..t.at + t.width] == b[t.at..t.at + t.width];
    forall k | 0 <= k < |a| ensures a[k] == b[k] {
      if t.at <= k < t.at + t.width {
        assert a[k] == a[t.at..t.at + t.width][k - t.at];
        assert b[k] == b[t.at..t.at + t.width][k - t.at];
      }
    }
  }

  lemma ModAdd(a: int, b: int, m: nat)
    requires m > 0
    ensures (a % m + b) % m == (a + b) % m
  {
    var q := a / m;
    assert a == q * m + a % m;
    ModShift(a % m + b, q, m);
    assert a % m + b + q * m == a + b;
  }

  lemma {:induction false} ModShift(a: int, q: int, m: nat)
    requires m > 0
    ensures (a + q * m) % m == a % m
    decreases if q < 0 then -q else q
  {
    if q > 0 {
      ModShift(a, q - 1, m);
      assert a + q * m == a + (q - 1) * m + m;
      ModOnce(a + (q - 1) * m, m);
    } else if q < 0 {
      ModShift(a, q + 1, m);
      assert a + q * m + m == a + (q + 1) * m;
      ModOnce(a + q * m, m);
    }
  }

  lemma ModOnce(a: int, m: nat)
    requires m > 0
    ensures (a + m) % m == a % m
  {
    var q, q' := a / m, (a + m) / m;
    assert (q + 1) * m == q * m + m;
    RemainderUnique(q + 1, a % m, q', (a + m) % m, m);
  }

  lemma SmallMod(a: nat, m: nat)
    requires a < m
    ensures a % m == a
  {
    RemainderUnique(0, a, a / m, a % m, m);
  }

  lemma WrappedTwice(v: int, d: int, e: int, width: nat)
    ensures Wrapped(Wrapped(v + d, width) + e, width) == Wrapped(v + d + e, width)
  {
    ModAdd(v + d, e, Pow256(width));
  }

  lemma WrappedSame(s: Bytes, t: Target)
    requires Inside(s, t)
    ensures Wrapped(Word(s, t), t.width) == Word(s, t)
  {
    LittleBound(s[t.at..t.at + t.width]);
    SmallMod(Word(s, t), Pow256(t.width));
  }

  lemma ShiftedTwice(s: Bytes, t: Target, d: int, e: int)
    requires Inside(s, t)
    ensures Shifted(Shifted(s, t, d), t, e) == Shifted(s, t, d + e)
  {
    var r := Shifted(s, t, d);
    ShiftedWord(s, t, d);
    WrappedTwice(Word(s, t), d, e, t.width);
    var x, y := ToLittle(Wrapped(Word(s, t) + d, t.width), t.width), ToLittle(Wrapped(Word(s, t) + d + e, t.width), t.width);
    PatchedOver(s, t.at, x, y);
  }

  lemma PatchedOver(s: Bytes, i: nat, x: Bytes, y: Bytes)
    requires i + |x| <= |s| && |x| == |y|
    ensures Patched(Patched(s, i, x), i, y) == Patched(s, i, y)
  {
    PatchedBytes(s, i, x);
    PatchedBytes(Patched(s, i, x), i, y);
    PatchedBytes(s, i, y);
  }

  lemma ShiftedByNothing(s: Bytes, t: Target)
    requires Inside(s, t)
    ensures Shifted(s, t, 0) == s
  {
    ShiftedWord(s, t, 0);
    WrappedSame(s, t);
    forall k | 0 <= k < |s| && !(t.at <= k < t.at + t.width) ensures Shifted(s, t, 0)[k] == s[k] {
      ShiftedElsewhere(s, t, 0, k);
    }
    SameImage(Shifted(s, t, 0), s, t);
  }

  lemma ApartShiftsCommute(s: Bytes, t: Target, u: Target, d: int, e: int)
    requires Inside(s, t) && Inside(s, u) && Apart(t, u)
    ensures Shifted(Shifted(s, t, d), u, e) == Shifted(Shifted(s, u, e), t, d)
  {
    OtherWord(s, t, u, d);
    OtherWord(s, u, t, e);
    var x, y := ToLittle(Wrapped(Word(s, t) + d, t.width), t.width), ToLittle(Wrapped(Word(s, u) + e, u.width), u.width);
    PatchesCommute(s, t.at, x, u.at, y);
  }

  lemma PatchesCommute(s: Bytes, i: nat, x: Bytes, j: nat, y: Bytes)
    requires i + |x| <= |s| && j + |y| <= |s| && (i + |x| <= j || j + |y| <= i)
    ensures Patched(Patched(s, i, x), j, y) == Patched(Patched(s, j, y), i, x)
  {
    PatchedBytes(s, i, x);
    PatchedBytes(s, j, y);
    PatchedBytes(Patched(s, i, x), j, y);
    PatchedBytes(Patched(s, j, y), i, x);
  }

  function Times(ts: seq<Target>, t: Target): nat {
    if ts == [] then 0 else (if ts[0] == t then 1 else 0) + Times(ts[1..], t)
  }

  /** `delta` for each time `t` is named. */
  function Total(ts: seq<Target>, t: Target, delta: int): int {
    if ts == [] then 0 else (if ts[0] == t then delta else 0) + Total(ts[1..], t, delta)
  }

  lemma {:induction false} TotalCounts(ts: seq<Target>, t: Target, delta: int)
    ensures Total(ts, t, delta) == Times(ts, t) * delta
  {
    if ts != [] {
      TotalCounts(ts[1..], t, delta);
      OneMore(Times(ts[1..], t), delta);
    }
  }

  lemma OneMore(n: int, delta: int)
    ensures (1 + n) * delta == delta + n * delta
  {
  }

  lemma ShiftedOnceMore(s: Bytes, t: Target, delta: int, more: int)
    requires Inside(s, t)
    ensures Wrapped(Word(Shifted(s, t, delta), t) + more, t.width) == Wrapped(Word(s, t) + (delta + more), t.width)
  {
    ShiftedWord(s, t, delta);
    WrappedTwice(Word(s, t), delta, more, t.width);
  }

  /** Each word named by the targets grows by `delta` each time it is named. */
  lemma {:induction false} WordsGrow(s: Bytes, ts: seq<Target>, delta: int, t: Target)
    requires Inside(s, t) && AllInside(s, ts) && ClearOf(t, ts)
    ensures Word(AllShifted(s, ts, delta), t) == Wrapped(Word(s, t) + Total(ts, t, delta), t.width)
    decreases |ts|
  {
    if ts == [] {
      WrappedSame(s, t);
    } else {
      WordsGrow(Shifted(s, ts[0], delta), ts[1..], delta, t);
      if ts[0] == t {
        ShiftedOnceMore(s, t, delta, Total(ts[1..], t, delta));
      } else {
        OtherWord(s, ts[0], t, delta);
      }
    }
  }

  /** No other byte changes. */
  lemma {:induction false} BytesKept(s: Bytes, ts: seq<Target>, delta: int, k: nat)
    requires AllInside(s, ts) && k < |s|
    requires forall i :: 0 <= i < |ts| ==> !(ts[i].at <= k < ts[i].at + ts[i].width)
    ensures AllShifted(s, ts, delta)[k] == s[k]
    decreases |ts|
  {
    if ts != [] {
      ShiftedElsewhere(s, ts[0], delta, k);
      BytesKept(Shifted(s, ts[0], delta), ts[1..], delta, k);
    }
  }

  lemma {:induction false} ShiftsByNothing(s: Bytes, ts: seq<Target>)
    requires AllInside(s, ts)
    ensures AllShifted(s, ts, 0) == s
  {
    if ts != [] {
      ShiftedByNothing(s, ts[0]);
      ShiftsByNothing(s, ts[1..]);
    }
  }

  lemma TwoShifts(s: Bytes, t: Target, u: Target, delta: int)
    requires Inside(s, t) && Inside(s, u)
    ensures AllShifted(s, [t, u], delta) == Shifted(Shifted(s, t, delta), u, delta)
  {
    assert [t, u][1..] == [u] && [u][1..] == [];
    assert AllShifted(Shifted(s, t, delta), [u], delta) == AllShifted(Shifted(Shifted(s, t, delta), u, delta), [], delta);
  }
}

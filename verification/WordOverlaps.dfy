/** When words that overlap can be shifted and shifted back in the same order. */
module WordOverlaps {
  import opened ByteStrings
  import opened Remainders
  import opened WordShifts

  function End(t: Target): nat { t.at + t.width }

  predicate SameEnd(t: Target, u: Target) { End(t) == End(u) }

  /** How many bytes two words share. */
  function Overlap(t: Target, u: Target): nat {
    var lo, hi := if t.at < u.at then u.at else t.at, if End(t) < End(u) then End(t) else End(u);
    if lo < hi then hi - lo else 0
  }

  /** Both words end at the same byte, or they share no more bytes than `delta` has low zero bytes. */
  predicate Undoable(t: Target, u: Target, delta: int) {
    SameEnd(t, u) || delta % Pow256(Overlap(t, u)) == 0
  }

  // ---------------------------------------------------------------- the parts of a word

  function Low(t: Target, k: nat): Target { Target(t.at, k) }

  function High(t: Target, k: nat): Target
    requires k <= t.width
  {
    Target(t.at + k, t.width - k)
  }

  lemma {:induction false} PowAdd(a: nat, b: nat)
    ensures Pow256(a + b) == Pow256(a) * Pow256(b)
  {
    if a > 0 {
      PowAdd(a - 1, b);
      Regrouping(Pow256(a - 1), Pow256(b));
    }
  }

  lemma Regrouping(p: int, q: int)
    ensures 256 * (p * q) == (256 * p) * q
  {
  }

  lemma {:induction false} LittleJoin(x: Bytes, y: Bytes)
    ensures Little(x + y) == Little(x) + Pow256(|x|) * Little(y)
  {
    if x == [] {
      assert x + y == y;
    } else {
      assert (x + y)[1..] == x[1..] + y;
      LittleJoin(x[1..], y);
      Scale(Little(x[1..]), Pow256(|x| - 1), Little(y));
    }
  }

  lemma Scale(a: int, p: int, b: int)
    ensures 256 * (a + p * b) == 256 * a + (256 * p) * b
  {
  }

  lemma WordSplit(s: Bytes, t: Target, k: nat)
    requires Inside(s, t) && k <= t.width
    ensures Word(s, t) == Word(s, Low(t, k)) + Pow256(k) * Word(s, High(t, k))
    ensures Word(s, Low(t, k)) < Pow256(k) && Word(s, High(t, k)) < Pow256(t.width - k)
  {
    var x, y := s[t.at..t.at + k], s[t.at + k..End(t)];
    assert s[t.at..End(t)] == x + y;
    LittleJoin(x, y);
    LittleBound(x);
    LittleBound(y);
  }

  lemma DivModIs(a: int, q: int, r: nat, m: nat)
    requires a == q * m + r && r < m
    ensures a / m == q && a % m == r
  {
    RemainderUnique(q, r, a / m, a % m, m);
  }

  /** Adding to a two-digit number: the low digit wraps, its carry goes to the high digit. */
  lemma SplitSum(low: int, high: int, d: int, k: nat, m: nat)
    requires k > 0 && m > 0
    ensures k * m > 0 && (low + k * high + d) % (k * m) == (low + d) % k + k * ((high + (low + d) / k) % m)
  {
    var q, r := (low + d) / k, (low + d) % k;
    var g := high + q;
    var h, e := g / m, g % m;
    assert low + d == q * k + r && g == h * m + e;
    BelowProduct(r, e, k, m);
    Regrouped(low, high, d, q, r, h, e, k, m);
    DivModIs(low + k * high + d, h, r + k * e, k * m);
  }

  lemma BelowProduct(r: nat, e: nat, k: nat, m: nat)
    requires r < k && e < m
    ensures 0 <= k * e && r + k * e < k * m
  {
    var n := m - 1 - e;
    assert k * n >= 0;
    assert k * m == k * e + k + k * n;
  }

  lemma Regrouped(low: int, high: int, d: int, q: int, r: int, h: int, e: int, k: int, m: int)
    requires low + d == q * k + r && high + q == h * m + e
    ensures low + k * high + d == h * (k * m) + (r + k * e)
  {
    assert k * (high + q) == k * (h * m + e);
    assert k * (h * m) == h * (k * m);
  }

  /** What shifting a word does to its low and its high part. */
  lemma ShiftedParts(s: Bytes, t: Target, k: nat, d: int)
    requires Inside(s, t) && k <= t.width
    ensures var r, low, high := Shifted(s, t, d), Word(s, Low(t, k)), Word(s, High(t, k));
            && Word(r, Low(t, k)) == Wrapped(low + d, k)
            && Word(r, High(t, k)) == Wrapped(high + (low + d) / Pow256(k), t.width - k)
  {
    ShiftedWord(s, t, d);
    PartsOfWord(s, Shifted(s, t, d), t, k, d, Pow256(k), Pow256(t.width - k));
  }

  lemma PartsOfWord(s: Bytes, r: Bytes, t: Target, k: nat, d: int, p: nat, m: nat)
    requires Inside(s, t) && Inside(r, t) && k <= t.width && p == Pow256(k) && m == Pow256(t.width - k)
    requires Word(r, t) == Wrapped(Word(s, t) + d, t.width)
    ensures var low, high := Word(s, Low(t, k)), Word(s, High(t, k));
            Word(r, Low(t, k)) == (low + d) % p && Word(r, High(t, k)) == (high + (low + d) / p) % m
  {
    var low, high, low', high' := Word(s, Low(t, k)), Word(s, High(t, k)), Word(r, Low(t, k)), Word(r, High(t, k));
    WordSplit(s, t, k);
    WordSplit(r, t, k);
    PowAdd(k, t.width - k);
    PartsOfSum(low, high, Word(s, t), low', high', Word(r, t), d, p, m, Pow256(t.width));
  }

  lemma PartsOfSum(low: int, high: int, v: int, low': nat, high': nat, v': int, d: int, k: nat, m: nat, n: nat)
    requires v == low + k * high && v' == low' + k * high' && n == k * m && low' < k && high' < m
    requires n > 0 && v' == (v + d) % n
    ensures low' == (low + d) % k && high' == (high + (low + d) / k) % m
  {
    SplitSum(low, high, d, k, m);
    RemainderUnique(high', low', (high + (low + d) / k) % m, (low + d) % k, k);
  }

  /** Adding to the high part of a word is adding a multiple to the word. */
  lemma HighShift(s: Bytes, t: Target, k: nat, e: int)
    requires Inside(s, t) && k <= t.width
    ensures Shifted(s, High(t, k), e) == Shifted(s, t, e * Pow256(k))
  {
    WordSplit(s, t, k);
    DivModIs(Word(s, Low(t, k)) + e * Pow256(k), e, Word(s, Low(t, k)), Pow256(k));
    HighShiftBy(s, t, k, e, e * Pow256(k));
  }

  /** `d` has `e` for its high part and leaves the low part of the word alone. */
  lemma HighShiftBy(s: Bytes, t: Target, k: nat, e: int, d: int)
    requires Inside(s, t) && k <= t.width
    requires var low := Word(s, Low(t, k)); (low + d) / Pow256(k) == e && (low + d) % Pow256(k) == low
    ensures Shifted(s, High(t, k), e) == Shifted(s, t, d)
  {
    var a, b := Shifted(s, High(t, k), e), Shifted(s, t, d);
    ShiftedParts(s, t, k, d);
    ShiftedWord(s, High(t, k), e);
    OtherWord(s, High(t, k), Low(t, k), e);
    SameParts(a, b, t, k);
    forall i | 0 <= i < |a| && !(t.at <= i < t.at + t.width) ensures a[i] == b[i] {
      ShiftedElsewhere(s, High(t, k), e, i);
      ShiftedElsewhere(s, t, d, i);
    }
    SameImage(a, b, t);
  }

  lemma SameParts(a: Bytes, b: Bytes, t: Target, k: nat)
    requires Inside(a, t) && Inside(b, t) && k <= t.width
    requires Word(a, Low(t, k)) == Word(b, Low(t, k)) && Word(a, High(t, k)) == Word(b, High(t, k))
    ensures Word(a, t) == Word(b, t)
  {
    WordSplit(a, t, k);
    WordSplit(b, t, k);
  }

  /** Adding a multiple of a word's range changes nothing. */
  lemma ShiftByRange(s: Bytes, t: Target, d: int)
    requires Inside(s, t) && d % Pow256(t.width) == 0
    ensures Shifted(s, t, d) == s
  {
    var e := d / Pow256(t.width);
    Multiple(d, Pow256(t.width));
    HighShift(s, t, t.width, e);
    EmptyShift(s, High(t, t.width), e);
  }

  lemma EmptyShift(s: Bytes, t: Target, e: int)
    requires Inside(s, t) && t.width == 0
    ensures Shifted(s, t, e) == s
  {
    forall i | 0 <= i < |s| ensures Shifted(s, t, e)[i] == s[i] {
      ShiftedElsewhere(s, t, e, i);
    }
  }

  lemma Multiple(a: int, m: nat)
    requires m > 0 && a % m == 0
    ensures (a / m) * m == a
  {
  }

  // ---------------------------------------------------------------- when shifts commute

  lemma SameEndCommute(s: Bytes, t: Target, k: nat, d: int, e: int)
    requires Inside(s, t) && k <= t.width
    ensures Shifted(Shifted(s, t, d), High(t, k), e) == Shifted(Shifted(s, High(t, k), e), t, d)
  {
    var e' := e * Pow256(k);
    HighShift(s, t, k, e);
    HighShift(Shifted(s, t, d), t, k, e);
    ShiftedTwice(s, t, d, e');
    ShiftedTwice(s, t, e', d);
    assert d + e' == e' + d;
  }

  lemma EndsCommute(s: Bytes, t: Target, u: Target, d: int, e: int)
    requires Inside(s, t) && Inside(s, u) && SameEnd(t, u)
    ensures Shifted(Shifted(s, t, d), u, e) == Shifted(Shifted(s, u, e), t, d)
  {
    if t.width >= u.width {
      SameEndCommute(s, t, t.width - u.width, d, e);
    } else {
      SameEndCommute(s, u, u.width - t.width, e, d);
    }
  }

  lemma OuterCommutes(s: Bytes, t: Target, u: Target, d: int, e: int)
    requires Inside(s, t) && Inside(s, u) && End(t) < End(u) && u.at < End(t)
    requires d % Pow256(Overlap(t, u)) == 0 && e % Pow256(Overlap(t, u)) == 0
    ensures Shifted(Shifted(s, t, d), u, e) == Shifted(Shifted(s, u, e), t, d)
  {
    if u.at < t.at {
      ShiftByRange(s, t, d);
      ShiftByRange(Shifted(s, u, e), t, d);
    } else {
      StaggeredCommutes(s, t, u, End(t) - u.at, d, e);
    }
  }

  lemma StaggeredCommutes(s: Bytes, t: Target, u: Target, k: nat, d: int, e: int)
    requires Inside(s, t) && Inside(s, u) && k < u.width && End(t) == u.at + k && e % Pow256(k) == 0
    ensures Shifted(Shifted(s, t, d), u, e) == Shifted(Shifted(s, u, e), t, d)
  {
    var e' := e / Pow256(k);
    Multiple(e, Pow256(k));
    HighShift(s, u, k, e');
    HighShift(Shifted(s, t, d), u, k, e');
    ApartShiftsCommute(s, t, High(u, k), d, e');
  }

  lemma ShiftsCommute(s: Bytes, t: Target, u: Target, d: int, e: int)
    requires Inside(s, t) && Inside(s, u) && Undoable(t, u, d) && Undoable(t, u, e)
    ensures Shifted(Shifted(s, t, d), u, e) == Shifted(Shifted(s, u, e), t, d)
  {
    if Apart(t, u) {
      ApartShiftsCommute(s, t, u, d, e);
    } else if SameEnd(t, u) {
      EndsCommute(s, t, u, d, e);
    } else if End(t) < End(u) {
      OuterCommutes(s, t, u, d, e);
    } else {
      OuterCommutes(s, u, t, e, d);
    }
  }

  lemma UndoableBackwards(t: Target, u: Target, d: int)
    requires Undoable(t, u, d)
    ensures Undoable(t, u, -d) && Undoable(u, t, d)
  {
    if !SameEnd(t, u) {
      var p := Pow256(Overlap(t, u));
      var q := d / p;
      assert -d == (-q) * p + 0;
      DivModIs(-d, -q, 0, p);
    }
  }

  predicate UndoableWith(t: Target, ts: seq<Target>, d: int) {
    forall i :: 0 <= i < |ts| ==> Undoable(t, ts[i], d)
  }

  /** Every two of the targets can be undone. */
  predicate PairwiseUndoable(ts: seq<Target>, d: int) {
    forall i, j :: 0 <= i < j < |ts| ==> Undoable(ts[i], ts[j], d)
  }

  lemma {:induction false} ShiftPassesThrough(s: Bytes, t: Target, ts: seq<Target>, d: int)
    requires Inside(s, t) && AllInside(s, ts) && UndoableWith(t, ts, d)
    ensures Shifted(AllShifted(s, ts, d), t, -d) == AllShifted(Shifted(s, t, -d), ts, d)
    decreases |ts|
  {
    if ts != [] {
      UndoableBackwards(t, ts[0], d);
      ShiftsCommute(s, t, ts[0], -d, d);
      ShiftPassesThrough(Shifted(s, ts[0], d), t, ts[1..], d);
    }
  }

  lemma PairwiseRest(ts: seq<Target>, d: int)
    requires ts != [] && PairwiseUndoable(ts, d)
    ensures PairwiseUndoable(ts[1..], d) && UndoableWith(ts[0], ts[1..], d)
  {
  }

  /** Shifting back in the same order restores every byte. */
  lemma {:induction false} ShiftsCancel(s: Bytes, ts: seq<Target>, d: int)
    requires PairwiseUndoable(ts, d) && AllInside(s, ts)
    ensures AllShifted(AllShifted(s, ts, d), ts, -d) == s
    decreases |ts|
  {
    if ts != [] {
      var t, rest := ts[0], ts[1..];
      PairwiseRest(ts, d);
      ShiftPassesThrough(Shifted(s, t, d), t, rest, d);
      ShiftedTwice(s, t, d, -d);
      ShiftedByNothing(s, t);
      ShiftsCancel(s, rest, d);
    }
  }

  lemma CompatibleIsUndoable(ts: seq<Target>, d: int)
    requires Compatible(ts)
    ensures PairwiseUndoable(ts, d)
  {
  }

  // ---------------------------------------------------------------- when they do not

  /** Two words are restored exactly when their shifts commute. */
  lemma UndoneIffCommute(s: Bytes, t: Target, u: Target, d: int)
    requires Inside(s, t) && Inside(s, u)
    ensures AllShifted(AllShifted(s, [t, u], d), [t, u], -d) == s
       <==> Shifted(Shifted(s, t, d), u, d) == Shifted(Shifted(s, u, d), t, d)
  {
    var x, y := Shifted(Shifted(s, t, d), u, d), Shifted(s, u, d);
    var back := Shifted(x, t, -d);
    TwoShifts(s, t, u, d);
    TwoShifts(x, t, u, -d);
    ShiftInverts(x, t, -d);
    ShiftInverts(y, t, d);
    ShiftInverts(back, u, -d);
    ShiftInverts(s, u, d);
  }

  lemma ShiftInverts(s: Bytes, t: Target, d: int)
    requires Inside(s, t)
    ensures Shifted(Shifted(s, t, d), t, -d) == s
  {
    ShiftedTwice(s, t, d, -d);
    ShiftedByNothing(s, t);
  }

  /** Turning a circle of `n` places never maps a proper arc at its end to itself. */
  lemma ArcMoves(n: nat, arc: nat, turn: nat) returns (v: nat)
    requires 0 < arc < n && 0 < turn < n
    ensures v < n && v >= n - arc && (v + turn) % n < n - arc
  {
    if turn <= arc {
      v := n - turn;
      DivModIs(v + turn, 1, 0, n);
    } else {
      v := n - arc;
      DivModIs(v + turn, 1, turn - arc, n);
    }
  }

  /** A carry out of the low part of `u` that shifting `t` before creates or takes away. */
  predicate CarryDiffers(s: Bytes, t: Target, u: Target, k: nat, d: int)
    requires Inside(s, t) && Inside(s, u) && k <= u.width
  {
    var before, after := Word(s, Low(u, k)), Word(Shifted(s, t, d), Low(u, k));
    (before + d) / Pow256(k) == (after + d) / Pow256(k) + 1
  }

  lemma CarryShows(s: Bytes, t: Target, u: Target, d: int)
    requires Inside(s, t) && Inside(s, u) && u.at < End(t) < End(u)
    requires CarryDiffers(s, t, u, End(t) - u.at, d)
    ensures Shifted(Shifted(s, t, d), u, d) != Shifted(Shifted(s, u, d), t, d)
  {
    var k, r, q := End(t) - u.at, Shifted(s, t, d), Shifted(s, u, d);
    HighWordAfter(s, r, t, u, k, d);
    HighWordBefore(s, q, t, u, k, d);
    WordsDiffer(Shifted(q, t, d), Shifted(r, u, d), High(u, k), Word(s, High(u, k)),
                (Word(s, Low(u, k)) + d) / Pow256(k), (Word(r, Low(u, k)) + d) / Pow256(k));
  }

  /** The high part of `u` when `t` is shifted first. */
  lemma HighWordAfter(s: Bytes, r: Bytes, t: Target, u: Target, k: nat, d: int)
    requires Inside(s, t) && Inside(s, u) && k <= u.width && End(t) <= u.at + k && r == Shifted(s, t, d)
    ensures Word(Shifted(r, u, d), High(u, k)) == Wrapped(Word(s, High(u, k)) + (Word(r, Low(u, k)) + d) / Pow256(k), u.width - k)
  {
    OtherWord(s, t, High(u, k), d);
    ShiftedParts(r, u, k, d);
  }

  /** The high part of `u` when `t` is shifted last. */
  lemma HighWordBefore(s: Bytes, q: Bytes, t: Target, u: Target, k: nat, d: int)
    requires Inside(s, t) && Inside(s, u) && k <= u.width && End(t) <= u.at + k && q == Shifted(s, u, d)
    ensures Word(Shifted(q, t, d), High(u, k)) == Wrapped(Word(s, High(u, k)) + (Word(s, Low(u, k)) + d) / Pow256(k), u.width - k)
  {
    OtherWord(q, t, High(u, k), d);
    ShiftedParts(s, u, k, d);
  }

  lemma WordsDiffer(x: Bytes, y: Bytes, t: Target, high: int, a: int, b: int)
    requires Inside(x, t) && Inside(y, t) && t.width > 0 && a == b + 1
    requires Word(x, t) == Wrapped(high + a, t.width) && Word(y, t) == Wrapped(high + b, t.width)
    ensures x != y
  {
    assert Pow256(t.width) >= 256;
    NextDiffers(high + b, Pow256(t.width));
  }

  lemma NextDiffers(a: int, m: nat)
    requires m > 1
    ensures (a + 1) % m != a % m
  {
    var q, r := a / m, a % m;
    assert a == q * m + r;
    if r + 1 < m {
      DivModIs(a + 1, q, r + 1, m);
    } else {
      assert a + 1 == (q + 1) * m;
      DivModIs(a + 1, q + 1, 0, m);
    }
  }

  /** `(low + d) / k` carries exactly from `k - d % k` on. */
  lemma CarryAt(low: nat, d: int, k: nat)
    requires low < k
    ensures (low + d) / k == d / k + if low + d % k >= k then 1 else 0
  {
    var q, r := d / k, d % k;
    assert low + d == q * k + (low + r);
    if low + r >= k {
      assert q * k + k == (q + 1) * k;
      DivModIs(low + d, q + 1, low + r - k, k);
    } else {
      DivModIs(low + d, q, low + r, k);
    }
  }

  /** `base` with the word at `t` set to `v`. */
  lemma WordSet(base: Bytes, t: Target, v: nat) returns (s: Bytes)
    requires Inside(base, t) && v < Pow256(t.width)
    ensures |s| == |base| && Word(s, t) == v
    ensures forall i :: 0 <= i < |s| && !(t.at <= i < End(t)) ==> s[i] == base[i]
  {
    s := Patched(base, t.at, ToLittle(v, t.width));
    PatchedBytes(base, t.at, ToLittle(v, t.width));
    assert s[t.at..End(t)] == ToLittle(v, t.width);
    LittleInverts(v, t.width);
  }

  /** `u` starts inside `t` and ends beyond it. */
  lemma StaggeredCarry(base: Bytes, t: Target, u: Target, d: int) returns (s: Bytes)
    requires Inside(base, t) && Inside(base, u) && t.at <= u.at < End(t) < End(u)
    requires d % Pow256(End(t) - u.at) != 0
    ensures |s| == |base| && CarryDiffers(s, t, u, End(t) - u.at, d)
    ensures forall i :: 0 <= i < |s| && !(t.at <= i < End(t)) ==> s[i] == base[i]
  {
    var j, k := u.at - t.at, End(t) - u.at;
    var p, kk, n := Pow256(j), Pow256(k), Pow256(t.width);
    PowAdd(j, k);
    var v := ArcLeft(d, p, kk, n);
    s := WordSet(base, t, v);
    ShiftedWord(s, t, d);
    HighDigitCarries(s, t, j, d, p, kk);
    HighDigitCarries(Shifted(s, t, d), t, j, d, p, kk);
    assert High(t, j) == Low(u, k);
  }

  /** Adding `d` to the high digit of a word carries exactly when the word reaches an arc at the end
      of its range. */
  lemma HighDigitCarries(s: Bytes, t: Target, j: nat, d: int, p: nat, k: nat)
    requires Inside(s, t) && j <= t.width && p == Pow256(j) && k == Pow256(t.width - j)
    ensures (Word(s, High(t, j)) + d) / k == d / k + if Word(s, t) >= p * k - p * (d % k) then 1 else 0
  {
    WordSplit(s, t, j);
    DigitsCompare(Word(s, Low(t, j)), Word(s, High(t, j)), p, k, d % k);
    CarryAt(Word(s, High(t, j)), d, k);
  }

  /** A number in the arc at the end of the range that adding `d` takes out of it. */
  lemma ArcLeft(d: int, p: nat, k: nat, n: nat) returns (v: nat)
    requires p > 0 && k > 0 && n == p * k && d % k != 0
    ensures v < n && v >= n - p * (d % k) && (v + d) % n < n - p * (d % k)
  {
    ArcInProduct(p, d % k, k);
    var turn := NonzeroRemainder(d, p, k);
    v := ArcMoves(n, p * (d % k), turn);
    RemainderOfSum(v, d, n);
  }

  lemma ArcInProduct(p: nat, a: nat, k: nat)
    requires p > 0 && 0 < a < k
    ensures 0 < p * a < p * k
  {
    var n := k - a - 1;
    assert p * n >= 0 && p * k == p * a + p + p * n;
    assert p * a == p + p * (a - 1) && p * (a - 1) >= 0;
  }

  lemma NonzeroRemainder(d: int, p: nat, k: nat) returns (turn: nat)
    requires p > 0 && k > 0 && d % k != 0
    ensures p * k > 0 && turn == d % (p * k) && 0 < turn < p * k
  {
    BelowProduct(0, 0, p, k);
    turn := d % (p * k);
    if turn == 0 {
      var q := d / (p * k);
      assert d == q * (p * k) == (q * p) * k;
      DivModIs(d, q * p, 0, k);
    }
  }

  lemma RemainderOfSum(v: nat, d: int, n: nat)
    requires n > 0
    ensures (v + d) % n == (v + d % n) % n
  {
    ModAdd(d, v, n);
  }

  /** A two-digit number reaches `p * (k - a)` exactly when its high digit reaches `k - a`. */
  lemma DigitsCompare(low: nat, high: nat, p: nat, k: nat, a: nat)
    requires low < p && a <= k
    ensures low + p * high >= p * k - p * a <==> high + a >= k
  {
    if high + a >= k {
      var n := high + a - k;
      assert p * n >= 0 && p * high + p * a == p * k + p * n;
    } else {
      var n := k - high - a - 1;
      assert p * n >= 0 && p * k == p * high + p * a + p + p * n;
    }
  }

  /** `u` starts before `t` and ends beyond it. */
  lemma NestedCarry(base: Bytes, t: Target, u: Target, d: int) returns (s: Bytes)
    requires Inside(base, t) && Inside(base, u) && u.at < t.at < End(t) < End(u)
    requires d % Pow256(t.width) != 0
    ensures |s| == |base| && CarryDiffers(s, t, u, End(t) - u.at, d)
    ensures forall i :: 0 <= i < |s| && !(u.at <= i < End(u)) ==> s[i] == base[i]
  {
    var j, k := t.at - u.at, End(t) - u.at;
    var low := Low(u, k);
    var p, w, n := Pow256(j), Pow256(t.width), Pow256(k);
    PowAdd(j, t.width);
    var arc := NonzeroRemainder(d, p, w);
    var turn := ScaledRemainder(d, p, w);
    var v := ArcMoves(n, arc, turn);
    s := WordSet(base, low, v);
    assert High(low, j) == t;
    HighShift(s, low, j, d);
    ShiftedWord(s, low, d * p);
    RemainderOfSum(v, d * p, n);
    CarryAt(v, d, n);
    CarryAt(Word(Shifted(s, t, d), low), d, n);
  }

  lemma ScaledRemainder(d: int, p: nat, w: nat) returns (turn: nat)
    requires p > 0 && w > 0 && d % w != 0
    ensures p * w > 0 && turn == (d * p) % (p * w) && 0 < turn < p * w
  {
    BelowProduct(0, 0, p, w);
    var q, r := d / w, d % w;
    assert d == q * w + r;
    assert d * p == q * (p * w) + p * r;
    ArcInProduct(p, r, w);
    DivModIs(d * p, q, p * r, p * w);
    turn := p * r;
  }

  /** An image, equal to `base` outside the two words, that shifting there and back changes. */
  lemma NotUndone(base: Bytes, t: Target, u: Target, d: int) returns (s: Bytes)
    requires Inside(base, t) && Inside(base, u) && !Undoable(t, u, d)
    ensures |s| == |base| && AllShifted(AllShifted(s, [t, u], d), [t, u], -d) != s
    ensures forall i :: 0 <= i < |s| && !(t.at <= i < End(t)) && !(u.at <= i < End(u)) ==> s[i] == base[i]
  {
    if End(t) < End(u) {
      s := OuterCarry(base, t, u, d);
      CarryShows(s, t, u, d);
    } else {
      s := OuterCarry(base, u, t, d);
      CarryShows(s, u, t, d);
    }
    UndoneIffCommute(s, t, u, d);
  }

  lemma OuterCarry(base: Bytes, t: Target, u: Target, d: int) returns (s: Bytes)
    requires Inside(base, t) && Inside(base, u) && !Undoable(t, u, d) && End(t) < End(u)
    ensures |s| == |base| && u.at < End(t) && CarryDiffers(s, t, u, End(t) - u.at, d)
    ensures forall i :: 0 <= i < |s| && !(t.at <= i < End(t)) && !(u.at <= i < End(u)) ==> s[i] == base[i]
  {
    assert Overlap(t, u) > 0;
    if u.at < t.at {
      s := NestedCarry(base, t, u, d);
    } else {
      s := StaggeredCarry(base, t, u, d);
    }
  }

  // ---------------------------------------------------------------- the exact conditions

  /** Shifting by `d` and back restores every image. */
  ghost predicate AlwaysUndone(ts: seq<Target>, d: int) {
    forall s: Bytes | AllInside(s, ts) :: AllShifted(AllShifted(s, ts, d), ts, -d) == s
  }

  /** Two words are restored in every image exactly when they end together or share no more bytes than
      the delta has low zero bytes. */
  lemma UndoneIff(t: Target, u: Target, d: int)
    ensures AlwaysUndone([t, u], d) <==> Undoable(t, u, d)
  {
    if Undoable(t, u, d) {
      forall s: Bytes | AllInside(s, [t, u]) ensures AllShifted(AllShifted(s, [t, u], d), [t, u], -d) == s {
        ShiftsCancel(s, [t, u], d);
      }
    } else {
      var base := Zeros(if End(t) < End(u) then End(u) else End(t));
      var s := NotUndone(base, t, u, d);
      assert AllInside(s, [t, u]);
    }
  }

  function Zeros(n: nat): (s: Bytes)
    ensures |s| == n
  {
    if n == 0 then [] else Zeros(n - 1) + [0]
  }

  /** For every delta: exactly when the words are disjoint or end together. */
  lemma UndoneForAllDeltasIff(t: Target, u: Target)
    ensures (forall d: int :: AlwaysUndone([t, u], d)) <==> Overlap(t, u) == 0 || SameEnd(t, u)
  {
    forall d: int ensures AlwaysUndone([t, u], d) <==> Undoable(t, u, d) {
      UndoneIff(t, u, d);
    }
    if Overlap(t, u) > 0 {
      assert Pow256(Overlap(t, u)) >= 256;
      DivModIs(1, 0, 1, Pow256(Overlap(t, u)));
      assert Undoable(t, u, 1) ==> SameEnd(t, u);
    } else {
      forall d: int ensures Undoable(t, u, d) {
        DivModIs(d, d, 0, 1);
      }
    }
  }

  const GRANULARITY: int := 0x1_0000

  /** For the deltas between allocation addresses: exactly when the words share at most two bytes or
      end together. */
  lemma UndoableForBasesIff(t: Target, u: Target)
    ensures (forall d: int | d % GRANULARITY == 0 :: Undoable(t, u, d)) <==> Overlap(t, u) <= 2 || SameEnd(t, u)
  {
    var n := Overlap(t, u);
    if n <= 2 {
      forall d: int | d % GRANULARITY == 0 ensures Undoable(t, u, d) {
        SmallRanges(d, n);
      }
    } else {
      BigRange(n);
      assert Undoable(t, u, GRANULARITY) ==> SameEnd(t, u);
    }
  }

  lemma SmallRanges(d: int, n: nat)
    requires n <= 2 && d % GRANULARITY == 0
    ensures d % Pow256(n) == 0
  {
    assert Pow256(1) == 256 && Pow256(2) == 256 * Pow256(1);
    var q := d / GRANULARITY;
    assert d == q * 0x1_0000;
    if n == 0 {
      DivModIs(d, d, 0, 1);
    } else if n == 1 {
      DivModIs(d, q * 256, 0, 256);
    }
  }

  lemma BigRange(n: nat)
    requires n > 2
    ensures GRANULARITY % Pow256(n) == GRANULARITY != 0
  {
    PowAdd(3, n - 3);
    assert Pow256(2) == 0x1_0000 && Pow256(3) == 0x100_0000;
    var p := Pow256(n - 3);
    assert 0x100_0000 * p >= 0x100_0000;
    DivModIs(GRANULARITY, 0, GRANULARITY, Pow256(n));
  }

  /** Every list over some words is restored exactly when every two of the words are. */
  lemma ListsUndoneIff(words: set<Target>, d: int)
    ensures (forall ts: seq<Target> | (forall i :: 0 <= i < |ts| ==> ts[i] in words) :: AlwaysUndone(ts, d))
       <==> forall t, u :: t in words && u in words ==> Undoable(t, u, d)
  {
    if forall t, u :: t in words && u in words ==> Undoable(t, u, d) {
      forall ts: seq<Target> | forall i :: 0 <= i < |ts| ==> ts[i] in words ensures AlwaysUndone(ts, d) {
        forall s: Bytes | AllInside(s, ts) ensures AllShifted(AllShifted(s, ts, d), ts, -d) == s {
          ShiftsCancel(s, ts, d);
        }
      }
    } else {
      var t, u :| t in words && u in words && !Undoable(t, u, d);
      UndoneIff(t, u, d);
      assert forall i :: 0 <= i < 2 ==> [t, u][i] in words;
    }
  }
}

/** What the half-words of a relocation table mean, by their place in the image. */
module RelocationTables {
  import opened ByteStrings
  import opened WordShifts
  import opened WordOverlaps
  import opened Relocations

  /** A half-word at `at`, in the block whose header is at `block`. */
  datatype Place = Place(block: nat, at: nat)

  /** The four bytes at `p`, the last weighing most. */
  function Number(s: Bytes, p: nat): nat
    requires p + 4 <= |s|
  {
    s[p] as int + 0x100 * s[p + 1] as int + 0x1_0000 * s[p + 2] as int + 0x100_0000 * s[p + 3] as int
  }

  /** Going from block to block, from `p` to no further than `end`, the walk comes to a block at `q`. */
  predicate Reaches(s: Bytes, p: nat, end: nat, q: nat)
    decreases |s| - p
  {
    p < end && p + 8 <= |s|
    && (q == p || (var size := Number(s, p + 4); size > 0 && p + size <= |s| && Reaches(s, p + size, end, q)))
  }

  /** A half-word behind the header of a block that the walk comes to, and inside of that block. */
  predicate InTable(s: Bytes, table: nat, end: nat, x: Place) {
    && Reaches(s, table, end, x.block)
    && x.block + 8 <= x.at && x.at % 2 == x.block % 2
    && x.at + 2 <= |s| && x.at + 2 <= x.block + Number(s, x.block + 4)
  }

  predicate Inner(s: Bytes, x: Place) { x.block + 8 <= |s| && x.at + 2 <= |s| }

  /** The upper four bits of a half-word. */
  function KindAt(s: Bytes, x: Place): nat
    requires Inner(s, x)
  {
    s[x.at + 1] / 0x10
  }

  /** The word that a half-word names: its other bits on the page of its block, modulo 2^32. */
  function TargetAt(s: Bytes, x: Place): Target
    requires Inner(s, x)
  {
    Target((s[x.at] as int + 0x100 * (s[x.at + 1] % 0x10) as int + Number(s, x.block)) % 0x1_0000_0000,
           if KindAt(s, x) == 3 then 4 else 8)
  }

  /** A half-word of kind 3 or 10, and all before it are of kind 0, 3 or 10. */
  ghost predicate Names(s: Bytes, table: nat, end: nat, x: Place) {
    && InTable(s, table, end, x) && KindAt(s, x) in {3, 10}
    && forall y: Place :: InTable(s, table, end, y) && y.at < x.at ==> KindAt(s, y) in {0, 3, 10}
  }

  // ---------------------------------------------------------------- the places of a table in order

  /** The places of `n` half-words from `at` on. */
  function BlockPlaces(q: nat, at: nat, n: nat): (ps: seq<Place>) {
    seq(n, i requires 0 <= i < n => Place(q, at + 2 * i))
  }

  function Places(s: Bytes, p: nat, end: nat): seq<Place>
    requires WellFormed(s, p, end)
    decreases |s| - p
  {
    if p >= end || U32(s, p + 4) == 0 then []
    else var size := U32(s, p + 4); BlockPlaces(p, p + 8, (size - 8) / 2) + Places(s, p + size, end)
  }

  /** The half-words of a table in order: those in it, each once. */
  lemma {:induction false} PlacesAre(s: Bytes, p: nat, end: nat)
    requires WellFormed(s, p, end)
    ensures Lists(s, p, end, Places(s, p, end)) && Ordered(Places(s, p, end))
    decreases |s| - p
  {
    if p >= end || U32(s, p + 4) == 0 {
      NothingThere(s, p, end);
    } else {
      var size := U32(s, p + 4);
      var block, rest := BlockPlaces(p, p + 8, (size - 8) / 2), Places(s, p + size, end);
      PlacesAre(s, p + size, end);
      BlockFirst(s, p, end, size, block, rest);
      assert Places(s, p, end) == block + rest;
    }
  }

  lemma NothingThere(s: Bytes, p: nat, end: nat)
    requires p < end ==> p + 8 <= |s| && U32(s, p + 4) == 0
    ensures Lists(s, p, end, [])
  {
  }

  ghost predicate Lists(s: Bytes, p: nat, end: nat, ps: seq<Place>) {
    forall x: Place :: x in ps <==> InTable(s, p, end, x)
  }

  lemma BlockFirst(s: Bytes, p: nat, end: nat, size: nat, block: seq<Place>, rest: seq<Place>)
    requires p < end && WellFormed(s, p, end) && size == U32(s, p + 4) > 0
    requires block == BlockPlaces(p, p + 8, (size - 8) / 2) && Lists(s, p + size, end, rest) && Ordered(rest)
    ensures Lists(s, p, end, block + rest) && Ordered(block + rest)
  {
    forall x: Place ensures x in block + rest <==> InTable(s, p, end, x) {
      PlaceHereOrLater(s, p, end, size, x);
      InBlock(p, size, x);
    }
    forall x: Place | x in rest ensures x.at >= p + size {
      BehindStart(s, p + size, end, x);
    }
    OrderedJoin(block, rest, p + size);
  }

  lemma BehindStart(s: Bytes, p: nat, end: nat, x: Place)
    requires InTable(s, p, end, x)
    ensures x.at >= p
  {
    ReachesBehind(s, p, end, x.block);
  }

  predicate Ordered(ps: seq<Place>) {
    forall i, j :: 0 <= i < j < |ps| ==> ps[i].at < ps[j].at
  }

  lemma OrderedJoin(a: seq<Place>, b: seq<Place>, m: nat)
    requires Ordered(a) && Ordered(b)
    requires (forall i :: 0 <= i < |a| ==> a[i].at < m) && (forall x: Place :: x in b ==> x.at >= m)
    ensures Ordered(a + b)
  {
    assert forall i :: 0 <= i < |b| ==> b[i] in b;
  }

  lemma InBlock(p: nat, size: nat, x: Place)
    requires size >= 8
    ensures x in BlockPlaces(p, p + 8, (size - 8) / 2) <==>
            x.block == p && p + 8 <= x.at && x.at % 2 == p % 2 && x.at + 2 <= p + size
  {
    var ps := BlockPlaces(p, p + 8, (size - 8) / 2);
    if x.block == p && p + 8 <= x.at && x.at % 2 == p % 2 && x.at + 2 <= p + size {
      var i := Halved(p, size, x.at);
      assert ps[i] == x;
    }
  }

  lemma Halved(p: nat, size: nat, at: nat) returns (i: nat)
    requires p + 8 <= at && at % 2 == p % 2 && at + 2 <= p + size
    ensures i < (size - 8) / 2 && at == p + 8 + 2 * i
  {
    i := (at - p - 8) / 2;
  }

  lemma PlaceHereOrLater(s: Bytes, p: nat, end: nat, size: nat, x: Place)
    requires p < end && WellFormed(s, p, end) && size == U32(s, p + 4) > 0
    ensures InTable(s, p, end, x) <==>
            || (x.block == p && p + 8 <= x.at && x.at % 2 == p % 2 && x.at + 2 <= p + size)
            || InTable(s, p + size, end, x)
  {
    if Reaches(s, p + size, end, x.block) {
      ReachesBehind(s, p + size, end, x.block);
    }
  }

  lemma {:induction false} ReachesBehind(s: Bytes, p: nat, end: nat, q: nat)
    requires Reaches(s, p, end, q)
    ensures p <= q && q + 8 <= |s|
    decreases |s| - p
  {
    if q != p {
      ReachesBehind(s, p + Number(s, p + 4), end, q);
    }
  }

  // ---------------------------------------------------------------- the entries at these places

  function EntryAt(s: Bytes, x: Place): Entry
    requires Inner(s, x)
  {
    Entry(KindAt(s, x), TargetAt(s, x).at)
  }

  function EntriesAt(s: Bytes, ps: seq<Place>): (es: seq<Entry>)
    requires forall x: Place :: x in ps ==> Inner(s, x)
    ensures |es| == |ps| && forall i :: 0 <= i < |ps| ==> es[i] == EntryAt(s, ps[i])
  {
    seq(|ps|, i requires 0 <= i < |ps| => EntryAt(s, ps[i]))
  }

  lemma WordSplits(lo: byte, hi: byte)
    ensures var word := lo as int + 0x100 * hi as int; word / 0x1000 == hi / 0x10 && word % 0x1000 == lo + 0x100 * (hi % 0x10)
  {
  }

  lemma {:induction false} BlockEntriesAre(s: Bytes, q: nat, at: nat, n: nat)
    requires q + 8 <= |s| && at + 2 * n <= |s|
    ensures (forall x: Place :: x in BlockPlaces(q, at, n) ==> Inner(s, x))
    ensures BlockEntries(s, at, n, Number(s, q)) == EntriesAt(s, BlockPlaces(q, at, n))
    decreases n
  {
    if n > 0 {
      BlockEntriesAre(s, q, at + 2, n - 1);
      EntryIs(s, Place(q, at));
      assert BlockPlaces(q, at, n) == [Place(q, at)] + BlockPlaces(q, at + 2, n - 1);
    }
  }

  lemma EntryIs(s: Bytes, x: Place)
    requires Inner(s, x)
    ensures EntryOf(U16(s, x.at), Number(s, x.block)) == EntryAt(s, x)
  {
    WordSplits(s[x.at], s[x.at + 1]);
  }

  lemma {:induction false} EntriesAre(s: Bytes, p: nat, end: nat)
    requires WellFormed(s, p, end)
    ensures (forall x: Place :: x in Places(s, p, end) ==> Inner(s, x))
    ensures Entries(s, p, end) == EntriesAt(s, Places(s, p, end))
    decreases |s| - p
  {
    if p < end {
      var size := U32(s, p + 4);
      EntriesStep(s, p, end, U32(s, p), size);
      if size > 0 {
        BlockEntriesAre(s, p, p + 8, Slots(size));
        EntriesAre(s, p + size, end);
        EntriesJoin(s, BlockPlaces(p, p + 8, Slots(size)), Places(s, p + size, end));
      }
    }
  }

  lemma EntriesJoin(s: Bytes, a: seq<Place>, b: seq<Place>)
    requires forall x: Place :: x in a || x in b ==> Inner(s, x)
    ensures EntriesAt(s, a + b) == EntriesAt(s, a) + EntriesAt(s, b)
  {
  }

  // ---------------------------------------------------------------- what they name

  /** The positions of the entries that name words: of kind 3 or 10, behind none of an unknown kind. */
  ghost predicate Picks(es: seq<Entry>, at: seq<nat>) {
    && TargetsPicked(es, at)
    && (forall j, k :: 0 <= j < k < |at| ==> at[j] < at[k])
    && (forall i: nat :: i in at <==> i < |es| && NamesAt(es, i))
  }

  ghost predicate TargetsPicked(es: seq<Entry>, at: seq<nat>) {
    && |at| == |Targets(es)|
    && (forall j :: 0 <= j < |at| ==> at[j] < |es| && Targets(es)[j] == Named(es[at[j]]))
  }

  function Named(e: Entry): Target { Target(e.rva, if e.kind == 3 then 4 else 8) }

  lemma {:induction false} NamingEntries(es: seq<Entry>) returns (at: seq<nat>)
    ensures Picks(es, at)
  {
    if es == [] || es[0].kind !in {0, 3, 10} {
      at := [];
    } else {
      var later := NamingEntries(es[1..]);
      var moved := seq(|later|, j requires 0 <= j < |later| => later[j] + 1);
      at := if es[0].kind == 0 then moved else [0] + moved;
      MovedTargets(es, later, moved, at);
      forall i: nat ensures i in at <==> i < |es| && NamesAt(es, i) {
        MovedAre(es, later, moved, i);
      }
    }
  }

  predicate Moved(es: seq<Entry>, later: seq<nat>, moved: seq<nat>) {
    es != [] && es[0].kind in {0, 3, 10} && |moved| == |later| && forall j :: 0 <= j < |later| ==> moved[j] == later[j] + 1
  }

  lemma MovedTargets(es: seq<Entry>, later: seq<nat>, moved: seq<nat>, at: seq<nat>)
    requires Moved(es, later, moved) && TargetsPicked(es[1..], later)
    requires at == if es[0].kind == 0 then moved else [0] + moved
    ensures TargetsPicked(es, at)
  {
    forall j | 0 <= j < |later| ensures moved[j] < |es| && Targets(es[1..])[j] == Named(es[moved[j]]) {
      assert es[1..][later[j]] == es[moved[j]];
    }
    if es[0].kind == 0 {
      assert Targets(es) == Targets(es[1..]);
    } else {
      assert Targets(es) == [Named(es[0])] + Targets(es[1..]);
    }
  }

  lemma MovedAre(es: seq<Entry>, later: seq<nat>, moved: seq<nat>, i: nat)
    requires Moved(es, later, moved) && Picks(es[1..], later)
    ensures i in moved <==> 0 < i < |es| && NamesAt(es, i)
  {
    if i in moved {
      var j :| 0 <= j < |moved| && moved[j] == i;
      assert later[j] == i - 1 && later[j] in later;
      NamesLater(es, i);
    }
    if 0 < i < |es| && NamesAt(es, i) {
      NamesLater(es, i);
      var j :| 0 <= j < |later| && later[j] == i - 1;
      assert moved[j] in moved;
    }
  }

  predicate NamesAt(es: seq<Entry>, i: nat)
    requires i < |es|
  {
    es[i].kind in {3, 10} && forall k :: 0 <= k < i ==> es[k].kind in {0, 3, 10}
  }

  lemma NamesLater(es: seq<Entry>, i: nat)
    requires 0 < i < |es| && es[0].kind in {0, 3, 10}
    ensures NamesAt(es, i) <==> NamesAt(es[1..], i - 1)
  {
    if NamesAt(es[1..], i - 1) {
      forall k | 0 <= k < i ensures es[k].kind in {0, 3, 10} {
        if k > 0 {
          assert es[k] == es[1..][k - 1];
        }
      }
    }
  }

  /** The words to shift are those that the half-words of kind 3 and 10 name, in the order of these in the
      image and each as often as it is named, up to the first half-word of an unknown kind. */
  lemma TargetsAreNamed(s: Bytes, table: nat, end: nat) returns (ps: seq<Place>)
    requires WellFormed(s, table, end)
    ensures forall x: Place :: x in ps <==> Names(s, table, end, x)
    ensures Ordered(ps) && |ps| == |Targets(Entries(s, table, end))|
    ensures forall i :: 0 <= i < |ps| ==> Inner(s, ps[i]) && Targets(Entries(s, table, end))[i] == TargetAt(s, ps[i])
  {
    var all, es := Places(s, table, end), Entries(s, table, end);
    PlacesAre(s, table, end);
    EntriesAre(s, table, end);
    var at := NamingEntries(es);
    ps := seq(|at|, j requires 0 <= j < |at| => all[at[j]]);
    forall x: Place ensures x in ps <==> Names(s, table, end, x) {
      PickedAre(s, table, end, all, at, ps, x);
    }
  }

  lemma PickedAre(s: Bytes, table: nat, end: nat, all: seq<Place>, at: seq<nat>, ps: seq<Place>, x: Place)
    requires Lists(s, table, end, all) && Ordered(all) && |ps| == |at|
    requires forall j :: 0 <= j < |at| ==> at[j] < |all| && ps[j] == all[at[j]]
    requires forall y: Place :: y in all ==> Inner(s, y)
    requires forall i: nat :: i in at <==> i < |all| && NamesAt(EntriesAt(s, all), i)
    ensures x in ps <==> Names(s, table, end, x)
  {
    if x in all {
      var i :| 0 <= i < |all| && all[i] == x;
      NamesByPlace(s, table, end, all, i);
      if i in at {
        var j :| 0 <= j < |at| && at[j] == i;
        assert ps[j] == x;
      }
      if x in ps {
        var j :| 0 <= j < |ps| && ps[j] == x;
        assert at[j] == i && at[j] in at;
      }
    }
  }

  lemma NamesByPlace(s: Bytes, table: nat, end: nat, all: seq<Place>, i: nat)
    requires i < |all| && Ordered(all) && Lists(s, table, end, all)
    ensures forall x: Place :: x in all ==> Inner(s, x)
    ensures NamesAt(EntriesAt(s, all), i) <==> Names(s, table, end, all[i])
  {
  }

  // ---------------------------------------------------------------- tables that can be walked

  /** The block at `q` is empty or inside the image, with the header that comes next if any does. */
  predicate Fits(s: Bytes, q: nat, end: nat) {
    q + 8 <= |s|
    && (var size := Number(s, q + 4); size == 0 || (size >= 8 && q + size <= |s| && (q + size < end ==> q + size + 8 <= |s|)))
  }

  /** A table can be walked exactly when each block that the walk comes to fits. */
  lemma {:induction false} WellFormedIff(s: Bytes, table: nat, end: nat)
    requires table + 8 <= |s|
    ensures WellFormed(s, table, end) <==> forall q :: Reaches(s, table, end, q) ==> Fits(s, q, end)
    decreases |s| - table
  {
    if table < end {
      var size := Number(s, table + 4);
      assert Reaches(s, table, end, table);
      if Fits(s, table, end) && size > 0 && table + size < end {
        WellFormedIff(s, table + size, end);
        assert forall q :: Reaches(s, table, end, q) <==> q == table || Reaches(s, table + size, end, q);
      }
    }
  }

  /** What is read ends with the empty block, or with the block that goes up to `end`. */
  lemma {:induction false} ExtentIs(s: Bytes, table: nat, end: nat, q: nat)
    requires WellFormed(s, table, end) && Reaches(s, table, end, q)
    ensures q + 8 <= |s|
    ensures var size := Number(s, q + 4);
            && (size == 0 ==> Extent(s, table, end) == q + 8)
            && (size > 0 && q + size >= end ==> Extent(s, table, end) == q + size)
    decreases |s| - table
  {
    ReachesBehind(s, table, end, q);
    if q != table {
      ExtentIs(s, table + Number(s, table + 4), end, q);
    }
  }

  // ---------------------------------------------------------------- relocating, by the bytes

  /** The walk gets to the end of the table exactly when no half-word is of an unknown kind. */
  lemma KnownIff(s: Bytes, table: nat, end: nat)
    requires WellFormed(s, table, end)
    ensures Known(Entries(s, table, end)) <==> forall x: Place :: InTable(s, table, end, x) ==> KindAt(s, x) in {0, 3, 10}
  {
    PlacesAre(s, table, end);
    EntriesAre(s, table, end);
    var all := Places(s, table, end);
    AllKnown(EntriesAt(s, all));
    assert forall i :: 0 <= i < |all| ==> all[i] in all;
  }

  lemma {:induction false} AllKnown(es: seq<Entry>)
    ensures Known(es) <==> forall i :: 0 <= i < |es| ==> es[i].kind in {0, 3, 10}
  {
    if es != [] {
      AllKnown(es[1..]);
      assert forall i :: 0 < i < |es| ==> es[i] == es[1..][i - 1];
    }
  }

  /** The bytes of a word, the last weighing most. */
  lemma WordsAre(s: Bytes, p: nat)
    ensures p + 4 <= |s| ==> Word(s, Target(p, 4)) == Number(s, p)
    ensures p + 8 <= |s| ==> Word(s, Target(p, 8)) == Number(s, p) + 0x1_0000_0000 * Number(s, p + 4)
  {
    if p + 4 <= |s| {
      FourBytes(s, p, p + 4);
    }
    if p + 8 <= |s| {
      FourBytes(s, p, p + 8);
      FourBytes(s, p + 4, p + 8);
    }
  }

  lemma FourBytes(s: Bytes, p: nat, end: nat)
    requires p + 4 <= end <= |s|
    ensures Little(s[p..end]) == Number(s, p) + 0x1_0000_0000 * Little(s[p + 4..end])
  {
    FirstByte(s, p, end);
    FirstByte(s, p + 1, end);
    FirstByte(s, p + 2, end);
    FirstByte(s, p + 3, end);
  }

  lemma FirstByte(s: Bytes, p: nat, end: nat)
    requires p < end <= |s|
    ensures Little(s[p..end]) == s[p] + 256 * Little(s[p + 1..end])
  {
    assert s[p..end][1..] == s[p + 1..end];
  }

  lemma NamedBy(s: Bytes, table: nat, end: nat, x: Place, ts: seq<Target>) returns (i: nat)
    requires WellFormed(s, table, end) && ts == Targets(Entries(s, table, end)) && Names(s, table, end, x)
    ensures i < |ts| && ts[i] == TargetAt(s, x)
  {
    var ps := TargetsAreNamed(s, table, end);
    i :| 0 <= i < |ps| && ps[i] == x;
  }

  /** `v` in a word of `width` bytes. */
  predicate Holds(r: Bytes, t: Target, v: int) {
    Inside(r, t) && Word(r, t) == if t.width == 4 then v % 0x1_0000_0000 else v % 0x1_0000_0000_0000_0000
  }

  lemma HoldsWrapped(r: Bytes, t: Target, v: int)
    requires Inside(r, t) && Word(r, t) == Wrapped(v, t.width) && (t.width == 4 || t.width == 8)
    ensures Holds(r, t, v)
  {
    PowerValues();
  }

  /** Relocating adds `delta` to every word that a half-word names, once for each that names it, when no
      two targets overlap without being the same. */
  lemma NamedWordsMove(s: Bytes, table: nat, end: nat, delta: int, x: Place, ts: seq<Target>)
    requires Sane(s, table, end) && ts == Targets(Entries(s, table, end)) && Compatible(ts)
    requires Names(s, table, end, x)
    ensures var t := TargetAt(s, x); Inside(s, t) && Holds(Relocated(s, table, end, delta), t, Word(s, t) + Total(ts, t, delta))
  {
    var i := NamedBy(s, table, end, x, ts);
    RelocatedIsShifted(s, table, end, delta);
    ShiftedAt(s, ts, delta, i, TargetAt(s, x));
  }

  lemma ShiftedAt(s: Bytes, ts: seq<Target>, delta: int, i: nat, t: Target)
    requires AllInside(s, ts) && Compatible(ts) && i < |ts| && ts[i] == t && (t.width == 4 || t.width == 8)
    ensures Inside(s, t) && Holds(AllShifted(s, ts, delta), t, Word(s, t) + Total(ts, t, delta))
  {
    WordsGrow(s, ts, delta, t);
    HoldsWrapped(AllShifted(s, ts, delta), t, Word(s, t) + Total(ts, t, delta));
  }
}

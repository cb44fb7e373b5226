/** Base relocations of an image, applied by the loader and taken back by the snapshot writer. */
module Relocations {

  import opened ByteStrings
  import opened WordShifts
  import opened WordOverlaps

  // ---------------------------------------------------------------- the relocation table

  const HIGHLOW: nat := 3
  const DIR64: nat := 10
  const ABSOLUTE: nat := 0

  function U16(s: Bytes, p: nat): nat
    requires p + 2 <= |s|
  {
    s[p] as int + 0x100 * s[p + 1] as int
  }

  function U32(s: Bytes, p: nat): nat
    requires p + 4 <= |s|
  {
    s[p] as int + 0x100 * s[p + 1] as int + 0x1_0000 * s[p + 2] as int + 0x100_0000 * s[p + 3] as int
  }

  datatype Entry = Entry(kind: nat, rva: nat)

  /** Walking the table from `p` stays inside the image, and no block is shorter than its header. */
  predicate WellFormed(s: Bytes, p: nat, end: nat)
    decreases |s| - p
  {
    p >= end
    || (p + 8 <= |s| && (var size := U32(s, p + 4); size == 0 || (size >= 8 && p + size <= |s| && WellFormed(s, p + size, end))))
  }

  /** The end of what walking the table reads. */
  function Extent(s: Bytes, p: nat, end: nat): (e: nat)
    requires WellFormed(s, p, end)
    ensures e >= p
    decreases |s| - p
  {
    if p >= end then p
    else var size := U32(s, p + 4); if size == 0 then p + 8 else Extent(s, p + size, end)
  }

  function BlockEntries(s: Bytes, q: nat, n: nat, va: nat): seq<Entry>
    requires q + 2 * n <= |s|
    decreases n
  {
    if n == 0 then []
    else [EntryOf(U16(s, q), va)] + BlockEntries(s, q + 2, n - 1, va)
  }

  function EntryOf(word: nat, va: nat): Entry {
    Entry(word / 0x1000, (word % 0x1000 + va) % 0x1_0000_0000)
  }

  function Entries(s: Bytes, p: nat, end: nat): seq<Entry>
    requires WellFormed(s, p, end)
    decreases |s| - p
  {
    if p >= end || U32(s, p + 4) == 0 then []
    else var size := U32(s, p + 4); BlockEntries(s, p + 8, Slots(size), U32(s, p)) + Entries(s, p + size, end)
  }

  /** How many entries a block of `size` bytes has after its header. */
  function Slots(size: nat): (n: nat)
    ensures size >= 8 ==> 8 + 2 * n <= size
  {
    if size < 8 then 0 else (size - 8) / 2
  }

  lemma EntriesStep(s: Bytes, p: nat, end: nat, va: nat, size: nat)
    requires p < end && WellFormed(s, p, end) && U32(s, p) == va && U32(s, p + 4) == size
    ensures size == 0 ==> Entries(s, p, end) == []
    ensures size > 0 ==> Entries(s, p, end) == BlockEntries(s, p + 8, Slots(size), va) + Entries(s, p + size, end)
  {
    if size > 0 {
      assert WellFormed(s, p + size, end);
    }
  }

  predicate KnownKind(e: Entry) { e.kind == HIGHLOW || e.kind == DIR64 || e.kind == ABSOLUTE }

  predicate Known(es: seq<Entry>) {
    es == [] || (KnownKind(es[0]) && Known(es[1..]))
  }

  /** The words named by the entries up to the first of an unknown kind. */
  function Targets(es: seq<Entry>): (ts: seq<Target>)
    ensures forall t :: t in ts ==> t.width == 4 || t.width == 8
  {
    if es == [] || !KnownKind(es[0]) then []
    else if es[0].kind == HIGHLOW then [Target(es[0].rva, 4)] + Targets(es[1..])
    else if es[0].kind == DIR64 then [Target(es[0].rva, 8)] + Targets(es[1..])
    else Targets(es[1..])
  }

  // ---------------------------------------------------------------- the two operations

  predicate Missing(t: Target, lo: nat, hi: nat) {
    t.at + t.width <= lo || hi <= t.at
  }

  /** No target touches what walking the table reads. */
  predicate MissesTable(ts: seq<Target>, lo: nat, hi: nat) {
    forall i :: 0 <= i < |ts| ==> Missing(ts[i], lo, hi)
  }

  /** The table of `end - table` bytes at `table` can be walked, and its targets lie in the image
      and outside the table. */
  predicate Sane(s: Bytes, table: nat, end: nat) {
    && WellFormed(s, table, end)
    && var ts := Targets(Entries(s, table, end)); AllInside(s, ts) && MissesTable(ts, table, Extent(s, table, end))
  }

  /** The image after relocating by `delta`. */
  function Relocated(s: Bytes, table: nat, end: nat, delta: int): (r: Bytes)
    requires delta != 0 ==> Sane(s, table, end)
    ensures |r| == |s|
  {
    if delta == 0 then s else AllShifted(s, Targets(Entries(s, table, end)), delta)
  }

  predicate Same(s: Bytes, s': Bytes, lo: nat, hi: nat) {
    |s| == |s'| && forall k :: lo <= k < hi && k < |s| ==> s[k] == s'[k]
  }

  lemma {:induction false} BlockKept(s: Bytes, s': Bytes, q: nat, n: nat, va: nat)
    requires q + 2 * n <= |s| && Same(s, s', q, q + 2 * n)
    ensures BlockEntries(s', q, n, va) == BlockEntries(s, q, n, va)
    decreases n
  {
    if n > 0 {
      assert U16(s', q) == U16(s, q);
      BlockKept(s, s', q + 2, n - 1, va);
    }
  }

  lemma {:induction false} TableKept(s: Bytes, s': Bytes, p: nat, end: nat)
    requires WellFormed(s, p, end) && Same(s, s', p, Extent(s, p, end))
    ensures WellFormed(s', p, end) && Extent(s', p, end) == Extent(s, p, end) && Entries(s', p, end) == Entries(s, p, end)
    decreases |s| - p
  {
    if p < end {
      SameHeader(s, s', p, end);
      var va, size := U32(s, p), U32(s, p + 4);
      if size != 0 {
        TableKept(s, s', p + size, end);
        BlockKept(s, s', p + 8, Slots(size), va);
        SameBlockAndRest(s, s', p, end, va, size, BlockEntries(s, p + 8, Slots(size), va), Entries(s, p + size, end));
      }
    }
  }

  lemma SameBlockAndRest(s: Bytes, s': Bytes, p: nat, end: nat, va: nat, size: nat, block: seq<Entry>, rest: seq<Entry>)
    requires p < end && size > 0 && WellFormed(s, p, end) && WellFormed(s', p, end)
    requires U32(s, p) == va == U32(s', p) && U32(s, p + 4) == size == U32(s', p + 4)
    requires BlockEntries(s, p + 8, Slots(size), va) == block == BlockEntries(s', p + 8, Slots(size), va)
    requires Entries(s, p + size, end) == rest == Entries(s', p + size, end)
    ensures Entries(s, p, end) == Entries(s', p, end)
  {
    EntriesStep(s, p, end, va, size);
    EntriesStep(s', p, end, va, size);
  }

  lemma SameHeader(s: Bytes, s': Bytes, p: nat, end: nat)
    requires p < end && WellFormed(s, p, end) && Same(s, s', p, Extent(s, p, end))
    ensures U32(s', p + 4) == U32(s, p + 4) && U32(s', p) == U32(s, p)
    ensures var size := U32(s, p + 4);
            size != 0 ==> Extent(s, p, end) == Extent(s, p + size, end) >= p + size && size >= 8 && p + size <= |s|
  {
    assert p + 8 <= Extent(s, p, end);
  }

  lemma {:induction false} ShiftsMissTable(s: Bytes, ts: seq<Target>, delta: int, lo: nat, hi: nat)
    requires AllInside(s, ts) && MissesTable(ts, lo, hi)
    ensures Same(s, AllShifted(s, ts, delta), lo, hi)
    decreases |ts|
  {
    forall k | lo <= k < hi && k < |s| ensures AllShifted(s, ts, delta)[k] == s[k] {
      BytesKept(s, ts, delta, k);
    }
  }

  /** On an image whose targets are pairwise the same word or disjoint, relocating adds `delta` to
      each word named, once for each time it is named and modulo its width, and changes no other
      byte. */
  lemma RelocationAdds(s: Bytes, table: nat, end: nat, delta: int)
    requires Sane(s, table, end) && Compatible(Targets(Entries(s, table, end)))
    ensures Added(s, Relocated(s, table, end, delta), Targets(Entries(s, table, end)), delta)
  {
    RelocatedIsShifted(s, table, end, delta);
    ShiftsAdd(s, Targets(Entries(s, table, end)), delta);
  }

  /** `r` is `s` with `delta` added to each word named, and no other byte changed. */
  predicate Added(s: Bytes, r: Bytes, ts: seq<Target>, delta: int) {
    && |r| == |s| && AllInside(s, ts)
    && (forall i :: 0 <= i < |ts| ==> Word(r, ts[i]) == Wrapped(Word(s, ts[i]) + Times(ts, ts[i]) * delta, ts[i].width))
    && (forall k :: 0 <= k < |s| && Untouched(ts, k) ==> r[k] == s[k])
  }

  lemma ShiftsAdd(s: Bytes, ts: seq<Target>, delta: int)
    requires AllInside(s, ts) && Compatible(ts)
    ensures Added(s, AllShifted(s, ts, delta), ts, delta)
  {
    var r := AllShifted(s, ts, delta);
    forall i | 0 <= i < |ts| ensures Word(r, ts[i]) == Wrapped(Word(s, ts[i]) + Times(ts, ts[i]) * delta, ts[i].width) {
      WordsGrow(s, ts, delta, ts[i]);
      TotalCounts(ts, ts[i], delta);
    }
    forall k | 0 <= k < |s| && Untouched(ts, k) ensures r[k] == s[k] {
      BytesKept(s, ts, delta, k);
    }
  }

  predicate Untouched(ts: seq<Target>, k: nat) {
    forall i :: 0 <= i < |ts| ==> !(ts[i].at <= k < ts[i].at + ts[i].width)
  }

  lemma RelocatedIsShifted(s: Bytes, table: nat, end: nat, delta: int)
    requires Sane(s, table, end)
    ensures Relocated(s, table, end, delta) == AllShifted(s, Targets(Entries(s, table, end)), delta)
  {
    if delta == 0 {
      ShiftsByNothing(s, Targets(Entries(s, table, end)));
    }
  }

  /** Relocating leaves the table as it was, so that it can be walked again. */
  lemma RelocationKeepsTable(s: Bytes, table: nat, end: nat, delta: int)
    requires Sane(s, table, end)
    ensures var r := Relocated(s, table, end, delta);
            Sane(r, table, end) && Entries(r, table, end) == Entries(s, table, end)
  {
    if delta != 0 {
      ShiftsMissTable(s, Targets(Entries(s, table, end)), delta, table, Extent(s, table, end));
      TableKept(s, Relocated(s, table, end, delta), table, end);
    }
  }

  /** Relocating by `delta` and taking it back gives the image again. */
  predicate Restored(s: Bytes, table: nat, end: nat, delta: int)
    requires Sane(s, table, end)
  {
    var r := Relocated(s, table, end, delta);
    Sane(r, table, end) && Relocated(r, table, end, -delta) == s
  }

  lemma RestoredByShifts(s: Bytes, table: nat, end: nat, delta: int)
    requires Sane(s, table, end)
    ensures var ts := Targets(Entries(s, table, end));
            Restored(s, table, end, delta) <==> AllShifted(AllShifted(s, ts, delta), ts, -delta) == s
  {
    var r := Relocated(s, table, end, delta);
    RelocationKeepsTable(s, table, end, delta);
    RelocatedIsShifted(s, table, end, delta);
    RelocatedIsShifted(r, table, end, -delta);
  }

  /** Taking a relocation back restores every byte when any two targets end at the same byte or
      share no more bytes than `delta` has low zero bytes, whether or not the walk stopped at an unknown
      kind. */
  lemma RelocationCancels(s: Bytes, table: nat, end: nat, delta: int)
    requires Sane(s, table, end) && PairwiseUndoable(Targets(Entries(s, table, end)), delta)
    ensures Restored(s, table, end, delta)
  {
    RestoredByShifts(s, table, end, delta);
    ShiftsCancel(s, Targets(Entries(s, table, end)), delta);
  }

  /** In particular when any two targets are the same word or disjoint, whatever the delta. */
  lemma CompatibleRestored(s: Bytes, table: nat, end: nat, delta: int)
    requires Sane(s, table, end) && Compatible(Targets(Entries(s, table, end)))
    ensures Restored(s, table, end, delta)
  {
    CompatibleIsUndoable(Targets(Entries(s, table, end)), delta);
    RelocationCancels(s, table, end, delta);
  }

  // ---------------------------------------------------------------- tables that are not undone

  /** A word that an entry can name. */
  predicate Nameable(t: Target) { (t.width == 4 || t.width == 8) && t.at < 0x1_0000_0000 }

  predicate Naming(ts: seq<Target>, words: set<Target>) {
    forall i :: 0 <= i < |ts| ==> ts[i] in words
  }

  /** Every image whose table names only these words is restored. */
  ghost predicate AllRestored(words: set<Target>, delta: int) {
    forall s: Bytes, table: nat, end: nat | Sane(s, table, end) && Naming(Targets(Entries(s, table, end)), words)
      :: Restored(s, table, end, delta)
  }

  /** A block for one word: the page, the size, the entry and an entry that pads. */
  function Block(t: Target): (s: Bytes)
    requires Nameable(t)
    ensures |s| == 12
  {
    var page, kind := t.at / 0x1000, if t.width == 4 then HIGHLOW else DIR64;
    var word := kind * 0x1000 + t.at % 0x1000;
    [0, page % 0x10 * 0x10, page / 0x10 % 0x100, page / 0x1000, 12, 0, 0, 0, word % 0x100, word / 0x100, 0, 0]
  }

  predicate HasBlock(s: Bytes, p: nat, t: Target) {
    Nameable(t) && p + 12 <= |s| && s[p..p + 12] == Block(t)
  }

  lemma BlockBytes(s: Bytes, p: nat, t: Target, k: nat)
    requires HasBlock(s, p, t) && k < 12
    ensures s[p + k] == Block(t)[k]
  {
    assert s[p + k] == s[p..p + 12][k];
  }

  lemma BlockHeader(s: Bytes, p: nat, t: Target)
    requires HasBlock(s, p, t)
    ensures U32(s, p) == t.at - t.at % 0x1000 && U32(s, p + 4) == 12
  {
    forall k: nat | k < 12 ensures s[p + k] == Block(t)[k] {
      BlockBytes(s, p, t, k);
    }
    var page := t.at / 0x1000;
    assert s[p] == 0 && s[p + 1] == page % 0x10 * 0x10 && s[p + 2] == page / 0x10 % 0x100 && s[p + 3] == page / 0x1000;
    assert s[p + 4] == 12 && s[p + 5] == 0 && s[p + 6] == 0 && s[p + 7] == 0;
    PageBytes(page);
  }

  lemma PageBytes(page: nat)
    ensures page % 0x10 * 0x10 * 0x100 + page / 0x10 % 0x100 * 0x1_0000 + page / 0x1000 * 0x100_0000 == page * 0x1000
  {
    var q := page / 0x10;
    assert q / 0x100 == page / 0x1000;
  }

  lemma BlockNames(s: Bytes, p: nat, t: Target)
    requires HasBlock(s, p, t)
    ensures var es := BlockEntries(s, p + 8, 2, t.at - t.at % 0x1000); Targets(es) == [t] && Known(es)
  {
    BlockBytes(s, p, t, 8);
    BlockBytes(s, p, t, 9);
    BlockBytes(s, p, t, 10);
    BlockBytes(s, p, t, 11);
    var va, kind := t.at - t.at % 0x1000, if t.width == 4 then HIGHLOW else DIR64;
    assert U16(s, p + 8) == kind * 0x1000 + t.at % 0x1000 && U16(s, p + 10) == 0;
    assert EntryOf(U16(s, p + 8), va) == Entry(kind, t.at);
    var pad := BlockEntries(s, p + 10, 1, va);
    assert pad == [EntryOf(0, va)] + BlockEntries(s, p + 12, 0, va) == [Entry(ABSOLUTE, va)];
    assert BlockEntries(s, p + 8, 2, va) == [Entry(kind, t.at)] + pad;
    TwoEntries(Entry(kind, t.at), Entry(ABSOLUTE, va));
  }

  lemma TwoEntries(e: Entry, pad: Entry)
    requires (e.kind == HIGHLOW || e.kind == DIR64) && pad.kind == ABSOLUTE
    ensures Targets([e] + [pad]) == [TargetOf(e)] && Known([e] + [pad])
  {
    assert ([e] + [pad])[1..] == [pad] && [pad][1..] == [];
    assert Targets([pad]) == [];
  }

  lemma {:induction false} TargetsJoin(a: seq<Entry>, b: seq<Entry>)
    requires Known(a)
    ensures Targets(a + b) == Targets(a) + Targets(b)
  {
    if a == [] {
      assert a + b == b;
    } else {
      assert (a + b)[1..] == a[1..] + b;
      TargetsJoin(a[1..], b);
    }
  }

  /** Walking from `p` reads the bytes before `hi` and names `ts`. */
  predicate Walks(s: Bytes, p: nat, end: nat, hi: nat, ts: seq<Target>) {
    WellFormed(s, p, end) && Extent(s, p, end) == hi && Targets(Entries(s, p, end)) == ts
  }

  /** Walking on from a block. */
  lemma BlockWalked(s: Bytes, p: nat, q: nat, end: nat, hi: nat, t: Target, ts: seq<Target>)
    requires HasBlock(s, p, t) && p < end && q == p + 12 && Walks(s, q, end, hi, ts)
    ensures Walks(s, p, end, hi, [t] + ts)
  {
    var va := t.at - t.at % 0x1000;
    BlockHeader(s, p, t);
    BlockNames(s, p, t);
    assert WellFormed(s, p, end);
    EntriesStep(s, p, end, va, 12);
    TargetsJoin(BlockEntries(s, p + 8, 2, va), Entries(s, q, end));
  }

  lemma NothingWalked(s: Bytes, end: nat)
    ensures Walks(s, end, end, end, [])
  {
  }

  lemma TwoBlocksWalked(s: Bytes, p: nat, q: nat, end: nat, t: Target, u: Target)
    requires HasBlock(s, p, t) && HasBlock(s, q, u) && q == p + 12 && end == q + 12
    ensures Walks(s, p, end, end, [t, u])
  {
    NothingWalked(s, end);
    BlockWalked(s, q, end, end, end, u, []);
    BlockWalked(s, p, q, end, end, t, [u] + []);
    assert [t] + ([u] + []) == [t, u];
  }

  lemma WalkedIsSane(s: Bytes, p: nat, end: nat, t: Target, u: Target)
    requires Walks(s, p, end, end, [t, u]) && End(t) <= p && End(u) <= p <= |s|
    ensures Sane(s, p, end)
  {
    assert AllInside(s, [t, u]) && MissesTable([t, u], p, end);
  }

  /** An image that ends with a table naming two words and is not undone. */
  lemma NotUndoneTable(t: Target, u: Target, delta: int) returns (s: Bytes, table: nat)
    requires Nameable(t) && Nameable(u) && !Undoable(t, u, delta)
    ensures End(t) <= table && End(u) <= table && HasBlock(s, table, t) && HasBlock(s, table + 12, u)
    ensures AllShifted(AllShifted(s, [t, u], delta), [t, u], -delta) != s
  {
    table := if End(t) < End(u) then End(u) else End(t);
    var zeros, x, y := Zeros(table), Block(t), Block(u);
    s := NotUndone(zeros + x + y, t, u, delta);
    EndKept(s, zeros, x, y, table);
  }

  lemma EndKept(s: Bytes, zeros: Bytes, x: Bytes, y: Bytes, p: nat)
    requires |zeros| == p && |x| == |y| == 12 && |s| == p + 24
    requires forall i :: p <= i < |s| ==> s[i] == (zeros + x + y)[i]
    ensures s[p..p + 12] == x && s[p + 12..p + 24] == y
  {
    var base := zeros + x + y;
    assert base[p..p + 12] == x && base[p + 12..p + 24] == y;
  }

  /** An image, with a table naming two words, that is not restored. */
  lemma NotRestored(t: Target, u: Target, delta: int) returns (s: Bytes, table: nat, end: nat)
    requires Nameable(t) && Nameable(u) && !Undoable(t, u, delta)
    ensures Sane(s, table, end) && Targets(Entries(s, table, end)) == [t, u] && !Restored(s, table, end, delta)
  {
    s, table := NotUndoneTable(t, u, delta);
    end := table + 24;
    TwoBlocksWalked(s, table, table + 12, end, t, u);
    WalkedIsSane(s, table, end, t, u);
    RestoredByShifts(s, table, end, delta);
  }

  /** At the smallest distance between two bases, two words one byte apart are not always restored. */
  lemma OverlapNotRestored() returns (s: Bytes, table: nat, end: nat)
    ensures Sane(s, table, end) && Targets(Entries(s, table, end)) == [Target(0, 4), Target(1, 4)]
    ensures !Restored(s, table, end, GRANULARITY)
  {
    assert Overlap(Target(0, 4), Target(1, 4)) == 3;
    BigRange(3);
    s, table, end := NotRestored(Target(0, 4), Target(1, 4), GRANULARITY);
  }

  /** Exactly when every image whose table names only some words is restored: when every two of the
      words end at the same byte or share no more bytes than `delta` has low zero bytes. */
  lemma AllRestoredIff(words: set<Target>, delta: int)
    requires forall t :: t in words ==> Nameable(t)
    ensures AllRestored(words, delta) <==> forall t, u :: t in words && u in words ==> Undoable(t, u, delta)
  {
    if forall t, u :: t in words && u in words ==> Undoable(t, u, delta) {
      forall s: Bytes, table: nat, end: nat | Sane(s, table, end) && Naming(Targets(Entries(s, table, end)), words)
        ensures Restored(s, table, end, delta)
      {
        RelocationCancels(s, table, end, delta);
      }
    } else {
      var t, u :| t in words && u in words && !Undoable(t, u, delta);
      var s, table, end := NotRestored(t, u, delta);
      assert Naming([t, u], words);
    }
  }

  /** For every distance between two allocation addresses: exactly when no two words share three bytes
      without ending together. */
  lemma AllRestoredForBasesIff(words: set<Target>)
    requires forall t :: t in words ==> Nameable(t)
    ensures (forall delta: int | delta % GRANULARITY == 0 :: AllRestored(words, delta))
       <==> forall t, u :: t in words && u in words ==> Overlap(t, u) <= 2 || SameEnd(t, u)
  {
    forall delta: int ensures AllRestored(words, delta) <==> forall t, u :: t in words && u in words ==> Undoable(t, u, delta) {
      AllRestoredIff(words, delta);
    }
    if forall t, u :: t in words && u in words ==> Overlap(t, u) <= 2 || SameEnd(t, u) {
      forall delta: int, t, u | delta % GRANULARITY == 0 && t in words && u in words ensures Undoable(t, u, delta) {
        UndoableForBasesIff(t, u);
      }
    } else {
      var t, u :| t in words && u in words && Overlap(t, u) > 2 && !SameEnd(t, u);
      UndoableForBasesIff(t, u);
      var delta: int :| delta % GRANULARITY == 0 && !Undoable(t, u, delta);
      assert !AllRestored(words, delta);
    }
  }

  method AddToWord(image: array<byte>, t: Target, delta: int)
    requires Inside(image[..], t)
    modifies image
    ensures image[..] == Shifted(old(image[..]), t, delta)
  {
    ghost var s := image[..];
    var v := Wrapped(ReadLittle(image, t.at, t.width) + delta, t.width);
    WriteLittle(image, t.at, t.width, v);
  }

  function ReadLittle(image: array<byte>, at: nat, width: nat): (n: nat)
    requires at + width <= image.Length
    reads image
    ensures n == Little(image[at..at + width])
    decreases width
  {
    if width == 0 then 0
    else
      assert image[at..at + width][1..] == image[at + 1..at + width];
      image[at] + 256 * ReadLittle(image, at + 1, width - 1)
  }

  method WriteLittle(image: array<byte>, at: nat, width: nat, v: nat)
    requires at + width <= image.Length
    modifies image
    ensures image[..] == Patched(old(image[..]), at, ToLittle(v, width))
  {
    var n, i := v, 0;
    while i < width
      invariant 0 <= i <= width
      invariant Patched(image[..], at + i, ToLittle(n, width - i)) == Patched(old(image[..]), at, ToLittle(v, width))
    {
      ghost var now := image[..];
      image[at + i] := n % 256;
      assert image[..] == now[at + i := n % 256];
      n, i := n / 256, i + 1;
    }
  }

  function TargetOf(e: Entry): Target { Target(e.rva, if e.kind == HIGHLOW then 4 else 8) }

  /** The image a walk leads to, and whether it meets only known kinds. */
  datatype Goal = Goal(image: Bytes, known: bool)

  /** Shifting what `rest` names in `now` leads to `goal`, and leaves the bytes of `s` between `lo`
      and `hi` alone. */
  ghost predicate Pending(s: Bytes, goal: Goal, now: Bytes, rest: seq<Entry>, delta: int, lo: nat, hi: nat)
    decreases |rest|
  {
    match goal
    case Goal(image, known) =>
      && Same(s, now, lo, hi)
      && if rest == [] then now == image && known
         else if !KnownKind(rest[0]) then now == image && !known
         else if rest[0].kind == ABSOLUTE then Pending(s, goal, now, rest[1..], delta, lo, hi)
         else Inside(now, TargetOf(rest[0])) && Pending(s, goal, Shifted(now, TargetOf(rest[0]), delta), rest[1..], delta, lo, hi)
  }

  lemma {:induction false} PendingStart(s: Bytes, now: Bytes, rest: seq<Entry>, delta: int, lo: nat, hi: nat)
    requires AllInside(now, Targets(rest)) && MissesTable(Targets(rest), lo, hi) && Same(s, now, lo, hi)
    ensures Pending(s, Goal(AllShifted(now, Targets(rest), delta), Known(rest)), now, rest, delta, lo, hi)
    decreases |rest|
  {
    if rest != [] && KnownKind(rest[0]) {
      if rest[0].kind == ABSOLUTE {
        PendingStart(s, now, rest[1..], delta, lo, hi);
      } else {
        var ts, t := Targets(rest), TargetOf(rest[0]);
        assert ts[0] == t && ts[1..] == Targets(rest[1..]);
        ShiftMisses(s, now, t, delta, lo, hi);
        PendingStart(s, Shifted(now, t, delta), rest[1..], delta, lo, hi);
      }
    }
  }

  lemma ShiftMisses(s: Bytes, now: Bytes, t: Target, delta: int, lo: nat, hi: nat)
    requires Inside(now, t) && Missing(t, lo, hi) && Same(s, now, lo, hi)
    ensures Same(s, Shifted(now, t, delta), lo, hi)
  {
    forall k | lo <= k < hi && k < |now| ensures Shifted(now, t, delta)[k] == now[k] {
      ShiftedElsewhere(now, t, delta, k);
    }
  }

  lemma PendingTable(s: Bytes, goal: Goal, now: Bytes, rest: seq<Entry>, delta: int, lo: nat, hi: nat)
    requires Pending(s, goal, now, rest, delta, lo, hi)
    ensures Same(s, now, lo, hi)
  {
  }

  /** Shifts the word named by the entry at `at`, the first of `n` that are left of the block. */
  method ShiftEntry(image: array<byte>, at: nat, va: nat, delta: int, ghost n: nat, ghost rest: seq<Entry>, ghost left: seq<Entry>,
                    ghost s: Bytes, ghost goal: Goal, ghost lo: nat, ghost hi: nat) returns (ok: bool, ghost more: seq<Entry>)
    requires at + 2 * n <= image.Length == |s| && n > 0 && lo <= at && at + 2 <= hi
    requires left == BlockEntries(s, at, n, va) + rest && Pending(s, goal, image[..], left, delta, lo, hi)
    modifies image
    ensures more == BlockEntries(s, at + 2, n - 1, va) + rest
    ensures ok ==> Pending(s, goal, image[..], more, delta, lo, hi)
    ensures !ok ==> image[..] == goal.image && !goal.known
  {
    ghost var now := image[..];
    PendingTable(s, goal, now, left, delta, lo, hi);
    var e := EntryOf(U16Of(image, at), va);
    FirstEntry(s, now, at, n, va, rest);
    more := left[1..];
    ok := ShiftNamed(image, e, delta, left, s, goal, lo, hi);
  }

  method ShiftNamed(image: array<byte>, e: Entry, delta: int, ghost left: seq<Entry>, ghost s: Bytes, ghost goal: Goal,
                    ghost lo: nat, ghost hi: nat) returns (ok: bool)
    requires left != [] && left[0] == e && Pending(s, goal, image[..], left, delta, lo, hi)
    modifies image
    ensures ok ==> Pending(s, goal, image[..], left[1..], delta, lo, hi)
    ensures !ok ==> image[..] == goal.image && !goal.known
  {
    if e.kind == HIGHLOW || e.kind == DIR64 {
      AddToWord(image, TargetOf(e), delta);
    } else if e.kind != ABSOLUTE {
      return false;
    }
    return true;
  }

  lemma FirstEntry(s: Bytes, now: Bytes, q: nat, n: nat, va: nat, rest: seq<Entry>)
    requires n > 0 && q + 2 * n <= |s| && Same(s, now, q, q + 2)
    ensures var left := BlockEntries(s, q, n, va) + rest;
            && left != [] && left[0] == EntryOf(U16(now, q), va)
            && left[1..] == BlockEntries(s, q + 2, n - 1, va) + rest
  {
    assert U16(now, q) == U16(s, q);
    HeadOff(EntryOf(U16(s, q), va), BlockEntries(s, q + 2, n - 1, va), rest);
  }

  lemma HeadOff(e: Entry, a: seq<Entry>, b: seq<Entry>)
    ensures [e] + a + b != [] && ([e] + a + b)[0] == e && ([e] + a + b)[1..] == a + b
  {
  }

  /** Shifts the words named by `n` entries at `q`; false at an entry of an unknown kind. */
  method ShiftBlock(image: array<byte>, q: nat, n: nat, va: nat, delta: int, ghost rest: seq<Entry>,
                    ghost s: Bytes, ghost goal: Goal, ghost lo: nat, ghost hi: nat) returns (ok: bool)
    requires q + 2 * n <= image.Length == |s| && lo <= q && q + 2 * n <= hi
    requires Pending(s, goal, image[..], BlockEntries(s, q, n, va) + rest, delta, lo, hi)
    modifies image
    ensures ok ==> Pending(s, goal, image[..], rest, delta, lo, hi)
    ensures !ok ==> image[..] == goal.image && !goal.known
  {
    var at, left := q, n;
    ghost var todo := BlockEntries(s, q, n, va) + rest;
    while left > 0
      invariant left >= 0 && at + 2 * left == q + 2 * n && at >= q
      invariant todo == BlockEntries(s, at, left, va) + rest
      invariant Pending(s, goal, image[..], todo, delta, lo, hi)
    {
      ok, todo := ShiftEntry(image, at, va, delta, left, rest, todo, s, goal, lo, hi);
      if !ok {
        return;
      }
      at, left := at + 2, left - 1;
    }
    BlockDone(s, at, va, rest);
    return true;
  }

  lemma BlockDone(s: Bytes, at: nat, va: nat, rest: seq<Entry>)
    requires at <= |s|
    ensures BlockEntries(s, at, 0, va) + rest == rest
  {
  }

  /** The walk stands at `p`, with what is pending from there on. */
  ghost predicate Walking(s: Bytes, goal: Goal, now: Bytes, p: nat, end: nat, delta: int, table: nat, hi: nat) {
    match goal
    case Goal(_, _) =>
      && WellFormed(s, p, end) && p >= table && Extent(s, p, end) == hi
      && Pending(s, goal, now, Entries(s, p, end), delta, table, hi)
  }

  lemma WalkStarts(s: Bytes, table: nat, end: nat, delta: int)
    requires Sane(s, table, end)
    ensures var es := Entries(s, table, end);
            Walking(s, Goal(AllShifted(s, Targets(es), delta), Known(es)), s, table, end, delta, table, Extent(s, table, end))
  {
    PendingStart(s, s, Entries(s, table, end), delta, table, Extent(s, table, end));
  }

  lemma WalkEnds(s: Bytes, goal: Goal, now: Bytes, p: nat, end: nat, delta: int, table: nat, hi: nat)
    requires Walking(s, goal, now, p, end, delta, table, hi) && p >= end
    ensures goal == Goal(now, true)
  {
  }

  /** Walks the table; false when it stopped at an entry of an unknown kind. */
  method WalkTable(image: array<byte>, table: nat, end: nat, delta: int) returns (ok: bool)
    requires Sane(image[..], table, end)
    modifies image
    ensures image[..] == AllShifted(old(image[..]), Targets(Entries(old(image[..]), table, end)), delta)
    ensures ok == Known(Entries(old(image[..]), table, end))
  {
    WalkStarts(image[..], table, end, delta);
    ghost var s, es, hi := image[..], Entries(image[..], table, end), Extent(image[..], table, end);
    ok := WalkFrom(image, table, end, delta, s, Goal(AllShifted(s, Targets(es), delta), Known(es)), hi);
  }

  method WalkFrom(image: array<byte>, table: nat, end: nat, delta: int, ghost s: Bytes, ghost goal: Goal, ghost hi: nat)
    returns (ok: bool)
    requires Walking(s, goal, image[..], table, end, delta, table, hi) && image.Length == |s|
    modifies image
    ensures goal == Goal(image[..], ok)
  {
    var p := table;
    while p < end
      invariant Walking(s, goal, image[..], p, end, delta, table, hi)
      decreases end - p
    {
      var more;
      p, ok, more := WalkBlock(image, p, end, delta, s, goal, table, hi);
      if !more {
        return;
      }
    }
    WalkEnds(s, goal, image[..], p, end, delta, table, hi);
    return true;
  }

  /** Shifts the words named by the block at `p`; no more follow an empty block or an entry of an
      unknown kind. */
  method WalkBlock(image: array<byte>, p: nat, end: nat, delta: int, ghost s: Bytes, ghost goal: Goal,
                   ghost table: nat, ghost hi: nat) returns (next: nat, ok: bool, more: bool)
    requires Walking(s, goal, image[..], p, end, delta, table, hi) && image.Length == |s| && p < end
    modifies image
    ensures more ==> next > p && Walking(s, goal, image[..], next, end, delta, table, hi)
    ensures !more ==> goal == Goal(image[..], ok)
  {
    ghost var rest := WalkingHeader(s, goal, image[..], p, end, delta, table, hi);
    var size := U32Of(image, p + 4);
    if size == 0 {
      return p, true, false;
    }
    var va := U32Of(image, p);
    ok := ShiftBlock(image, p + 8, Slots(size), va, delta, rest, s, goal, table, hi);
    next, more := p + size, ok;
    if ok {
      WalksOn(s, goal, image[..], next, end, delta, table, hi, rest);
    }
  }

  lemma WalkingHeader(s: Bytes, goal: Goal, now: Bytes, p: nat, end: nat, delta: int, table: nat, hi: nat) returns (rest: seq<Entry>)
    requires Walking(s, goal, now, p, end, delta, table, hi) && |now| == |s| && p < end
    ensures p + 8 <= |s| && U32(now, p + 4) == U32(s, p + 4) && U32(now, p) == U32(s, p)
    ensures var size, va := U32(now, p + 4), U32(now, p);
            if size == 0 then goal == Goal(now, true)
            else
              && size >= 8 && p + size <= |s| && p + size <= hi && p >= table
              && WellFormed(s, p + size, end) && Extent(s, p + size, end) == hi && rest == Entries(s, p + size, end)
              && Pending(s, goal, now, BlockEntries(s, p + 8, Slots(size), va) + rest, delta, table, hi)
  {
    PendingTable(s, goal, now, Entries(s, p, end), delta, table, hi);
    HeaderKept(s, now, p, end);
    var size := U32(now, p + 4);
    rest := if size == 0 then [] else Entries(s, p + size, end);
  }

  lemma WalksOn(s: Bytes, goal: Goal, now: Bytes, p: nat, end: nat, delta: int, table: nat, hi: nat, rest: seq<Entry>)
    requires WellFormed(s, p, end) && p >= table && Extent(s, p, end) == hi && rest == Entries(s, p, end)
    requires Pending(s, goal, now, rest, delta, table, hi)
    ensures Walking(s, goal, now, p, end, delta, table, hi)
  {
  }

  lemma HeaderKept(s: Bytes, now: Bytes, p: nat, end: nat)
    requires p < end && WellFormed(s, p, end) && Same(s, now, p, Extent(s, p, end))
    ensures U32(now, p + 4) == U32(s, p + 4) && U32(now, p) == U32(s, p)
    ensures var size := U32(s, p + 4);
            if size == 0 then Entries(s, p, end) == []
            else
              && size >= 8 && WellFormed(s, p + size, end) && Extent(s, p, end) == Extent(s, p + size, end)
              && p + size <= |s| && p + size <= Extent(s, p, end)
              && Entries(s, p, end) == BlockEntries(s, p + 8, Slots(size), U32(s, p)) + Entries(s, p + size, end)
  {
    SameHeader(s, now, p, end);
    EntriesStep(s, p, end, U32(s, p), U32(s, p + 4));
  }

  function U16Of(image: array<byte>, p: nat): (n: nat)
    requires p + 2 <= image.Length
    reads image
    ensures n == U16(image[..], p)
  {
    image[p] as int + 0x100 * image[p + 1] as int
  }

  function U32Of(image: array<byte>, p: nat): (n: nat)
    requires p + 4 <= image.Length
    reads image
    ensures n == U32(image[..], p)
  {
    image[p] as int + 0x100 * image[p + 1] as int + 0x1_0000 * image[p + 2] as int + 0x100_0000 * image[p + 3] as int
  }

  /** The loader: the image is `delta` away from its preferred base. */
  method ApplyRelocations(image: array<byte>, table: nat, size: nat, delta: int) returns (ok: bool)
    requires delta != 0 ==> Sane(image[..], table, table + size)
    modifies image
    ensures image[..] == Relocated(old(image[..]), table, table + size, delta)
    ensures ok == (delta == 0 || Known(Entries(old(image[..]), table, table + size)))
  {
    if delta == 0 {
      return true;
    }
    ok := WalkTable(image, table, table + size, delta);
  }

  /** The snapshot writer: takes the relocation back, or with `again` redoes it. */
  method UnapplyRelocations(image: array<byte>, table: nat, size: nat, delta: int, again: bool)
    requires delta != 0 ==> Sane(image[..], table, table + size)
    modifies image
    ensures image[..] == Relocated(old(image[..]), table, table + size, if again then delta else -delta)
  {
    if delta == 0 {
      return;
    }
    var ok := WalkTable(image, table, table + size, if again then delta else -delta);
  }
}

/** The serializer, for object graphs whose dictionaries have string keys.  The packer it writes to
    is free to choose any format that can hold what it is given. */
module MsgPackSerializing {
  import opened ByteStrings
  import opened Sequences
  import opened MsgPackFormat
  import opened MsgPackDeserializing
  import opened MsgPackRoundTrip

  /** What is serialized.  Enumerations count as their numbers; an object that is neither a
      collection nor a known type stands for the dictionary of its properties. */
  datatype Graph =
    | GNull
    | GBool(b: bool)
    | GInt(v: int)
    | GEnum(v: int)
    | GSingle(bits: nat)
    | GDouble(bits: nat)
    | GString(utf8: Bytes)
    | GBytes(bytes: Bytes)
    | GDictionary(entries: seq<GraphEntry>)
    | GList(items: seq<Graph>)
    | GVector(ext: byte, floats: seq<nat>)
    | GDelegate(reference: Bytes)
    | GObject(properties: seq<GraphEntry>)

  datatype GraphEntry = GraphEntry(key: Bytes, value: Graph)

  ghost predicate DistinctNames(entries: seq<GraphEntry>) {
    forall i, j :: 0 <= i < j < |entries| ==> entries[i].key != entries[j].key
  }

  predicate Packable(v: int) { -0x8000_0000_0000_0000 <= v < 0x1_0000_0000_0000_0000 }

  /** Numbers of at most 64 bits, lengths below 2^31. */
  ghost predicate InRange(o: Graph) {
    match o
    case GInt(v) => Packable(v)
    case GEnum(v) => Packable(v)
    case GSingle(bits) => bits < Pow256(4)
    case GDouble(bits) => bits < Pow256(8)
    case GString(utf8) => |utf8| < MAX_LENGTH
    case GBytes(bytes) => |bytes| < MAX_LENGTH
    case GDictionary(entries) => EntriesInRange(entries)
    case GObject(properties) => EntriesInRange(properties)
    case GList(items) => |items| < MAX_LENGTH && forall i :: 0 <= i < |items| ==> InRange(items[i])
    case GVector(ext, floats) =>
      20 <= ext <= 23 && |floats| == VectorSize(ext) && forall i :: 0 <= i < |floats| ==> floats[i] < Pow256(4)
    case GDelegate(reference) => |reference| < MAX_LENGTH
    case _ => true
  }

  ghost predicate EntriesInRange(entries: seq<GraphEntry>) {
    && |entries| < MAX_LENGTH && DistinctNames(entries)
    && forall i :: 0 <= i < |entries| ==> |entries[i].key| < MAX_LENGTH && InRange(entries[i].value)
  }

  /** The value a graph stands for. */
  function ValueOf(o: Graph): Value {
    match o
    case GNull => Nil
    case GBool(b) => Bool(b)
    case GInt(v) => Int(v)
    case GEnum(v) => Int(v)
    case GSingle(bits) => Float32(bits)
    case GDouble(bits) => Float64(bits)
    case GString(utf8) => Str(utf8)
    case GBytes(bytes) => Bin(bytes)
    case GDictionary(entries) => Map(ValueEntries(entries))
    case GObject(properties) => Map(ValueEntries(properties))
    case GList(items) => Arr(ValuesOf(items))
    case GVector(ext, floats) => Vec(ext, floats)
    case GDelegate(reference) => Func(10, reference)
  }

  function ValuesOf(items: seq<Graph>): seq<Value> {
    if items == [] then [] else [ValueOf(items[0])] + ValuesOf(items[1..])
  }

  function ValueEntries(entries: seq<GraphEntry>): seq<(Bytes, Value)> {
    if entries == [] then [] else [(entries[0].key, ValueOf(entries[0].value))] + ValueEntries(entries[1..])
  }

  // ---------------------------------------------------------------- the packer's choices

  datatype PackerFormats = Formats(
    integer: int -> Wire, str: nat -> Header, bin: nat -> Header, arr: nat -> Header, mapping: nat -> Header, ext: nat -> Header)

  predicate IsNumber(w: Wire) { w.WPosFix? || w.WNegFix? || w.WUInt? || w.WInt? }

  ghost predicate Lawful(f: PackerFormats) {
    && (forall v :: Packable(v) ==> IsNumber(f.integer(v)) && Fits(f.integer(v)) && Denotes(f.integer(v)) == Int(v))
    && (forall n: nat :: n < MAX_LENGTH ==> LengthFits(f.str(n), n, 32))
    && (forall n: nat :: n < MAX_LENGTH ==> f.bin(n) != Fix && LengthFits(f.bin(n), n, 0))
    && (forall n: nat :: n < MAX_LENGTH ==> f.arr(n) != In1 && LengthFits(f.arr(n), n, 16))
    && (forall n: nat :: n < MAX_LENGTH ==> f.mapping(n) != In1 && LengthFits(f.mapping(n), n, 16))
    && (forall n: nat :: n < MAX_LENGTH ==> if f.ext(n) == Fix then n in {1, 2, 4, 8, 16} else LengthFits(f.ext(n), n, 0))
  }

  /** The widest formats throughout. */
  function Widest(): PackerFormats {
    Formats((v: int) => if v < 0 then WInt(8, v) else WUInt(8, v),
            (n: nat) => In4, (n: nat) => In4, (n: nat) => In4, (n: nat) => In4, (n: nat) => In4)
  }

  lemma WidestIsLawful()
    ensures Lawful(Widest())
  {
    PowerValues();
  }

  /** The encoding that serializing produces under the packer's choices. */
  function WireOf(f: PackerFormats, o: Graph): Wire {
    match o
    case GNull => WNil
    case GBool(b) => WBool(b)
    case GInt(v) => f.integer(v)
    case GEnum(v) => f.integer(v)
    case GSingle(bits) => WFloat32(bits)
    case GDouble(bits) => WFloat64(bits)
    case GString(utf8) => WStr(f.str(|utf8|), utf8)
    case GBytes(bytes) => WBin(f.bin(|bytes|), bytes)
    case GDictionary(entries) => WMap(f.mapping(|entries|), WireEntries(f, entries))
    case GObject(properties) => WMap(f.mapping(|properties|), WireEntries(f, properties))
    case GList(items) => WArr(f.arr(|items|), WiresOf(f, items))
    case GVector(ext, floats) => WVec(f.ext(4 * |floats|), ext, floats)
    case GDelegate(reference) => WFunc(f.ext(|reference|), 10, reference)
  }

  function WiresOf(f: PackerFormats, items: seq<Graph>): (r: seq<Wire>)
    ensures |r| == |items|
  {
    if items == [] then [] else [WireOf(f, items[0])] + WiresOf(f, items[1..])
  }

  function WireEntries(f: PackerFormats, entries: seq<GraphEntry>): (r: seq<WireEntry>)
    ensures |r| == |entries| && forall i :: 0 <= i < |r| ==> r[i].key == entries[i].key
  {
    if entries == [] then []
    else [WireEntry(f.str(|entries[0].key|), entries[0].key, WireOf(f, entries[0].value))] + WireEntries(f, entries[1..])
  }

  lemma {:induction false} WireFits(f: PackerFormats, o: Graph)
    requires Lawful(f) && InRange(o)
    ensures Fits(WireOf(f, o)) && Denotes(WireOf(f, o)) == ValueOf(o)
    decreases o, 2
  {
    match o
    case GList(items) => WiresFit(f, items);
    case GDictionary(entries) => WireEntriesFit(f, entries);
    case GObject(properties) => WireEntriesFit(f, properties);
    case _ =>
  }

  lemma {:induction false} WiresFit(f: PackerFormats, items: seq<Graph>)
    requires Lawful(f) && forall i :: 0 <= i < |items| ==> InRange(items[i])
    ensures var ws := WiresOf(f, items);
            (forall i :: 0 <= i < |ws| ==> Fits(ws[i])) && DenotesAll(ws) == ValuesOf(items)
    decreases items, 1
  {
    if items != [] {
      WireFits(f, items[0]);
      WiresFit(f, items[1..]);
      assert WiresOf(f, items)[1..] == WiresOf(f, items[1..]);
    }
  }

  lemma {:induction false} WireEntriesFit(f: PackerFormats, entries: seq<GraphEntry>)
    requires Lawful(f) && EntriesInRange(entries)
    ensures var ws := WireEntries(f, entries);
            && (forall i :: 0 <= i < |ws| ==> LengthFits(ws[i].h, |ws[i].key|, 32) && Fits(ws[i].value))
            && DenotesEntries(ws) == ValueEntries(entries)
    decreases entries, 1
  {
    if entries != [] {
      WireFits(f, entries[0].value);
      EntriesInRangeRest(entries);
      WireEntriesFit(f, entries[1..]);
      FirstEntryFits(WireEntry(f.str(|entries[0].key|), entries[0].key, WireOf(f, entries[0].value)), WireEntries(f, entries[1..]));
    }
  }

  lemma EntriesInRangeRest(entries: seq<GraphEntry>)
    requires entries != [] && EntriesInRange(entries)
    ensures EntriesInRange(entries[1..]) && |entries[0].key| < MAX_LENGTH && InRange(entries[0].value)
  {
  }

  lemma FirstEntryFits(e: WireEntry, rest: seq<WireEntry>)
    requires LengthFits(e.h, |e.key|, 32) && Fits(e.value)
    requires forall i :: 0 <= i < |rest| ==> LengthFits(rest[i].h, |rest[i].key|, 32) && Fits(rest[i].value)
    ensures forall i :: 0 <= i < |[e] + rest| ==> LengthFits(([e] + rest)[i].h, |([e] + rest)[i].key|, 32) && Fits(([e] + rest)[i].value)
    ensures DenotesEntries([e] + rest) == [(e.key, Denotes(e.value))] + DenotesEntries(rest)
  {
    assert ([e] + rest)[1..] == rest;
  }

  /** Decoding what any lawful packer makes of a graph, whatever follows it, gives the value of
      the graph back and stops exactly after it. */
  lemma SerializeRoundTrip(f: PackerFormats, show: Show, o: Graph, rest: Bytes)
    requires Lawful(f) && InRange(o)
    ensures Fits(WireOf(f, o))
    ensures var s := Encoded(WireOf(f, o));
            var r := Any(show, s + rest, 0);
            r.Done? && Meaning(r.value) == ValueOf(o) && r.pos == |s|
  {
    WireFits(f, o);
    DecodeReturnsValue(show, ValueOf(o), Encoded(WireOf(f, o)), rest);
  }

  // ---------------------------------------------------------------- the serializing methods

  /** The packer library: each call writes its argument in the format it chooses. */
  class Packer {
    const formats: PackerFormats
    var out: Bytes

    constructor (formats: PackerFormats)
      ensures this.formats == formats && out == []
    {
      this.formats, out := formats, [];
    }

    method Pack(w: Wire)
      requires Fits(w)
      modifies this`out
      ensures out == old(out) + Encoded(w)
    {
      out := out + Encoded(w);
    }

    method PackMapHeader(n: nat)
      requires Lawful(formats) && n < MAX_LENGTH
      modifies this`out
      ensures out == old(out) + MapHead(formats.mapping(n), n)
    {
      out := out + MapHead(formats.mapping(n), n);
    }

    method PackArrayHeader(n: nat)
      requires Lawful(formats) && n < MAX_LENGTH
      modifies this`out
      ensures out == old(out) + ArrayHead(formats.arr(n), n)
    {
      out := out + ArrayHead(formats.arr(n), n);
    }
  }

  /** Appends the encoding of `o` to the packer's output. */
  method Serialize(o: Graph, packer: Packer)
    requires Lawful(packer.formats) && InRange(o)
    modifies packer`out
    ensures Fits(WireOf(packer.formats, o))
    ensures packer.out == old(packer.out) + Encoded(WireOf(packer.formats, o))
    decreases o, 2
  {
    var f := packer.formats;
    WireFits(f, o);
    match o
    case GDictionary(entries) => SerializeEntries(entries, packer);
    case GObject(properties) => SerializeEntries(properties, packer);
    case GList(items) => SerializeItems(items, packer);
    case _ => packer.Pack(WireOf(f, o));
  }

  method SerializeItems(items: seq<Graph>, packer: Packer)
    requires Lawful(packer.formats) && InRange(GList(items))
    modifies packer`out
    ensures Fits(WireOf(packer.formats, GList(items)))
    ensures packer.out == old(packer.out) + Encoded(WireOf(packer.formats, GList(items)))
    decreases items, 1
  {
    var f := packer.formats;
    WireFits(f, GList(items));
    WiresFit(f, items);
    packer.PackArrayHeader(|items|);
    ghost var start, all := packer.out, Chunks(f, items);
    var i := 0;
    while i < |items|
      invariant 0 <= i <= |items|
      invariant packer.out + Chunks(f, items[i..]) == start + all
    {
      ChunksStep(f, items, i);
      ghost var done := packer.out;
      Serialize(items[i], packer);
      Regroup(done, Encoded(WireOf(f, items[i])), Chunks(f, items[i + 1..]));
      i := i + 1;
    }
    assert packer.out + [] == packer.out;
    Regroup(old(packer.out), ArrayHead(f.arr(|items|), |items|), all);
    ListEncoding(f, items);
  }

  /** The encodings of the items one after the other. */
  ghost function Chunks(f: PackerFormats, items: seq<Graph>): Bytes
    requires Lawful(f) && forall i :: 0 <= i < |items| ==> InRange(items[i])
  {
    WiresFit(f, items);
    Concat(EncodedAll(WiresOf(f, items)))
  }

  lemma ChunksStep(f: PackerFormats, items: seq<Graph>, i: nat)
    requires Lawful(f) && i < |items| && forall k :: 0 <= k < |items| ==> InRange(items[k])
    ensures Fits(WireOf(f, items[i]))
    ensures Chunks(f, items[i..]) == Encoded(WireOf(f, items[i])) + Chunks(f, items[i + 1..])
  {
    WireFits(f, items[i]);
    WiresFit(f, items[i..]);
    assert items[i..][1..] == items[i + 1..];
    var ws := WiresOf(f, items[i..]);
    assert ws[1..] == WiresOf(f, items[i + 1..]) && ws[0] == WireOf(f, items[i]);
    var parts := EncodedAll(ws);
    assert parts[1..] == EncodedAll(ws[1..]);
  }

  lemma ListEncoding(f: PackerFormats, items: seq<Graph>)
    requires Lawful(f) && InRange(GList(items)) && Fits(WireOf(f, GList(items)))
    ensures Encoded(WireOf(f, GList(items))) == ArrayHead(f.arr(|items|), |items|) + Chunks(f, items)
  {
    WiresFit(f, items);
  }

  method SerializeKey(key: Bytes, packer: Packer)
    requires Lawful(packer.formats) && |key| < MAX_LENGTH
    modifies packer`out
    ensures Fits(WStr(packer.formats.str(|key|), key))
    ensures packer.out == old(packer.out) + Encoded(WStr(packer.formats.str(|key|), key))
  {
    packer.Pack(WireOf(packer.formats, GString(key)));
  }

  method SerializeEntries(entries: seq<GraphEntry>, packer: Packer)
    requires Lawful(packer.formats) && EntriesInRange(entries)
    modifies packer`out
    ensures Fits(WireOf(packer.formats, GDictionary(entries)))
    ensures packer.out == old(packer.out) + Encoded(WireOf(packer.formats, GDictionary(entries)))
    decreases entries, 1
  {
    var f := packer.formats;
    WireFits(f, GDictionary(entries));
    packer.PackMapHeader(|entries|);
    ghost var start, all := packer.out, Pairs(f, entries);
    var i := 0;
    while i < |entries|
      invariant 0 <= i <= |entries|
      invariant EntriesInRange(entries[i..])
      invariant packer.out + Pairs(f, entries[i..]) == start + all
    {
      PairsStep(f, entries, i);
      ghost var done := packer.out;
      ghost var key, rest := Encoded(WStr(f.str(|entries[i].key|), entries[i].key)), Pairs(f, entries[i + 1..]);
      SerializeKey(entries[i].key, packer);
      Serialize(entries[i].value, packer);
      Regroup(done, key, Encoded(WireOf(f, entries[i].value)));
      Regroup(done, key + Encoded(WireOf(f, entries[i].value)), rest);
      i := i + 1;
    }
    assert packer.out + [] == packer.out;
    Regroup(old(packer.out), MapHead(f.mapping(|entries|), |entries|), all);
    DictionaryEncoding(f, entries);
  }

  /** The encodings of the keys and values in turn. */
  ghost function Pairs(f: PackerFormats, entries: seq<GraphEntry>): Bytes
    requires Lawful(f) && EntriesInRange(entries)
  {
    WireEntriesFit(f, entries);
    var ws := WireEntries(f, entries);
    Interleave(EncodedKeys(ws), EncodedValues(ws))
  }

  lemma RestInRange(entries: seq<GraphEntry>, i: nat)
    requires i < |entries| && EntriesInRange(entries[i..])
    ensures EntriesInRange(entries[i + 1..]) && InRange(entries[i].value) && |entries[i].key| < MAX_LENGTH
    ensures entries[i..][0] == entries[i] && entries[i..][1..] == entries[i + 1..]
  {
  }

  lemma PairsStep(f: PackerFormats, entries: seq<GraphEntry>, i: nat)
    requires Lawful(f) && i < |entries| && EntriesInRange(entries[i..])
    ensures EntriesInRange(entries[i + 1..])
    ensures Fits(WireOf(f, entries[i].value)) && Fits(WStr(f.str(|entries[i].key|), entries[i].key))
    ensures InRange(entries[i].value)
    ensures Pairs(f, entries[i..]) ==
            (Encoded(WStr(f.str(|entries[i].key|), entries[i].key)) + Encoded(WireOf(f, entries[i].value)))
            + Pairs(f, entries[i + 1..])
  {
    RestInRange(entries, i);
    WireFits(f, entries[i].value);
    FirstPair(f, entries[i..]);
  }

  lemma FirstPair(f: PackerFormats, entries: seq<GraphEntry>)
    requires Lawful(f) && entries != [] && EntriesInRange(entries) && EntriesInRange(entries[1..])
    requires Fits(WireOf(f, entries[0].value)) && LengthFits(f.str(|entries[0].key|), |entries[0].key|, 32)
    ensures Pairs(f, entries) ==
            (EncodedStr(f.str(|entries[0].key|), entries[0].key) + Encoded(WireOf(f, entries[0].value)))
            + Pairs(f, entries[1..])
  {
    WireEntriesFit(f, entries);
    WireEntriesFit(f, entries[1..]);
    var ws := WireEntries(f, entries);
    assert ws[1..] == WireEntries(f, entries[1..]);
    var keys, values := EncodedKeys(ws), EncodedValues(ws);
    assert keys[1..] == EncodedKeys(ws[1..]) && values[1..] == EncodedValues(ws[1..]);
    Regroup(keys[0], values[0], Interleave(keys[1..], values[1..]));
  }

  lemma DictionaryEncoding(f: PackerFormats, entries: seq<GraphEntry>)
    requires Lawful(f) && EntriesInRange(entries) && Fits(WireOf(f, GDictionary(entries)))
    ensures Encoded(WireOf(f, GDictionary(entries))) == MapHead(f.mapping(|entries|), |entries|) + Pairs(f, entries)
  {
    WireEntriesFit(f, entries);
  }
}

/** The deserializer reads every encoding of a value back as that value. */
module MsgPackRoundTrip {
  import opened ByteStrings
  import opened MsgPackFormat
  import opened MsgPackDeserializing

  /** The object that decoding an encoding creates. */
  function ObjectOf(w: Wire): Object {
    match w
    case WNil => Null
    case WBool(b) => Boolean(b)
    case WPosFix(v) => Integer(Int32, v)
    case WNegFix(v) => Integer(Int32, v)
    case WUInt(width, v) => Integer(UIntType(width), v)
    case WInt(width, v) => Integer(SIntType(width), v)
    case WFloat32(bits) => Single(bits)
    case WFloat64(bits) => Double(bits)
    case WStr(_, utf8) => Text(utf8)
    case WBin(_, bytes) => Binary(bytes)
    case WArr(_, items) => List(ObjectsOf(items))
    case WMap(_, entries) => Dictionary(ObjectEntries(entries))
    case WVec(_, ext, floats) => Vector(ext, floats)
    case WFunc(_, ext, data) => FuncRef(ext, data)
  }

  function ObjectsOf(items: seq<Wire>): seq<Object> {
    if items == [] then [] else [ObjectOf(items[0])] + ObjectsOf(items[1..])
  }

  function ObjectEntries(entries: seq<WireEntry>): seq<Field> {
    if entries == [] then [] else [Field(entries[0].key, ObjectOf(entries[0].value))] + ObjectEntries(entries[1..])
  }

  /** The value an object stands for: its integer type is forgotten. */
  function Meaning(o: Object): Value {
    match o
    case Null => Nil
    case Boolean(b) => Bool(b)
    case Integer(_, v) => Int(v)
    case Single(bits) => Float32(bits)
    case Double(bits) => Float64(bits)
    case Text(utf8) => Str(utf8)
    case Binary(bytes) => Bin(bytes)
    case List(items) => Arr(Meanings(items))
    case Dictionary(entries) => Map(MeaningEntries(entries))
    case Vector(ext, floats) => Vec(ext, floats)
    case FuncRef(ext, data) => Func(ext, data)
  }

  function Meanings(items: seq<Object>): seq<Value> {
    if items == [] then [] else [Meaning(items[0])] + Meanings(items[1..])
  }

  function MeaningEntries(entries: seq<Field>): seq<(Bytes, Value)> {
    if entries == [] then [] else [(entries[0].key, Meaning(entries[0].value))] + MeaningEntries(entries[1..])
  }

  lemma {:induction false} ObjectMeansValue(w: Wire)
    ensures Meaning(ObjectOf(w)) == Denotes(w)
    decreases w, 0
  {
    match w
    case WArr(_, items) => ObjectsMeanValues(items);
    case WMap(_, entries) => EntriesMeanValues(entries);
    case _ =>
  }

  lemma {:induction false} ObjectsMeanValues(items: seq<Wire>)
    ensures Meanings(ObjectsOf(items)) == DenotesAll(items)
    decreases items, 1
  {
    if items != [] {
      ObjectMeansValue(items[0]);
      ObjectsMeanValues(items[1..]);
      assert ObjectsOf(items)[1..] == ObjectsOf(items[1..]);
    }
  }

  lemma {:induction false} EntriesMeanValues(entries: seq<WireEntry>)
    ensures MeaningEntries(ObjectEntries(entries)) == DenotesEntries(entries)
    decreases entries, 1
  {
    if entries != [] {
      ObjectMeansValue(entries[0].value);
      EntriesMeanValues(entries[1..]);
      assert ObjectEntries(entries)[1..] == ObjectEntries(entries[1..]);
    }
  }

  // ---------------------------------------------------------------- bytes in place

  /** The bytes `part` stand in `s` at `p`. */
  ghost predicate At(s: Bytes, p: nat, part: Bytes) {
    p + |part| <= |s| && s[p..p + |part|] == part
  }

  lemma AtParts(s: Bytes, p: nat, a: Bytes, b: Bytes)
    requires At(s, p, a + b)
    ensures At(s, p, a) && At(s, p + |a|, b)
  {
    var here := s[p..p + |a| + |b|];
    assert s[p..p + |a|] == here[..|a|] == a;
    assert s[p + |a|..p + |a| + |b|] == here[|a|..] == b;
  }

  lemma AtLead(s: Bytes, p: nat, lead: byte, rest: Bytes)
    requires At(s, p, [lead] + rest)
    ensures p < |s| && s[p] == lead && At(s, p + 1, rest)
  {
    assert ([lead] + rest)[1..] == rest;
  }

  lemma NumberAt(s: Bytes, p: nat, n: nat, width: nat)
    requires At(s, p, ToBytes(n, width)) && n < Pow256(width)
    ensures Number(s, p, width) == Done(n, p + width)
  {
    BigEndianInverts(n, width);
  }

  lemma LengthAt(s: Bytes, p: nat, h: Header, n: nat, fixLimit: nat)
    requires h != Fix && LengthFits(h, n, fixLimit) && At(s, p, LengthBytes(h, n))
    ensures Length(s, p, HeaderWidth(h)) == Done(n, p + HeaderWidth(h))
  {
    PowerValues();
    NumberAt(s, p, n, HeaderWidth(h));
  }

  lemma SignedInverts(v: int, width: nat)
    requires SignedFits(v, width)
    ensures UnsignedOf(v, width) < Pow256(width) && SignedOf(UnsignedOf(v, width), width) == v
  {
  }

  lemma RawAt(s: Bytes, p: nat, data: Bytes)
    requires At(s, p, data)
    ensures Raw(s, p, |data|) == Done(data, p + |data|)
  {
  }

  lemma {:induction false} ReversedTwice(s: Bytes)
    ensures Reversed(Reversed(s)) == s
  {
    assert forall i :: 0 <= i < |s| ==> Reversed(Reversed(s))[i] == s[i];
  }

  lemma {:induction false} FloatsAt(s: Bytes, p: nat, floats: seq<nat>)
    requires At(s, p, Floats(floats)) && forall i :: 0 <= i < |floats| ==> floats[i] < Pow256(4)
    ensures LittleFloats(s, p, |floats|) == Done(floats, p + |Floats(floats)|)
    decreases |floats|
  {
    if floats != [] {
      var first := Reversed(ToBytes(floats[0], 4));
      AtParts(s, p, first, Floats(floats[1..]));
      FloatsAt(s, p + 4, floats[1..]);
      ReversedTwice(ToBytes(floats[0], 4));
      BigEndianInverts(floats[0], 4);
      assert s[p..p + 4] == first;
      assert [floats[0]] + floats[1..] == floats;
    }
  }

  // ---------------------------------------------------------------- decoding encodings

  lemma AnyAt(show: Show, s: Bytes, p: nat, lead: byte, rest: Bytes)
    requires At(s, p, [lead] + rest)
    ensures p < |s| && At(s, p + 1, rest)
    ensures Any(show, s, p) == Unpack(show, s, p + 1, lead, GetUnpacker(lead))
  {
    AtLead(s, p, lead, rest);
    assert FromLead(show, s, p) == AfterLead(show, s, p + 1, lead);
    assert AfterLead(show, s, p + 1, lead) == Unpack(show, s, p + 1, lead, GetUnpacker(lead));
  }

  lemma AnyUnpacks(show: Show, s: Bytes, p: nat, lead: byte, rest: Bytes, unpacker: Unpacker)
    requires At(s, p, [lead] + rest) && unpacker == GetUnpacker(lead)
    ensures p < |s| && At(s, p + 1, rest)
    ensures Any(show, s, p) == Unpack(show, s, p + 1, lead, unpacker)
  {
    AnyAt(show, s, p, lead, rest);
  }

  lemma IntegerLeads(width: nat)
    requires IsWidth(width)
    ensures GetUnpacker(UIntLead(width)) == UnpackUInt(width) && GetUnpacker(IntLead(width)) == UnpackInt(width)
  {
  }

  lemma UIntDecodes(show: Show, s: Bytes, p: nat, lead: byte, width: nat, v: nat)
    requires GetUnpacker(lead) == UnpackUInt(width) && v < Pow256(width) && At(s, p, [lead] + ToBytes(v, width))
    ensures Any(show, s, p) == Done(Integer(UIntType(width), v), p + 1 + width)
  {
    AnyUnpacks(show, s, p, lead, ToBytes(v, width), UnpackUInt(width));
    NumberAt(s, p + 1, v, width);
  }

  lemma IntDecodes(show: Show, s: Bytes, p: nat, lead: byte, width: nat, v: int)
    requires GetUnpacker(lead) == UnpackInt(width) && SignedFits(v, width) && At(s, p, [lead] + ToBytes(UnsignedOf(v, width), width))
    ensures Any(show, s, p) == Done(Integer(SIntType(width), v), p + 1 + width)
  {
    AnyUnpacks(show, s, p, lead, ToBytes(UnsignedOf(v, width), width), UnpackInt(width));
    SignedInverts(v, width);
    NumberAt(s, p + 1, UnsignedOf(v, width), width);
  }

  lemma NumberAfterLead(show: Show, s: Bytes, p: nat, lead: byte, width: nat, n: nat)
    requires n < Pow256(width) && At(s, p, [lead] + ToBytes(n, width))
    ensures p < |s| && Any(show, s, p) == Unpack(show, s, p + 1, lead, GetUnpacker(lead))
    ensures Number(s, p + 1, width) == Done(n, p + 1 + width)
  {
    AnyAt(show, s, p, lead, ToBytes(n, width));
    NumberAt(s, p + 1, n, width);
  }

  lemma FloatsFromNumbers(show: Show, s: Bytes, q: nat, ty: byte)
    requires q <= |s|
    ensures Number(s, q, 4).Done? ==> Unpack(show, s, q, ty, UnpackSingle) == Done(Single(Number(s, q, 4).value), Number(s, q, 4).pos)
    ensures Number(s, q, 8).Done? ==> Unpack(show, s, q, ty, UnpackDouble) == Done(Double(Number(s, q, 8).value), Number(s, q, 8).pos)
  {
  }

  lemma ShortStrDecodes(show: Show, s: Bytes, p: nat, lead: byte, utf8: Bytes)
    requires GetUnpacker(lead) == FixStr && lead % 32 == |utf8| && At(s, p, [lead] + utf8)
    ensures Any(show, s, p) == Done(Text(utf8), p + 1 + |utf8|)
  {
    AnyAt(show, s, p, lead, utf8);
    RawAt(s, p + 1, utf8);
  }

  lemma LongStrDecodes(show: Show, s: Bytes, p: nat, lead: byte, h: Header, utf8: Bytes)
    requires h != Fix && LengthFits(h, |utf8|, 32) && GetUnpacker(lead) == UnpackString(HeaderWidth(h))
    requires At(s, p, [lead] + (LengthBytes(h, |utf8|) + utf8))
    ensures Any(show, s, p) == Done(Text(utf8), p + 1 + HeaderWidth(h) + |utf8|)
  {
    AnyUnpacks(show, s, p, lead, LengthBytes(h, |utf8|) + utf8, UnpackString(HeaderWidth(h)));
    var q := DataAt(s, p + 1, h, utf8, 32);
    StringUnpacks(show, s, p + 1, lead, HeaderWidth(h), |utf8|, q, utf8);
  }

  /** A length and the data after it. */
  lemma DataAt(s: Bytes, p: nat, h: Header, data: Bytes, fixLimit: nat) returns (q: nat)
    requires h != Fix && LengthFits(h, |data|, fixLimit) && At(s, p, LengthBytes(h, |data|) + data)
    ensures q == p + HeaderWidth(h) && p <= q <= |s|
    ensures Length(s, p, HeaderWidth(h)) == Done(|data|, q) && Raw(s, q, |data|) == Done(data, q + |data|)
  {
    AtParts(s, p, LengthBytes(h, |data|), data);
    LengthAt(s, p, h, |data|, fixLimit);
    q := p + HeaderWidth(h);
    RawAt(s, q, data);
  }

  lemma StringUnpacks(show: Show, s: Bytes, q: nat, ty: byte, width: nat, n: int, q': nat, data: Bytes)
    requires q <= q' <= |s| && Length(s, q, width) == Done(n, q') && Raw(s, q', n) == Done(data, q' + |data|)
    ensures Unpack(show, s, q, ty, UnpackString(width)) == Done(Text(data), q' + |data|)
  {
  }

  lemma StrDecodes(show: Show, s: Bytes, p: nat, h: Header, utf8: Bytes)
    requires LengthFits(h, |utf8|, 32) && At(s, p, EncodedStr(h, utf8))
    ensures Any(show, s, p) == Done(Text(utf8), p + |EncodedStr(h, utf8)|)
  {
    if h == Fix {
      assert EncodedStr(h, utf8) == [StrLead(h, |utf8|)] + utf8;
      ShortStrDecodes(show, s, p, StrLead(h, |utf8|), utf8);
    } else {
      LongStrDecodes(show, s, p, StrLead(h, |utf8|), h, utf8);
    }
  }

  lemma BinDecodes(show: Show, s: Bytes, p: nat, lead: byte, h: Header, data: Bytes)
    requires h != Fix && LengthFits(h, |data|, 0) && GetUnpacker(lead) == UnpackBin(HeaderWidth(h))
    requires At(s, p, [lead] + (LengthBytes(h, |data|) + data))
    ensures Any(show, s, p) == Done(Binary(data), p + 1 + HeaderWidth(h) + |data|)
  {
    AnyUnpacks(show, s, p, lead, LengthBytes(h, |data|) + data, UnpackBin(HeaderWidth(h)));
    var q := DataAt(s, p + 1, h, data, 0);
    BinUnpacks(show, s, p + 1, lead, HeaderWidth(h), |data|, q, data);
  }

  lemma BinUnpacks(show: Show, s: Bytes, q: nat, ty: byte, width: nat, n: int, q': nat, data: Bytes)
    requires q <= q' <= |s| && Length(s, q, width) == Done(n, q') && Raw(s, q', n) == Done(data, q' + |data|)
    ensures Unpack(show, s, q, ty, UnpackBin(width)) == Done(Binary(data), q' + |data|)
  {
  }

  lemma ShortExtLead(show: Show, s: Bytes, p: nat, lead: byte, n: nat)
    requires GetUnpacker(lead) == FixExt(n) && At(s, p, [lead])
    ensures p < |s| && Any(show, s, p) == Extension(s, p + 1, n)
  {
    assert [lead] == [lead] + [];
    AnyAt(show, s, p, lead, []);
  }

  lemma LongExtLead(show: Show, s: Bytes, p: nat, lead: byte, h: Header, n: nat)
    requires h != Fix && LengthFits(h, n, 0) && GetUnpacker(lead) == UnpackExt(HeaderWidth(h))
    requires At(s, p, [lead] + LengthBytes(h, n))
    ensures p + 1 + HeaderWidth(h) <= |s| && Any(show, s, p) == Extension(s, p + 1 + HeaderWidth(h), n)
  {
    AnyAt(show, s, p, lead, LengthBytes(h, n));
    LengthAt(s, p + 1, h, n, 0);
  }

  /** The lead of an extension sends the decoder to its type byte with its length. */
  lemma ExtLeadDecodes(show: Show, s: Bytes, p: nat, h: Header, n: nat)
    requires if h == Fix then n in {1, 2, 4, 8, 16} else LengthFits(h, n, 0)
    requires At(s, p, ExtLead(h, n))
    ensures |ExtLead(h, n)| > 0 && p + |ExtLead(h, n)| <= |s| && Any(show, s, p) == Extension(s, p + |ExtLead(h, n)|, n)
  {
    if h == Fix {
      ShortExtLead(show, s, p, ExtLead(h, n)[0], n);
    } else {
      LongExtLead(show, s, p, ExtLead(h, n)[0], h, n);
    }
  }

  lemma ExtTypeAt(s: Bytes, q: nat, ext: byte, body: Bytes)
    requires At(s, q, [ext] + body)
    ensures Number(s, q, 1) == Done(ext, q + 1) && At(s, q + 1, body)
  {
    AtLead(s, q, ext, body);
    AtParts(s, q, [ext], body);
    assert ToBytes(ext, 1) == ToBytes(0, 0) + [ext] == [ext];
    PowerValues();
    NumberAt(s, q, ext, 1);
  }

  lemma VecExtension(s: Bytes, q: nat, ext: byte, floats: seq<nat>, n: int, end: nat)
    requires 20 <= ext <= 23 && |floats| == VectorSize(ext) && At(s, q, [ext] + Floats(floats))
    requires forall i :: 0 <= i < |floats| ==> floats[i] < Pow256(4)
    requires end == q + 1 + |Floats(floats)|
    ensures Extension(s, q, n) == Done(Vector(ext, floats), end)
  {
    ExtTypeAt(s, q, ext, Floats(floats));
    FloatsAt(s, q + 1, floats);
  }

  lemma VecDecodes(show: Show, s: Bytes, p: nat, h: Header, ext: byte, floats: seq<nat>, head: Bytes, body: Bytes)
    requires 20 <= ext <= 23 && |floats| == VectorSize(ext) && (h == Fix ==> |floats| != 3)
    requires forall i :: 0 <= i < |floats| ==> floats[i] < Pow256(4)
    requires head == ExtLead(h, 4 * |floats|) && body == [ext] + Floats(floats)
    requires At(s, p, head) && At(s, p + |head|, body)
    ensures Any(show, s, p) == Done(Vector(ext, floats), p + |head| + |body|)
  {
    VecHead(show, s, p, h, ext, 4 * |floats|, head);
    VecExtension(s, p + |head|, ext, floats, 4 * |floats|, p + |head| + |body|);
  }

  lemma VecHead(show: Show, s: Bytes, p: nat, h: Header, ext: byte, n: nat, head: Bytes)
    requires 20 <= ext <= 23 && n == 4 * VectorSize(ext) && (h == Fix ==> n != 12)
    requires head == ExtLead(h, n) && At(s, p, head)
    ensures p + |head| <= |s| && Any(show, s, p) == Extension(s, p + |head|, n)
  {
    ExtLeadDecodes(show, s, p, h, n);
  }

  lemma FuncExtension(s: Bytes, q: nat, ext: byte, data: Bytes)
    requires (ext == 10 || ext == 11) && At(s, q, [ext] + data)
    ensures Extension(s, q, |data|) == Done(FuncRef(ext, data), q + 1 + |data|)
  {
    ExtTypeAt(s, q, ext, data);
    RawAt(s, q + 1, data);
  }

  lemma FuncDecodes(show: Show, s: Bytes, p: nat, q: nat, h: Header, ext: byte, data: Bytes, head: Bytes)
    requires (ext == 10 || ext == 11) && if h == Fix then |data| in {1, 2, 4, 8, 16} else LengthFits(h, |data|, 0)
    requires head == ExtLead(h, |data|) && q == p + |head| && At(s, p, head) && At(s, q, [ext] + data)
    ensures Any(show, s, p) == Done(FuncRef(ext, data), q + 1 + |data|)
  {
    ExtLeadDecodes(show, s, p, h, |data|);
    FuncExtension(s, q, ext, data);
  }

  lemma ShortArrLead(show: Show, s: Bytes, p: nat, lead: byte, n: nat)
    requires GetUnpacker(lead) == FixArray && lead % 16 == n && At(s, p, [lead])
    ensures p + 1 <= |s| && Any(show, s, p) == Items(show, s, p + 1, n, [])
  {
    assert [lead] == [lead] + [];
    AnyAt(show, s, p, lead, []);
  }

  lemma LongArrLead(show: Show, s: Bytes, p: nat, lead: byte, h: Header, n: nat)
    requires h != Fix && LengthFits(h, n, 16) && GetUnpacker(lead) == UnpackArray(HeaderWidth(h))
    requires At(s, p, [lead] + LengthBytes(h, n))
    ensures var q := p + 1 + HeaderWidth(h); q <= |s| && Any(show, s, p) == Items(show, s, q, n, [])
  {
    AnyAt(show, s, p, lead, LengthBytes(h, n));
    LengthAt(s, p + 1, h, n, 16);
  }

  lemma ArrLeadDecodes(show: Show, s: Bytes, p: nat, h: Header, n: nat)
    requires h != In1 && LengthFits(h, n, 16) && At(s, p, ArrayHead(h, n))
    ensures var q := p + |ArrayHead(h, n)|; q <= |s| && Any(show, s, p) == Items(show, s, q, n, [])
  {
    if h == Fix {
      assert ArrayHead(h, n) == [0x90 + n];
      ShortArrLead(show, s, p, 0x90 + n, n);
    } else {
      LongArrLead(show, s, p, if h == In2 then 0xDC else 0xDD, h, n);
    }
  }

  lemma ShortMapLead(show: Show, s: Bytes, p: nat, lead: byte, n: nat)
    requires GetUnpacker(lead) == FixMap && lead % 16 == n && At(s, p, [lead])
    ensures p + 1 <= |s| && Any(show, s, p) == Entries(show, s, p + 1, n, [])
  {
    assert [lead] == [lead] + [];
    AnyAt(show, s, p, lead, []);
  }

  lemma LongMapLead(show: Show, s: Bytes, p: nat, lead: byte, h: Header, n: nat)
    requires h != Fix && LengthFits(h, n, 16) && GetUnpacker(lead) == UnpackMap(HeaderWidth(h))
    requires At(s, p, [lead] + LengthBytes(h, n))
    ensures var q := p + 1 + HeaderWidth(h); q <= |s| && Any(show, s, p) == Entries(show, s, q, n, [])
  {
    AnyAt(show, s, p, lead, LengthBytes(h, n));
    LengthAt(s, p + 1, h, n, 16);
  }

  lemma MapLeadDecodes(show: Show, s: Bytes, p: nat, h: Header, n: nat)
    requires h != In1 && LengthFits(h, n, 16) && At(s, p, MapHead(h, n))
    ensures var q := p + |MapHead(h, n)|; q <= |s| && Any(show, s, p) == Entries(show, s, q, n, [])
  {
    if h == Fix {
      assert MapHead(h, n) == [0x80 + n];
      ShortMapLead(show, s, p, 0x80 + n, n);
    } else {
      LongMapLead(show, s, p, if h == In2 then 0xDE else 0xDF, h, n);
    }
  }

  // ---------------------------------------------------------------- what a byte string decodes to

  /** Wherever `part` stands, decoding there gives `o` and stops right after it. */
  ghost predicate DecodesTo(show: Show, part: Bytes, o: Object) {
    part != [] && forall s: Bytes, p: nat {:trigger At(s, p, part)} :: At(s, p, part) ==> Any(show, s, p) == Done(o, p + |part|)
  }

  ghost predicate PartsDecode(show: Show, parts: seq<Bytes>, os: seq<Object>)
    requires |parts| == |os|
  {
    parts == [] || (DecodesTo(show, parts[0], os[0]) && PartsDecode(show, parts[1..], os[1..]))
  }

  lemma ItemsStep(show: Show, s: Bytes, p: nat, n: nat, q: nat, o: Object, os: seq<Object>, done: seq<Object>, end: nat)
    requires n > 0 && p < q <= |s| && Any(show, s, p) == Done(o, q)
    requires Items(show, s, q, n - 1, done + [o]) == Done(List(done + [o] + os), end)
    ensures Items(show, s, p, n, done) == Done(List(done + ([o] + os)), end)
  {
    assert done + [o] + os == done + ([o] + os);
  }

  lemma {:induction false} ItemsDecode(show: Show, s: Bytes, p: nat, parts: seq<Bytes>, os: seq<Object>, done: seq<Object>)
    requires |parts| == |os| && PartsDecode(show, parts, os) && At(s, p, Concat(parts))
    ensures Items(show, s, p, |parts|, done) == Done(List(done + os), p + |Concat(parts)|)
    decreases |parts|
  {
    if parts == [] {
      assert done + os == done;
    } else {
      AtParts(s, p, parts[0], Concat(parts[1..]));
      var q := p + |parts[0]|;
      ItemsDecode(show, s, q, parts[1..], os[1..], done + [os[0]]);
      ItemsStep(show, s, p, |parts|, q, os[0], os[1..], done, p + |Concat(parts)|);
      assert [os[0]] + os[1..] == os;
    }
  }

  lemma {:induction false} PutNew(done: seq<Field>, key: Bytes, o: Object)
    requires forall j :: 0 <= j < |done| ==> done[j].key != key
    ensures Put(done, key, o) == done + [Field(key, o)]
    decreases |done|
  {
    if done != [] {
      PutNew(done[1..], key, o);
      assert [done[0]] + (done[1..] + [Field(key, o)]) == done + [Field(key, o)];
    }
  }

  lemma EntryStep(show: Show, s: Bytes, p: nat, f: Field, q: nat, q': nat, done: seq<Field>)
    requires p < q <= |s| && Any(show, s, p) == Done(Text(f.key), q) && Any(show, s, q) == Done(f.value, q')
    requires forall j :: 0 <= j < |done| ==> done[j].key != f.key
    ensures Entry(show, s, p, done) == Done(done + [f], q')
  {
    PutNew(done, f.key, f.value);
  }

  lemma EntriesStep(show: Show, s: Bytes, p: nat, n: nat, q: nat, f: Field, fs: seq<Field>, done: seq<Field>, end: nat)
    requires n > 0 && p < q <= |s| && Entry(show, s, p, done) == Done(done + [f], q)
    requires Entries(show, s, q, n - 1, done + [f]) == Done(Dictionary(done + [f] + fs), end)
    ensures Entries(show, s, p, n, done) == Done(Dictionary(done + ([f] + fs)), end)
  {
    assert done + [f] + fs == done + ([f] + fs);
  }

  ghost predicate DistinctFields(fs: seq<Field>) {
    forall i, j :: 0 <= i < j < |fs| ==> fs[i].key != fs[j].key
  }

  lemma DecodeAt(show: Show, s: Bytes, p: nat, part: Bytes, o: Object)
    requires DecodesTo(show, part, o) && At(s, p, part)
    ensures p < p + |part| <= |s| && Any(show, s, p) == Done(o, p + |part|)
  {
  }

  lemma InterleavedAt(s: Bytes, p: nat, keys: seq<Bytes>, values: seq<Bytes>)
    requires |keys| == |values| > 0 && At(s, p, Interleave(keys, values))
    ensures var q := p + |keys[0]|;
            && At(s, p, keys[0]) && At(s, q, values[0])
            && At(s, q + |values[0]|, Interleave(keys[1..], values[1..]))
            && p + |Interleave(keys, values)| == q + |values[0]| + |Interleave(keys[1..], values[1..])|
  {
    AtThree(s, p, keys[0], values[0], Interleave(keys[1..], values[1..]));
  }

  lemma AtThree(s: Bytes, p: nat, a: Bytes, b: Bytes, c: Bytes)
    requires At(s, p, a + (b + c))
    ensures At(s, p, a) && At(s, p + |a|, b) && At(s, p + |a| + |b|, c)
  {
    AtParts(s, p, a, b + c);
    AtParts(s, p + |a|, b, c);
  }

  lemma NewField(done: seq<Field>, fs: seq<Field>)
    requires fs != [] && DistinctFields(done + fs)
    ensures forall j :: 0 <= j < |done| ==> done[j].key != fs[0].key
    ensures done + [fs[0]] + fs[1..] == done + fs && [fs[0]] + fs[1..] == fs
  {
    forall j | 0 <= j < |done| ensures done[j].key != fs[0].key {
      assert (done + fs)[j] == done[j] && (done + fs)[|done|] == fs[0];
    }
  }

  /** Fields read one after the other, with the lengths of their keys and values. */
  datatype Reading = Stop | Next(f: Field, keyLength: nat, valueLength: nat, rest: Reading)

  /** From `p` on, these fields are read, up to `end`. */
  ghost predicate FieldsRead(show: Show, s: Bytes, p: nat, r: Reading, end: nat)
    decreases r
  {
    match r
    case Stop => p == end <= |s|
    case Next(f, keyLength, valueLength, rest) =>
      var q := p + keyLength; var q' := q + valueLength;
      && p < q < q' <= |s|
      && Any(show, s, p) == Done(Text(f.key), q) && Any(show, s, q) == Done(f.value, q')
      && FieldsRead(show, s, q', rest, end)
  }

  function ReadingOf(keys: seq<Bytes>, values: seq<Bytes>, fs: seq<Field>): Reading
    requires |keys| == |values| == |fs|
    decreases |fs|
  {
    if fs == [] then Stop else Next(fs[0], |keys[0]|, |values[0]|, ReadingOf(keys[1..], values[1..], fs[1..]))
  }

  function FieldsIn(r: Reading): seq<Field> {
    match r case Stop => [] case Next(f, _, _, rest) => [f] + FieldsIn(rest)
  }

  lemma {:induction false} ReadingHoldsFields(keys: seq<Bytes>, values: seq<Bytes>, fs: seq<Field>)
    requires |keys| == |values| == |fs|
    ensures FieldsIn(ReadingOf(keys, values, fs)) == fs
    decreases |fs|
  {
    if fs != [] {
      ReadingHoldsFields(keys[1..], values[1..], fs[1..]);
    }
  }

  ghost predicate FieldsPlaced(s: Bytes, p: nat, keys: seq<Bytes>, values: seq<Bytes>, end: nat)
    requires |keys| == |values|
    decreases |keys|
  {
    if keys == [] then p == end <= |s|
    else
      var q := p + |keys[0]|; var q' := q + |values[0]|;
      At(s, p, keys[0]) && At(s, q, values[0]) && FieldsPlaced(s, q', keys[1..], values[1..], end)
  }

  lemma {:induction false} PlacedThere(s: Bytes, p: nat, keys: seq<Bytes>, values: seq<Bytes>)
    requires |keys| == |values| && At(s, p, Interleave(keys, values))
    ensures FieldsPlaced(s, p, keys, values, p + |Interleave(keys, values)|)
    decreases |keys|
  {
    if keys != [] {
      InterleavedAt(s, p, keys, values);
      PlacedThere(s, p + |keys[0]| + |values[0]|, keys[1..], values[1..]);
    }
  }

  /** Wherever the keys and values stand in turn, they are read as the fields. */
  ghost predicate FieldsDecode(show: Show, keys: seq<Bytes>, values: seq<Bytes>, fs: seq<Field>)
    requires |keys| == |values| == |fs|
  {
    forall s: Bytes, p: nat, end: nat {:trigger FieldsPlaced(s, p, keys, values, end)} ::
      FieldsPlaced(s, p, keys, values, end) ==> FieldsRead(show, s, p, ReadingOf(keys, values, fs), end)
  }

  lemma NoFieldsDecode(show: Show)
    ensures FieldsDecode(show, [], [], [])
  {
  }

  lemma FirstPlaced(s: Bytes, p: nat, keys: seq<Bytes>, values: seq<Bytes>, end: nat) returns (q: nat, q': nat)
    requires |keys| == |values| != 0 && FieldsPlaced(s, p, keys, values, end)
    ensures q == p + |keys[0]| && q' == q + |values[0]|
    ensures At(s, p, keys[0]) && At(s, q, values[0]) && FieldsPlaced(s, q', keys[1..], values[1..], end)
  {
    q := p + |keys[0]|;
    q' := q + |values[0]|;
  }

  lemma ReadThere(show: Show, s: Bytes, p: nat, keys: seq<Bytes>, values: seq<Bytes>, fs: seq<Field>, end: nat)
    requires |keys| == |values| == |fs| && FieldsDecode(show, keys, values, fs) && FieldsPlaced(s, p, keys, values, end)
    ensures FieldsRead(show, s, p, ReadingOf(keys, values, fs), end)
  {
  }

  lemma FirstFieldRead(show: Show, s: Bytes, p: nat, q: nat, q': nat, key: Bytes, value: Bytes, f: Field, rest: Reading, end: nat)
    requires DecodesTo(show, key, Text(f.key)) && DecodesTo(show, value, f.value)
    requires At(s, p, key) && q == p + |key| && At(s, q, value) && q' == q + |value| && FieldsRead(show, s, q', rest, end)
    ensures FieldsRead(show, s, p, Next(f, |key|, |value|, rest), end)
  {
    DecodeAt(show, s, p, key, Text(f.key));
    DecodeAt(show, s, q, value, f.value);
  }

  lemma FieldsDecodeOn(show: Show, keys: seq<Bytes>, values: seq<Bytes>, fs: seq<Field>)
    requires |keys| == |values| == |fs| != 0 && FieldsDecode(show, keys[1..], values[1..], fs[1..])
    requires DecodesTo(show, keys[0], Text(fs[0].key)) && DecodesTo(show, values[0], fs[0].value)
    ensures FieldsDecode(show, keys, values, fs)
  {
    var reading := ReadingOf(keys[1..], values[1..], fs[1..]);
    forall s: Bytes, p: nat, end: nat | FieldsPlaced(s, p, keys, values, end)
      ensures FieldsRead(show, s, p, ReadingOf(keys, values, fs), end)
    {
      var q, q' := FirstPlaced(s, p, keys, values, end);
      ReadThere(show, s, q', keys[1..], values[1..], fs[1..], end);
      FirstFieldRead(show, s, p, q, q', keys[0], values[0], fs[0], reading, end);
    }
  }

  lemma {:induction false} EntriesRead(show: Show, s: Bytes, p: nat, r: Reading, done: seq<Field>, end: nat)
    requires FieldsRead(show, s, p, r, end) && DistinctFields(done + FieldsIn(r))
    ensures p <= |s| && Entries(show, s, p, |FieldsIn(r)|, done) == Done(Dictionary(done + FieldsIn(r)), end)
    decreases r
  {
    match r
    case Stop => assert done + [] == done;
    case Next(f, keyLength, valueLength, rest) =>
      var q := p + keyLength;
      var q' := q + valueLength;
      var fs := FieldsIn(r);
      assert fs[0] == f && fs[1..] == FieldsIn(rest);
      NewField(done, fs);
      EntryStep(show, s, p, f, q, q', done);
      EntriesRead(show, s, q', rest, done + [f], end);
      EntriesStep(show, s, p, |fs|, q', f, FieldsIn(rest), done, end);
  }

  lemma EntriesDecode(show: Show, s: Bytes, p: nat, keys: seq<Bytes>, values: seq<Bytes>, fs: seq<Field>)
    requires |keys| == |values| == |fs| && FieldsDecode(show, keys, values, fs) && DistinctFields([] + fs) && At(s, p, Interleave(keys, values))
    ensures Entries(show, s, p, |fs|, []) == Done(Dictionary([] + fs), p + |Interleave(keys, values)|)
  {
    var end, r := p + |Interleave(keys, values)|, ReadingOf(keys, values, fs);
    PlacedThere(s, p, keys, values);
    ReadThere(show, s, p, keys, values, fs, end);
    ReadingHoldsFields(keys, values, fs);
    EntriesRead(show, s, p, r, [], end);
  }

  lemma SingleByteDecodes(show: Show, w: Wire)
    requires (w.WNil? || w.WBool? || w.WPosFix? || w.WNegFix?) && Fits(w)
    ensures DecodesTo(show, Encoded(w), ObjectOf(w))
  {
    var lead := Encoded(w)[0];
    assert Encoded(w) == [lead] + [];
    forall s: Bytes, p: nat | At(s, p, Encoded(w)) ensures Any(show, s, p) == Done(ObjectOf(w), p + 1) {
      AnyAt(show, s, p, lead, []);
    }
  }

  lemma UIntDecodesTo(show: Show, width: nat, v: nat)
    requires Fits(WUInt(width, v))
    ensures DecodesTo(show, Encoded(WUInt(width, v)), Integer(UIntType(width), v))
  {
    var lead := UIntLead(width);
    var part := [lead] + ToBytes(v, width);
    IntegerLeads(width);
    assert Encoded(WUInt(width, v)) == part;
    forall s: Bytes, p: nat | At(s, p, part) ensures Any(show, s, p) == Done(Integer(UIntType(width), v), p + |part|) {
      UIntDecodes(show, s, p, lead, width, v);
    }
  }

  lemma IntDecodesTo(show: Show, width: nat, v: int)
    requires Fits(WInt(width, v))
    ensures DecodesTo(show, Encoded(WInt(width, v)), Integer(SIntType(width), v))
  {
    var lead := IntLead(width);
    var part := [lead] + ToBytes(UnsignedOf(v, width), width);
    IntegerLeads(width);
    assert Encoded(WInt(width, v)) == part;
    forall s: Bytes, p: nat | At(s, p, part) ensures Any(show, s, p) == Done(Integer(SIntType(width), v), p + |part|) {
      IntDecodes(show, s, p, lead, width, v);
    }
  }

  lemma SingleDecodesTo(show: Show, bits: nat)
    requires Fits(WFloat32(bits))
    ensures DecodesTo(show, Encoded(WFloat32(bits)), Single(bits))
  {
    forall s: Bytes, p: nat | At(s, p, Encoded(WFloat32(bits))) ensures Any(show, s, p) == Done(Single(bits), p + 5) {
      NumberAfterLead(show, s, p, 0xCA, 4, bits);
      FloatsFromNumbers(show, s, p + 1, 0xCA);
    }
  }

  lemma DoubleDecodesTo(show: Show, bits: nat)
    requires Fits(WFloat64(bits))
    ensures DecodesTo(show, Encoded(WFloat64(bits)), Double(bits))
  {
    forall s: Bytes, p: nat | At(s, p, Encoded(WFloat64(bits))) ensures Any(show, s, p) == Done(Double(bits), p + 9) {
      NumberAfterLead(show, s, p, 0xCB, 8, bits);
      FloatsFromNumbers(show, s, p + 1, 0xCB);
    }
  }

  lemma StrDecodesTo(show: Show, h: Header, utf8: Bytes)
    requires LengthFits(h, |utf8|, 32)
    ensures DecodesTo(show, EncodedStr(h, utf8), Text(utf8))
  {
    var part := EncodedStr(h, utf8);
    forall s: Bytes, p: nat | At(s, p, part) ensures Any(show, s, p) == Done(Text(utf8), p + |part|) {
      StrDecodes(show, s, p, h, utf8);
    }
  }

  lemma BinDecodesTo(show: Show, h: Header, data: Bytes)
    requires Fits(WBin(h, data))
    ensures DecodesTo(show, Encoded(WBin(h, data)), Binary(data))
  {
    var part := Encoded(WBin(h, data));
    assert part == [part[0]] + (LengthBytes(h, |data|) + data);
    forall s: Bytes, p: nat | At(s, p, part) ensures Any(show, s, p) == Done(Binary(data), p + |part|) {
      BinDecodes(show, s, p, part[0], h, data);
    }
  }

  lemma VecDecodesTo(show: Show, h: Header, ext: byte, floats: seq<nat>, head: Bytes, body: Bytes)
    requires Fits(WVec(h, ext, floats)) && head == ExtLead(h, 4 * |floats|) && body == [ext] + Floats(floats)
    ensures DecodesTo(show, head + body, Vector(ext, floats))
  {
    forall s: Bytes, p: nat | At(s, p, head + body) ensures Any(show, s, p) == Done(Vector(ext, floats), p + |head + body|) {
      AtParts(s, p, head, body);
      VecDecodes(show, s, p, h, ext, floats, head, body);
    }
  }

  lemma FuncDecodesTo(show: Show, h: Header, ext: byte, data: Bytes)
    requires Fits(WFunc(h, ext, data))
    ensures DecodesTo(show, Encoded(WFunc(h, ext, data)), FuncRef(ext, data))
  {
    var head := ExtLead(h, |data|);
    var part := head + ([ext] + data);
    assert Encoded(WFunc(h, ext, data)) == part;
    forall s: Bytes, p: nat | At(s, p, part) ensures Any(show, s, p) == Done(FuncRef(ext, data), p + |part|) {
      FuncPartsDecode(show, s, p, h, ext, data, head, part);
    }
  }

  lemma FuncPartsDecode(show: Show, s: Bytes, p: nat, h: Header, ext: byte, data: Bytes, head: Bytes, part: Bytes)
    requires (ext == 10 || ext == 11) && if h == Fix then |data| in {1, 2, 4, 8, 16} else LengthFits(h, |data|, 0)
    requires head == ExtLead(h, |data|) && part == head + ([ext] + data) && At(s, p, part)
    ensures Any(show, s, p) == Done(FuncRef(ext, data), p + |part|)
  {
    AtParts(s, p, head, [ext] + data);
    FuncDecodes(show, s, p, p + |head|, h, ext, data, head);
  }

  lemma ArrDecodes(show: Show, s: Bytes, p: nat, h: Header, parts: seq<Bytes>, os: seq<Object>, head: Bytes)
    requires h != In1 && LengthFits(h, |parts|, 16) && |parts| == |os| && PartsDecode(show, parts, os) && head == ArrayHead(h, |parts|)
    requires At(s, p, head) && At(s, p + |head|, Concat(parts))
    ensures Any(show, s, p) == Done(List([] + os), p + |head| + |Concat(parts)|)
  {
    ArrLeadDecodes(show, s, p, h, |parts|);
    ItemsDecode(show, s, p + |head|, parts, os, []);
  }

  lemma MapDecodes(show: Show, s: Bytes, p: nat, q: nat, h: Header, keys: seq<Bytes>, values: seq<Bytes>, fs: seq<Field>, head: Bytes)
    requires h != In1 && LengthFits(h, |fs|, 16) && |keys| == |values| == |fs|
    requires DistinctFields([] + fs) && FieldsDecode(show, keys, values, fs) && head == MapHead(h, |fs|)
    requires q == p + |head| && At(s, p, head) && At(s, q, Interleave(keys, values))
    ensures Any(show, s, p) == Done(Dictionary([] + fs), q + |Interleave(keys, values)|)
  {
    MapLeadDecodes(show, s, p, h, |fs|);
    EntriesDecode(show, s, q, keys, values, fs);
  }

  lemma ArrDecodesTo(show: Show, h: Header, parts: seq<Bytes>, os: seq<Object>, head: Bytes, body: Bytes)
    requires h != In1 && LengthFits(h, |parts|, 16) && |parts| == |os| && PartsDecode(show, parts, os)
    requires head == ArrayHead(h, |parts|) && body == Concat(parts)
    ensures DecodesTo(show, head + body, List(os))
  {
    assert [] + os == os;
    forall s: Bytes, p: nat | At(s, p, head + body) ensures Any(show, s, p) == Done(List(os), p + |head + body|) {
      AtParts(s, p, head, body);
      ArrDecodes(show, s, p, h, parts, os, head);
    }
  }

  lemma MapDecodesTo(show: Show, h: Header, keys: seq<Bytes>, values: seq<Bytes>, fs: seq<Field>, head: Bytes, body: Bytes)
    requires h != In1 && LengthFits(h, |fs|, 16) && |keys| == |values| == |fs| && DistinctFields(fs) && FieldsDecode(show, keys, values, fs)
    requires head == MapHead(h, |fs|) && body == Interleave(keys, values)
    ensures DecodesTo(show, head + body, Dictionary(fs))
  {
    assert [] + fs == fs;
    var part := head + body;
    forall s: Bytes, p: nat | At(s, p, part) ensures Any(show, s, p) == Done(Dictionary(fs), p + |part|) {
      MapPartsDecode(show, s, p, h, keys, values, fs, head, body);
    }
  }

  lemma MapPartsDecode(show: Show, s: Bytes, p: nat, h: Header, keys: seq<Bytes>, values: seq<Bytes>, fs: seq<Field>, head: Bytes, body: Bytes)
    requires h != In1 && LengthFits(h, |fs|, 16) && |keys| == |values| == |fs|
    requires DistinctFields([] + fs) && FieldsDecode(show, keys, values, fs)
    requires head == MapHead(h, |fs|) && body == Interleave(keys, values) && At(s, p, head + body)
    ensures Any(show, s, p) == Done(Dictionary([] + fs), p + |head + body|)
  {
    var q := HeadThenBody(s, p, head, body);
    MapDecodes(show, s, p, q, h, keys, values, fs, head);
  }

  lemma HeadThenBody(s: Bytes, p: nat, head: Bytes, body: Bytes) returns (q: nat)
    requires At(s, p, head + body)
    ensures q == p + |head| && At(s, p, head) && At(s, q, body) && q + |body| == p + |head + body|
  {
    AtParts(s, p, head, body);
    q := p + |head|;
  }

  /** Whatever formats an encoding uses and wherever it stands, decoding it returns its object and
      stops exactly after its bytes. */
  lemma {:induction false} WireDecodes(show: Show, w: Wire)
    requires Fits(w)
    ensures DecodesTo(show, Encoded(w), ObjectOf(w))
    decreases w, 2
  {
    match w
    case WNil => SingleByteDecodes(show, w);
    case WBool(_) => SingleByteDecodes(show, w);
    case WPosFix(_) => SingleByteDecodes(show, w);
    case WNegFix(_) => SingleByteDecodes(show, w);
    case WUInt(width, v) => UIntDecodesTo(show, width, v);
    case WInt(width, v) => IntDecodesTo(show, width, v);
    case WFloat32(bits) => SingleDecodesTo(show, bits);
    case WFloat64(bits) => DoubleDecodesTo(show, bits);
    case WStr(h, utf8) => StrDecodesTo(show, h, utf8);
    case WBin(h, data) => BinDecodesTo(show, h, data);
    case WVec(h, ext, floats) => VecDecodesTo(show, h, ext, floats, ExtLead(h, 4 * |floats|), [ext] + Floats(floats));
    case WFunc(h, ext, data) => FuncDecodesTo(show, h, ext, data);
    case WArr(h, items) =>
      WiresDecode(show, items);
      ArrDecodesTo(show, h, EncodedAll(items), ObjectsOf(items), ArrayHead(h, |items|), Concat(EncodedAll(items)));
    case WMap(h, entries) =>
      WireEntriesDecode(show, entries);
      var keys, values := EncodedKeys(entries), EncodedValues(entries);
      MapDecodesTo(show, h, keys, values, ObjectEntries(entries), MapHead(h, |entries|), Interleave(keys, values));
  }

  lemma {:induction false} WiresDecode(show: Show, items: seq<Wire>)
    requires forall i :: 0 <= i < |items| ==> Fits(items[i])
    ensures var parts, os := EncodedAll(items), ObjectsOf(items);
            |parts| == |os| && PartsDecode(show, parts, os)
    decreases items, 1
  {
    if items != [] {
      WireDecodes(show, items[0]);
      WiresDecode(show, items[1..]);
    }
  }

  lemma {:induction false} WireEntriesDecode(show: Show, entries: seq<WireEntry>)
    requires forall i :: 0 <= i < |entries| ==> LengthFits(entries[i].h, |entries[i].key|, 32) && Fits(entries[i].value)
    ensures var fs := ObjectEntries(entries);
            && |fs| == |entries| && (forall i :: 0 <= i < |fs| ==> fs[i].key == entries[i].key)
            && FieldsDecode(show, EncodedKeys(entries), EncodedValues(entries), fs)
    decreases entries, 1
  {
    if entries == [] {
      NoFieldsDecode(show);
    } else {
      StrDecodesTo(show, entries[0].h, entries[0].key);
      WireDecodes(show, entries[0].value);
      WireEntriesDecode(show, entries[1..]);
      EntriesSplit(entries);
      FieldsDecodeOn(show, EncodedKeys(entries), EncodedValues(entries), ObjectEntries(entries));
    }
  }

  lemma EntriesSplit(entries: seq<WireEntry>)
    requires entries != []
    requires forall i :: 0 <= i < |entries| ==> LengthFits(entries[i].h, |entries[i].key|, 32) && Fits(entries[i].value)
    ensures EncodedKeys(entries)[0] == EncodedStr(entries[0].h, entries[0].key)
    ensures EncodedValues(entries)[0] == Encoded(entries[0].value)
    ensures ObjectEntries(entries) != [] && ObjectEntries(entries)[0] == Field(entries[0].key, ObjectOf(entries[0].value))
    ensures EncodedKeys(entries)[1..] == EncodedKeys(entries[1..]) && EncodedValues(entries)[1..] == EncodedValues(entries[1..])
    ensures ObjectEntries(entries)[1..] == ObjectEntries(entries[1..])
  {
  }

  // ---------------------------------------------------------------- the main statements

  /** Decoding any encoding of a value, followed by anything, returns that value and stops right
      after the encoding. */
  lemma DecodeReturnsValue(show: Show, v: Value, s: Bytes, rest: Bytes)
    requires Encodes(v, s)
    ensures var r := Any(show, s + rest, 0); r.Done? && Meaning(r.value) == v && r.pos == |s|
  {
    var w :| Fits(w) && Denotes(w) == v && Encoded(w) == s;
    assert (s + rest)[0..|s|] == s;
    WireDecodes(show, w);
    DecodeAt(show, s + rest, 0, s, ObjectOf(w));
    ObjectMeansValue(w);
  }

  /** No encoding is a proper prefix of another one, and an encoding denotes one value. */
  lemma EncodingsPrefixFree(v1: Value, s1: Bytes, v2: Value, s2: Bytes)
    requires Encodes(v1, s1) && Encodes(v2, s2) && s1 <= s2
    ensures s1 == s2 && v1 == v2
  {
    var show: Show := (o: Object) => if o.Text? then o.utf8 else [];
    DecodeReturnsValue(show, v1, s1, s2[|s1|..]);
    assert s1 + s2[|s1|..] == s2;
    DecodeReturnsValue(show, v2, s2, []);
    assert s2 + [] == s2;
  }
}

/** Which inputs the deserializer accepts: encodings, and what it reads without complaint besides. */
module MsgPackAccepted {
  import opened ByteStrings
  import opened MsgPackFormat
  import opened MsgPackDeserializing
  import opened MsgPackRoundTrip

  // ---------------------------------------------------------------- clean reads

  /** Reading at `p` never runs short of data, meets no negative length, no vector sent with a length
      that is not its own, no key that is not a string and no key a second time. */
  ghost predicate Clean(show: Show, s: Bytes, p: nat)
    requires p <= |s|
    decreases |s| - p, 0, 1
  {
    p < |s| && CleanAfter(show, s, p + 1, s[p])
  }

  ghost predicate CleanAfter(show: Show, s: Bytes, q: nat, ty: byte)
    requires q <= |s|
    decreases |s| - q, 4
  {
    CleanUnpack(show, s, q, ty, GetUnpacker(ty))
  }

  ghost predicate CleanUnpack(show: Show, s: Bytes, q: nat, ty: byte, unpacker: Unpacker)
    requires q <= |s|
    decreases |s| - q, 3
  {
    match unpacker
    case FixNumPos => true
    case FixNumNeg => true
    case UnpackNil => true
    case UnpackBool(_) => true
    case UnpackUInt(width) => q + width <= |s|
    case UnpackInt(width) => q + width <= |s|
    case UnpackSingle => q + 4 <= |s|
    case UnpackDouble => q + 8 <= |s|
    case FixStr => q + ty % 32 <= |s|
    case UnpackString(width) => CleanData(s, q, width)
    case UnpackBin(width) => CleanData(s, q, width)
    case FixArray => CleanItems(show, s, q, ty % 16)
    case UnpackArray(width) => q + width <= |s| && CleanItems(show, s, q + width, Length(s, q, width).value)
    case FixMap => CleanEntries(show, s, q, ty % 16, {})
    case UnpackMap(width) => q + width <= |s| && CleanEntries(show, s, q + width, Length(s, q, width).value, {})
    case FixExt(n) => CleanExtension(s, q, n)
    case UnpackExt(width) => q + width <= |s| && CleanExtension(s, q + width, Length(s, q, width).value)
    case Invalid => false
  }

  predicate CleanData(s: Bytes, q: nat, width: nat)
    requires q <= |s|
  {
    q + width <= |s| && 0 <= Length(s, q, width).value <= |s| - q - width
  }

  predicate CleanExtension(s: Bytes, q: nat, n: int)
    requires q <= |s|
  {
    && q < |s| && 0 <= n <= |s| - q - 1
    && (s[q] == 10 || s[q] == 11 || (20 <= s[q] <= 23 && n == 4 * VectorSize(s[q])))
  }

  ghost predicate CleanItems(show: Show, s: Bytes, p: nat, n: int)
    requires p <= |s|
    decreases |s| - p, 2
  {
    if n <= 0 then n == 0
    else Clean(show, s, p) && var r := Any(show, s, p); r.Done? && CleanItems(show, s, r.pos, n - 1)
  }

  ghost predicate CleanEntries(show: Show, s: Bytes, p: nat, n: int, keys: set<Bytes>)
    requires p <= |s|
    decreases |s| - p, 2
  {
    if n <= 0 then n == 0
    else
      var k := Any(show, s, p);
      && Clean(show, s, p) && k.Done? && k.value.Text? && k.value.utf8 !in keys
      && CleanValue(show, s, k.pos, n, keys + {k.value.utf8})
  }

  ghost predicate CleanValue(show: Show, s: Bytes, p: nat, n: int, keys: set<Bytes>)
    requires p <= |s|
    decreases |s| - p, 1
  {
    var r := Any(show, s, p);
    Clean(show, s, p) && r.Done? && CleanEntries(show, s, r.pos, n - 1, keys)
  }

  // ---------------------------------------------------------------- bytes back from numbers

  lemma {:induction false} ToBytesInverts(s: Bytes)
    ensures ToBytes(BigEndian(s), |s|) == s
  {
    if s != [] {
      var n := |s| - 1;
      ToBytesInverts(s[..n]);
      LastDigit(BigEndian(s[..n]), s[n]);
      assert s[..n] + [s[n]] == s;
    }
  }

  lemma LastDigit(n: nat, b: byte)
    ensures (256 * n + b) / 256 == n && (256 * n + b) % 256 == b
  {
  }

  lemma AtJoin(s: Bytes, p: nat, a: Bytes, b: Bytes)
    requires At(s, p, a) && At(s, p + |a|, b)
    ensures At(s, p, a + b)
  {
    assert s[p..p + |a + b|] == s[p..p + |a|] + s[p + |a|..p + |a| + |b|];
  }

  lemma LeadJoin(s: Bytes, p: nat, lead: byte, rest: Bytes)
    requires p < |s| && s[p] == lead && At(s, p + 1, rest)
    ensures At(s, p, [lead] + rest)
  {
    assert ([lead] + rest)[1..] == rest;
  }

  lemma SliceAt(s: Bytes, p: nat, n: nat)
    requires p + n <= |s|
    ensures At(s, p, s[p..p + n])
  {
  }

  lemma NumberBack(s: Bytes, p: nat, width: nat)
    requires p + width <= |s|
    ensures var n := Number(s, p, width).value; n < Pow256(width) && At(s, p, ToBytes(n, width))
  {
    ToBytesInverts(s[p..p + width]);
    SliceAt(s, p, width);
  }

  lemma LengthBack(s: Bytes, p: nat, h: Header)
    requires h != Fix && p + HeaderWidth(h) <= |s|
    ensures var n := Length(s, p, HeaderWidth(h)).value;
            0 <= n ==> LengthFits(h, n, 0) && At(s, p, LengthBytes(h, n))
  {
    PowerValues();
    NumberBack(s, p, HeaderWidth(h));
  }

  lemma {:induction false} FloatsBack(s: Bytes, p: nat, n: nat) returns (floats: seq<nat>)
    requires p + 4 * n <= |s|
    ensures |floats| == n && (forall i :: 0 <= i < n ==> floats[i] < Pow256(4)) && At(s, p, Floats(floats))
    ensures |Floats(floats)| == 4 * n
    decreases n
  {
    floats := [];
    if n > 0 {
      var rest := FloatsBack(s, p + 4, n - 1);
      var word := s[p..p + 4];
      var f := BigEndian(Reversed(word));
      ToBytesInverts(Reversed(word));
      BigEndianBound(Reversed(word));
      ReversedTwice(word);
      SliceAt(s, p, 4);
      floats := [f] + rest;
      assert floats[1..] == rest;
      AtJoin(s, p, word, Floats(rest));
    }
  }

  // ---------------------------------------------------------------- a clean read is of an encoding

  /** The encoding `w` stands in `s` at `p`. */
  ghost predicate Stands(s: Bytes, p: nat, w: Wire) {
    Fits(w) && At(s, p, Encoded(w))
  }

  lemma SmallBack(s: Bytes, p: nat) returns (w: Wire)
    requires p < |s| && var u := GetUnpacker(s[p]); u.FixNumPos? || u.FixNumNeg? || u.UnpackNil? || u.UnpackBool?
    ensures Stands(s, p, w)
  {
    var ty := s[p];
    w := match GetUnpacker(ty)
      case FixNumPos => WPosFix(ty)
      case FixNumNeg => WNegFix(ty as int - 256)
      case UnpackBool(b) => WBool(b)
      case _ => WNil;
    assert Encoded(w) == [ty] + [];
    LeadJoin(s, p, ty, []);
  }

  lemma IntegerLead(ty: byte, width: nat)
    ensures GetUnpacker(ty) == UnpackUInt(width) ==> IsWidth(width) && ty == UIntLead(width)
    ensures GetUnpacker(ty) == UnpackInt(width) ==> IsWidth(width) && ty == IntLead(width)
  {
  }

  lemma UIntBack(s: Bytes, p: nat, width: nat) returns (w: Wire)
    requires p < |s| && GetUnpacker(s[p]) == UnpackUInt(width) && p + 1 + width <= |s|
    ensures Stands(s, p, w)
  {
    var n := Number(s, p + 1, width).value;
    NumberBack(s, p + 1, width);
    IntegerLead(s[p], width);
    LeadJoin(s, p, s[p], ToBytes(n, width));
    w := WUInt(width, n);
  }

  lemma IntBack(s: Bytes, p: nat, width: nat) returns (w: Wire)
    requires p < |s| && GetUnpacker(s[p]) == UnpackInt(width) && p + 1 + width <= |s|
    ensures Stands(s, p, w)
  {
    var n := Number(s, p + 1, width).value;
    NumberBack(s, p + 1, width);
    UnsignedInverts(n, width);
    IntegerLead(s[p], width);
    LeadJoin(s, p, s[p], ToBytes(n, width));
    w := WInt(width, SignedOf(n, width));
  }

  lemma UnsignedInverts(n: nat, width: nat)
    requires n < Pow256(width)
    ensures SignedFits(SignedOf(n, width), width) && UnsignedOf(SignedOf(n, width), width) == n
  {
  }

  lemma FloatBack(s: Bytes, p: nat, width: nat) returns (w: Wire)
    requires p < |s| && p + 1 + width <= |s|
    requires if width == 4 then GetUnpacker(s[p]).UnpackSingle? else width == 8 && GetUnpacker(s[p]).UnpackDouble?
    ensures Stands(s, p, w)
  {
    var n := Number(s, p + 1, width).value;
    NumberBack(s, p + 1, width);
    w := if width == 4 then WFloat32(n) else WFloat64(n);
    assert Encoded(w) == [s[p]] + ToBytes(n, width);
    LeadJoin(s, p, s[p], ToBytes(n, width));
  }

  lemma ShortStrBack(s: Bytes, p: nat) returns (w: Wire)
    requires p < |s| && GetUnpacker(s[p]).FixStr? && p + 1 + s[p] % 32 <= |s|
    ensures w.WStr? && Stands(s, p, w)
  {
    var n := s[p] % 32;
    ShortStrLead(s[p]);
    SliceAt(s, p + 1, n);
    w := ShortStrStands(s, p, s[p], s[p + 1..p + 1 + n]);
  }

  lemma ShortStrStands(s: Bytes, p: nat, lead: byte, utf8: Bytes) returns (w: Wire)
    requires |utf8| < 32 && lead == 0xA0 + |utf8| && p < |s| && s[p] == lead && At(s, p + 1, utf8)
    ensures w.WStr? && Stands(s, p, w)
  {
    w := WStr(Fix, utf8);
    assert EncodedStr(Fix, utf8) == [lead] + utf8;
    LeadJoin(s, p, lead, utf8);
  }

  lemma ShortStrLead(ty: byte)
    requires GetUnpacker(ty).FixStr?
    ensures LengthFits(Fix, ty % 32, 32) && StrLead(Fix, ty % 32) == ty
  {
  }

  /** A length and the data after it. */
  lemma DataBack(s: Bytes, p: nat, h: Header) returns (data: Bytes)
    requires p < |s| && h != Fix && CleanData(s, p + 1, HeaderWidth(h))
    ensures LengthFits(h, |data|, 0) && At(s, p, [s[p]] + (LengthBytes(h, |data|) + data))
  {
    var q := p + 1 + HeaderWidth(h);
    var n := Length(s, p + 1, HeaderWidth(h)).value;
    LengthBack(s, p + 1, h);
    data := s[q..q + n];
    SliceAt(s, q, n);
    AtJoin(s, p + 1, LengthBytes(h, n), data);
    LeadJoin(s, p, s[p], LengthBytes(h, n) + data);
  }

  function HeaderOf(width: nat): Header
    requires width in {1, 2, 4}
  {
    if width == 1 then In1 else if width == 2 then In2 else In4
  }

  lemma LongStrBack(s: Bytes, p: nat, width: nat) returns (w: Wire)
    requires p < |s| && GetUnpacker(s[p]) == UnpackString(width) && CleanData(s, p + 1, width)
    ensures w.WStr? && Stands(s, p, w)
  {
    var data := DataBack(s, p, HeaderOf(width));
    w := WStr(HeaderOf(width), data);
  }

  lemma BinBack(s: Bytes, p: nat, width: nat) returns (w: Wire)
    requires p < |s| && GetUnpacker(s[p]) == UnpackBin(width) && CleanData(s, p + 1, width)
    ensures Stands(s, p, w)
  {
    var data := DataBack(s, p, HeaderOf(width));
    w := WBin(HeaderOf(width), data);
  }

  /** The type byte of an extension and what follows it, after the lead `head` for the length `n`. */
  lemma ExtensionBack(s: Bytes, p: nat, h: Header, n: nat, head: Bytes) returns (w: Wire)
    requires (h == Fix ==> n in {1, 2, 4, 8, 16}) && (h != Fix ==> LengthFits(h, n, 0)) && head == ExtLead(h, n)
    requires At(s, p, head) && p + |head| <= |s| && CleanExtension(s, p + |head|, n)
    ensures Stands(s, p, w)
  {
    if s[p + |head|] <= 11 {
      w := FuncBack(s, p, h, n, head, p + |head|);
    } else {
      w := VecBack(s, p, h, n, head, p + |head|);
    }
  }

  lemma FuncBack(s: Bytes, p: nat, h: Header, n: nat, head: Bytes, q: nat) returns (w: Wire)
    requires (h == Fix ==> n in {1, 2, 4, 8, 16}) && (h != Fix ==> LengthFits(h, n, 0)) && head == ExtLead(h, n)
    requires q == p + |head| && At(s, p, head) && q + 1 + n <= |s| && (s[q] == 10 || s[q] == 11)
    ensures Stands(s, p, w)
  {
    var data := s[q + 1..q + 1 + n];
    SliceAt(s, q + 1, n);
    LeadJoin(s, q, s[q], data);
    AtJoin(s, p, head, [s[q]] + data);
    w := WFunc(h, s[q], data);
  }

  lemma VecBack(s: Bytes, p: nat, h: Header, n: nat, head: Bytes, q: nat) returns (w: Wire)
    requires (h == Fix ==> n in {1, 2, 4, 8, 16}) && head == ExtLead(h, n)
    requires q == p + |head| && At(s, p, head) && q + 1 + n <= |s| && 20 <= s[q] <= 23 && n == 4 * VectorSize(s[q])
    ensures Stands(s, p, w)
  {
    var floats := FloatsBack(s, q + 1, VectorSize(s[q]));
    LeadJoin(s, q, s[q], Floats(floats));
    AtJoin(s, p, head, [s[q]] + Floats(floats));
    w := WVec(h, s[q], floats);
  }

  lemma ShortExtBack(s: Bytes, p: nat, n: nat) returns (w: Wire)
    requires p < |s| && GetUnpacker(s[p]) == FixExt(n) && CleanExtension(s, p + 1, n)
    ensures Stands(s, p, w)
  {
    assert ExtLead(Fix, n) == [s[p]] + [];
    LeadJoin(s, p, s[p], []);
    w := ExtensionBack(s, p, Fix, n, ExtLead(Fix, n));
  }

  lemma LongExtBack(s: Bytes, p: nat, width: nat) returns (w: Wire)
    requires p < |s| && GetUnpacker(s[p]) == UnpackExt(width) && p + 1 + width <= |s|
    requires CleanExtension(s, p + 1 + width, Length(s, p + 1, width).value)
    ensures Stands(s, p, w)
  {
    ExtWidths(s[p], width);
    w := LongExtBackBy(s, p, HeaderOf(width));
  }

  lemma ExtWidths(ty: byte, width: nat)
    requires GetUnpacker(ty) == UnpackExt(width)
    ensures width in {1, 2, 4} && HeaderOf(width) != Fix && HeaderWidth(HeaderOf(width)) == width
  {
  }

  lemma LongExtBackBy(s: Bytes, p: nat, h: Header) returns (w: Wire)
    requires p < |s| && h != Fix && GetUnpacker(s[p]) == UnpackExt(HeaderWidth(h)) && p + 1 + HeaderWidth(h) <= |s|
    requires CleanExtension(s, p + 1 + HeaderWidth(h), Length(s, p + 1, HeaderWidth(h)).value)
    ensures Stands(s, p, w)
  {
    var n := LongExtHead(s, p, h);
    w := ExtensionBack(s, p, h, n, ExtLead(h, n));
  }

  lemma LongExtHead(s: Bytes, p: nat, h: Header) returns (n: nat)
    requires p < |s| && h != Fix && GetUnpacker(s[p]) == UnpackExt(HeaderWidth(h)) && p + 1 + HeaderWidth(h) <= |s|
    requires Length(s, p + 1, HeaderWidth(h)).value >= 0
    ensures n == Length(s, p + 1, HeaderWidth(h)).value && LengthFits(h, n, 0)
    ensures At(s, p, ExtLead(h, n)) && |ExtLead(h, n)| == 1 + HeaderWidth(h)
  {
    n := Length(s, p + 1, HeaderWidth(h)).value;
    LengthBack(s, p + 1, h);
    LongExtLeadIs(s[p], h, n);
    LeadJoin(s, p, s[p], LengthBytes(h, n));
  }

  lemma LongExtLeadIs(ty: byte, h: Header, n: nat)
    requires h != Fix && GetUnpacker(ty) == UnpackExt(HeaderWidth(h))
    ensures ExtLead(h, n) == [ty] + LengthBytes(h, n)
  {
  }

  // ---------------------------------------------------------------- collections

  /** Every one of the items fits, and together they stand at `p`. */
  ghost predicate ItemsStand(s: Bytes, p: nat, items: seq<Wire>) {
    (forall i :: 0 <= i < |items| ==> Fits(items[i])) && At(s, p, Concat(EncodedAll(items)))
  }

  lemma ItemsJoin(s: Bytes, p: nat, q: nat, w: Wire, rest: seq<Wire>)
    requires Stands(s, p, w) && q == p + |Encoded(w)| && ItemsStand(s, q, rest)
    ensures ItemsStand(s, p, [w] + rest)
  {
    assert ([w] + rest)[1..] == rest;
    AtJoin(s, p, Encoded(w), Concat(EncodedAll(rest)));
  }

  /** The head of a collection: its lead and the number of its members. */
  lemma ArrHeadBack(s: Bytes, p: nat, width: nat) returns (h: Header)
    requires p < |s| && GetUnpacker(s[p]) == UnpackArray(width) && p + 1 + width <= |s|
    ensures h != In1 && h != Fix && HeaderWidth(h) == width
    ensures var n := Length(s, p + 1, width).value;
            0 <= n ==> LengthFits(h, n, 16) && |ArrayHead(h, n)| == 1 + width && At(s, p, ArrayHead(h, n))
  {
    h := HeaderOf(width);
    var n := Length(s, p + 1, width).value;
    LengthBack(s, p + 1, h);
    if 0 <= n {
      LeadJoin(s, p, s[p], LengthBytes(h, n));
    }
  }

  lemma MapHeadBack(s: Bytes, p: nat, width: nat) returns (h: Header)
    requires p < |s| && GetUnpacker(s[p]) == UnpackMap(width) && p + 1 + width <= |s|
    ensures h != In1 && h != Fix && HeaderWidth(h) == width
    ensures var n := Length(s, p + 1, width).value;
            0 <= n ==> LengthFits(h, n, 16) && |MapHead(h, n)| == 1 + width && At(s, p, MapHead(h, n))
  {
    h := HeaderOf(width);
    var n := Length(s, p + 1, width).value;
    LengthBack(s, p + 1, h);
    if 0 <= n {
      LeadJoin(s, p, s[p], LengthBytes(h, n));
    }
  }

  lemma ShortHeadBack(s: Bytes, p: nat)
    requires p < |s|
    ensures GetUnpacker(s[p]).FixArray? ==> At(s, p, ArrayHead(Fix, s[p] % 16)) && |ArrayHead(Fix, s[p] % 16)| == 1
    ensures GetUnpacker(s[p]).FixMap? ==> At(s, p, MapHead(Fix, s[p] % 16)) && |MapHead(Fix, s[p] % 16)| == 1
  {
    LeadJoin(s, p, s[p], []);
    assert [s[p]] + [] == [s[p]];
    if GetUnpacker(s[p]).FixArray? {
      assert ArrayHead(Fix, s[p] % 16) == [s[p]];
    }
    if GetUnpacker(s[p]).FixMap? {
      assert MapHead(Fix, s[p] % 16) == [s[p]];
    }
  }

  lemma ArrBack(s: Bytes, p: nat, h: Header, items: seq<Wire>, head: Bytes) returns (w: Wire)
    requires h != In1 && LengthFits(h, |items|, 16) && head == ArrayHead(h, |items|)
    requires At(s, p, head) && ItemsStand(s, p + |head|, items)
    ensures Stands(s, p, w)
  {
    w := WArr(h, items);
    AtJoin(s, p, head, Concat(EncodedAll(items)));
  }

  ghost predicate EntriesFit(entries: seq<WireEntry>) {
    forall i :: 0 <= i < |entries| ==> LengthFits(entries[i].h, |entries[i].key|, 32) && Fits(entries[i].value)
  }

  /** The entries fit, stand at `p`, and have keys of their own that are none of `keys`. */
  ghost predicate EntriesStand(s: Bytes, p: nat, entries: seq<WireEntry>, keys: set<Bytes>) {
    && EntriesFit(entries) && DistinctKeys(entries) && (forall i :: 0 <= i < |entries| ==> entries[i].key !in keys)
    && At(s, p, Interleave(EncodedKeys(entries), EncodedValues(entries)))
  }

  lemma AtJoinThree(s: Bytes, p: nat, a: Bytes, b: Bytes, c: Bytes)
    requires At(s, p, a) && At(s, p + |a|, b) && At(s, p + |a| + |b|, c)
    ensures At(s, p, a + (b + c))
  {
    AtJoin(s, p + |a|, b, c);
    AtJoin(s, p, a, b + c);
  }

  lemma EntriesJoin(s: Bytes, p: nat, q: nat, q': nat, e: WireEntry, rest: seq<WireEntry>, keys: set<Bytes>)
    requires LengthFits(e.h, |e.key|, 32) && At(s, p, EncodedStr(e.h, e.key)) && q == p + |EncodedStr(e.h, e.key)|
    requires Stands(s, q, e.value) && q' == q + |Encoded(e.value)|
    requires e.key !in keys && EntriesStand(s, q', rest, keys + {e.key})
    ensures EntriesStand(s, p, [e] + rest, keys)
  {
    var all := [e] + rest;
    EntryFits(e, rest, keys);
    assert all[1..] == rest;
    EntriesSplit(all);
    AtJoinThree(s, p, EncodedStr(e.h, e.key), Encoded(e.value), Interleave(EncodedKeys(rest), EncodedValues(rest)));
  }

  lemma EntryFits(e: WireEntry, rest: seq<WireEntry>, keys: set<Bytes>)
    requires LengthFits(e.h, |e.key|, 32) && Fits(e.value) && EntriesFit(rest) && DistinctKeys(rest)
    requires e.key !in keys && forall i :: 0 <= i < |rest| ==> rest[i].key !in keys + {e.key}
    ensures EntriesFit([e] + rest) && DistinctKeys([e] + rest) && forall k :: k in [e] + rest ==> k.key !in keys
  {
  }

  lemma MapBack(s: Bytes, p: nat, h: Header, entries: seq<WireEntry>, head: Bytes) returns (w: Wire)
    requires h != In1 && LengthFits(h, |entries|, 16) && head == MapHead(h, |entries|)
    requires At(s, p, head) && EntriesStand(s, p + |head|, entries, {})
    ensures Stands(s, p, w)
  {
    w := WMap(h, entries);
    AtJoin(s, p, head, Interleave(EncodedKeys(entries), EncodedValues(entries)));
  }

  lemma StandsDecodes(show: Show, s: Bytes, p: nat, w: Wire)
    requires Stands(s, p, w)
    ensures p < p + |Encoded(w)| <= |s| && Any(show, s, p) == Done(ObjectOf(w), p + |Encoded(w)|)
  {
    WireDecodes(show, w);
    DecodeAt(show, s, p, Encoded(w), ObjectOf(w));
  }

  lemma {:induction false} CleanIsWire(show: Show, s: Bytes, p: nat) returns (w: Wire)
    requires p <= |s| && Clean(show, s, p)
    ensures Stands(s, p, w)
    decreases |s| - p, 0, 3
  {
    assert CleanAfter(show, s, p + 1, s[p]);
    w := UnpackedIsWire(show, s, p, GetUnpacker(s[p]));
  }

  lemma {:induction false} UnpackedIsWire(show: Show, s: Bytes, p: nat, unpacker: Unpacker) returns (w: Wire)
    requires p < |s| && unpacker == GetUnpacker(s[p]) && CleanUnpack(show, s, p + 1, s[p], unpacker)
    ensures Stands(s, p, w)
    decreases |s| - p, 0, 2
  {
    if IsLeaf(unpacker) {
      w := LeafIsWire(show, s, p, unpacker);
    } else if unpacker.FixArray? || unpacker.UnpackArray? {
      w := ArrayIsWire(show, s, p, unpacker);
    } else {
      w := MapIsWire(show, s, p, unpacker);
    }
  }

  lemma ArrHeadIs(show: Show, s: Bytes, p: nat, unpacker: Unpacker) returns (h: Header, n: nat, q: nat)
    requires p < |s| && unpacker == GetUnpacker(s[p]) && CleanUnpack(show, s, p + 1, s[p], unpacker)
    requires unpacker.FixArray? || unpacker.UnpackArray?
    ensures h != In1 && LengthFits(h, n, 16) && At(s, p, ArrayHead(h, n)) && q == p + |ArrayHead(h, n)|
    ensures p < q <= |s| && CleanItems(show, s, q, n)
  {
    h, n, q := Fix, s[p] % 16, p + 1;
    if unpacker.UnpackArray? {
      h := ArrHeadBack(s, p, unpacker.width);
      UnfoldedArr(show, s, p + 1, s[p], unpacker.width);
      n, q := Length(s, p + 1, unpacker.width).value, p + 1 + unpacker.width;
    } else {
      ShortHeadBack(s, p);
    }
  }

  lemma UnfoldedArr(show: Show, s: Bytes, q: nat, ty: byte, width: nat)
    requires q <= |s| && CleanUnpack(show, s, q, ty, UnpackArray(width))
    ensures q + width <= |s| && Length(s, q, width).Done?
    ensures var n := Length(s, q, width).value; 0 <= n && CleanItems(show, s, q + width, n)
  {
  }

  lemma {:induction false} ArrayIsWire(show: Show, s: Bytes, p: nat, unpacker: Unpacker) returns (w: Wire)
    requires p < |s| && unpacker == GetUnpacker(s[p]) && CleanUnpack(show, s, p + 1, s[p], unpacker)
    requires unpacker.FixArray? || unpacker.UnpackArray?
    ensures Stands(s, p, w)
    decreases |s| - p, 0, 1
  {
    var h, n, q := ArrHeadIs(show, s, p, unpacker);
    w := ItemsAreWire(show, s, p, h, n, q);
  }

  lemma {:induction false} ItemsAreWire(show: Show, s: Bytes, p: nat, h: Header, n: nat, q: nat) returns (w: Wire)
    requires h != In1 && LengthFits(h, n, 16) && At(s, p, ArrayHead(h, n)) && q == p + |ArrayHead(h, n)|
    requires p < q <= |s| && CleanItems(show, s, q, n)
    ensures Stands(s, p, w)
    decreases |s| - p, 0, 0
  {
    var items := CleanItemsAre(show, s, q, n);
    w := ArrBack(s, p, h, items, ArrayHead(h, n));
  }

  lemma MapHeadIs(show: Show, s: Bytes, p: nat, unpacker: Unpacker) returns (h: Header, n: nat, q: nat)
    requires p < |s| && unpacker == GetUnpacker(s[p]) && CleanUnpack(show, s, p + 1, s[p], unpacker)
    requires unpacker.FixMap? || unpacker.UnpackMap?
    ensures h != In1 && LengthFits(h, n, 16) && At(s, p, MapHead(h, n)) && q == p + |MapHead(h, n)|
    ensures p < q <= |s| && CleanEntries(show, s, q, n, {})
  {
    h, n, q := Fix, s[p] % 16, p + 1;
    if unpacker.UnpackMap? {
      h := MapHeadBack(s, p, unpacker.width);
      UnfoldedMap(show, s, p + 1, s[p], unpacker.width);
      n, q := Length(s, p + 1, unpacker.width).value, p + 1 + unpacker.width;
    } else {
      ShortHeadBack(s, p);
    }
  }

  lemma UnfoldedMap(show: Show, s: Bytes, q: nat, ty: byte, width: nat)
    requires q <= |s| && CleanUnpack(show, s, q, ty, UnpackMap(width))
    ensures q + width <= |s| && Length(s, q, width).Done?
    ensures var n := Length(s, q, width).value; 0 <= n && CleanEntries(show, s, q + width, n, {})
  {
  }

  lemma {:induction false} MapIsWire(show: Show, s: Bytes, p: nat, unpacker: Unpacker) returns (w: Wire)
    requires p < |s| && unpacker == GetUnpacker(s[p]) && CleanUnpack(show, s, p + 1, s[p], unpacker)
    requires unpacker.FixMap? || unpacker.UnpackMap?
    ensures Stands(s, p, w)
    decreases |s| - p, 0, 1
  {
    var h, n, q := MapHeadIs(show, s, p, unpacker);
    w := EntriesAreWire(show, s, p, h, n, q);
  }

  lemma {:induction false} EntriesAreWire(show: Show, s: Bytes, p: nat, h: Header, n: nat, q: nat) returns (w: Wire)
    requires h != In1 && LengthFits(h, n, 16) && At(s, p, MapHead(h, n)) && q == p + |MapHead(h, n)|
    requires p < q <= |s| && CleanEntries(show, s, q, n, {})
    ensures Stands(s, p, w)
    decreases |s| - p, 0, 0
  {
    var entries := CleanEntriesAre(show, s, q, n, {});
    w := MapBack(s, p, h, entries, MapHead(h, n));
  }

  predicate IsLeaf(unpacker: Unpacker) {
    !unpacker.FixArray? && !unpacker.UnpackArray? && !unpacker.FixMap? && !unpacker.UnpackMap?
  }

  lemma LeafIsWire(show: Show, s: Bytes, p: nat, unpacker: Unpacker) returns (w: Wire)
    requires p < |s| && unpacker == GetUnpacker(s[p]) && IsLeaf(unpacker) && CleanUnpack(show, s, p + 1, s[p], unpacker)
    ensures Stands(s, p, w)
  {
    match unpacker
    case UnpackUInt(width) => w := UIntBack(s, p, width);
    case UnpackInt(width) => w := IntBack(s, p, width);
    case UnpackSingle => w := FloatBack(s, p, 4);
    case UnpackDouble => w := FloatBack(s, p, 8);
    case FixStr => w := ShortStrBack(s, p);
    case UnpackString(width) => w := LongStrBack(s, p, width);
    case UnpackBin(width) => w := BinBack(s, p, width);
    case FixExt(n) => w := ShortExtBack(s, p, n);
    case UnpackExt(width) => w := LongExtBack(s, p, width);
    case _ => w := SmallBack(s, p);
  }

  lemma {:induction false} CleanItemsAre(show: Show, s: Bytes, p: nat, n: int) returns (items: seq<Wire>)
    requires p <= |s| && CleanItems(show, s, p, n)
    ensures |items| == n && ItemsStand(s, p, items)
    decreases |s| - p, 1
  {
    if n <= 0 {
      items := [];
    } else {
      var w, q := CleanItemReads(show, s, p, n);
      var rest := CleanItemsAre(show, s, q, n - 1);
      ItemsJoin(s, p, q, w, rest);
      items := [w] + rest;
    }
  }

  lemma CleanItemReads(show: Show, s: Bytes, p: nat, n: int) returns (w: Wire, q: nat)
    requires p <= |s| && n > 0 && CleanItems(show, s, p, n)
    ensures Stands(s, p, w) && q == p + |Encoded(w)| && p < q <= |s| && CleanItems(show, s, q, n - 1)
    decreases |s| - p, 0, 5
  {
    FirstItemClean(show, s, p, n);
    w, q := CleanReads(show, s, p);
  }

  lemma FirstItemClean(show: Show, s: Bytes, p: nat, n: int)
    requires p <= |s| && n > 0 && CleanItems(show, s, p, n)
    ensures Clean(show, s, p) && var r := Any(show, s, p); r.Done? ==> CleanItems(show, s, r.pos, n - 1)
  {
  }

  lemma {:induction false} CleanReads(show: Show, s: Bytes, p: nat) returns (w: Wire, q: nat)
    requires p <= |s| && Clean(show, s, p)
    ensures Stands(s, p, w) && q == p + |Encoded(w)| && p < q <= |s| && Any(show, s, p) == Done(ObjectOf(w), q)
    decreases |s| - p, 0, 4
  {
    w := CleanIsWire(show, s, p);
    StandsDecodes(show, s, p, w);
    q := p + |Encoded(w)|;
  }

  lemma {:induction false} CleanEntriesAre(show: Show, s: Bytes, p: nat, n: int, keys: set<Bytes>) returns (entries: seq<WireEntry>)
    requires p <= |s| && CleanEntries(show, s, p, n, keys)
    ensures |entries| == n && EntriesStand(s, p, entries, keys)
    decreases |s| - p, 1
  {
    entries := [];
    if n > 0 {
      var e, q, q' := CleanEntryIs(show, s, p, n, keys);
      var rest := CleanEntriesAre(show, s, q', n - 1, keys + {e.key});
      EntriesJoin(s, p, q, q', e, rest, keys);
      entries := [e] + rest;
    }
  }

  lemma CleanEntryIs(show: Show, s: Bytes, p: nat, n: int, keys: set<Bytes>) returns (e: WireEntry, q: nat, q': nat)
    requires p <= |s| && n > 0 && CleanEntries(show, s, p, n, keys)
    ensures LengthFits(e.h, |e.key|, 32) && At(s, p, EncodedStr(e.h, e.key)) && q == p + |EncodedStr(e.h, e.key)|
    ensures Stands(s, q, e.value) && q' == q + |Encoded(e.value)| && p < q < q' <= |s|
    ensures e.key !in keys && CleanEntries(show, s, q', n - 1, keys + {e.key})
    decreases |s| - p, 0, 6
  {
    var k;
    k, q := CleanKeyIs(show, s, p, n, keys);
    FirstValueClean(show, s, q, n, keys + {k.utf8});
    var v;
    v, q' := CleanReads(show, s, q);
    e := WireEntry(k.h, k.utf8, v);
  }

  lemma CleanKeyIs(show: Show, s: Bytes, p: nat, n: int, keys: set<Bytes>) returns (k: Wire, q: nat)
    requires p <= |s| && n > 0 && CleanEntries(show, s, p, n, keys)
    ensures k.WStr? && LengthFits(k.h, |k.utf8|, 32) && At(s, p, EncodedStr(k.h, k.utf8)) && q == p + |EncodedStr(k.h, k.utf8)|
    ensures p < q <= |s| && k.utf8 !in keys && CleanValue(show, s, q, n, keys + {k.utf8})
    decreases |s| - p, 0, 5
  {
    FirstKeyClean(show, s, p, n, keys);
    k, q := CleanReads(show, s, p);
  }

  lemma FirstKeyClean(show: Show, s: Bytes, p: nat, n: int, keys: set<Bytes>)
    requires p <= |s| && n > 0 && CleanEntries(show, s, p, n, keys)
    ensures var k := Any(show, s, p);
            && Clean(show, s, p) && k.Done? && k.value.Text? && k.value.utf8 !in keys
            && CleanValue(show, s, k.pos, n, keys + {k.value.utf8})
  {
  }

  lemma FirstValueClean(show: Show, s: Bytes, p: nat, n: int, keys: set<Bytes>)
    requires p <= |s| && CleanValue(show, s, p, n, keys)
    ensures Clean(show, s, p) && var r := Any(show, s, p); r.Done? ==> CleanEntries(show, s, r.pos, n - 1, keys)
  {
  }

  // ---------------------------------------------------------------- reading an encoding is clean

  lemma CleanLead(show: Show, s: Bytes, p: nat, lead: byte, rest: Bytes)
    requires At(s, p, [lead] + rest)
    ensures p < |s| && s[p] == lead && At(s, p + 1, rest) && p + 1 + |rest| <= |s|
    ensures CleanUnpack(show, s, p + 1, lead, GetUnpacker(lead)) ==> Clean(show, s, p)
  {
    AtLead(s, p, lead, rest);
    assert CleanAfter(show, s, p + 1, lead) == CleanUnpack(show, s, p + 1, lead, GetUnpacker(lead));
  }

  lemma SmallIsClean(show: Show, s: Bytes, p: nat, w: Wire)
    requires Stands(s, p, w) && (w.WNil? || w.WBool? || w.WPosFix? || w.WNegFix?)
    ensures p <= |s| && Clean(show, s, p)
  {
    var lead := Encoded(w)[0];
    assert Encoded(w) == [lead] + [];
    CleanLead(show, s, p, lead, []);
  }

  lemma NumberIsClean(show: Show, s: Bytes, p: nat, lead: byte, width: nat, n: nat, unpacker: Unpacker)
    requires At(s, p, [lead] + ToBytes(n, width)) && unpacker == GetUnpacker(lead)
    requires unpacker == UnpackUInt(width) || unpacker == UnpackInt(width)
          || (unpacker == UnpackSingle && width == 4) || (unpacker == UnpackDouble && width == 8)
    ensures p <= |s| && Clean(show, s, p)
  {
    CleanLead(show, s, p, lead, ToBytes(n, width));
  }

  lemma DataIsClean(s: Bytes, q: nat, h: Header, data: Bytes)
    requires h != Fix && LengthFits(h, |data|, 0) && At(s, q, LengthBytes(h, |data|) + data)
    ensures q <= |s| && CleanData(s, q, HeaderWidth(h))
  {
    AtParts(s, q, LengthBytes(h, |data|), data);
    LengthAt(s, q, h, |data|, 0);
  }

  lemma StrIsClean(show: Show, s: Bytes, p: nat, h: Header, utf8: Bytes)
    requires LengthFits(h, |utf8|, 32) && At(s, p, EncodedStr(h, utf8))
    ensures p <= |s| && Clean(show, s, p)
  {
    if h == Fix {
      ShortStrIsClean(show, s, p, StrLead(h, |utf8|), utf8);
    } else {
      LongStrIsClean(show, s, p, StrLead(h, |utf8|), h, utf8);
    }
  }

  lemma ShortStrIsClean(show: Show, s: Bytes, p: nat, lead: byte, utf8: Bytes)
    requires |utf8| < 32 && lead == 0xA0 + |utf8| && At(s, p, EncodedStr(Fix, utf8))
    ensures p <= |s| && Clean(show, s, p)
  {
    assert EncodedStr(Fix, utf8) == [lead] + utf8;
    CleanLead(show, s, p, lead, utf8);
  }

  lemma LongStrIsClean(show: Show, s: Bytes, p: nat, lead: byte, h: Header, utf8: Bytes)
    requires h != Fix && LengthFits(h, |utf8|, 0) && At(s, p, [lead] + (LengthBytes(h, |utf8|) + utf8))
    requires GetUnpacker(lead) == UnpackString(HeaderWidth(h))
    ensures p <= |s| && Clean(show, s, p)
  {
    CleanLead(show, s, p, lead, LengthBytes(h, |utf8|) + utf8);
    DataIsClean(s, p + 1, h, utf8);
  }

  lemma BinIsClean(show: Show, s: Bytes, p: nat, h: Header, data: Bytes)
    requires Stands(s, p, WBin(h, data))
    ensures Clean(show, s, p)
  {
    var part := Encoded(WBin(h, data));
    assert part == [part[0]] + (LengthBytes(h, |data|) + data);
    CleanLead(show, s, p, part[0], LengthBytes(h, |data|) + data);
    DataIsClean(s, p + 1, h, data);
  }

  lemma ExtIsClean(show: Show, s: Bytes, p: nat, h: Header, n: nat, ext: byte, data: Bytes)
    requires if h == Fix then n in {1, 2, 4, 8, 16} else LengthFits(h, n, 0)
    requires |data| == n && (ext == 10 || ext == 11 || (20 <= ext <= 23 && n == 4 * VectorSize(ext)))
    requires At(s, p, ExtLead(h, n) + ([ext] + data))
    ensures p <= |s| && Clean(show, s, p)
  {
    var head := ExtLead(h, n);
    var q := p + |head|;
    AtParts(s, p, head, [ext] + data);
    AtLead(s, q, ext, data);
    ExtHeadIsClean(show, s, p, h, n, head);
  }

  lemma ExtHeadIsClean(show: Show, s: Bytes, p: nat, h: Header, n: nat, head: Bytes)
    requires if h == Fix then n in {1, 2, 4, 8, 16} else LengthFits(h, n, 0)
    requires head == ExtLead(h, n) && At(s, p, head) && p + |head| <= |s| && CleanExtension(s, p + |head|, n)
    ensures p <= |s| && Clean(show, s, p)
  {
    if h == Fix {
      ShortHeadIsClean(show, s, p, head[0], FixExt(n));
    } else {
      LongHeadIsClean(show, s, p, h, n, head[0], UnpackExt(HeaderWidth(h)));
    }
  }

  lemma ShortHeadIsClean(show: Show, s: Bytes, p: nat, lead: byte, unpacker: Unpacker)
    requires At(s, p, [lead]) && unpacker == GetUnpacker(lead) && p + 1 <= |s| && CleanUnpack(show, s, p + 1, lead, unpacker)
    ensures Clean(show, s, p)
  {
    assert [lead] + [] == [lead];
    CleanLead(show, s, p, lead, []);
  }

  /** A lead byte and the length after it, followed by what reads cleanly for that length. */
  lemma LongHeadIsClean(show: Show, s: Bytes, p: nat, h: Header, n: nat, lead: byte, unpacker: Unpacker)
    requires h != Fix && LengthFits(h, n, 0) && At(s, p, [lead] + LengthBytes(h, n)) && unpacker == GetUnpacker(lead)
    requires var q := p + 1 + HeaderWidth(h); q <= |s| && CleanCounted(show, s, q, n, unpacker) && unpacker.width == HeaderWidth(h)
    ensures Clean(show, s, p)
  {
    CleanLead(show, s, p, lead, LengthBytes(h, n));
    LengthAt(s, p + 1, h, n, 0);
    CountedUnpacks(show, s, p + 1, lead, unpacker, n, p + 1 + HeaderWidth(h));
  }

  lemma CountedUnpacks(show: Show, s: Bytes, q: nat, ty: byte, unpacker: Unpacker, n: nat, q': nat)
    requires q <= q' <= |s| && CleanCounted(show, s, q', n, unpacker) && Length(s, q, unpacker.width) == Done(n, q')
    ensures CleanUnpack(show, s, q, ty, unpacker)
  {
  }

  /** What a length of `n` announces reads cleanly. */
  ghost predicate CleanCounted(show: Show, s: Bytes, q: nat, n: nat, unpacker: Unpacker)
    requires q <= |s|
  {
    || (unpacker.UnpackArray? && CleanItems(show, s, q, n))
    || (unpacker.UnpackMap? && CleanEntries(show, s, q, n, {}))
    || (unpacker.UnpackExt? && CleanExtension(s, q, n))
  }

  lemma {:induction false} FloatsLength(floats: seq<nat>)
    ensures |Floats(floats)| == 4 * |floats|
  {
    if floats != [] {
      FloatsLength(floats[1..]);
    }
  }

  lemma ArrIsClean(show: Show, s: Bytes, p: nat, h: Header, n: nat, q: nat)
    requires h != In1 && LengthFits(h, n, 16) && At(s, p, ArrayHead(h, n)) && q == p + |ArrayHead(h, n)|
    requires q <= |s| && CleanItems(show, s, q, n)
    ensures p <= |s| && Clean(show, s, p)
  {
    if h == Fix {
      assert ArrayHead(h, n) == [0x90 + n];
      ShortHeadIsClean(show, s, p, 0x90 + n, FixArray);
    } else {
      LongHeadIsClean(show, s, p, h, n, ArrayHead(h, n)[0], UnpackArray(HeaderWidth(h)));
    }
  }

  lemma MapIsClean(show: Show, s: Bytes, p: nat, h: Header, n: nat, q: nat)
    requires h != In1 && LengthFits(h, n, 16) && At(s, p, MapHead(h, n)) && q == p + |MapHead(h, n)|
    requires q <= |s| && CleanEntries(show, s, q, n, {})
    ensures p <= |s| && Clean(show, s, p)
  {
    if h == Fix {
      assert MapHead(h, n) == [0x80 + n];
      ShortHeadIsClean(show, s, p, 0x80 + n, FixMap);
    } else {
      LongHeadIsClean(show, s, p, h, n, MapHead(h, n)[0], UnpackMap(HeaderWidth(h)));
    }
  }

  lemma {:induction false} WireIsClean(show: Show, s: Bytes, p: nat, w: Wire)
    requires Stands(s, p, w)
    ensures p <= |s| && Clean(show, s, p)
    decreases w, 1
  {
    match w
    case WArr(h, items) =>
      var q := ArrStands(s, p, h, items);
      WiresAreClean(show, s, q, items);
      ArrIsClean(show, s, p, h, |items|, q);
    case WMap(h, entries) =>
      var q := MapStands(s, p, h, entries);
      WireEntriesAreClean(show, s, q, entries, {});
      MapIsClean(show, s, p, h, |entries|, q);
    case _ => LeafIsClean(show, s, p, w);
  }

  lemma LeafIsClean(show: Show, s: Bytes, p: nat, w: Wire)
    requires Stands(s, p, w) && !w.WArr? && !w.WMap?
    ensures p <= |s| && Clean(show, s, p)
  {
    match w
    case WStr(h, utf8) => StrIsClean(show, s, p, h, utf8);
    case WBin(h, data) => BinIsClean(show, s, p, h, data);
    case WVec(h, ext, floats) =>
      FloatsLength(floats);
      ExtIsClean(show, s, p, h, 4 * |floats|, ext, Floats(floats));
    case WFunc(h, ext, data) => ExtIsClean(show, s, p, h, |data|, ext, data);
    case _ => ScalarIsClean(show, s, p, w);
  }

  lemma ScalarIsClean(show: Show, s: Bytes, p: nat, w: Wire)
    requires Stands(s, p, w)
    requires w.WNil? || w.WBool? || w.WPosFix? || w.WNegFix? || w.WUInt? || w.WInt? || w.WFloat32? || w.WFloat64?
    ensures p <= |s| && Clean(show, s, p)
  {
    match w
    case WUInt(width, v) => UIntIsClean(show, s, p, width, v);
    case WInt(width, v) => IntIsClean(show, s, p, width, v);
    case WFloat32(bits) => SingleIsClean(show, s, p, bits);
    case WFloat64(bits) => DoubleIsClean(show, s, p, bits);
    case _ => SmallIsClean(show, s, p, w);
  }

  lemma SingleIsClean(show: Show, s: Bytes, p: nat, bits: nat)
    requires Stands(s, p, WFloat32(bits))
    ensures p <= |s| && Clean(show, s, p)
  {
    NumberIsClean(show, s, p, 0xCA, 4, bits, UnpackSingle);
  }

  lemma DoubleIsClean(show: Show, s: Bytes, p: nat, bits: nat)
    requires Stands(s, p, WFloat64(bits))
    ensures p <= |s| && Clean(show, s, p)
  {
    NumberIsClean(show, s, p, 0xCB, 8, bits, UnpackDouble);
  }

  lemma UIntIsClean(show: Show, s: Bytes, p: nat, width: nat, v: nat)
    requires Stands(s, p, WUInt(width, v))
    ensures p <= |s| && Clean(show, s, p)
  {
    IntegerLeads(width);
    NumberIsClean(show, s, p, UIntLead(width), width, v, UnpackUInt(width));
  }

  lemma IntIsClean(show: Show, s: Bytes, p: nat, width: nat, v: int)
    requires Stands(s, p, WInt(width, v))
    ensures p <= |s| && Clean(show, s, p)
  {
    IntegerLeads(width);
    NumberIsClean(show, s, p, IntLead(width), width, UnsignedOf(v, width), UnpackInt(width));
  }

  lemma ArrStands(s: Bytes, p: nat, h: Header, items: seq<Wire>) returns (q: nat)
    requires Stands(s, p, WArr(h, items))
    ensures h != In1 && LengthFits(h, |items|, 16) && At(s, p, ArrayHead(h, |items|)) && q == p + |ArrayHead(h, |items|)|
    ensures ItemsStand(s, q, items)
  {
    q := p + |ArrayHead(h, |items|)|;
    AtParts(s, p, ArrayHead(h, |items|), Concat(EncodedAll(items)));
  }

  lemma MapStands(s: Bytes, p: nat, h: Header, entries: seq<WireEntry>) returns (q: nat)
    requires Stands(s, p, WMap(h, entries))
    ensures h != In1 && LengthFits(h, |entries|, 16) && At(s, p, MapHead(h, |entries|)) && q == p + |MapHead(h, |entries|)|
    ensures EntriesStand(s, q, entries, {})
  {
    q := p + |MapHead(h, |entries|)|;
    AtParts(s, p, MapHead(h, |entries|), Interleave(EncodedKeys(entries), EncodedValues(entries)));
  }

  lemma {:induction false} WiresAreClean(show: Show, s: Bytes, p: nat, items: seq<Wire>)
    requires ItemsStand(s, p, items)
    ensures p <= |s| && CleanItems(show, s, p, |items|)
    decreases items, 0
  {
    if items != [] {
      var q := FirstItemStands(s, p, items);
      WireReads(show, s, p, items[0], q);
      WiresAreClean(show, s, q, items[1..]);
      CleanItemsOn(show, s, p, q, |items|, ObjectOf(items[0]));
    }
  }

  lemma FirstItemStands(s: Bytes, p: nat, items: seq<Wire>) returns (q: nat)
    requires items != [] && ItemsStand(s, p, items)
    ensures Stands(s, p, items[0]) && q == p + |Encoded(items[0])| && ItemsStand(s, q, items[1..])
  {
    AtParts(s, p, Encoded(items[0]), Concat(EncodedAll(items[1..])));
    q := p + |Encoded(items[0])|;
  }

  lemma CleanItemsOn(show: Show, s: Bytes, p: nat, q: nat, n: nat, o: Object)
    requires p < q <= |s| && n > 0 && Clean(show, s, p) && Any(show, s, p) == Done(o, q) && CleanItems(show, s, q, n - 1)
    ensures CleanItems(show, s, p, n)
  {
  }

  lemma {:induction false} WireReads(show: Show, s: Bytes, p: nat, w: Wire, q: nat)
    requires Stands(s, p, w) && q == p + |Encoded(w)|
    ensures p < q <= |s| && Clean(show, s, p) && Any(show, s, p) == Done(ObjectOf(w), q)
    decreases w, 2
  {
    WireIsClean(show, s, p, w);
    StandsDecodes(show, s, p, w);
  }

  lemma {:induction false} WireEntriesAreClean(show: Show, s: Bytes, p: nat, entries: seq<WireEntry>, keys: set<Bytes>)
    requires EntriesStand(s, p, entries, keys)
    ensures p <= |s| && CleanEntries(show, s, p, |entries|, keys)
    decreases entries, 0
  {
    if entries != [] {
      var e, rest := entries[0], entries[1..];
      var q, q' := FirstEntryStands(s, p, entries, keys);
      KeyReads(show, s, p, e.h, e.key, q);
      WireReads(show, s, q, e.value, q');
      WireEntriesAreClean(show, s, q', rest, keys + {e.key});
      CleanEntriesOn(show, s, p, q, q', |entries|, keys, e.key, ObjectOf(e.value));
    }
  }

  lemma KeyReads(show: Show, s: Bytes, p: nat, h: Header, key: Bytes, q: nat)
    requires LengthFits(h, |key|, 32) && At(s, p, EncodedStr(h, key)) && q == p + |EncodedStr(h, key)|
    ensures p < q <= |s| && Clean(show, s, p) && Any(show, s, p) == Done(Text(key), q)
  {
    StrIsClean(show, s, p, h, key);
    StrDecodesTo(show, h, key);
    DecodeAt(show, s, p, EncodedStr(h, key), Text(key));
  }

  lemma CleanEntriesOn(show: Show, s: Bytes, p: nat, q: nat, q': nat, n: nat, keys: set<Bytes>, key: Bytes, o: Object)
    requires p < q < q' <= |s| && n > 0 && key !in keys
    requires Clean(show, s, p) && Any(show, s, p) == Done(Text(key), q)
    requires Clean(show, s, q) && Any(show, s, q) == Done(o, q')
    requires CleanEntries(show, s, q', n - 1, keys + {key})
    ensures CleanEntries(show, s, p, n, keys)
  {
    assert CleanValue(show, s, q, n, keys + {key});
  }

  lemma FirstEntryStands(s: Bytes, p: nat, entries: seq<WireEntry>, keys: set<Bytes>) returns (q: nat, q': nat)
    requires entries != [] && EntriesStand(s, p, entries, keys)
    ensures var e := entries[0];
            && LengthFits(e.h, |e.key|, 32) && At(s, p, EncodedStr(e.h, e.key)) && q == p + |EncodedStr(e.h, e.key)|
            && Stands(s, q, e.value) && q' == q + |Encoded(e.value)|
            && e.key !in keys && EntriesStand(s, q', entries[1..], keys + {e.key})
  {
    EntriesSplit(entries);
    InterleavedAt(s, p, EncodedKeys(entries), EncodedValues(entries));
    q := p + |EncodedKeys(entries)[0]|;
    q' := q + |EncodedValues(entries)[0]|;
  }

  // ---------------------------------------------------------------- the main statement

  /** Some encoding stands in `s` at `p`. */
  ghost predicate EncodingAt(s: Bytes, p: nat) {
    exists w :: Stands(s, p, w)
  }

  /** An encoding is there exactly when the deserializer reads cleanly, and is returned as its object:
      what it accepts besides are the inputs that it reads without an error but not cleanly. */
  lemma AcceptedIff(show: Show, s: Bytes, p: nat)
    requires p <= |s|
    ensures EncodingAt(s, p) <==> Clean(show, s, p)
    ensures forall w :: Stands(s, p, w) ==> Any(show, s, p) == Done(ObjectOf(w), p + |Encoded(w)|)
  {
    forall w | Stands(s, p, w) ensures Clean(show, s, p) && Any(show, s, p) == Done(ObjectOf(w), p + |Encoded(w)|) {
      WireIsClean(show, s, p, w);
      StandsDecodes(show, s, p, w);
    }
    if Clean(show, s, p) {
      var w := CleanIsWire(show, s, p);
    }
  }

  /** A string cut short by the end of the data is accepted. */
  lemma CutStringAccepted(show: Show, utf8: Bytes, n: nat)
    requires |utf8| < n < 32
    ensures var s: Bytes := [0xA0 + n] + utf8;
            Any(show, s, 0) == Done(Text(utf8), |s|) && !EncodingAt(s, 0)
  {
    var s: Bytes := [0xA0 + n] + utf8;
    CutShort(show, s, 0, s[0], n);
    assert s[1..] == utf8;
  }

  lemma CutShort(show: Show, s: Bytes, p: nat, lead: byte, n: nat)
    requires p < |s| && s[p] == lead && |s| <= p + n && n < 32 && lead == 0xA0 + n
    ensures Any(show, s, p) == Done(Text(s[p + 1..]), |s|) && !EncodingAt(s, p)
  {
    ReadsBy(show, s, p, lead, FixStr);
    ShortStrUnpacks(show, s, p + 1, lead);
    RawCut(s, p + 1, lead % 32);
  }

  lemma RawCut(s: Bytes, q: nat, n: nat)
    requires q <= |s| < q + n
    ensures AsText(Raw(s, q, n)) == Done(Text(s[q..]), |s|)
  {
    assert s[q..|s|] == s[q..];
  }

  lemma ShortStrUnpacks(show: Show, s: Bytes, q: nat, ty: byte)
    requires q <= |s|
    ensures Unpack(show, s, q, ty, FixStr) == AsText(Raw(s, q, ty % 32))
    ensures CleanUnpack(show, s, q, ty, FixStr) <==> q + ty % 32 <= |s|
  {
  }

  /** Reading at `p` is what the unpacker of the lead byte does after it, and clean when that is. */
  lemma ReadsBy(show: Show, s: Bytes, p: nat, lead: byte, unpacker: Unpacker)
    requires p < |s| && s[p] == lead && unpacker == GetUnpacker(lead)
    ensures Any(show, s, p) == Unpack(show, s, p + 1, lead, unpacker)
    ensures EncodingAt(s, p) <==> CleanUnpack(show, s, p + 1, lead, unpacker)
  {
    assert FromLead(show, s, p) == AfterLead(show, s, p + 1, lead) == Unpack(show, s, p + 1, lead, unpacker);
    assert CleanAfter(show, s, p + 1, lead) == CleanUnpack(show, s, p + 1, lead, unpacker);
    AcceptedIff(show, s, p);
  }

  /** A collection of negative length is accepted as an empty one. */
  lemma NegativeLengthAccepted(show: Show, isMap: bool, n: nat)
    requires 0x8000_0000 <= n < 0x1_0000_0000
    ensures var s: Bytes := [if isMap then 0xDF else 0xDD] + ToBytes(n, 4);
            Any(show, s, 0) == Done(if isMap then Dictionary([]) else List([]), 5) && !EncodingAt(s, 0)
  {
    var lead: byte := if isMap then 0xDF else 0xDD;
    var s := [lead] + ToBytes(n, 4);
    PowerValues();
    AtWhole(s);
    NumberAfterLead(show, s, 0, lead, 4, n);
    NegativeLengthRead(show, s, lead, n as int - 0x1_0000_0000);
  }

  lemma NegativeLengthRead(show: Show, s: Bytes, lead: byte, n: int)
    requires |s| == 5 && s[0] == lead && (lead == 0xDD || lead == 0xDF) && n < 0 && Length(s, 1, 4) == Done(n, 5)
    ensures Any(show, s, 0) == Done(if lead == 0xDF then Dictionary([]) else List([]), 5) && !EncodingAt(s, 0)
  {
    var unpacker := if lead == 0xDF then UnpackMap(4) else UnpackArray(4);
    ReadsBy(show, s, 0, lead, unpacker);
    NegativeUnpacks(show, s, 1, lead, unpacker, n, 5);
  }

  lemma NegativeUnpacks(show: Show, s: Bytes, q: nat, ty: byte, unpacker: Unpacker, n: int, q': nat)
    requires (unpacker.UnpackMap? || unpacker.UnpackArray?) && n < 0
    requires q <= |s| && Length(s, q, unpacker.width) == Done(n, q')
    ensures Unpack(show, s, q, ty, unpacker) == Done(if unpacker.UnpackMap? then Dictionary([]) else List([]), q')
    ensures !CleanUnpack(show, s, q, ty, unpacker)
  {
    if unpacker.UnpackMap? {
      assert Entries(show, s, q', n, []) == Done(Dictionary([]), q') && !CleanEntries(show, s, q', n, {});
    } else {
      assert Items(show, s, q', n, []) == Done(List([]), q') && !CleanItems(show, s, q', n);
    }
  }

  lemma AtWhole(s: Bytes)
    ensures At(s, 0, s)
  {
    assert s[0..|s|] == s;
  }

  /** A vector sent with any length is accepted; it is no encoding unless the length is its own. */
  lemma VectorOfAnyLengthAccepted(show: Show, n: byte, ext: byte, floats: seq<nat>)
    requires 20 <= ext <= 23 && |floats| == VectorSize(ext) && n != 4 * |floats|
    requires forall i :: 0 <= i < |floats| ==> floats[i] < Pow256(4)
    ensures var s := [0xC7] + (ToBytes(n, 1) + ([ext] + Floats(floats)));
            Any(show, s, 0) == Done(Vector(ext, floats), |s|) && !EncodingAt(s, 0)
  {
    var body := [ext] + Floats(floats);
    var s := [0xC7] + (ToBytes(n, 1) + body);
    PowerValues();
    AtWhole(s);
    AtLead(s, 0, 0xC7, ToBytes(n, 1) + body);
    AtParts(s, 1, ToBytes(n, 1), body);
    NumberAt(s, 1, n, 1);
    OtherLengthAccepted(show, s, 0, 2, n, ext, floats);
  }

  lemma OtherLengthAccepted(show: Show, s: Bytes, p: nat, q: nat, n: byte, ext: byte, floats: seq<nat>)
    requires 20 <= ext <= 23 && |floats| == VectorSize(ext) && n != 4 * |floats|
    requires forall i :: 0 <= i < |floats| ==> floats[i] < Pow256(4)
    requires p < |s| && s[p] == 0xC7 && Length(s, p + 1, 1) == Done(n, q) && At(s, q, [ext] + Floats(floats))
    ensures Any(show, s, p) == Done(Vector(ext, floats), q + 1 + |Floats(floats)|) && !EncodingAt(s, p)
  {
    LongExtReads(show, s, p, 0xC7, 1, n, q);
    VecExtension(s, q, ext, floats, n, q + 1 + |Floats(floats)|);
    NotCleanVector(s, q, ext, Floats(floats), n);
  }

  lemma NotCleanVector(s: Bytes, q: nat, ext: byte, body: Bytes, n: nat)
    requires 20 <= ext <= 23 && n != 4 * VectorSize(ext) && At(s, q, [ext] + body)
    ensures !CleanExtension(s, q, n)
  {
    AtLead(s, q, ext, body);
  }

  lemma LongExtReads(show: Show, s: Bytes, p: nat, lead: byte, width: nat, n: nat, q: nat)
    requires p < |s| && s[p] == lead && GetUnpacker(lead) == UnpackExt(width) && Length(s, p + 1, width) == Done(n, q)
    ensures Any(show, s, p) == Extension(s, q, n) && (EncodingAt(s, p) <==> CleanExtension(s, q, n))
  {
    ReadsBy(show, s, p, lead, UnpackExt(width));
    ExtUnpacks(show, s, p + 1, lead, width, n, q);
    ExtUnpacksCleanly(show, s, p + 1, lead, width, n, q);
  }

  lemma ExtUnpacks(show: Show, s: Bytes, q: nat, ty: byte, width: nat, n: int, q': nat)
    requires q <= |s| && Length(s, q, width) == Done(n, q')
    ensures Unpack(show, s, q, ty, UnpackExt(width)) == Extension(s, q', n)
  {
  }

  lemma ExtUnpacksCleanly(show: Show, s: Bytes, q: nat, ty: byte, width: nat, n: int, q': nat)
    requires q <= |s| && Length(s, q, width) == Done(n, q')
    ensures CleanUnpack(show, s, q, ty, UnpackExt(width)) <==> CleanExtension(s, q', n)
  {
  }

  lemma ShortMapReads(show: Show, s: Bytes, n: nat)
    requires s != [] && n < 16 && s[0] == 0x80 + n
    ensures Any(show, s, 0) == Entries(show, s, 1, n, []) && (EncodingAt(s, 0) <==> CleanEntries(show, s, 1, n, {}))
  {
    ReadsBy(show, s, 0, s[0], FixMap);
  }

  lemma EntryRead(show: Show, s: Bytes, p: nat, q: nat, q': nat, k: Wire, v: Wire, done: seq<Field>)
    requires Stands(s, p, k) && !k.WNil? && q == p + |Encoded(k)| && Stands(s, q, v) && q' == q + |Encoded(v)|
    ensures p < q < q' <= |s| && Any(show, s, p) == Done(ObjectOf(k), q) && Any(show, s, q) == Done(ObjectOf(v), q')
    ensures Entry(show, s, p, done) == Done(Put(done, show(ObjectOf(k)), ObjectOf(v)), q')
  {
    StandsDecodes(show, s, p, k);
    StandsDecodes(show, s, q, v);
    EntryIs(show, s, p, q, q', ObjectOf(k), ObjectOf(v), done);
  }

  lemma EntryIs(show: Show, s: Bytes, p: nat, q: nat, q': nat, key: Object, o: Object, done: seq<Field>)
    requires p < q <= |s| && key != Null && Any(show, s, p) == Done(key, q) && Any(show, s, q) == Done(o, q')
    ensures Entry(show, s, p, done) == Done(Put(done, show(key), o), q')
  {
  }

  lemma EntriesFrom(show: Show, s: Bytes, p: nat, q: nat, n: nat, done: seq<Field>, more: seq<Field>)
    requires n > 0 && p < q <= |s| && Entry(show, s, p, done) == Done(more, q)
    ensures Entries(show, s, p, n, done) == Entries(show, s, q, n - 1, more)
  {
  }

  /** A key that is neither a string nor null is accepted, as its text. */
  lemma OtherKeyAccepted(show: Show, k: Wire, v: Wire)
    requires Fits(k) && Fits(v) && !k.WStr? && !k.WNil?
    ensures var s := [0x81] + (Encoded(k) + Encoded(v));
            && Any(show, s, 0) == Done(Dictionary([Field(show(ObjectOf(k)), ObjectOf(v))]), |s|)
            && !EncodingAt(s, 0)
  {
    var s, q := Pair(0x81, Encoded(k), Encoded(v));
    OtherKeyRead(show, s, q, k, v);
  }

  lemma Pair(lead: byte, a: Bytes, b: Bytes) returns (s: Bytes, q: nat)
    ensures s == [lead] + (a + b) && s[0] == lead && q == 1 + |a| && At(s, 1, a) && At(s, q, b) && |s| == q + |b|
  {
    s, q := [lead] + (a + b), 1 + |a|;
    AtWhole(s);
    AtLead(s, 0, lead, a + b);
    AtParts(s, 1, a, b);
  }

  lemma OtherKeyRead(show: Show, s: Bytes, q: nat, k: Wire, v: Wire)
    requires s != [] && s[0] == 0x81 && !k.WStr? && !k.WNil?
    requires Stands(s, 1, k) && q == 1 + |Encoded(k)| && Stands(s, q, v) && |s| == q + |Encoded(v)|
    ensures Any(show, s, 0) == Done(Dictionary([Field(show(ObjectOf(k)), ObjectOf(v))]), |s|) && !EncodingAt(s, 0)
  {
    ShortMapReads(show, s, 1);
    OneEntryRead(show, s, 1, q, |s|, k, v);
    StandsDecodes(show, s, 1, k);
    OtherKeyNotClean(show, s, 1, q, ObjectOf(k));
  }

  lemma OneEntryRead(show: Show, s: Bytes, p: nat, q: nat, q': nat, k: Wire, v: Wire)
    requires Stands(s, p, k) && !k.WNil? && q == p + |Encoded(k)| && Stands(s, q, v) && q' == q + |Encoded(v)|
    ensures q' <= |s| && Entries(show, s, p, 1, []) == Done(Dictionary([Field(show(ObjectOf(k)), ObjectOf(v))]), q')
  {
    EntryRead(show, s, p, q, q', k, v, []);
    EntriesFrom(show, s, p, q', 1, [], [Field(show(ObjectOf(k)), ObjectOf(v))]);
  }

  lemma OtherKeyNotClean(show: Show, s: Bytes, p: nat, q: nat, o: Object)
    requires p <= |s| && Any(show, s, p) == Done(o, q) && !o.Text?
    ensures !CleanEntries(show, s, p, 1, {})
  {
  }

  /** A key that is repeated is accepted, with the last of its values. */
  lemma RepeatedKeyAccepted(show: Show, k: Wire, v: Wire, w: Wire)
    requires Fits(k) && Fits(v) && Fits(w) && k.WStr?
    ensures var s := [0x82] + (Encoded(k) + (Encoded(v) + (Encoded(k) + Encoded(w))));
            Any(show, s, 0) == Done(Dictionary([Field(k.utf8, ObjectOf(w))]), |s|) && !EncodingAt(s, 0)
  {
    var key := Encoded(k);
    var s, q1, q2, q3 := TwoPairs(0x82, key, Encoded(v), key, Encoded(w));
    RepeatedKeyRead(show, s, q1, q2, q3, k, v, w);
  }

  lemma TwoPairs(lead: byte, a: Bytes, b: Bytes, c: Bytes, d: Bytes) returns (s: Bytes, q1: nat, q2: nat, q3: nat)
    ensures s == [lead] + (a + (b + (c + d))) && s[0] == lead && |s| == q3 + |d|
    ensures q1 == 1 + |a| && q2 == q1 + |b| && q3 == q2 + |c|
    ensures At(s, 1, a) && At(s, q1, b) && At(s, q2, c) && At(s, q3, d)
  {
    var rest := c + d;
    s, q1 := Pair(lead, a, b + rest);
    q2 := q1 + |b|;
    q3 := q2 + |c|;
    AtParts(s, q1, b, rest);
    AtParts(s, q2, c, d);
  }

  lemma RepeatedKeyRead(show: Show, s: Bytes, q1: nat, q2: nat, q3: nat, k: Wire, v: Wire, w: Wire)
    requires s != [] && s[0] == 0x82 && k.WStr?
    requires Stands(s, 1, k) && q1 == 1 + |Encoded(k)| && Stands(s, q1, v) && q2 == q1 + |Encoded(v)|
    requires Stands(s, q2, k) && q3 == q2 + |Encoded(k)| && Stands(s, q3, w) && |s| == q3 + |Encoded(w)|
    ensures Any(show, s, 0) == Done(Dictionary([Field(k.utf8, ObjectOf(w))]), |s|) && !EncodingAt(s, 0)
  {
    var one, two := Field(k.utf8, ObjectOf(v)), Field(k.utf8, ObjectOf(w));
    ShortMapReads(show, s, 2);
    EntryRead(show, s, 1, q1, q2, k, v, []);
    EntriesFrom(show, s, 1, q2, 2, [], [one]);
    EntryRead(show, s, q2, q3, |s|, k, w, [one]);
    assert [two] + [one][1..] == [two];
    EntriesFrom(show, s, q2, |s|, 1, [one], [two]);
    SecondNotClean(show, s, 1, q1, q2, q3, k.utf8, ObjectOf(v));
  }

  lemma SecondNotClean(show: Show, s: Bytes, p: nat, q1: nat, q2: nat, q3: nat, key: Bytes, o: Object)
    requires p < q1 < q2 < q3 <= |s|
    requires Any(show, s, p) == Done(Text(key), q1) && Any(show, s, q1) == Done(o, q2) && Any(show, s, q2) == Done(Text(key), q3)
    ensures !CleanEntries(show, s, p, 2, {})
  {
    assert !CleanEntries(show, s, q2, 1, {} + {key});
    assert !CleanValue(show, s, q1, 2, {} + {key});
  }
}

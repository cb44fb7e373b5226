/** MessagePack: the formats as the MessagePack specification lays them out ("Formats" and
    "Serialization: type to format conversion"). */
module MsgPackFormat {

  import opened ByteStrings

  /** Big-endian value of a byte string. */
  function BigEndian(s: Bytes): (n: nat) {
    if s == [] then 0 else 256 * BigEndian(s[..|s| - 1]) + s[|s| - 1]
  }

  /** The `width` big-endian bytes of `n`. */
  function ToBytes(n: nat, width: nat): (s: Bytes)
    ensures |s| == width
  {
    if width == 0 then [] else ToBytes(n / 256, width - 1) + [n % 256]
  }

  function Reversed(s: Bytes): (r: Bytes)
    ensures |r| == |s| && forall i :: 0 <= i < |s| ==> r[i] == s[|s| - 1 - i]
  {
    if s == [] then [] else Reversed(s[1..]) + [s[0]]
  }

  lemma {:induction false} BigEndianInverts(n: nat, width: nat)
    requires n < Pow256(width)
    ensures BigEndian(ToBytes(n, width)) == n
  {
    if width > 0 {
      BigEndianInverts(n / 256, width - 1);
      assert ToBytes(n, width)[..width - 1] == ToBytes(n / 256, width - 1);
    }
  }

  lemma {:induction false} BigEndianBound(s: Bytes)
    ensures BigEndian(s) < Pow256(|s|)
  {
    if s != [] {
      BigEndianBound(s[..|s| - 1]);
    }
  }

  /** Two's complement reading of a `width`-byte number. */
  function SignedOf(n: nat, width: nat): int {
    if 2 * n < Pow256(width) then n else n - Pow256(width)
  }

  predicate SignedFits(v: int, width: nat) { 0 <= 2 * v + Pow256(width) && 2 * v < Pow256(width) }

  function UnsignedOf(v: int, width: nat): nat
    requires SignedFits(v, width)
  {
    if v >= 0 then v else v + Pow256(width)
  }

  // ---------------------------------------------------------------- values and their encodings

  /** What an encoding denotes; floating-point numbers are their bit patterns. */
  datatype Value =
    | Nil
    | Bool(b: bool)
    | Int(v: int)
    | Float32(bits: nat)
    | Float64(bits: nat)
    | Str(utf8: Bytes)
    | Bin(bytes: Bytes)
    | Arr(items: seq<Value>)
    | Map(entries: seq<(Bytes, Value)>)
    | Vec(ext: nat, floats: seq<nat>)
    | Func(ext: nat, data: Bytes)

  /** How a length is written: in the lead byte, or in 1, 2 or 4 bytes after it. */
  datatype Header = Fix | In1 | In2 | In4

  function HeaderWidth(h: Header): nat {
    match h case Fix => 0 case In1 => 1 case In2 => 2 case In4 => 4
  }

  /** A value together with the format chosen for each of its parts. */
  datatype Wire =
    | WNil
    | WBool(b: bool)
    | WPosFix(u: nat)
    | WNegFix(v: int)
    | WUInt(width: nat, u: nat)
    | WInt(width: nat, v: int)
    | WFloat32(bits: nat)
    | WFloat64(bits: nat)
    | WStr(h: Header, utf8: Bytes)
    | WBin(h: Header, bytes: Bytes)
    | WArr(h: Header, items: seq<Wire>)
    | WMap(h: Header, entries: seq<WireEntry>)
    | WVec(h: Header, ext: byte, floats: seq<nat>)
    | WFunc(h: Header, ext: byte, data: Bytes)

  datatype WireEntry = WireEntry(h: Header, key: Bytes, value: Wire)

  const MAX_LENGTH: nat := 0x8000_0000

  predicate IsWidth(width: nat) { width in {1, 2, 4, 8} }

  /** `n` can be written after this header; lengths of 2^31 and more are left aside. */
  predicate LengthFits(h: Header, n: nat, fixLimit: nat) {
    match h
    case Fix => n < fixLimit
    case In1 => n < 0x100
    case In2 => n < 0x1_0000
    case In4 => n < MAX_LENGTH
  }

  function VectorSize(ext: int): nat { if ext == 20 then 2 else if ext == 21 then 3 else 4 }

  ghost predicate DistinctKeys(entries: seq<WireEntry>) {
    forall i, j :: 0 <= i < j < |entries| ==> entries[i].key != entries[j].key
  }

  /** The chosen formats can hold their contents. */
  ghost predicate Fits(w: Wire) {
    match w
    case WNil => true
    case WBool(_) => true
    case WPosFix(v) => v < 0x80
    case WNegFix(v) => -32 <= v < 0
    case WUInt(width, v) => IsWidth(width) && v < Pow256(width)
    case WInt(width, v) => IsWidth(width) && SignedFits(v, width)
    case WFloat32(bits) => bits < Pow256(4)
    case WFloat64(bits) => bits < Pow256(8)
    case WStr(h, utf8) => LengthFits(h, |utf8|, 32)
    case WBin(h, bytes) => h != Fix && LengthFits(h, |bytes|, 0)
    case WArr(h, items) => h != In1 && LengthFits(h, |items|, 16) && forall i :: 0 <= i < |items| ==> Fits(items[i])
    case WMap(h, entries) =>
      && h != In1 && LengthFits(h, |entries|, 16) && DistinctKeys(entries)
      && forall i :: 0 <= i < |entries| ==> LengthFits(entries[i].h, |entries[i].key|, 32) && Fits(entries[i].value)
    case WVec(h, ext, floats) =>
      && 20 <= ext <= 23 && |floats| == VectorSize(ext) && (h == Fix ==> |floats| != 3)
      && forall i :: 0 <= i < |floats| ==> floats[i] < Pow256(4)
    case WFunc(h, ext, data) =>
      (ext == 10 || ext == 11) && if h == Fix then |data| in {1, 2, 4, 8, 16} else LengthFits(h, |data|, 0)
  }

  function StrLead(h: Header, n: nat): byte
    requires LengthFits(h, n, 32)
  {
    match h case Fix => 0xA0 + n case In1 => 0xD9 case In2 => 0xDA case In4 => 0xDB
  }

  function UIntLead(width: nat): byte {
    if width == 1 then 0xCC else if width == 2 then 0xCD else if width == 4 then 0xCE else 0xCF
  }

  function IntLead(width: nat): byte {
    if width == 1 then 0xD0 else if width == 2 then 0xD1 else if width == 4 then 0xD2 else 0xD3
  }

  function LengthBytes(h: Header, n: nat): Bytes { ToBytes(n, HeaderWidth(h)) }

  function Floats(floats: seq<nat>): Bytes {
    if floats == [] then [] else Reversed(ToBytes(floats[0], 4)) + Floats(floats[1..])
  }

  /** The bytes of an encoding, format by format. */
  function Encoded(w: Wire): Bytes
    requires Fits(w)
    decreases w, 0
  {
    match w
    case WNil => [0xC0]
    case WBool(b) => [if b then 0xC3 else 0xC2]
    case WPosFix(v) => [v]
    case WNegFix(v) => [v + 256]
    case WUInt(width, v) =>
      [UIntLead(width)] + ToBytes(v, width)
    case WInt(width, v) =>
      [IntLead(width)] + ToBytes(UnsignedOf(v, width), width)
    case WFloat32(bits) => [0xCA] + ToBytes(bits, 4)
    case WFloat64(bits) => [0xCB] + ToBytes(bits, 8)
    case WStr(h, utf8) => EncodedStr(h, utf8)
    case WBin(h, bytes) =>
      [if h == In1 then 0xC4 else if h == In2 then 0xC5 else 0xC6] + (LengthBytes(h, |bytes|) + bytes)
    case WArr(h, items) => ArrayHead(h, |items|) + Concat(EncodedAll(items))
    case WMap(h, entries) => MapHead(h, |entries|) + Interleave(EncodedKeys(entries), EncodedValues(entries))
    case WVec(h, ext, floats) =>
      ExtLead(h, 4 * |floats|) + ([ext] + Floats(floats))
    case WFunc(h, ext, data) => ExtLead(h, |data|) + ([ext] + data)
  }

  function ExtLead(h: Header, n: nat): Bytes {
    if h == Fix then [if n == 1 then 0xD4 else if n == 2 then 0xD5 else if n == 4 then 0xD6 else if n == 8 then 0xD7 else 0xD8]
    else [if h == In1 then 0xC7 else if h == In2 then 0xC8 else 0xC9] + LengthBytes(h, n)
  }

  function EncodedStr(h: Header, utf8: Bytes): Bytes
    requires LengthFits(h, |utf8|, 32)
  {
    [StrLead(h, |utf8|)] + (LengthBytes(h, |utf8|) + utf8)
  }

  function MapHead(h: Header, n: nat): Bytes
    requires h != In1 && LengthFits(h, n, 16)
  {
    [if h == Fix then 0x80 + n else if h == In2 then 0xDE else 0xDF] + LengthBytes(h, n)
  }

  function ArrayHead(h: Header, n: nat): Bytes
    requires h != In1 && LengthFits(h, n, 16)
  {
    [if h == Fix then 0x90 + n else if h == In2 then 0xDC else 0xDD] + LengthBytes(h, n)
  }

  function Concat(chunks: seq<Bytes>): Bytes {
    if chunks == [] then [] else chunks[0] + Concat(chunks[1..])
  }

  /** Keys and values in turn. */
  function Interleave(keys: seq<Bytes>, values: seq<Bytes>): Bytes
    requires |keys| == |values|
  {
    if keys == [] then [] else keys[0] + (values[0] + Interleave(keys[1..], values[1..]))
  }

  function EncodedAll(items: seq<Wire>): (r: seq<Bytes>)
    requires forall i :: 0 <= i < |items| ==> Fits(items[i])
    ensures |r| == |items|
    decreases items, 1
  {
    if items == [] then [] else [Encoded(items[0])] + EncodedAll(items[1..])
  }

  function EncodedKeys(entries: seq<WireEntry>): (r: seq<Bytes>)
    requires forall i :: 0 <= i < |entries| ==> LengthFits(entries[i].h, |entries[i].key|, 32)
    ensures |r| == |entries|
  {
    if entries == [] then [] else [EncodedStr(entries[0].h, entries[0].key)] + EncodedKeys(entries[1..])
  }

  function EncodedValues(entries: seq<WireEntry>): (r: seq<Bytes>)
    requires forall i :: 0 <= i < |entries| ==> Fits(entries[i].value)
    ensures |r| == |entries|
    decreases entries, 1
  {
    if entries == [] then [] else [Encoded(entries[0].value)] + EncodedValues(entries[1..])
  }

  /** What an encoding denotes, its formats forgotten. */
  function Denotes(w: Wire): Value {
    match w
    case WNil => Nil
    case WBool(b) => Bool(b)
    case WPosFix(v) => Int(v)
    case WNegFix(v) => Int(v)
    case WUInt(_, v) => Int(v)
    case WInt(_, v) => Int(v)
    case WFloat32(bits) => Float32(bits)
    case WFloat64(bits) => Float64(bits)
    case WStr(_, utf8) => Str(utf8)
    case WBin(_, bytes) => Bin(bytes)
    case WArr(_, items) => Arr(DenotesAll(items))
    case WMap(_, entries) => Map(DenotesEntries(entries))
    case WVec(_, ext, floats) => Vec(ext, floats)
    case WFunc(_, ext, data) => Func(ext, data)
  }

  function DenotesAll(items: seq<Wire>): (r: seq<Value>)
    ensures |r| == |items|
  {
    if items == [] then [] else [Denotes(items[0])] + DenotesAll(items[1..])
  }

  function DenotesEntries(entries: seq<WireEntry>): (r: seq<(Bytes, Value)>)
    ensures |r| == |entries|
  {
    if entries == [] then [] else [(entries[0].key, Denotes(entries[0].value))] + DenotesEntries(entries[1..])
  }

  /** `s` is one of the encodings of `v`. */
  ghost predicate Encodes(v: Value, s: Bytes) {
    exists w :: Fits(w) && Denotes(w) == v && Encoded(w) == s
  }
}

/** The deserializer. */
module MsgPackDeserializing {
  import opened ByteStrings
  import opened MsgPackFormat

  datatype IntType = SByte | Byte | Int16 | UInt16 | Int32 | UInt32 | Int64 | UInt64

  /** The objects the deserializer creates. */
  datatype Object =
    | Null
    | Boolean(b: bool)
    | Integer(ty: IntType, v: int)
    | Single(bits: nat)
    | Double(bits: nat)
    | Text(utf8: Bytes)
    | Binary(bytes: Bytes)
    | List(items: seq<Object>)
    | Dictionary(entries: seq<Field>)
    | Vector(ext: nat, floats: seq<nat>)
    | FuncRef(ext: nat, data: Bytes)

  datatype Field = Field(key: Bytes, value: Object)

  datatype Error = EndOfStream | IndexOutOfRange | ArgumentOutOfRange | InvalidOperation(what: nat) | NullReference

  /** A value and the position after it, or the exception. */
  datatype Decoded<+T> = Done(value: T, pos: nat) | Fail(error: Error)

  /** `ToString()` of an object used as a key; only its value on strings is known. */
  type Show = f: Object -> Bytes | forall utf8 :: f(Text(utf8)) == utf8 witness (o: Object) => if o.Text? then o.utf8 else []

  datatype Unpacker =
    | FixNumPos | FixNumNeg | FixMap | FixArray | FixStr
    | UnpackNil | UnpackBool(b: bool)
    | UnpackUInt(width: nat) | UnpackInt(width: nat)
    | UnpackSingle | UnpackDouble
    | UnpackString(width: nat) | UnpackBin(width: nat)
    | UnpackArray(width: nat) | UnpackMap(width: nat)
    | FixExt(length: nat) | UnpackExt(width: nat)
    | Invalid

  function GetUnpacker(ty: byte): Unpacker {
    if ty < 0xC0 then
      if ty < 0x80 then FixNumPos else if ty < 0x90 then FixMap else if ty < 0xA0 then FixArray else FixStr
    else if ty > 0xDF then FixNumNeg
    else match ty
      case 0xC0 => UnpackNil
      case 0xC2 => UnpackBool(false)
      case 0xC3 => UnpackBool(true)
      case 0xC4 => UnpackBin(1)
      case 0xC5 => UnpackBin(2)
      case 0xC6 => UnpackBin(4)
      case 0xC7 => UnpackExt(1)
      case 0xC8 => UnpackExt(2)
      case 0xC9 => UnpackExt(4)
      case 0xCA => UnpackSingle
      case 0xCB => UnpackDouble
      case 0xCC => UnpackUInt(1)
      case 0xCD => UnpackUInt(2)
      case 0xCE => UnpackUInt(4)
      case 0xCF => UnpackUInt(8)
      case 0xD0 => UnpackInt(1)
      case 0xD1 => UnpackInt(2)
      case 0xD2 => UnpackInt(4)
      case 0xD3 => UnpackInt(8)
      case 0xD4 => FixExt(1)
      case 0xD5 => FixExt(2)
      case 0xD6 => FixExt(4)
      case 0xD7 => FixExt(8)
      case 0xD8 => FixExt(16)
      case 0xD9 => UnpackString(1)
      case 0xDA => UnpackString(2)
      case 0xDB => UnpackString(4)
      case 0xDC => UnpackArray(2)
      case 0xDD => UnpackArray(4)
      case 0xDE => UnpackMap(2)
      case 0xDF => UnpackMap(4)
      case _ => Invalid
  }

  function UIntType(width: nat): IntType {
    if width == 1 then Byte else if width == 2 then UInt16 else if width == 4 then UInt32 else UInt64
  }

  function SIntType(width: nat): IntType {
    if width == 1 then SByte else if width == 2 then Int16 else if width == 4 then Int32 else Int64
  }

  // ---------------------------------------------------------------- decoding as a function

  /** A big-endian number: one byte is read as such; more are read with `ReadBytes`, which comes
      back short at the end of the data, and then indexed. */
  function Number(s: Bytes, p: nat, width: nat): (r: Decoded<nat>)
    requires p <= |s|
    ensures r.Done? ==> r.pos == p + width <= |s| && r.value < Pow256(width)
  {
    if p + width <= |s| then BigEndianBound(s[p..p + width]); Done(BigEndian(s[p..p + width]), p + width)
    else Fail(if width == 1 then EndOfStream else IndexOutOfRange)
  }

  /** Four-byte lengths are read as signed numbers. */
  function Length(s: Bytes, p: nat, width: nat): (r: Decoded<int>)
    requires p <= |s|
    ensures r.Done? ==> r.pos == p + width <= |s|
  {
    match Number(s, p, width)
    case Fail(e) => Fail(e)
    case Done(n, q) => Done(if width == 4 then SignedOf(n, 4) else n, q)
  }

  /** `ReadBytes`: fewer bytes at the end of the data, an exception for a negative count. */
  function Raw(s: Bytes, p: nat, n: int): (r: Decoded<Bytes>)
    requires p <= |s|
    ensures r.Done? ==> p <= r.pos <= |s|
  {
    if n < 0 then Fail(ArgumentOutOfRange)
    else var q := if p + n <= |s| then p + n else |s|; Done(s[p..q], q)
  }

  function LittleFloats(s: Bytes, p: nat, n: nat): (r: Decoded<seq<nat>>)
    requires p <= |s|
    ensures r.Done? ==> p <= r.pos <= |s|
    decreases |s| - p
  {
    if n == 0 then Done([], p)
    else if p + 4 > |s| then Fail(EndOfStream)
    else match LittleFloats(s, p + 4, n - 1)
      case Fail(e) => Fail(e)
      case Done(fs, q) => Done([BigEndian(Reversed(s[p..p + 4]))] + fs, q)
  }

  /** The vector types ignore the length they were sent with. */
  function Extension(s: Bytes, p: nat, length: int): (r: Decoded<Object>)
    requires p <= |s|
    ensures r.Done? ==> p <= r.pos <= |s|
  {
    match Number(s, p, 1)
    case Fail(e) => Fail(e)
    case Done(ext, q) =>
      if ext == 10 || ext == 11 then
        match Raw(s, q, length)
        case Fail(e) => Fail(e)
        case Done(data, q') => Done(FuncRef(ext, data), q')
      else if 20 <= ext <= 23 then
        match LittleFloats(s, q, VectorSize(ext))
        case Fail(e) => Fail(e)
        case Done(fs, q') => Done(Vector(ext, fs), q')
      else Fail(InvalidOperation(ext))
  }

  function AsText(r: Decoded<Bytes>): Decoded<Object> {
    match r case Fail(e) => Fail(e) case Done(b, q) => Done(Text(b), q)
  }

  function AsBinary(r: Decoded<Bytes>): Decoded<Object> {
    match r case Fail(e) => Fail(e) case Done(b, q) => Done(Binary(b), q)
  }

  /** Setting a key keeps its place when it is already there. */
  function Put(entries: seq<Field>, key: Bytes, v: Object): seq<Field> {
    if entries == [] then [Field(key, v)]
    else if entries[0].key == key then [Field(key, v)] + entries[1..]
    else [entries[0]] + Put(entries[1..], key, v)
  }

  function Any(show: Show, s: Bytes, p: nat): (r: Decoded<Object>)
    requires p <= |s|
    ensures r.Done? ==> p < r.pos <= |s|
    decreases |s| - p, 0, 1
  {
    if p == |s| then Fail(EndOfStream) else FromLead(show, s, p)
  }

  /** Decodes the value whose lead byte is at `p`. */
  function FromLead(show: Show, s: Bytes, p: nat): (r: Decoded<Object>)
    requires p < |s|
    ensures r.Done? ==> p < r.pos <= |s|
    decreases |s| - p, 0, 0
  {
    AfterLead(show, s, p + 1, s[p])
  }

  function AfterLead(show: Show, s: Bytes, q: nat, ty: byte): (r: Decoded<Object>)
    requires q <= |s|
    ensures r.Done? ==> q <= r.pos <= |s|
    decreases |s| - q, 4
  {
    Unpack(show, s, q, ty, GetUnpacker(ty))
  }

  /** What the unpacker chosen by the lead byte `ty` does from position `q` on. */
  function Unpack(show: Show, s: Bytes, q: nat, ty: byte, unpacker: Unpacker): (r: Decoded<Object>)
    requires q <= |s|
    ensures r.Done? ==> q <= r.pos <= |s|
    decreases |s| - q, 3
  {
    match unpacker
    case FixNumPos => Done(Integer(Int32, ty), q)
    case FixNumNeg => Done(Integer(Int32, ty as int - 256), q)
    case UnpackNil => Done(Null, q)
    case UnpackBool(b) => Done(Boolean(b), q)
    case UnpackUInt(width) =>
      (match Number(s, q, width) case Fail(e) => Fail(e) case Done(n, q') => Done(Integer(UIntType(width), n), q'))
    case UnpackInt(width) =>
      (match Number(s, q, width) case Fail(e) => Fail(e) case Done(n, q') => Done(Integer(SIntType(width), SignedOf(n, width)), q'))
    case UnpackSingle => (match Number(s, q, 4) case Fail(e) => Fail(e) case Done(n, q') => Done(Single(n), q'))
    case UnpackDouble => (match Number(s, q, 8) case Fail(e) => Fail(e) case Done(n, q') => Done(Double(n), q'))
    case FixStr => AsText(Raw(s, q, ty % 32))
    case UnpackString(width) =>
      (match Length(s, q, width) case Fail(e) => Fail(e) case Done(n, q') => AsText(Raw(s, q', n)))
    case UnpackBin(width) =>
      (match Length(s, q, width) case Fail(e) => Fail(e) case Done(n, q') => AsBinary(Raw(s, q', n)))
    case FixArray => Items(show, s, q, ty % 16, [])
    case UnpackArray(width) =>
      (match Length(s, q, width) case Fail(e) => Fail(e) case Done(n, q') => Items(show, s, q', n, []))
    case FixMap => Entries(show, s, q, ty % 16, [])
    case UnpackMap(width) =>
      (match Length(s, q, width) case Fail(e) => Fail(e) case Done(n, q') => Entries(show, s, q', n, []))
    case FixExt(n) => Extension(s, q, n)
    case UnpackExt(width) =>
      (match Length(s, q, width) case Fail(e) => Fail(e) case Done(n, q') => Extension(s, q', n))
    case Invalid => Fail(InvalidOperation(ty))
  }

  /** Decodes `n` more items after `done`; a negative count reads none. */
  function Items(show: Show, s: Bytes, p: nat, n: int, done: seq<Object>): (r: Decoded<Object>)
    requires p <= |s|
    ensures r.Done? ==> p <= r.pos <= |s|
    decreases |s| - p, 2
  {
    if n <= 0 then Done(List(done), p)
    else match Any(show, s, p)
      case Fail(e) => Fail(e)
      case Done(o, q) => Items(show, s, q, n - 1, done + [o])
  }

  function Entries(show: Show, s: Bytes, p: nat, n: int, done: seq<Field>): (r: Decoded<Object>)
    requires p <= |s|
    ensures r.Done? ==> p <= r.pos <= |s|
    decreases |s| - p, 2
  {
    if n <= 0 then Done(Dictionary(done), p)
    else match Entry(show, s, p, done)
      case Fail(e) => Fail(e)
      case Done(more, q) => Entries(show, s, q, n - 1, more)
  }

  /** One key and its value, set in the dictionary so far. */
  function Entry(show: Show, s: Bytes, p: nat, done: seq<Field>): (r: Decoded<seq<Field>>)
    requires p <= |s|
    ensures r.Done? ==> p < r.pos <= |s|
    decreases |s| - p, 1
  {
    match Any(show, s, p)
    case Fail(e) => Fail(e)
    case Done(key, q) =>
      if key == Null then Fail(NullReference)
      else match Any(show, s, q)
        case Fail(e) => Fail(e)
        case Done(o, q') => Done(Put(done, show(key), o), q')
  }

  // ---------------------------------------------------------------- the reader and its methods

  class BinaryReader {
    const data: Bytes
    var pos: nat

    constructor (data: Bytes)
      ensures this.data == data && pos == 0
    {
      this.data, pos := data, 0;
    }

    predicate Valid()
      reads this
    {
      pos <= |data|
    }

    /** The position after a successful read is where the functions say it is. */
    ghost predicate At<T>(r: Decoded<T>)
      reads this
    {
      Valid() && (r.Done? ==> pos == r.pos)
    }

    method ReadNumber(width: nat) returns (r: Decoded<nat>)
      requires Valid()
      modifies this
      ensures r == Number(data, old(pos), width) && At(r)
    {
      if pos + width <= |data| {
        var n: nat, i := 0, 0;
        assert data[pos..pos] == [];
        while i < width
          invariant 0 <= i <= width && n == BigEndian(data[pos..pos + i])
        {
          assert data[pos..pos + i + 1][..i] == data[pos..pos + i];
          n := 256 * n + data[pos + i];
          i := i + 1;
        }
        BigEndianBound(data[pos..pos + width]);
        pos := pos + width;
        return Done(n, pos);
      } else {
        return Fail(if width == 1 then EndOfStream else IndexOutOfRange);
      }
    }

    method ReadLength(width: nat) returns (r: Decoded<int>)
      requires Valid()
      modifies this
      ensures r == Length(data, old(pos), width) && At(r)
    {
      var n := ReadNumber(width);
      match n
      case Fail(e) => r := Fail(e);
      case Done(v, q) => r := Done(if width == 4 then SignedOf(v, 4) else v, q);
    }

    method ReadBytes(n: int) returns (r: Decoded<Bytes>)
      requires Valid()
      modifies this
      ensures r == Raw(data, old(pos), n) && At(r)
    {
      if n < 0 {
        return Fail(ArgumentOutOfRange);
      }
      var q := if pos + n <= |data| then pos + n else |data|;
      r := Done(data[pos..q], q);
      pos := q;
    }

    method ReadSingles(n: nat) returns (r: Decoded<seq<nat>>)
      requires Valid()
      modifies this
      ensures r == LittleFloats(data, old(pos), n) && At(r)
      decreases n
    {
      if n == 0 {
        return Done([], pos);
      }
      if pos + 4 > |data| {
        return Fail(EndOfStream);
      }
      var bits := BigEndian(Reversed(data[pos..pos + 4]));
      pos := pos + 4;
      var rest := ReadSingles(n - 1);
      match rest
      case Fail(e) => r := Fail(e);
      case Done(fs, q) => r := Done([bits] + fs, q);
    }
  }

  method UnpackExtension(reader: BinaryReader, length: int) returns (r: Decoded<Object>)
    requires reader.Valid()
    modifies reader
    ensures r == Extension(reader.data, old(reader.pos), length) && reader.At(r)
  {
    var ext := reader.ReadNumber(1);
    if ext.Fail? {
      return Fail(ext.error);
    }
    if ext.value !in {10, 11, 20, 21, 22, 23} {
      return Fail(InvalidOperation(ext.value));
    }
    if ext.value == 10 || ext.value == 11 {
      var raw := reader.ReadBytes(length);
      match raw
      case Fail(e) => r := Fail(e);
      case Done(b, q) => r := Done(FuncRef(ext.value, b), q);
    } else {
      var fs := reader.ReadSingles(VectorSize(ext.value));
      match fs
      case Fail(e) => r := Fail(e);
      case Done(v, q) => r := Done(Vector(ext.value, v), q);
    }
  }

  /** The formats that hold no other values. */
  method UnpackScalar(ghost show: Show, reader: BinaryReader, ty: byte) returns (r: Decoded<Object>)
    requires reader.Valid()
    requires !(GetUnpacker(ty) in {FixArray, FixMap} || GetUnpacker(ty).UnpackArray? || GetUnpacker(ty).UnpackMap?)
    modifies reader
    ensures r == AfterLead(show, reader.data, old(reader.pos), ty)
    ensures reader.At(r)
  {
    var n: Decoded<nat>;
    var len: Decoded<int>;
    var raw: Decoded<Bytes>;
    match GetUnpacker(ty)
    case FixNumPos => r := Done(Integer(Int32, ty), reader.pos);
    case FixNumNeg => r := Done(Integer(Int32, ty as int - 256), reader.pos);
    case UnpackNil => r := Done(Null, reader.pos);
    case UnpackBool(b) => r := Done(Boolean(b), reader.pos);
    case UnpackUInt(width) =>
      n := reader.ReadNumber(width);
      r := if n.Fail? then Fail(n.error) else Done(Integer(UIntType(width), n.value), n.pos);
    case UnpackInt(width) =>
      n := reader.ReadNumber(width);
      r := if n.Fail? then Fail(n.error) else Done(Integer(SIntType(width), SignedOf(n.value, width)), n.pos);
    case UnpackSingle =>
      n := reader.ReadNumber(4);
      r := if n.Fail? then Fail(n.error) else Done(Single(n.value), n.pos);
    case UnpackDouble =>
      n := reader.ReadNumber(8);
      r := if n.Fail? then Fail(n.error) else Done(Double(n.value), n.pos);
    case FixStr =>
      raw := reader.ReadBytes(ty % 32);
      r := AsText(raw);
    case UnpackString(width) =>
      len := reader.ReadLength(width);
      if len.Fail? {
        return Fail(len.error);
      }
      raw := reader.ReadBytes(len.value);
      r := AsText(raw);
    case UnpackBin(width) =>
      len := reader.ReadLength(width);
      if len.Fail? {
        return Fail(len.error);
      }
      raw := reader.ReadBytes(len.value);
      r := AsBinary(raw);
    case FixExt(k) => r := UnpackExtension(reader, k);
    case UnpackExt(width) =>
      len := reader.ReadLength(width);
      if len.Fail? {
        return Fail(len.error);
      }
      r := UnpackExtension(reader, len.value);
    case Invalid => r := Fail(InvalidOperation(ty));
  }

  method UnpackAny(show: Show, reader: BinaryReader) returns (r: Decoded<Object>)
    requires reader.Valid()
    modifies reader
    ensures r == Any(show, reader.data, old(reader.pos)) && reader.At(r)
    decreases |reader.data| - reader.pos, 0
  {
    if reader.pos == |reader.data| {
      return Fail(EndOfStream);
    }
    var ty := reader.data[reader.pos];
    assert Any(show, reader.data, reader.pos) == FromLead(show, reader.data, reader.pos);
    assert FromLead(show, reader.data, reader.pos) == AfterLead(show, reader.data, reader.pos + 1, ty);
    reader.pos := reader.pos + 1;
    var len: Decoded<int>;
    match GetUnpacker(ty)
    case FixArray => r := UnpackItems(show, reader, ty % 16);
    case UnpackArray(width) =>
      len := reader.ReadLength(width);
      if len.Fail? {
        return Fail(len.error);
      }
      r := UnpackItems(show, reader, len.value);
    case FixMap => r := UnpackEntries(show, reader, ty % 16);
    case UnpackMap(width) =>
      len := reader.ReadLength(width);
      if len.Fail? {
        return Fail(len.error);
      }
      r := UnpackEntries(show, reader, len.value);
    case _ => r := UnpackScalar(show, reader, ty);
  }

  method UnpackItems(show: Show, reader: BinaryReader, length: int) returns (r: Decoded<Object>)
    requires reader.Valid()
    modifies reader
    ensures r == Items(show, reader.data, old(reader.pos), length, []) && reader.At(r)
    decreases |reader.data| - reader.pos, 2
  {
    var items: seq<Object> := [];
    var i := 0;
    while i < length
      invariant reader.Valid() && old(reader.pos) <= reader.pos && 0 <= i
      invariant i <= length || i == 0
      invariant Items(show, reader.data, old(reader.pos), length, []) == Items(show, reader.data, reader.pos, length - i, items)
    {
      var v := UnpackAny(show, reader);
      if v.Fail? {
        return Fail(v.error);
      }
      items := items + [v.value];
      i := i + 1;
    }
    return Done(List(items), reader.pos);
  }

  method UnpackEntry(show: Show, reader: BinaryReader, entries: seq<Field>) returns (r: Decoded<seq<Field>>)
    requires reader.Valid()
    modifies reader
    ensures r == Entry(show, reader.data, old(reader.pos), entries) && reader.At(r)
    decreases |reader.data| - reader.pos, 1
  {
    var key := UnpackAny(show, reader);
    if key.Fail? {
      return Fail(key.error);
    }
    if key.value == Null {
      return Fail(NullReference);
    }
    var v := UnpackAny(show, reader);
    if v.Fail? {
      return Fail(v.error);
    }
    return Done(Put(entries, show(key.value), v.value), reader.pos);
  }

  method UnpackEntries(show: Show, reader: BinaryReader, length: int) returns (r: Decoded<Object>)
    requires reader.Valid()
    modifies reader
    ensures r == Entries(show, reader.data, old(reader.pos), length, []) && reader.At(r)
    decreases |reader.data| - reader.pos, 2
  {
    var entries: seq<Field> := [];
    var i := 0;
    while i < length
      invariant reader.Valid() && old(reader.pos) <= reader.pos && 0 <= i
      invariant i <= length || i == 0
      invariant Entries(show, reader.data, old(reader.pos), length, []) == Entries(show, reader.data, reader.pos, length - i, entries)
    {
      var more := UnpackEntry(show, reader, entries);
      if more.Fail? {
        return Fail(more.error);
      }
      entries := more.value;
      i := i + 1;
    }
    return Done(Dictionary(entries), reader.pos);
  }
}

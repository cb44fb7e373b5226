/** What single bytes mean to the deserializer: numbers by the weight of each byte, and the vector types
    with as many floats as each has. */
module MsgPackLayouts {
  import opened ByteStrings
  import opened MsgPackFormat
  import opened MsgPackDeserializing
  import opened MsgPackRoundTrip
  import opened MsgPackAccepted
  import opened MsgPackSerializing

  // ---------------------------------------------------------------- numbers

  /** Two, four and eight bytes from `p` on, the first weighing most. */
  function Two(s: Bytes, p: nat): nat
    requires p + 2 <= |s|
  {
    0x100 * s[p] as int + s[p + 1] as int
  }

  function Four(s: Bytes, p: nat): nat
    requires p + 4 <= |s|
  {
    0x1_0000 * Two(s, p) + Two(s, p + 2)
  }

  function Eight(s: Bytes, p: nat): nat
    requires p + 8 <= |s|
  {
    0x1_0000_0000 * Four(s, p) + Four(s, p + 4)
  }

  lemma {:induction false} BigEndianJoin(x: Bytes, y: Bytes)
    ensures BigEndian(x + y) == BigEndian(x) * Pow256(|y|) + BigEndian(y)
  {
    if y == [] {
      assert x + y == x;
    } else {
      var n := |y| - 1;
      assert (x + y)[..|x + y| - 1] == x + y[..n];
      BigEndianJoin(x, y[..n]);
      Weight(BigEndian(x), Pow256(n), BigEndian(y[..n]));
    }
  }

  lemma Weight(a: int, p: int, b: int)
    ensures 256 * (a * p + b) == a * (256 * p) + 256 * b
  {
  }

  lemma BytesWeigh(s: Bytes, p: nat)
    ensures p + 1 <= |s| ==> BigEndian(s[p..p + 1]) == s[p]
    ensures p + 2 <= |s| ==> BigEndian(s[p..p + 2]) == Two(s, p)
    ensures p + 4 <= |s| ==> BigEndian(s[p..p + 4]) == Four(s, p)
    ensures p + 8 <= |s| ==> BigEndian(s[p..p + 8]) == Eight(s, p)
  {
    PowerValues();
    if p + 1 <= |s| {
      OneWeighs(s, p);
    }
    if p + 2 <= |s| {
      TwoWeigh(s, p);
    }
    if p + 4 <= |s| {
      FourWeigh(s, p);
    }
    if p + 8 <= |s| {
      FourWeigh(s, p);
      FourWeigh(s, p + 4);
      assert s[p..p + 8] == s[p..p + 4] + s[p + 4..p + 8];
      BigEndianJoin(s[p..p + 4], s[p + 4..p + 8]);
    }
  }

  lemma OneWeighs(s: Bytes, p: nat)
    requires p + 1 <= |s|
    ensures BigEndian(s[p..p + 1]) == s[p]
  {
    assert s[p..p + 1] == [s[p]] && [s[p]][..0] == [];
  }

  lemma TwoWeigh(s: Bytes, p: nat)
    requires p + 2 <= |s|
    ensures BigEndian(s[p..p + 2]) == Two(s, p)
  {
    OneWeighs(s, p);
    OneWeighs(s, p + 1);
    assert s[p..p + 2] == s[p..p + 1] + s[p + 1..p + 2];
    BigEndianJoin(s[p..p + 1], s[p + 1..p + 2]);
    PowerValues();
  }

  lemma FourWeigh(s: Bytes, p: nat)
    requires p + 4 <= |s|
    ensures BigEndian(s[p..p + 4]) == Four(s, p)
  {
    TwoWeigh(s, p);
    TwoWeigh(s, p + 2);
    assert s[p..p + 4] == s[p..p + 2] + s[p + 2..p + 4];
    BigEndianJoin(s[p..p + 2], s[p + 2..p + 4]);
    PowerValues();
  }

  function Unsigned(s: Bytes, p: nat, width: nat): nat
    requires p + width <= |s| && width in {1, 2, 4, 8}
  {
    if width == 1 then s[p] as int else if width == 2 then Two(s, p) else if width == 4 then Four(s, p) else Eight(s, p)
  }

  /** The number after each lead byte of an unsigned integer, and its type. */
  lemma UnsignedAre(show: Show, s: Bytes, p: nat)
    requires p < |s|
    ensures s[p] < 0x80 ==> Any(show, s, p) == Done(Integer(Int32, s[p]), p + 1)
    ensures s[p] == 0xCC && p + 2 <= |s| ==> Any(show, s, p) == Done(Integer(Byte, s[p + 1]), p + 2)
    ensures s[p] == 0xCD && p + 3 <= |s| ==> Any(show, s, p) == Done(Integer(UInt16, Two(s, p + 1)), p + 3)
    ensures s[p] == 0xCE && p + 5 <= |s| ==> Any(show, s, p) == Done(Integer(UInt32, Four(s, p + 1)), p + 5)
    ensures s[p] == 0xCF && p + 9 <= |s| ==> Any(show, s, p) == Done(Integer(UInt64, Eight(s, p + 1)), p + 9)
  {
    var ty := s[p];
    if ty < 0x80 {
      AnyBy(show, s, p, ty, FixNumPos);
    } else if 0xCC <= ty <= 0xCF {
      var width := if ty == 0xCC then 1 else if ty == 0xCD then 2 else if ty == 0xCE then 4 else 8;
      if p + 1 + width <= |s| {
        UnsignedRead(show, s, p, width);
      }
    }
  }

  lemma UnsignedRead(show: Show, s: Bytes, p: nat, width: nat)
    requires p + 1 + width <= |s| && width in {1, 2, 4, 8} && GetUnpacker(s[p]) == UnpackUInt(width)
    ensures Any(show, s, p) == Done(Integer(UIntType(width), Unsigned(s, p + 1, width)), p + 1 + width)
  {
    AnyBy(show, s, p, s[p], UnpackUInt(width));
    UnsignedUnpacks(show, s, p + 1, s[p], width);
    BytesWeigh(s, p + 1);
  }

  lemma UnsignedUnpacks(show: Show, s: Bytes, q: nat, ty: byte, width: nat)
    requires q + width <= |s|
    ensures Unpack(show, s, q, ty, UnpackUInt(width)) == Done(Integer(UIntType(width), BigEndian(s[q..q + width])), q + width)
  {
  }

  lemma SignedUnpacks(show: Show, s: Bytes, q: nat, ty: byte, width: nat)
    requires q + width <= |s|
    ensures Unpack(show, s, q, ty, UnpackInt(width)) ==
            Done(Integer(SIntType(width), SignedOf(BigEndian(s[q..q + width]), width)), q + width)
  {
  }

  function Signed(n: nat, range: nat): int { if 2 * n < range then n else n - range }

  /** The same for signed ones: from half the range on, numbers are negative. */
  lemma SignedAre(show: Show, s: Bytes, p: nat)
    requires p < |s|
    ensures s[p] >= 0xE0 ==> Any(show, s, p) == Done(Integer(Int32, s[p] as int - 0x100), p + 1)
    ensures s[p] == 0xD0 && p + 2 <= |s| ==> Any(show, s, p) == Done(Integer(SByte, Signed(s[p + 1], 0x100)), p + 2)
    ensures s[p] == 0xD1 && p + 3 <= |s| ==> Any(show, s, p) == Done(Integer(Int16, Signed(Two(s, p + 1), 0x1_0000)), p + 3)
    ensures s[p] == 0xD2 && p + 5 <= |s| ==> Any(show, s, p) == Done(Integer(Int32, Signed(Four(s, p + 1), 0x1_0000_0000)), p + 5)
    ensures s[p] == 0xD3 && p + 9 <= |s| ==>
              Any(show, s, p) == Done(Integer(Int64, Signed(Eight(s, p + 1), 0x1_0000_0000_0000_0000)), p + 9)
  {
    var ty := s[p];
    PowerValues();
    if ty >= 0xE0 {
      AnyBy(show, s, p, ty, FixNumNeg);
    } else if 0xD0 <= ty <= 0xD3 {
      var width := if ty == 0xD0 then 1 else if ty == 0xD1 then 2 else if ty == 0xD2 then 4 else 8;
      if p + 1 + width <= |s| {
        SignedRead(show, s, p, width);
      }
    }
  }

  lemma SignedRead(show: Show, s: Bytes, p: nat, width: nat)
    requires p + 1 + width <= |s| && width in {1, 2, 4, 8} && GetUnpacker(s[p]) == UnpackInt(width)
    ensures Any(show, s, p) == Done(Integer(SIntType(width), Signed(Unsigned(s, p + 1, width), Pow256(width))), p + 1 + width)
  {
    AnyBy(show, s, p, s[p], UnpackInt(width));
    SignedUnpacks(show, s, p + 1, s[p], width);
    SignedIs(s, p + 1, width);
  }

  lemma SignedIs(s: Bytes, p: nat, width: nat)
    requires p + width <= |s| && width in {1, 2, 4, 8}
    ensures SignedOf(BigEndian(s[p..p + width]), width) == Signed(Unsigned(s, p, width), Pow256(width))
  {
    BytesWeigh(s, p);
  }

  lemma AnyBy(show: Show, s: Bytes, p: nat, lead: byte, unpacker: Unpacker)
    requires p < |s| && s[p] == lead && unpacker == GetUnpacker(lead)
    ensures Any(show, s, p) == Unpack(show, s, p + 1, lead, unpacker)
  {
    ReadsBy(show, s, p, lead, unpacker);
  }

  /** The lead bytes of nil and the booleans; one lead byte has no meaning. */
  lemma ScalarsAre(show: Show, s: Bytes, p: nat)
    requires p < |s|
    ensures s[p] == 0xC0 ==> Any(show, s, p) == Done(Null, p + 1)
    ensures s[p] == 0xC1 ==> Any(show, s, p) == Fail(InvalidOperation(0xC1))
    ensures s[p] == 0xC2 ==> Any(show, s, p) == Done(Boolean(false), p + 1)
    ensures s[p] == 0xC3 ==> Any(show, s, p) == Done(Boolean(true), p + 1)
  {
    var ty := s[p];
    if ty == 0xC0 {
      AnyBy(show, s, p, ty, UnpackNil);
      NilUnpacks(show, s, p + 1, ty);
    } else if ty == 0xC1 {
      AnyBy(show, s, p, ty, Invalid);
      NilUnpacks(show, s, p + 1, ty);
    } else if ty == 0xC2 || ty == 0xC3 {
      AnyBy(show, s, p, ty, UnpackBool(ty == 0xC3));
      BoolUnpacks(show, s, p + 1, ty, ty == 0xC3);
    }
  }

  lemma NilUnpacks(show: Show, s: Bytes, q: nat, ty: byte)
    requires q <= |s|
    ensures Unpack(show, s, q, ty, UnpackNil) == Done(Null, q)
    ensures Unpack(show, s, q, ty, Invalid) == Fail(InvalidOperation(ty))
  {
  }

  lemma BoolUnpacks(show: Show, s: Bytes, q: nat, ty: byte, b: bool)
    requires q <= |s|
    ensures Unpack(show, s, q, ty, UnpackBool(b)) == Done(Boolean(b), q)
  {
  }

  /** The bits of floating point numbers come first byte first. */
  lemma FloatsAre(show: Show, s: Bytes, p: nat)
    requires p < |s|
    ensures s[p] == 0xCA && p + 5 <= |s| ==> Any(show, s, p) == Done(Single(Four(s, p + 1)), p + 5)
    ensures s[p] == 0xCB && p + 9 <= |s| ==> Any(show, s, p) == Done(Double(Eight(s, p + 1)), p + 9)
  {
    if s[p] == 0xCA || s[p] == 0xCB {
      AnyBy(show, s, p, s[p], if s[p] == 0xCA then UnpackSingle else UnpackDouble);
      BytesWeigh(s, p + 1);
    }
  }

  /** A number cut short ends the data, with one exception for single bytes and another for longer ones. */
  lemma CutNumbersFail(show: Show, s: Bytes, p: nat)
    requires p < |s|
    ensures (s[p] == 0xCC || s[p] == 0xD0) && p + 2 > |s| ==> Any(show, s, p) == Fail(EndOfStream)
    ensures (s[p] == 0xCD || s[p] == 0xD1) && p + 3 > |s| ==> Any(show, s, p) == Fail(IndexOutOfRange)
    ensures (s[p] == 0xCA || s[p] == 0xCE || s[p] == 0xD2) && p + 5 > |s| ==> Any(show, s, p) == Fail(IndexOutOfRange)
    ensures (s[p] == 0xCB || s[p] == 0xCF || s[p] == 0xD3) && p + 9 > |s| ==> Any(show, s, p) == Fail(IndexOutOfRange)
  {
    AnyBy(show, s, p, s[p], GetUnpacker(s[p]));
  }

  // ---------------------------------------------------------------- texts, data and lists

  /** A header that announces `n` bytes of text, in five bits, one byte, two or four; `q` is the position
      after it. */
  predicate AnnouncesText(s: Bytes, p: nat, n: nat, q: nat) {
    p < q <= |s| && n < 0x8000_0000
    && ((0xA0 <= s[p] < 0xC0 && n == s[p] as int - 0xA0 && q == p + 1) || LengthFollows(s, p, 0xD9, 0xDA, 0xDB, n, q))
  }

  predicate LengthFollows(s: Bytes, p: nat, one: byte, two: byte, four: byte, n: nat, q: nat)
    requires p < q <= |s|
  {
    || (s[p] == one && q == p + 2 && n == s[p + 1])
    || (s[p] == two && q == p + 3 && n == Two(s, p + 1))
    || (s[p] == four && q == p + 5 && n == Four(s, p + 1))
  }

  lemma LengthRead(s: Bytes, p: nat, width: nat, n: nat)
    requires p + width <= |s| && n < 0x8000_0000 && width in {1, 2, 4} && n == Unsigned(s, p, width)
    ensures Length(s, p, width) == Done(n, p + width)
  {
    BytesWeigh(s, p);
    PowerValues();
  }

  lemma TextIs(show: Show, s: Bytes, p: nat, n: nat, q: nat)
    requires AnnouncesText(s, p, n, q) && q + n <= |s|
    ensures Any(show, s, p) == Done(Text(s[q..q + n]), q + n)
  {
    if s[p] >= 0xD9 {
      LongTextBy(show, s, p, if s[p] == 0xD9 then 1 else if s[p] == 0xDA then 2 else 4, n, q);
    } else {
      AnyBy(show, s, p, s[p], FixStr);
      ShortTextUnpacks(show, s, q, s[p], n);
    }
  }

  lemma LongTextBy(show: Show, s: Bytes, p: nat, width: nat, n: nat, q: nat)
    requires q == p + 1 + width && q + n <= |s| && n < 0x8000_0000 && width in {1, 2, 4} && n == Unsigned(s, p + 1, width)
    requires GetUnpacker(s[p]) == UnpackString(width)
    ensures Any(show, s, p) == Done(Text(s[q..q + n]), q + n)
  {
    AnyBy(show, s, p, s[p], UnpackString(width));
    LengthRead(s, p + 1, width, n);
    TextUnpacks(show, s, p + 1, s[p], width, n, q);
  }

  lemma TextUnpacks(show: Show, s: Bytes, from: nat, ty: byte, width: nat, n: nat, q: nat)
    requires q + n <= |s| && from <= q && Length(s, from, width) == Done(n, q)
    ensures Unpack(show, s, from, ty, UnpackString(width)) == Done(Text(s[q..q + n]), q + n)
  {
  }

  lemma ShortTextUnpacks(show: Show, s: Bytes, q: nat, ty: byte, n: nat)
    requires q + n <= |s| && 0xA0 <= ty < 0xC0 && n == ty as int - 0xA0
    ensures Unpack(show, s, q, ty, FixStr) == Done(Text(s[q..q + n]), q + n)
  {
    assert ty % 32 == n;
  }

  /** Data is announced by one byte, two or four. */
  lemma BinaryIs(show: Show, s: Bytes, p: nat, n: nat, q: nat)
    requires p < q <= |s| && n < 0x8000_0000 && LengthFollows(s, p, 0xC4, 0xC5, 0xC6, n, q) && q + n <= |s|
    ensures Any(show, s, p) == Done(Binary(s[q..q + n]), q + n)
  {
    BinaryBy(show, s, p, if s[p] == 0xC4 then 1 else if s[p] == 0xC5 then 2 else 4, n, q);
  }

  lemma BinaryBy(show: Show, s: Bytes, p: nat, width: nat, n: nat, q: nat)
    requires q == p + 1 + width && q + n <= |s| && n < 0x8000_0000 && width in {1, 2, 4} && n == Unsigned(s, p + 1, width)
    requires GetUnpacker(s[p]) == UnpackBin(width)
    ensures Any(show, s, p) == Done(Binary(s[q..q + n]), q + n)
  {
    AnyBy(show, s, p, s[p], UnpackBin(width));
    LengthRead(s, p + 1, width, n);
    BinaryUnpacks(show, s, p + 1, s[p], width, n, q);
  }

  lemma BinaryUnpacks(show: Show, s: Bytes, from: nat, ty: byte, width: nat, n: nat, q: nat)
    requires q + n <= |s| && from <= q && Length(s, from, width) == Done(n, q)
    ensures Unpack(show, s, from, ty, UnpackBin(width)) == Done(Binary(s[q..q + n]), q + n)
  {
  }

  /** Values one after the other from `p` to `end`. */
  predicate InTurn(show: Show, s: Bytes, p: nat, objects: seq<Object>, end: nat)
    requires p <= |s|
    decreases |objects|
  {
    if objects == [] then p == end
    else match Any(show, s, p)
      case Fail(_) => false
      case Done(o, q) => o == objects[0] && InTurn(show, s, q, objects[1..], end)
  }

  lemma {:induction false} ItemsInTurn(show: Show, s: Bytes, p: nat, done: seq<Object>, objects: seq<Object>, end: nat)
    requires p <= |s| && InTurn(show, s, p, objects, end)
    ensures Items(show, s, p, |objects|, done) == Done(List(done + objects), end)
    decreases |objects|
  {
    if objects == [] {
      assert done + [] == done;
    } else {
      var q := Any(show, s, p).pos;
      ItemsInTurn(show, s, q, done + [objects[0]], objects[1..], end);
      assert done + [objects[0]] + objects[1..] == done + objects;
    }
  }

  /** A header of four bits, or followed by two bytes or four, and then as many values, make a list. */
  lemma ListIs(show: Show, s: Bytes, p: nat, objects: seq<Object>, q: nat, end: nat)
    requires p < q <= |s| && |objects| < 0x8000_0000 && InTurn(show, s, q, objects, end)
    requires || (0x90 <= s[p] < 0xA0 && |objects| == s[p] as int - 0x90 && q == p + 1)
             || (s[p] == 0xDC && q == p + 3 && |objects| == Two(s, p + 1))
             || (s[p] == 0xDD && q == p + 5 && |objects| == Four(s, p + 1))
    ensures Any(show, s, p) == Done(List(objects), end)
  {
    ItemsInTurn(show, s, q, [], objects, end);
    assert [] + objects == objects;
    if s[p] >= 0xDC {
      LongListBy(show, s, p, if s[p] == 0xDC then 2 else 4, |objects|);
    } else {
      ShortListBy(show, s, p, |objects|);
    }
  }

  lemma LongListBy(show: Show, s: Bytes, p: nat, width: nat, n: nat)
    requires p + 1 + width <= |s| && n < 0x8000_0000 && width in {2, 4} && n == Unsigned(s, p + 1, width)
    requires GetUnpacker(s[p]) == UnpackArray(width)
    ensures Any(show, s, p) == Items(show, s, p + 1 + width, n, [])
  {
    AnyBy(show, s, p, s[p], UnpackArray(width));
    LengthRead(s, p + 1, width, n);
    ListUnpacks(show, s, p + 1, s[p], width, n);
  }

  lemma ShortListBy(show: Show, s: Bytes, p: nat, n: nat)
    requires p < |s| && 0x90 <= s[p] < 0xA0 && n == s[p] as int - 0x90
    ensures Any(show, s, p) == Items(show, s, p + 1, n, [])
  {
    AnyBy(show, s, p, s[p], FixArray);
    ShortListUnpacks(show, s, p + 1, s[p], n);
  }

  lemma ListUnpacks(show: Show, s: Bytes, q: nat, ty: byte, width: nat, n: nat)
    requires q + width <= |s| && Length(s, q, width) == Done(n, q + width)
    ensures Unpack(show, s, q, ty, UnpackArray(width)) == Items(show, s, q + width, n, [])
  {
  }

  lemma ShortListUnpacks(show: Show, s: Bytes, q: nat, ty: byte, n: nat)
    requires q <= |s| && 0x90 <= ty < 0xA0 && n == ty as int - 0x90
    ensures Unpack(show, s, q, ty, FixArray) == Items(show, s, q, n, [])
  {
    assert ty % 16 == n;
  }

  // ---------------------------------------------------------------- vectors

  /** The float at `p`, the last of its four bytes weighing most. */
  function FloatAt(s: Bytes, p: nat): nat
    requires p + 4 <= |s|
  {
    s[p] as int + 0x100 * s[p + 1] as int + 0x1_0000 * s[p + 2] as int + 0x100_0000 * s[p + 3] as int
  }

  lemma FloatWeighs(s: Bytes, p: nat)
    requires p + 4 <= |s|
    ensures BigEndian(Reversed(s[p..p + 4])) == FloatAt(s, p)
  {
    var r := Reversed(s[p..p + 4]);
    FourWeigh(r, 0);
    assert r[0..4] == r;
  }

  /** A header in any of the formats that can announce `length` bytes of an extension; `q` is the position
      after it. */
  predicate Announces(s: Bytes, p: nat, length: nat, q: nat) {
    p < q < |s| && length < 0x100
    && ((s[p] == 0xD7 && length == 8 && q == p + 1)
        || (s[p] == 0xD8 && length == 16 && q == p + 1)
        || (s[p] == 0xC7 && q == p + 2 && s[p + 1] == length)
        || (s[p] == 0xC8 && q == p + 3 && Two(s, p + 1) == length)
        || (s[p] == 0xC9 && q == p + 5 && Four(s, p + 1) == length))
  }

  lemma AnnouncedExtension(show: Show, s: Bytes, p: nat, length: nat, q: nat)
    requires Announces(s, p, length, q)
    ensures Any(show, s, p) == Extension(s, q, length) && (EncodingAt(s, p) <==> CleanExtension(s, q, length))
  {
    if s[p] >= 0xD4 {
      FixExtension(show, s, p, length, q);
    } else {
      LongExtension(show, s, p, length, if s[p] == 0xC7 then 1 else if s[p] == 0xC8 then 2 else 4, q);
    }
  }

  lemma FixExtension(show: Show, s: Bytes, p: nat, length: nat, q: nat)
    requires q == p + 1 < |s| && ((s[p] == 0xD7 && length == 8) || (s[p] == 0xD8 && length == 16))
    ensures Any(show, s, p) == Extension(s, q, length) && (EncodingAt(s, p) <==> CleanExtension(s, q, length))
  {
    ReadsBy(show, s, p, s[p], FixExt(length));
    FixExtUnpacks(show, s, q, s[p], length);
  }

  lemma LongExtension(show: Show, s: Bytes, p: nat, length: nat, width: nat, q: nat)
    requires q == p + 1 + width < |s| && GetUnpacker(s[p]) == UnpackExt(width) && length < 0x100 && width in {1, 2, 4}
    requires length == Unsigned(s, p + 1, width)
    ensures Any(show, s, p) == Extension(s, q, length) && (EncodingAt(s, p) <==> CleanExtension(s, q, length))
  {
    LengthRead(s, p + 1, width, length);
    LongExtReads(show, s, p, s[p], width, length, q);
  }

  lemma FixExtUnpacks(show: Show, s: Bytes, q: nat, ty: byte, n: nat)
    requires q <= |s|
    ensures Unpack(show, s, q, ty, FixExt(n)) == Extension(s, q, n)
    ensures CleanUnpack(show, s, q, ty, FixExt(n)) <==> CleanExtension(s, q, n)
  {
  }

  /** An encoding of `value` at `p`, which decodes to it and ends at `end`. */
  ghost predicate Holds(show: Show, s: Bytes, p: nat, value: Object, end: nat)
    requires p <= |s|
  {
    match Any(show, s, p)
    case Done(v, stop) => v == value && stop == end && EncodingAt(s, p)
    case Fail(_) => false
  }

  /** A vector2, in any format, is its two floats, and ends after them. */
  lemma Vector2Is(show: Show, s: Bytes, p: nat, q: nat, floats: seq<nat>)
    requires Announces(s, p, 8, q) && s[q] == 20 && q + 9 <= |s|
    requires floats == [FloatAt(s, q + 1), FloatAt(s, q + 5)]
    ensures Holds(show, s, p, Vector(20, floats), q + 9)
  {
    TwoFloats(s, q + 1, floats);
    VectorIs(show, s, p, q, 20, floats);
  }

  /** A vector3 is its three floats. */
  lemma Vector3Is(show: Show, s: Bytes, p: nat, q: nat, floats: seq<nat>)
    requires Announces(s, p, 12, q) && s[q] == 21 && q + 13 <= |s|
    requires floats == [FloatAt(s, q + 1), FloatAt(s, q + 5), FloatAt(s, q + 9)]
    ensures Holds(show, s, p, Vector(21, floats), q + 13)
  {
    ThreeFloats(s, q + 1, floats);
    VectorIs(show, s, p, q, 21, floats);
  }

  /** A vector4 or a quaternion is its four floats. */
  lemma Vector4Is(show: Show, s: Bytes, p: nat, q: nat, floats: seq<nat>)
    requires Announces(s, p, 16, q) && (s[q] == 22 || s[q] == 23) && q + 17 <= |s|
    requires floats == [FloatAt(s, q + 1), FloatAt(s, q + 5), FloatAt(s, q + 9), FloatAt(s, q + 13)]
    ensures Holds(show, s, p, Vector(s[q], floats), q + 17)
  {
    FourFloats(s, q + 1, floats);
    VectorIs(show, s, p, q, s[q], floats);
  }

  lemma VectorIs(show: Show, s: Bytes, p: nat, q: nat, ext: byte, floats: seq<nat>)
    requires Announces(s, p, 4 * |floats|, q) && s[q] == ext && 20 <= ext <= 23 && |floats| == VectorSize(ext)
    requires AreFloats(s, q + 1, floats)
    ensures Holds(show, s, p, Vector(ext, floats), q + 1 + 4 * |floats|)
  {
    AnnouncedExtension(show, s, p, 4 * |floats|, q);
    VectorExtension(s, q, 4 * |floats|);
  }

  predicate AreFloats(s: Bytes, p: nat, floats: seq<nat>) {
    p <= |s| && LittleFloats(s, p, |floats|) == Done(floats, p + 4 * |floats|)
  }

  lemma VectorExtension(s: Bytes, q: nat, length: nat)
    requires q < |s| && 20 <= s[q] <= 23 && LittleFloats(s, q + 1, VectorSize(s[q])).Done?
    ensures var r := LittleFloats(s, q + 1, VectorSize(s[q])); Extension(s, q, length) == Done(Vector(s[q], r.value), r.pos)
  {
    OneWeighs(s, q);
  }

  lemma OneMoreFloat(s: Bytes, p: nat, f: nat, rest: seq<nat>)
    requires p + 4 <= |s| && f == FloatAt(s, p) && AreFloats(s, p + 4, rest)
    ensures AreFloats(s, p, [f] + rest)
  {
    FloatWeighs(s, p);
  }

  lemma TwoFloats(s: Bytes, p: nat, floats: seq<nat>)
    requires p + 8 <= |s| && floats == [FloatAt(s, p), FloatAt(s, p + 4)]
    ensures AreFloats(s, p, floats)
  {
    assert AreFloats(s, p + 4 + 4, []);
    OneMoreFloat(s, p + 4, floats[1], []);
    OneMoreFloat(s, p, floats[0], [floats[1]] + []);
    assert [floats[0]] + ([floats[1]] + []) == floats;
  }

  lemma ThreeFloats(s: Bytes, p: nat, floats: seq<nat>)
    requires p + 12 <= |s| && floats == [FloatAt(s, p), FloatAt(s, p + 4), FloatAt(s, p + 8)]
    ensures AreFloats(s, p, floats)
  {
    TwoFloats(s, p + 4, floats[1..]);
    OneMoreFloat(s, p, floats[0], floats[1..]);
    assert [floats[0]] + floats[1..] == floats;
  }

  lemma FourFloats(s: Bytes, p: nat, floats: seq<nat>)
    requires p + 16 <= |s| && floats == [FloatAt(s, p), FloatAt(s, p + 4), FloatAt(s, p + 8), FloatAt(s, p + 12)]
    ensures AreFloats(s, p, floats)
  {
    ThreeFloats(s, p + 4, floats[1..]);
    OneMoreFloat(s, p, floats[0], floats[1..]);
    assert [floats[0]] + floats[1..] == floats;
  }

  /** Function references are extension types 10 and 11, the vectors are 20 to 23, and there are no others. */
  lemma ExtensionTypesAre(show: Show, s: Bytes, p: nat, length: nat, q: nat)
    requires Announces(s, p, length, q)
    ensures (s[q] == 10 || s[q] == 11) && q + 1 + length <= |s| ==>
              Any(show, s, p) == Done(FuncRef(s[q], s[q + 1..q + 1 + length]), q + 1 + length)
    ensures s[q] !in {10, 11, 20, 21, 22, 23} ==> Any(show, s, p) == Fail(InvalidOperation(s[q]))
  {
    AnnouncedExtension(show, s, p, length, q);
    ExtensionBy(s, q, length);
  }

  lemma ExtensionBy(s: Bytes, q: nat, length: nat)
    requires q < |s|
    ensures (s[q] == 10 || s[q] == 11) && q + 1 + length <= |s| ==>
              Extension(s, q, length) == Done(FuncRef(s[q], s[q + 1..q + 1 + length]), q + 1 + length)
    ensures s[q] !in {10, 11, 20, 21, 22, 23} ==> Extension(s, q, length) == Fail(InvalidOperation(s[q]))
  {
    OneWeighs(s, q);
  }

  // ---------------------------------------------------------------- what can be packed

  /** The graphs that are in range: integers of 64 bits, texts of less than two gigabytes, and vectors with
      as many floats of 32 bits as their type has. */
  lemma InRangeAre(v: int, text: Bytes, floats: seq<nat>)
    ensures InRange(GInt(v)) <==> -0x8000_0000_0000_0000 <= v < 0x1_0000_0000_0000_0000
    ensures InRange(GEnum(v)) <==> -0x8000_0000_0000_0000 <= v < 0x1_0000_0000_0000_0000
    ensures InRange(GString(text)) <==> |text| < 0x8000_0000
    ensures InRange(GBytes(text)) <==> |text| < 0x8000_0000
    ensures InRange(GVector(20, floats)) <==> |floats| == 2 && forall f :: f in floats ==> f < 0x1_0000_0000
    ensures InRange(GVector(21, floats)) <==> |floats| == 3 && forall f :: f in floats ==> f < 0x1_0000_0000
    ensures InRange(GVector(22, floats)) <==> |floats| == 4 && forall f :: f in floats ==> f < 0x1_0000_0000
    ensures InRange(GVector(23, floats)) <==> |floats| == 4 && forall f :: f in floats ==> f < 0x1_0000_0000
  {
    PowerValues();
    assert forall i :: 0 <= i < |floats| ==> floats[i] in floats;
  }

  /** What the deserializer makes of each kind of packed graph. */
  predicate ComesBackAs(o: Graph, r: Object)
    decreases o, 2
  {
    match o
    case GNull => r == Null
    case GBool(b) => r == Boolean(b)
    case GInt(v) => r.Integer? && r.v == v
    case GEnum(v) => r.Integer? && r.v == v
    case GSingle(bits) => r == Single(bits)
    case GDouble(bits) => r == Double(bits)
    case GString(utf8) => r == Text(utf8)
    case GBytes(bytes) => r == Binary(bytes)
    case GVector(ext, floats) => r == Vector(ext, floats)
    case GDelegate(reference) => r == FuncRef(10, reference)
    case GList(items) => r.List? && ItemsComeBack(items, r.items)
    case GDictionary(entries) => r.Dictionary? && EntriesComeBack(entries, r.entries)
    case GObject(properties) => r.Dictionary? && EntriesComeBack(properties, r.entries)
  }

  predicate ItemsComeBack(items: seq<Graph>, rs: seq<Object>)
    decreases items, 1
  {
    |items| == |rs| && (items == [] || (ComesBackAs(items[0], rs[0]) && ItemsComeBack(items[1..], rs[1..])))
  }

  /** Entries come back in order under their keys. */
  predicate EntriesComeBack(entries: seq<GraphEntry>, rs: seq<Field>)
    decreases entries, 1
  {
    |entries| == |rs|
    && (entries == []
        || (rs[0].key == entries[0].key && ComesBackAs(entries[0].value, rs[0].value) && EntriesComeBack(entries[1..], rs[1..])))
  }

  /** Packed and decoded again, every graph comes back as the objects of its kinds. */
  lemma KindsComeBack(f: PackerFormats, show: Show, o: Graph, rest: Bytes)
    requires Lawful(f) && InRange(o)
    ensures Fits(WireOf(f, o))
    ensures var r := Any(show, Encoded(WireOf(f, o)) + rest, 0); r.Done? && ComesBackAs(o, r.value)
  {
    SerializeRoundTrip(f, show, o, rest);
    KindsOf(o, Any(show, Encoded(WireOf(f, o)) + rest, 0).value);
  }

  lemma {:induction false} KindsOf(o: Graph, r: Object)
    requires Meaning(r) == ValueOf(o)
    ensures ComesBackAs(o, r)
    decreases o, 2
  {
    match o
    case GList(items) => ItemKinds(items, r.items);
    case GDictionary(entries) => EntryKinds(entries, r.entries);
    case GObject(properties) => EntryKinds(properties, r.entries);
    case _ =>
  }

  lemma {:induction false} ItemKinds(items: seq<Graph>, rs: seq<Object>)
    requires Meanings(rs) == ValuesOf(items)
    ensures ItemsComeBack(items, rs)
    decreases items, 1
  {
    if items != [] && rs != [] {
      assert Meanings(rs)[1..] == Meanings(rs[1..]) && ValuesOf(items)[1..] == ValuesOf(items[1..]);
      assert Meanings(rs)[0] == Meaning(rs[0]) && ValuesOf(items)[0] == ValueOf(items[0]);
      KindsOf(items[0], rs[0]);
      ItemKinds(items[1..], rs[1..]);
    }
  }

  lemma {:induction false} EntryKinds(entries: seq<GraphEntry>, rs: seq<Field>)
    requires MeaningEntries(rs) == ValueEntries(entries)
    ensures EntriesComeBack(entries, rs)
    decreases entries, 1
  {
    if entries != [] && rs != [] {
      assert MeaningEntries(rs)[1..] == MeaningEntries(rs[1..]) && ValueEntries(entries)[1..] == ValueEntries(entries[1..]);
      assert MeaningEntries(rs)[0] == (rs[0].key, Meaning(rs[0].value));
      assert ValueEntries(entries)[0] == (entries[0].key, ValueOf(entries[0].value));
      KindsOf(entries[0].value, rs[0].value);
      EntryKinds(entries[1..], rs[1..]);
    }
  }
}

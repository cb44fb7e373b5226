/** Base64 as section 4 of RFC 4648 defines it, and the two loops that encode and decode it. */
module Base64 {

  import opened ByteStrings
  import opened Sequences

  /** `n` characters from `first` on. */
  function Span(first: char, n: nat): (s: string)
    requires first as int + n <= 0x80
    ensures |s| == n && forall i :: 0 <= i < n ==> s[i] as int == first as int + i
  {
    seq(n, i requires 0 <= i < n => (first as int + i) as char)
  }

  /** A-Z, a-z, 0-9, + and /. */
  function EncodingTable(): (s: string)
    ensures |s| == 64
  {
    Span('A', 26) + Span('a', 26) + Span('0', 10) + ['+', '/']
  }

  const PAD: char := '='

  /** The character for a sextet. */
  function Letter(v: nat): char
    requires v < 64
  {
    if v < 26 then ('A' as int + v) as char
    else if v < 52 then ('a' as int + v - 26) as char
    else if v < 62 then ('0' as int + v - 52) as char
    else if v == 62 then '+'
    else '/'
  }

  lemma TableHoldsLetters(v: nat)
    requires v < 64
    ensures EncodingTable()[v] == Letter(v)
  {
  }

  predicate IsLetter(c: char) {
    'A' <= c <= 'Z' || 'a' <= c <= 'z' || '0' <= c <= '9' || c == '+' || c == '/'
  }

  /** The sextet of a character; the padding character stands for zero bits. */
  function Sextet(c: char): (v: nat)
    requires IsLetter(c) || c == PAD
    ensures v < 64
  {
    if 'A' <= c <= 'Z' then c as int - 'A' as int
    else if 'a' <= c <= 'z' then c as int - 'a' as int + 26
    else if '0' <= c <= '9' then c as int - '0' as int + 52
    else if c == '+' then 62
    else if c == '/' then 63
    else 0
  }

  lemma LetterInverts(v: nat)
    requires v < 64
    ensures IsLetter(Letter(v)) && Sextet(Letter(v)) == v
  {
  }

  lemma SextetInverts(c: char)
    requires IsLetter(c)
    ensures Letter(Sextet(c)) == c
  {
    assert Letter(Sextet(c)) as int == c as int;
  }

  // ---------------------------------------------------------------- RFC 4648, section 4

  /** The four characters of a full 24-bit group. */
  function Quad(a: byte, b: byte, c: byte): (q: string)
    ensures |q| == 4
  {
    [Letter(a / 4), Letter(a % 4 * 16 + b / 16), Letter(b % 16 * 4 + c / 64), Letter(c % 64)]
  }

  function OneLeft(a: byte): (q: string)
    ensures |q| == 4
  {
    [Letter(a / 4), Letter(a % 4 * 16), PAD, PAD]
  }

  function TwoLeft(a: byte, b: byte): (q: string)
    ensures |q| == 4
  {
    [Letter(a / 4), Letter(a % 4 * 16 + b / 16), Letter(b % 16 * 4), PAD]
  }

  function Groups(n: nat): nat {
    if n == 0 then 0 else if n <= 3 then 1 else 1 + Groups(n - 3)
  }

  /** Groups of 24 bits become four characters; a final 8 or 16 bits are filled with zero bits and
      padded to four characters. */
  function Encoded(s: Bytes): (r: string)
    ensures |r| == 4 * Groups(|s|)
  {
    if s == [] then []
    else if |s| == 1 then OneLeft(s[0])
    else if |s| == 2 then TwoLeft(s[0], s[1])
    else Quad(s[0], s[1], s[2]) + Encoded(s[3..])
  }

  /** The place of a character in the alphabet. */
  function Value(c: char): (v: nat)
    ensures v < 64
  {
    if IsLetter(c) then Sextet(c) else 0
  }

  /** The alphabet runs from A to Z, a to z and 0 to 9, and ends with + and /. */
  lemma AlphabetIs(v: nat)
    requires v < 64
    ensures Letter(0) == 'A' && Letter(26) == 'a' && Letter(52) == '0' && Letter(62) == '+' && Letter(63) == '/'
    ensures v !in {25, 51, 61, 62, 63} ==> Letter(v + 1) as int == Letter(v) as int + 1
    ensures Value(Letter(v)) == v
  {
    LetterInverts(v);
  }

  /** Four characters have the bits of three bytes, first bits first. */
  lemma QuadIs(a: byte, b: byte, c: byte, q: string)
    requires q == Quad(a, b, c)
    ensures 0x4_0000 * Value(q[0]) + 0x1000 * Value(q[1]) + 0x40 * Value(q[2]) + Value(q[3]) == 0x1_0000 * a + 0x100 * b + c
  {
    LetterInverts(a / 4);
    LetterInverts(a % 4 * 16 + b / 16);
    LetterInverts(b % 16 * 4 + c / 64);
    LetterInverts(c % 64);
    SextetsAdd(a, b, c);
  }

  lemma SextetsAdd(a: byte, b: byte, c: byte)
    ensures 0x4_0000 * (a / 4) + 0x1000 * (a % 4 * 16 + b / 16) + 0x40 * (b % 16 * 4 + c / 64) + c % 64 == 0x1_0000 * a + 0x100 * b + c
  {
    assert a == a / 4 * 4 + a % 4 && b == b / 16 * 16 + b % 16 && c == c / 64 * 64 + c % 64;
  }

  /** With fewer bytes the bits that fill up are zero. */
  lemma RestIs(a: byte, b: byte, two: string, one: string)
    requires two == TwoLeft(a, b) && one == OneLeft(a)
    ensures 0x1000 * Value(two[0]) + 0x40 * Value(two[1]) + Value(two[2]) == 4 * (0x100 * a + b) && two[3] == '='
    ensures 0x40 * Value(one[0]) + Value(one[1]) == 16 * a && one[2] == one[3] == '='
  {
    LetterInverts(a / 4);
    LetterInverts(a % 4 * 16 + b / 16);
    LetterInverts(b % 16 * 4);
    LetterInverts(a % 4 * 16);
    SextetsAdd(a, b, 0);
  }

  predicate Character(c: char) { IsLetter(c) || c == PAD }

  ghost predicate Characters(s: string) { forall i :: 0 <= i < |s| ==> Character(s[i]) }

  /** The three bytes of four characters. */
  function Triple(q: string): (t: Bytes)
    requires |q| == 4 && Characters(q)
    ensures |t| == 3
  {
    [Sextet(q[0]) * 4 + Sextet(q[1]) / 16, Sextet(q[1]) % 16 * 16 + Sextet(q[2]) / 4, Sextet(q[2]) % 4 * 64 + Sextet(q[3])]
  }

  function Triples(s: string): (t: Bytes)
    requires |s| % 4 == 0 && Characters(s)
    ensures |t| == |s| / 4 * 3
  {
    if s == [] then [] else Triple(s[..4]) + Triples(s[4..])
  }

  function DecodedLength(s: string): nat
    requires |s| % 4 == 0 && s != []
  {
    |s| / 4 * 3 - (if s[|s| - 1] == PAD then 1 else 0) - (if s[|s| - 2] == PAD then 1 else 0)
  }

  function Decoded(s: string): (r: Bytes)
    requires |s| % 4 == 0 && s != [] && Characters(s)
    ensures |r| == DecodedLength(s)
  {
    Triples(s)[..DecodedLength(s)]
  }

  /** Full groups without padding, and at the end a group that may be padded, with unused bits zero. */
  ghost predicate Canonical(s: string)
    decreases |s|
  {
    |s| >= 4 && if |s| == 4 then LastGroup(s) else (forall i :: 0 <= i < 4 ==> IsLetter(s[i])) && Canonical(s[4..])
  }

  predicate LastGroup(q: string)
    requires |q| == 4
  {
    && IsLetter(q[0]) && IsLetter(q[1])
    && if q[2] == PAD then q[3] == PAD && Sextet(q[1]) % 16 == 0
       else IsLetter(q[2]) && if q[3] == PAD then Sextet(q[2]) % 4 == 0 else IsLetter(q[3])
  }

  lemma HighAndLow(high: nat, low: nat)
    ensures low < 4 ==> (high * 4 + low) / 4 == high && (high * 4 + low) % 4 == low
    ensures low < 16 ==> (high * 16 + low) / 16 == high && (high * 16 + low) % 16 == low
  {
  }

  /** Regrouping 8 + 8 + 8 bits as 6 + 6 + 6 + 6 and back. */
  lemma BytesRegroup(a: byte, b: byte, c: byte)
    ensures a % 4 * 16 + b / 16 < 64 && b % 16 * 4 + c / 64 < 64
    ensures a / 4 * 4 + (a % 4 * 16 + b / 16) / 16 == a
    ensures (a % 4 * 16 + b / 16) % 16 * 16 + (b % 16 * 4 + c / 64) / 4 == b
    ensures (b % 16 * 4 + c / 64) % 4 * 64 + c % 64 == c
  {
    HighAndLow(a % 4, b / 16);
    HighAndLow(b % 16, c / 64);
  }

  /** Regrouping 6 + 6 + 6 + 6 bits as 8 + 8 + 8 and back. */
  lemma SextetsRegroup(p: nat, q: nat, r: nat, s: nat)
    requires p < 64 && q < 64 && r < 64 && s < 64
    ensures (p * 4 + q / 16) / 4 == p && (p * 4 + q / 16) % 4 * 16 + (q % 16 * 16 + r / 4) / 16 == q
    ensures (q % 16 * 16 + r / 4) % 16 * 4 + (r % 4 * 64 + s) / 64 == r && (r % 4 * 64 + s) % 64 == s
  {
    HighAndLow(p, q / 16);
    HighAndLow(q % 16, r / 4);
    assert (r % 4 * 64 + s) / 64 == r % 4 && (r % 4 * 64 + s) % 64 == s;
  }

  lemma QuadInverts(a: byte, b: byte, c: byte)
    ensures forall i :: 0 <= i < 4 ==> IsLetter(Quad(a, b, c)[i])
    ensures Sextet(Quad(a, b, c)[0]) == a / 4 && Sextet(Quad(a, b, c)[1]) == a % 4 * 16 + b / 16
    ensures Sextet(Quad(a, b, c)[2]) == b % 16 * 4 + c / 64 && Sextet(Quad(a, b, c)[3]) == c % 64
    ensures Triple(Quad(a, b, c)) == [a, b, c]
  {
    BytesRegroup(a, b, c);
    LetterInverts(a / 4);
    LetterInverts(a % 4 * 16 + b / 16);
    LetterInverts(b % 16 * 4 + c / 64);
    LetterInverts(c % 64);
  }

  lemma TripleInverts(q: string)
    requires |q| == 4 && forall i :: 0 <= i < 4 ==> IsLetter(q[i])
    ensures var t := Triple(q); Quad(t[0], t[1], t[2]) == q
  {
    var a, b, c, d := SextetsOf(q);
    Assemble(q, Triple(q), a, b, c, d);
  }

  lemma SextetsOf(q: string) returns (a: nat, b: nat, c: nat, d: nat)
    requires |q| == 4 && forall i :: 0 <= i < 4 ==> IsLetter(q[i])
    ensures a < 64 && b < 64 && c < 64 && d < 64
    ensures Letter(a) == q[0] && Letter(b) == q[1] && Letter(c) == q[2] && Letter(d) == q[3]
    ensures Triple(q) == [a * 4 + b / 16, b % 16 * 16 + c / 4, c % 4 * 64 + d]
  {
    a, b, c, d := Sextet(q[0]), Sextet(q[1]), Sextet(q[2]), Sextet(q[3]);
    SextetInverts(q[0]);
    SextetInverts(q[1]);
    SextetInverts(q[2]);
    SextetInverts(q[3]);
  }

  lemma Assemble(q: string, t: Bytes, a: nat, b: nat, c: nat, d: nat)
    requires a < 64 && b < 64 && c < 64 && d < 64 && t == [a * 4 + b / 16, b % 16 * 16 + c / 4, c % 4 * 64 + d]
    requires |q| == 4 && Letter(a) == q[0] && Letter(b) == q[1] && Letter(c) == q[2] && Letter(d) == q[3]
    ensures Quad(t[0], t[1], t[2]) == q
  {
    QuadOfSextets(a, b, c, d);
    assert q == [q[0], q[1], q[2], q[3]];
  }

  lemma QuadOfSextets(p: nat, q: nat, r: nat, s: nat)
    requires p < 64 && q < 64 && r < 64 && s < 64
    ensures Quad(p * 4 + q / 16, q % 16 * 16 + r / 4, r % 4 * 64 + s) == [Letter(p), Letter(q), Letter(r), Letter(s)]
  {
    SextetsRegroup(p, q, r, s);
  }

  lemma {:induction false} GroupsRoundUp(n: nat)
    ensures Groups(n) == (n + 2) / 3
  {
    if n > 3 {
      GroupsRoundUp(n - 3);
    }
  }

  /** What a single group decodes to. */
  lemma DecodedGroup(q: string)
    requires |q| == 4 && Characters(q)
    ensures q[2] == PAD && q[3] == PAD ==> Decoded(q) == Triple(q)[..1]
    ensures q[2] != PAD && q[3] == PAD ==> Decoded(q) == Triple(q)[..2]
    ensures q[2] != PAD && q[3] != PAD ==> Decoded(q) == Triple(q)
  {
    assert q[..4] == q && q[4..] == [];
    assert Triples(q) == Triple(q) + Triples([]);
    assert Triples(q) == Triple(q);
  }

  lemma OneLeftInverts(a: byte)
    ensures LastGroup(OneLeft(a)) && Characters(OneLeft(a)) && Triple(OneLeft(a))[..1] == [a]
  {
    BytesRegroup(a, 0, 0);
    LetterInverts(a / 4);
    LetterInverts(a % 4 * 16);
  }

  lemma TwoLeftInverts(a: byte, b: byte)
    ensures LastGroup(TwoLeft(a, b)) && Characters(TwoLeft(a, b)) && Triple(TwoLeft(a, b))[..2] == [a, b]
    ensures TwoLeft(a, b)[2] != PAD
  {
    BytesRegroup(a, b, 0);
    LetterInverts(a / 4);
    LetterInverts(a % 4 * 16 + b / 16);
    LetterInverts(b % 16 * 4);
  }

  lemma OneByte(s: Bytes)
    requires |s| == 1
    ensures Canonical(Encoded(s)) && Characters(Encoded(s)) && Decoded(Encoded(s)) == s
  {
    OneLeftInverts(s[0]);
    DecodedGroup(OneLeft(s[0]));
  }

  lemma TwoBytes(s: Bytes)
    requires |s| == 2
    ensures Canonical(Encoded(s)) && Characters(Encoded(s)) && Decoded(Encoded(s)) == s
  {
    TwoLeftInverts(s[0], s[1]);
    DecodedGroup(TwoLeft(s[0], s[1]));
  }

  /** Encoding any bytes gives canonical characters, and decoding these gives the bytes back. */
  lemma {:induction false} DecodeInvertsEncode(s: Bytes)
    requires s != []
    ensures Canonical(Encoded(s)) && |Encoded(s)| % 4 == 0 && Encoded(s) != [] && Characters(Encoded(s))
    ensures Decoded(Encoded(s)) == s
    decreases |s|
  {
    if |s| == 1 {
      OneByte(s);
    } else if |s| == 2 {
      TwoBytes(s);
    } else {
      QuadInverts(s[0], s[1], s[2]);
      var q, rest := Quad(s[0], s[1], s[2]), Encoded(s[3..]);
      assert s == [s[0], s[1], s[2]] + s[3..];
      if |s| == 3 {
        LastFull(q, s);
      } else {
        DecodeInvertsEncode(s[3..]);
        MoreGroups(q, rest);
      }
    }
  }

  lemma LastFull(q: string, t: Bytes)
    requires |q| == 4 && (forall i :: 0 <= i < 4 ==> IsLetter(q[i])) && Triple(q) == t
    ensures Canonical(q + []) && Characters(q + []) && Decoded(q + []) == t
  {
    assert q + [] == q && q[..4] == q && q[4..] == [];
    assert Triples(q) == Triple(q) + [];
  }

  lemma MoreGroups(q: string, rest: string)
    requires |q| == 4 && (forall i :: 0 <= i < 4 ==> IsLetter(q[i])) && Canonical(rest) && Characters(rest) && |rest| % 4 == 0
    ensures Canonical(q + rest) && Characters(q + rest) && Decoded(q + rest) == Triple(q) + Decoded(rest)
  {
    Appended(q, rest);
    TriplesAppended(q, rest);
    LengthAppended(q, rest);
    PrefixAppended(Triple(q), Triples(rest), DecodedLength(rest));
  }

  lemma Appended(q: string, rest: string)
    requires |q| == 4 && (forall i :: 0 <= i < 4 ==> IsLetter(q[i])) && Canonical(rest) && Characters(rest)
    ensures Canonical(q + rest) && Characters(q + rest)
  {
    assert (q + rest)[4..] == rest;
  }

  lemma TriplesAppended(q: string, rest: string)
    requires |q| == 4 && |rest| % 4 == 0 && Characters(q) && Characters(rest) && Characters(q + rest)
    ensures Triples(q + rest) == Triple(q) + Triples(rest)
  {
    assert (q + rest)[..4] == q && (q + rest)[4..] == rest;
  }

  lemma LengthAppended(q: string, rest: string)
    requires |q| == 4 && |rest| % 4 == 0 && |rest| >= 2
    ensures DecodedLength(q + rest) == 3 + DecodedLength(rest)
  {
    var s := q + rest;
    assert s[|s| - 1] == rest[|rest| - 1] && s[|s| - 2] == rest[|rest| - 2];
  }

  lemma PrefixAppended(t: Bytes, u: Bytes, n: nat)
    requires |t| == 3 && n <= |u|
    ensures (t + u)[..3 + n] == t + u[..n]
  {
  }

  lemma OnePadInverts(q: string)
    requires |q| == 4 && LastGroup(q) && q[2] == PAD
    ensures Characters(q) && OneLeft(Triple(q)[0]) == q
  {
    SextetsRegroup(Sextet(q[0]), Sextet(q[1]), 0, 0);
    SextetInverts(q[0]);
    SextetInverts(q[1]);
  }

  lemma TwoPadInverts(q: string)
    requires |q| == 4 && LastGroup(q) && q[2] != PAD && q[3] == PAD
    ensures Characters(q) && TwoLeft(Triple(q)[0], Triple(q)[1]) == q
  {
    SextetsRegroup(Sextet(q[0]), Sextet(q[1]), Sextet(q[2]), 0);
    SextetInverts(q[0]);
    SextetInverts(q[1]);
    SextetInverts(q[2]);
  }

  lemma LastGroupInverts(s: string)
    requires |s| == 4 && LastGroup(s)
    ensures Characters(s) && Encoded(Decoded(s)) == s
  {
    assert Characters(s);
    DecodedGroup(s);
    if s[2] == PAD {
      OnePadInverts(s);
    } else if s[3] == PAD {
      TwoPadInverts(s);
    } else {
      TripleInverts(s);
      OneGroup(Triple(s));
    }
  }

  lemma OneGroup(t: Bytes)
    requires |t| == 3
    ensures Encoded(t) == Quad(t[0], t[1], t[2])
  {
    assert Encoded(t) == Quad(t[0], t[1], t[2]) + Encoded(t[3..]);
    assert Encoded(t[3..]) == [];
  }

  /** Encoding what a canonical string decodes to gives that string back. */
  lemma {:induction false} EncodeInvertsDecode(s: string)
    requires Canonical(s)
    ensures |s| % 4 == 0 && Characters(s) && Encoded(Decoded(s)) == s
    decreases |s|
  {
    if |s| == 4 {
      LastGroupInverts(s);
    } else {
      var q, rest := s[..4], s[4..];
      EncodeInvertsDecode(rest);
      assert s == q + rest;
      MoreGroups(q, rest);
      TripleInverts(q);
      var t := Triple(q) + Decoded(rest);
      assert t[3..] == Decoded(rest);
    }
  }

  /** For characters that can be decoded at all, encoding inverts decoding exactly on the canonical
      strings. */
  lemma RoundTripIffCanonical(s: string)
    requires |s| % 4 == 0 && s != [] && Characters(s)
    ensures Encoded(Decoded(s)) == s <==> Canonical(s)
  {
    if Encoded(Decoded(s)) == s {
      assert Decoded(s) != [];
      DecodeInvertsEncode(Decoded(s));
    }
    if Canonical(s) {
      EncodeInvertsDecode(s);
    }
  }

  // ---------------------------------------------------------------- the two loops

  /** The encoding with the last group filled with zero bytes and no padding. */
  function Filled(s: Bytes): (r: string)
    ensures |r| == 4 * Groups(|s|)
    decreases |s|
  {
    if s == [] then []
    else Quad(s[0], if |s| > 1 then s[1] else 0, if |s| > 2 then s[2] else 0) + Filled(if |s| > 3 then s[3..] else [])
  }

  function PadCount(n: nat): nat { if n % 3 == 0 then 0 else if n % 3 == 1 then 2 else 1 }

  function Pads(n: nat): (r: string)
    ensures |r| == n && forall i :: 0 <= i < n ==> r[i] == PAD
  {
    if n == 0 then [] else Pads(n - 1) + [PAD]
  }

  lemma {:induction false} PaddingFilled(s: Bytes)
    ensures PadCount(|s|) <= |Filled(s)|
    ensures Encoded(s) == Filled(s)[..|Filled(s)| - PadCount(|s|)] + Pads(PadCount(|s|))
    decreases |s|
  {
    if s == [] {
      assert Filled(s)[..0] + Pads(0) == [];
    } else if |s| >= 3 {
      var rest := s[3..];
      FilledStep(s, s[0], s[1], s[2], rest);
      PaddingFilled(rest);
      SamePads(|s|);
      FilledPrefix(Quad(s[0], s[1], s[2]), Filled(rest), Pads(PadCount(|s|)));
    } else {
      var b := if |s| > 1 then s[1] else 0;
      FilledStep(s, s[0], b, 0, []);
      PaddingOnce(s[0], b, |s|);
      assert Filled(s) == Quad(s[0], b, 0);
    }
  }

  lemma SamePads(n: nat)
    requires n >= 3
    ensures PadCount(n) == PadCount(n - 3)
  {
  }

  lemma PaddingOnce(a: byte, b: byte, n: nat)
    requires n == 1 || n == 2
    ensures n == 1 && b == 0 ==> OneLeft(a) == Quad(a, b, 0)[..2] + Pads(2)
    ensures n == 2 ==> TwoLeft(a, b) == Quad(a, b, 0)[..3] + Pads(1)
  {
  }

  lemma FilledPrefix(q: string, rest: string, pads: string)
    requires |pads| <= |rest|
    ensures (q + rest)[..|q + rest| - |pads|] + pads == q + (rest[..|rest| - |pads|] + pads)
  {
  }

  method Base64Encode(data: array<byte>) returns (encoded: array<char>)
    ensures fresh(encoded) && encoded[..] == Encoded(data[..])
  {
    GroupsRoundUp(data.Length);
    encoded := new char[4 * ((data.Length + 2) / 3)];
    FillEncoded(data, encoded);
    PadEnd(encoded, PadCount(data.Length));
    PaddingFilled(data[..]);
  }

  method FillEncoded(data: array<byte>, encoded: array<char>)
    requires encoded.Length == 4 * Groups(data.Length)
    modifies encoded
    ensures encoded[..] == Filled(data[..])
  {
    ghost var goal := Filled(data[..]);
    var i, j := 0, 0;
    assert data[..] == data[0..];
    while i < data.Length
      invariant 0 <= i <= data.Length && j + 4 * Groups(data.Length - i) == encoded.Length
      invariant encoded[..j] + Filled(data[i..]) == goal
      decreases data.Length - i
    {
      var a, b, c, next := Octets(data, i);
      FilledStep(data[i..], a, b, c, data[next..]);
      ghost var done := encoded[..j];
      WriteQuad(encoded, j, a, b, c);
      Regroup(done, Quad(a, b, c), Filled(data[next..]));
      i, j := next, j + 4;
    }
    assert encoded[..] == encoded[..j] + [];
  }

  /** The next three bytes, zero beyond the end. */
  method Octets(data: array<byte>, at: nat) returns (a: byte, b: byte, c: byte, next: nat)
    requires at < data.Length
    ensures a == data[at] && b == (if at + 1 < data.Length then data[at + 1] else 0)
    ensures c == (if at + 2 < data.Length then data[at + 2] else 0)
    ensures next == if at + 3 <= data.Length then at + 3 else data.Length
  {
    var i := at;
    a := data[i];
    i := i + 1;
    b := 0;
    if i < data.Length {
      b := data[i];
      i := i + 1;
    }
    c := 0;
    if i < data.Length {
      c := data[i];
      i := i + 1;
    }
    next := i;
  }

  method WriteQuad(encoded: array<char>, j: nat, a: byte, b: byte, c: byte)
    requires j + 4 <= encoded.Length
    modifies encoded
    ensures encoded[..j + 4] == old(encoded[..j]) + Quad(a, b, c)
  {
    encoded[j], encoded[j + 1] := Letter(a / 4), Letter(a % 4 * 16 + b / 16);
    encoded[j + 2], encoded[j + 3] := Letter(b % 16 * 4 + c / 64), Letter(c % 64);
  }

  lemma FilledStep(rest: Bytes, a: byte, b: byte, c: byte, next: Bytes)
    requires rest != [] && a == rest[0] && b == (if |rest| > 1 then rest[1] else 0) && c == (if |rest| > 2 then rest[2] else 0)
    requires next == if |rest| > 3 then rest[3..] else []
    ensures Filled(rest) == Quad(a, b, c) + Filled(next) && Groups(|rest|) == 1 + Groups(|next|)
  {
  }

  method PadEnd(encoded: array<char>, count: nat)
    requires count <= encoded.Length
    modifies encoded
    ensures encoded[..] == old(encoded[..])[..encoded.Length - count] + Pads(count)
  {
    for i := 0 to count
      invariant encoded[..encoded.Length - i] == old(encoded[..])[..encoded.Length - i]
      invariant forall k :: encoded.Length - i <= k < encoded.Length ==> encoded[k] == PAD
    {
      encoded[encoded.Length - 1 - i] := PAD;
    }
  }

  class Decoder {
    var decodingTable: array?<byte>

    constructor ()
      ensures decodingTable == null
    {
      decodingTable := null;
    }

    ghost predicate Valid()
      reads this, decodingTable
    {
      decodingTable != null ==> Built(decodingTable)
    }

    ghost predicate Built(table: array<byte>)
      reads table
    {
      table.Length == 256 && forall c :: IsLetter(c) ==> table[c as int] == Sextet(c)
    }

    method BuildDecodingTable()
      requires decodingTable == null
      modifies this
      ensures decodingTable != null && fresh(decodingTable) && Built(decodingTable)
    {
      var table := new byte[256];
      for i := 0 to 64
        invariant forall v :: 0 <= v < i ==> table[Letter(v) as int] == v
      {
        LettersDiffer(i);
        TableHoldsLetters(i);
        table[EncodingTable()[i] as int] := i;
      }
      forall c | IsLetter(c) ensures table[c as int] == Sextet(c) {
        SextetInverts(c);
      }
      decodingTable := table;
    }

    /** Null for a length that is not a multiple of four. */
    method Base64Decode(data: array<char>) returns (decoded: array?<byte>)
      requires Valid() && data.Length > 0 && Characters(data[..])
      modifies this
      ensures Valid()
      ensures decoded == null <==> data.Length % 4 != 0
      ensures decoded != null ==> fresh(decoded) && decoded[..] == Decoded(data[..])
    {
      if decodingTable == null {
        BuildDecodingTable();
      }
      if data.Length % 4 != 0 {
        return null;
      }
      var length := data.Length / 4 * 3;
      if data[data.Length - 1] == PAD {
        length := length - 1;
      }
      if data[data.Length - 2] == PAD {
        length := length - 1;
      }
      decoded := new byte[length];
      FillDecoded(data, decoded);
    }

    /** Decodes group after group until the output is full. */
    method FillDecoded(data: array<char>, decoded: array<byte>)
      requires decodingTable != null && Built(decodingTable) && decoded != decodingTable
      requires data.Length % 4 == 0 && Characters(data[..]) && decoded.Length <= data.Length / 4 * 3
      modifies decoded
      ensures decoded[..] == Triples(data[..])[..decoded.Length]
      ensures Built(decodingTable)
    {
      ghost var all := Triples(data[..]);
      ghost var k := 0;
      var i, j := 0, 0;
      while i < data.Length
        invariant 0 <= i == 4 * k <= data.Length && j == Min(3 * k, decoded.Length)
        invariant decoded[..j] == all[..j] && Built(decodingTable)
        decreases data.Length - i
      {
        var t := GroupAt(data, i);
        GroupInPlace(data[..], all, i, k, t);
        GroupStored(all, 3 * k, t, decoded.Length);
        j := StoreThree(decoded, j, t);
        i, k := i + 4, k + 1;
      }
    }

    method GroupAt(data: array<char>, i: nat) returns (t: Bytes)
      requires i + 4 <= data.Length && Characters(data[i..i + 4]) && decodingTable != null && Built(decodingTable)
      ensures t == Triple(data[i..i + 4])
    {
      ghost var q := data[i..i + 4];
      assert q[0] == data[i] && q[1] == data[i + 1] && q[2] == data[i + 2] && q[3] == data[i + 3];
      var a := if data[i] == PAD then 0 else decodingTable[data[i] as int];
      var b := if data[i + 1] == PAD then 0 else decodingTable[data[i + 1] as int];
      var c := if data[i + 2] == PAD then 0 else decodingTable[data[i + 2] as int];
      var d := if data[i + 3] == PAD then 0 else decodingTable[data[i + 3] as int];
      assert a == Sextet(q[0]) && b == Sextet(q[1]) && c == Sextet(q[2]) && d == Sextet(q[3]);
      t := [a * 4 + b / 16, b % 16 * 16 + c / 4, c % 4 * 64 + d];
    }
  }

  lemma GroupInPlace(s: string, all: Bytes, i: nat, k: nat, t: Bytes)
    requires |s| % 4 == 0 && Characters(s) && all == Triples(s) && i == 4 * k && i + 4 <= |s| && t == Triple(s[i..i + 4])
    ensures 3 * k + 3 <= |all| && all[3 * k..3 * k + 3] == t
  {
    TriplesAt(s, k);
  }

  function Min(a: nat, b: nat): nat { if a <= b then a else b }

  /** Writes the three bytes as far as there is room. */
  method StoreThree(decoded: array<byte>, at: nat, t: Bytes) returns (j: nat)
    requires at <= decoded.Length && |t| == 3
    modifies decoded
    ensures j == Min(at + 3, decoded.Length) && decoded[..j] == old(decoded[..at]) + t[..j - at]
  {
    j := at;
    for k := 0 to 3
      invariant j == Min(at + k, decoded.Length) && decoded[..j] == old(decoded[..at]) + t[..j - at]
    {
      if j < decoded.Length {
        decoded[j] := t[k];
        j := j + 1;
      }
    }
  }

  lemma GroupStored(all: Bytes, at: nat, t: Bytes, length: nat)
    requires |t| == 3 && at + 3 <= |all| && all[at..at + 3] == t && length <= |all|
    ensures var j, next := Min(at, length), Min(at + 3, length);
            next == Min(j + 3, length) && all[..j] + t[..next - j] == all[..next]
  {
  }

  lemma LettersDiffer(i: nat)
    requires i < 64
    ensures forall v :: 0 <= v < i ==> Letter(v) != Letter(i)
  {
    LetterInverts(i);
    forall v | 0 <= v < i ensures Letter(v) != Letter(i) {
      LetterInverts(v);
    }
  }

  lemma {:induction false} TriplesAt(s: string, k: nat)
    requires |s| % 4 == 0 && Characters(s) && 4 * k < |s|
    ensures 3 * k + 3 <= |Triples(s)| && Triples(s)[3 * k..3 * k + 3] == Triple(s[4 * k..4 * k + 4])
  {
    if k > 0 {
      TriplesAt(s[4..], k - 1);
      assert s[4..][4 * (k - 1)..4 * k] == s[4 * k..4 * k + 4];
    }
  }
}

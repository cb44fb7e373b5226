/** Component identifiers: their text form `category:sub[1.2.3.4]`, the version order and the
    rule that decides whether a provider satisfies a dependency. */
module ComponentIds {

  const VERSION_COUNT: nat := 4
  const NUL: char := '\0'
  const BUFFER_SIZE: nat := 256

  datatype ComponentId = ComponentId(categories: seq<string>, versions: seq<int>)

  ghost predicate WellFormed(id: ComponentId) {
    |id.versions| == VERSION_COUNT
  }

  type Id = id: ComponentId | WellFormed(id) witness ComponentId([], [0, 0, 0, 0])

  /** Out-of-range categories read as the empty name. */
  function GetCategory(id: ComponentId, i: nat): (name: string)
    ensures i >= |id.categories| ==> name == ""
    ensures i < |id.categories| ==> name in id.categories
  {
    if i < |id.categories| then id.categories[i] else ""
  }

  // ---------------------------------------------------------------- decimal numbers

  predicate AllDigits(s: string) {
    forall k :: 0 <= k < |s| ==> '0' <= s[k] <= '9'
  }

  /** Characters that a printed number can contain. */
  predicate NumberChars(s: string) {
    forall k :: 0 <= k < |s| ==> s[k] == '-' || '0' <= s[k] <= '9'
  }

  function Digits(n: nat): (s: string)
    ensures |s| > 0 && AllDigits(s)
  {
    if n < 10 then [('0' as int + n) as char] else Digits(n / 10) + [('0' as int + n % 10) as char]
  }

  /** What `<<` prints for an int. */
  function Decimal(n: int): (s: string)
    ensures s != [] && NumberChars(s)
  {
    if n < 0 then "-" + Digits(-n) else Digits(n)
  }

  /** The value of the leading digits of `s`, after `acc`. */
  function ScanDigits(s: string, acc: nat): (n: nat)
    ensures s == [] ==> n == acc
  {
    if s != [] && '0' <= s[0] <= '9'
    then ScanDigits(s[1..], 10 * acc + (s[0] as int - '0' as int))
    else acc
  }

  /** `atoi` on a string whose value fits an int. */
  function Atoi(s: string): int {
    if s != [] && s[0] in {' ', '\t', '\n', 11 as char, 12 as char, '\r'} then Atoi(s[1..])
    else if s != [] && s[0] == '-' then 0 - ScanDigits(s[1..], 0) as int
    else if s != [] && s[0] == '+' then ScanDigits(s[1..], 0)
    else ScanDigits(s, 0)
  }

  lemma {:induction false} ScanDigitsLast(s: string, d: char, acc: nat)
    requires AllDigits(s) && '0' <= d <= '9'
    ensures ScanDigits(s + [d], acc) == 10 * ScanDigits(s, acc) + (d as int - '0' as int)
  {
    if s == [] {
      assert s + [d] == [d];
      assert [d][1..] == "";
    } else {
      assert (s + [d])[1..] == s[1..] + [d];
      ScanDigitsLast(s[1..], d, 10 * acc + (s[0] as int - '0' as int));
    }
  }

  lemma {:induction false} ScanDigitsInverts(n: nat)
    ensures ScanDigits(Digits(n), 0) == n
  {
    if n < 10 {
      assert Digits(n)[1..] == "";
    } else {
      ScanDigitsInverts(n / 10);
      ScanDigitsLast(Digits(n / 10), ('0' as int + n % 10) as char, 0);
    }
  }

  lemma AtoiInvertsDecimal(n: int)
    ensures Atoi(Decimal(n)) == n
  {
    if n < 0 {
      assert Decimal(n)[1..] == Digits(-n);
      ScanDigitsInverts(-n);
    } else {
      ScanDigitsInverts(n);
      assert '0' <= Digits(n)[0] <= '9';
    }
  }

  // ---------------------------------------------------------------- printing

  function JoinCategories(cats: seq<string>): string {
    if cats == [] then "" else ":" + cats[0] + JoinCategories(cats[1..])
  }

  function VersionTail(versions: seq<int>): string {
    if versions == [] then "]" else "." + (Decimal(versions[0]) + VersionTail(versions[1..]))
  }

  function CategoryText(cats: seq<string>): string {
    if cats == [] then "" else cats[0] + JoinCategories(cats[1..])
  }

  function VersionText(versions: seq<int>): string
    requires |versions| > 0
  {
    "[" + (Decimal(versions[0]) + VersionTail(versions[1..]))
  }

  /** The text form of an id. */
  function Text(id: ComponentId): string
    requires |id.versions| > 0
  {
    CategoryText(id.categories) + VersionText(id.versions)
  }

  method GetString(id: ComponentId) returns (ss: string)
    requires WellFormed(id)
    ensures ss == Text(id)
  {
    var names := CategoriesString(id);
    var numbers := VersionsString(id);
    ss := names + numbers;
  }

  method CategoriesString(id: ComponentId) returns (ss: string)
    ensures ss == CategoryText(id.categories)
  {
    var cats := id.categories;
    ss := GetCategory(id, 0);
    var i := 1;
    while i < |cats|
      invariant 1 <= i && (cats != [] ==> i <= |cats|)
      invariant cats != [] ==> ss + JoinCategories(cats[i..]) == CategoryText(cats)
      invariant cats == [] ==> ss == ""
    {
      AppendPart(ss, ":" + cats[i], JoinCategories(cats[i + 1..]), JoinCategories(cats[i..]));
      ss := ss + (":" + cats[i]);
      i := i + 1;
    }
  }

  method VersionsString(id: ComponentId) returns (ss: string)
    requires WellFormed(id)
    ensures ss == VersionText(id.versions)
  {
    var versions := id.versions;
    ss := "[" + Decimal(versions[0]);
    assert ss + VersionTail(versions[1..]) == VersionText(versions);
    var j := 1;
    while j < VERSION_COUNT
      invariant 1 <= j <= VERSION_COUNT
      invariant ss + VersionTail(versions[j..]) == VersionText(versions)
    {
      var part := "." + Decimal(versions[j]);
      TailStep(versions, j);
      AppendPart(ss, part, VersionTail(versions[j + 1..]), VersionTail(versions[j..]));
      ss := ss + part;
      j := j + 1;
    }
    ss := ss + "]";
  }

  lemma TailStep(versions: seq<int>, j: nat)
    requires j < |versions|
    ensures VersionTail(versions[j..]) == "." + Decimal(versions[j]) + VersionTail(versions[j + 1..])
  {
    assert versions[j..][1..] == versions[j + 1..];
  }

  lemma AppendPart(done: string, part: string, rest: string, whole: string)
    requires whole == part + rest
    ensures (done + part) + rest == done + whole
  {
  }

  // ---------------------------------------------------------------- parsing

  /** The parser's variables: the state, the token buffer, the version counter and the id. */
  datatype Parser = Parser(inVersion: bool, temp: string, vI: nat, id: ComponentId)

  /** What one loop iteration does with the character under `p`. */
  function Step(st: Parser, c: char): (r: Parser)
    requires WellFormed(st.id)
    ensures WellFormed(r.id)
  {
    if !st.inVersion then
      if c == ':' || c == '[' || c == NUL
      then Parser(c == '[', "", st.vI, st.id.(categories := st.id.categories + [st.temp]))
      else st.(temp := st.temp + [c])
    else if c == '.' || c == ']' then
      if st.vI < VERSION_COUNT
      then Parser(true, "", st.vI + 1, st.id.(versions := st.id.versions[st.vI := Atoi(st.temp)]))
      else st.(temp := "")
    else st.(temp := st.temp + [c])
  }

  function Run(st: Parser, s: string): (r: Parser)
    requires WellFormed(st.id)
    ensures WellFormed(r.id)
    decreases |s|
  {
    if s == [] then st else Run(Step(st, s[0]), s[1..])
  }

  const EMPTY_ID := ComponentId([], [0, 0, 0, 0])
  const START := Parser(false, "", 0, EMPTY_ID)

  /** The id a NUL-terminated string denotes. */
  function Parsed(s: string): ComponentId {
    Run(START, s + [NUL]).id
  }

  /** No token outgrows the parser's buffer; a longer one overruns it in the source. */
  ghost predicate FitsBuffer(st: Parser, s: string)
    requires WellFormed(st.id)
    decreases |s|
  {
    |st.temp| < BUFFER_SIZE && (s == [] || FitsBuffer(Step(st, s[0]), s[1..]))
  }

  lemma {:induction false} RunConcat(st: Parser, a: string, b: string)
    requires WellFormed(st.id)
    ensures Run(st, a + b) == Run(Run(st, a), b)
    decreases |a|
  {
    if a == [] {
      assert a + b == b;
    } else {
      assert (a + b)[1..] == a[1..] + b;
      RunConcat(Step(st, a[0]), a[1..], b);
    }
  }

  method Parse(str: string) returns (id: ComponentId)
    requires NUL !in str && FitsBuffer(START, str)
    ensures id == Parsed(str)
  {
    var text := str + [NUL];
    var inVersion, temp, vI, p := false, "", 0, 0;
    id := EMPTY_ID;
    while true
      invariant 0 <= p < |text| && WellFormed(id)
      invariant Run(Parser(inVersion, temp, vI, id), text[p..]) == Run(START, text)
      invariant FitsBuffer(Parser(inVersion, temp, vI, id), str[p..])
      decreases |text| - p
    {
      var c := text[p];
      ghost var next := Step(Parser(inVersion, temp, vI, id), c);
      assert text[p..][1..] == text[p + 1..];
      assert p < |str| ==> str[p..][0] == c && str[p..][1..] == str[p + 1..];
      if !inVersion {
        if c == ':' || c == '[' || c == NUL {
          id := id.(categories := id.categories + [temp]);
          if c == '[' {
            inVersion := true;
          }
          temp := "";
        } else {
          temp := temp + [c];
        }
      } else {
        if c == '.' || c == ']' {
          if vI < |id.versions| {
            id := id.(versions := id.versions[vI := Atoi(temp)]);
            vI := vI + 1;
          }
          temp := "";
        } else {
          temp := temp + [c];
        }
      }
      if c == NUL {
        assert p == |str|;
        break;
      }
      assert Parser(inVersion, temp, vI, id) == next;
      p := p + 1;
    }
  }

  // ---------------------------------------------------------------- round trip

  predicate PlainName(name: string) {
    ':' !in name && '[' !in name && NUL !in name
  }

  /** The ids the text form can represent. */
  predicate Printable(id: ComponentId) {
    |id.categories| > 0 && forall name :: name in id.categories ==> PlainName(name)
  }

  /** Plain characters only fill the token buffer. */
  lemma {:induction false} RunName(st: Parser, name: string)
    requires WellFormed(st.id) && !st.inVersion && PlainName(name)
    ensures Run(st, name) == st.(temp := st.temp + name)
    decreases |name|
  {
    if name == [] {
      assert st.temp + name == st.temp;
    } else {
      RunName(Step(st, name[0]), name[1..]);
      assert st.temp + [name[0]] + name[1..] == st.temp + name;
    }
  }

  lemma {:induction false} RunCategories(st: Parser, cats: seq<string>)
    requires WellFormed(st.id) && !st.inVersion && forall name :: name in cats ==> PlainName(name)
    ensures var all := st.id.categories + [st.temp] + cats;
            Run(st, JoinCategories(cats)) ==
            st.(temp := all[|all| - 1], id := st.id.(categories := all[..|all| - 1]))
    decreases |cats|
  {
    var all := st.id.categories + [st.temp] + cats;
    if cats == [] {
      assert all[..|all| - 1] == st.id.categories;
    } else {
      var st1 := Step(st, ':');
      var st2 := st1.(temp := cats[0]);
      assert PlainName(cats[0]);
      assert JoinCategories(cats) == [':'] + (cats[0] + JoinCategories(cats[1..]));
      assert JoinCategories(cats)[1..] == cats[0] + JoinCategories(cats[1..]);
      RunConcat(st1, cats[0], JoinCategories(cats[1..]));
      RunName(st1, cats[0]);
      assert [] + cats[0] == cats[0];
      RunCategories(st2, cats[1..]);
      assert st2.id.categories + [st2.temp] + cats[1..] == all;
    }
  }

  lemma {:induction false} RunDecimalChars(st: Parser, s: string)
    requires WellFormed(st.id) && st.inVersion && NumberChars(s)
    ensures Run(st, s) == st.(temp := st.temp + s)
    decreases |s|
  {
    if s == [] {
      assert st.temp + s == st.temp;
    } else {
      RunDecimalChars(Step(st, s[0]), s[1..]);
      assert st.temp + [s[0]] + s[1..] == st.temp + s;
    }
  }

  function SetVersion(st: Parser, n: int): Parser
    requires WellFormed(st.id) && st.vI < VERSION_COUNT
  {
    st.(vI := st.vI + 1, id := st.id.(versions := st.id.versions[st.vI := n]))
  }

  /** The state after every slot from `vI` on has been set. */
  function Filled(st: Parser, versions: seq<int>): Parser
    requires WellFormed(st.id) && st.vI + |versions| == VERSION_COUNT
  {
    st.(vI := VERSION_COUNT, id := st.id.(versions := st.id.versions[..st.vI] + versions))
  }

  lemma FilledStep(st: Parser, versions: seq<int>)
    requires WellFormed(st.id) && |versions| > 0 && st.vI + |versions| == VERSION_COUNT
    ensures Filled(SetVersion(st, versions[0]), versions[1..]) == Filled(st, versions)
  {
    var st1 := SetVersion(st, versions[0]);
    assert st1.id.versions[..st1.vI] + versions[1..] == st.id.versions[..st.vI] + versions;
  }

  /** A number closed by '.' or ']' sets the next version slot. */
  lemma RunVersion(st: Parser, n: int, close: char, rest: string)
    requires WellFormed(st.id) && st.inVersion && st.temp == [] && st.vI < VERSION_COUNT
    requires close == '.' || close == ']'
    ensures Run(st, Decimal(n) + ([close] + rest)) == Run(SetVersion(st, n), rest)
  {
    RunConcat(st, Decimal(n), [close] + rest);
    RunDecimalChars(st, Decimal(n));
    assert st.temp + Decimal(n) == Decimal(n);
    CloseVersion(st, n, close);
    RunFirst(Run(st, Decimal(n)), close, rest);
  }

  lemma CloseVersion(st: Parser, n: int, close: char)
    requires WellFormed(st.id) && st.inVersion && st.temp == [] && st.vI < VERSION_COUNT && (close == '.' || close == ']')
    ensures Step(st.(temp := Decimal(n)), close) == SetVersion(st, n)
  {
    AtoiInvertsDecimal(n);
  }

  lemma RunFirst(st: Parser, c: char, rest: string)
    requires WellFormed(st.id)
    ensures Run(st, [c] + rest) == Run(Step(st, c), rest)
  {
    assert ([c] + rest)[1..] == rest;
  }

  /** The tail `v.v.v]` fills the remaining version slots. */
  lemma {:induction false} RunVersions(st: Parser, versions: seq<int>)
    requires WellFormed(st.id) && st.inVersion && st.temp == []
    requires |versions| > 0 && st.vI + |versions| == VERSION_COUNT
    ensures Run(st, Decimal(versions[0]) + VersionTail(versions[1..])) == Filled(st, versions)
    decreases |versions|
  {
    var n, rest := versions[0], versions[1..];
    FilledStep(st, versions);
    if rest == [] {
      assert VersionTail(rest) == [']'] + [];
      RunVersion(st, n, ']', []);
    } else {
      var tail := Decimal(rest[0]) + VersionTail(rest[1..]);
      assert VersionTail(rest) == ['.'] + tail;
      RunVersion(st, n, '.', tail);
      RunVersions(SetVersion(st, n), rest);
    }
  }

  lemma RunCategoryText(cats: seq<string>)
    requires cats != [] && forall name :: name in cats ==> PlainName(name)
    ensures Step(Run(START, CategoryText(cats)), '[') == Parser(true, "", 0, EMPTY_ID.(categories := cats))
    ensures Run(START, CategoryText(cats)).id.versions == EMPTY_ID.versions
  {
    RunConcat(START, cats[0], JoinCategories(cats[1..]));
    assert PlainName(cats[0]);
    RunName(START, cats[0]);
    assert [] + cats[0] == cats[0];
    RunCategories(START.(temp := cats[0]), cats[1..]);
    assert [] + [cats[0]] + cats[1..] == cats;
    assert cats[..|cats| - 1] + [cats[|cats| - 1]] == cats;
  }

  lemma ParseInvertsPrint(id: ComponentId)
    requires WellFormed(id) && Printable(id)
    ensures Parsed(Text(id)) == id
  {
    var names, body := CategoryText(id.categories), Decimal(id.versions[0]) + VersionTail(id.versions[1..]);
    var text := Text(id);
    assert text == names + (['['] + body);
    RunConcat(START, text, [NUL]);
    RunConcat(START, names, ['['] + body);
    RunCategoryText(id.categories);
    var st := Parser(true, "", 0, EMPTY_ID.(categories := id.categories));
    assert (['['] + body)[1..] == body;
    assert Run(START, text) == Run(st, body);
    RunVersions(st, id.versions);
    assert st.id.versions[..0] + id.versions == id.versions;
    var st1 := Run(st, body);
    assert st1.inVersion && st1.id == id;
    assert Run(st1, [NUL]) == Step(st1, NUL);
  }

  /** The printed id of names under 256 characters never overruns the buffer. */
  lemma PrintedFitsBuffer(id: ComponentId)
    requires WellFormed(id) && Printable(id)
    requires forall name :: name in id.categories ==> |name| < BUFFER_SIZE
    requires forall v :: v in id.versions ==> |Decimal(v)| < BUFFER_SIZE
    ensures FitsBuffer(START, Text(id))
  {
    var names, body := CategoryText(id.categories), Decimal(id.versions[0]) + VersionTail(id.versions[1..]);
    assert Text(id) == names + (['['] + body);
    var st := Parser(true, [], 0, ComponentId(id.categories, EMPTY_ID.versions));
    FitsVersions(st, id.versions);
    assert [] + id.categories == id.categories;
    FitsCategories(START, id.categories, body);
  }

  lemma {:induction false} FitsName(st: Parser, name: string, rest: string)
    requires WellFormed(st.id) && |st.temp| + |name| < BUFFER_SIZE
    requires (!st.inVersion && PlainName(name)) || (st.inVersion && NumberChars(name))
    requires FitsBuffer(st.(temp := st.temp + name), rest)
    ensures FitsBuffer(st, name + rest)
    decreases |name|
  {
    if name == [] {
      assert st.temp + name == st.temp && name + rest == rest;
    } else {
      assert st.temp + [name[0]] + name[1..] == st.temp + name;
      assert (name + rest)[1..] == name[1..] + rest;
      FitsName(Step(st, name[0]), name[1..], rest);
    }
  }

  lemma {:induction false} FitsCategories(st: Parser, cats: seq<string>, rest: string)
    requires WellFormed(st.id) && !st.inVersion && st.temp == [] && cats != []
    requires forall name :: name in cats ==> PlainName(name) && |name| < BUFFER_SIZE
    requires FitsBuffer(Opened(st, cats), rest)
    ensures FitsBuffer(st, CategoryText(cats) + (['['] + rest))
    decreases |cats|
  {
    var name, more := cats[0], cats[1..];
    assert [] + name == name && PlainName(name);
    if more == [] {
      assert CategoryText(cats) == name && cats == [name];
      FitsSeparator(st, name, '[', rest);
      FitsName(st, name, ['['] + rest);
    } else {
      var next := st.(id := st.id.(categories := st.id.categories + [name]));
      var tail := CategoryText(more) + (['['] + rest);
      CategoryTextSplit(cats, ['['] + rest);
      OpenedStep(st, cats);
      FitsCategories(next, more, rest);
      FitsSeparator(st, name, ':', tail);
      FitsName(st, name, [':'] + tail);
    }
  }

  /** The state after the category list `cats` and the bracket that closes it. */
  function Opened(st: Parser, cats: seq<string>): Parser {
    Parser(true, [], st.vI, st.id.(categories := st.id.categories + cats))
  }

  lemma OpenedStep(st: Parser, cats: seq<string>)
    requires cats != []
    ensures Opened(st.(id := st.id.(categories := st.id.categories + [cats[0]])), cats[1..]) == Opened(st, cats)
  {
    assert st.id.categories + [cats[0]] + cats[1..] == st.id.categories + cats;
  }

  lemma CategoryTextSplit(cats: seq<string>, rest: string)
    requires |cats| > 1
    ensures CategoryText(cats) + rest == cats[0] + ([':'] + (CategoryText(cats[1..]) + rest))
  {
    assert JoinCategories(cats[1..]) == [':'] + CategoryText(cats[1..]);
  }

  lemma FitsSeparator(st: Parser, name: string, c: char, tail: string)
    requires WellFormed(st.id) && !st.inVersion && |name| < BUFFER_SIZE && (c == ':' || c == '[')
    requires FitsBuffer(Parser(c == '[', [], st.vI, st.id.(categories := st.id.categories + [name])), tail)
    ensures FitsBuffer(st.(temp := name), [c] + tail)
  {
    assert ([c] + tail)[1..] == tail;
  }

  lemma {:induction false} FitsVersions(st: Parser, versions: seq<int>)
    requires WellFormed(st.id) && st.inVersion && st.temp == []
    requires |versions| > 0 && st.vI + |versions| == VERSION_COUNT
    requires forall v :: v in versions ==> |Decimal(v)| < BUFFER_SIZE
    ensures FitsBuffer(st, Decimal(versions[0]) + VersionTail(versions[1..]))
    decreases |versions|
  {
    var n, rest := versions[0], versions[1..];
    if rest == [] {
      assert VersionTail(rest) == [']'] + [];
      FitsVersion(st, n, ']', []);
    } else {
      var tail := Decimal(rest[0]) + VersionTail(rest[1..]);
      assert VersionTail(rest) == ['.'] + tail;
      FitsVersions(SetVersion(st, n), rest);
      FitsVersion(st, n, '.', tail);
    }
  }

  lemma FitsVersion(st: Parser, n: int, close: char, rest: string)
    requires WellFormed(st.id) && st.inVersion && st.temp == [] && st.vI < VERSION_COUNT
    requires (close == '.' || close == ']') && |Decimal(n)| < BUFFER_SIZE
    requires FitsBuffer(SetVersion(st, n), rest)
    ensures FitsBuffer(st, Decimal(n) + ([close] + rest))
  {
    assert [] + Decimal(n) == Decimal(n);
    CloseVersion(st, n, close);
    FitsFirst(st.(temp := Decimal(n)), close, rest);
    FitsName(st, Decimal(n), [close] + rest);
  }

  lemma FitsFirst(st: Parser, c: char, rest: string)
    requires WellFormed(st.id) && |st.temp| < BUFFER_SIZE && FitsBuffer(Step(st, c), rest)
    ensures FitsBuffer(st, [c] + rest)
  {
    assert ([c] + rest)[1..] == rest;
  }

  /** Separators never end up inside a parsed category name. */
  lemma {:induction false} RunKeepsNamesPlain(st: Parser, s: string)
    requires WellFormed(st.id)
    requires forall name :: name in st.id.categories ==> PlainName(name)
    requires !st.inVersion ==> PlainName(st.temp)
    ensures var r := Run(st, s);
            && (forall name :: name in r.id.categories ==> PlainName(name))
            && (!r.inVersion ==> PlainName(r.temp))
            && |r.id.categories| >= |st.id.categories|
            && (r.inVersion && !st.inVersion ==> |r.id.categories| > 0)
    decreases |s|
  {
    if s != [] {
      RunKeepsNamesPlain(Step(st, s[0]), s[1..]);
    }
  }

  /** Whatever the text, its id can be printed. */
  lemma ParsedIsPrintable(s: string)
    ensures WellFormed(Parsed(s)) && Printable(Parsed(s))
  {
    RunConcat(START, s, [NUL]);
    RunKeepsNamesPlain(START, s);
    var st := Run(START, s);
    assert Run(st, [NUL]) == Step(st, NUL);
    RunKeepsNamesPlain(st, [NUL]);
  }

  /** Reading back the text form returns the id exactly for the printable ids. */
  lemma RoundTripIffPrintable(id: ComponentId)
    requires WellFormed(id)
    ensures Parsed(Text(id)) == id <==> Printable(id)
  {
    if Printable(id) {
      ParseInvertsPrint(id);
    }
    ParsedIsPrintable(Text(id));
  }

  /** Printing normalises: parsing any text, printing it and parsing again changes nothing. */
  lemma PrintNormalises(s: string)
    ensures Parsed(Text(Parsed(s))) == Parsed(s)
  {
    ParsedIsPrintable(s);
    ParseInvertsPrint(Parsed(s));
  }

  // ---------------------------------------------------------------- the version order

  /** `v` precedes `w`: equal up to some slot, smaller there. */
  ghost predicate Precedes(v: seq<int>, w: seq<int>)
    requires |v| == |w|
  {
    exists i :: 0 <= i < |v| && v[..i] == w[..i] && v[i] < w[i]
  }

  method CompareVersion(id: ComponentId, other: ComponentId) returns (r: int)
    requires WellFormed(id) && WellFormed(other)
    ensures r < 0 <==> Precedes(id.versions, other.versions)
    ensures r > 0 <==> Precedes(other.versions, id.versions)
    ensures r == 0 <==> id.versions == other.versions
    ensures r in {-1, 0, 1}
  {
    var v, w := id.versions, other.versions;
    PrecedesIsStrictTotalOrder(v, w, v);
    var i := 0;
    while i < VERSION_COUNT
      invariant 0 <= i <= VERSION_COUNT && v[..i] == w[..i]
    {
      if v[i] < w[i] {
        assert Precedes(v, w);
        return -1;
      } else if v[i] > w[i] {
        assert Precedes(w, v);
        return 1;
      }
      assert v[..i + 1] == v[..i] + [v[i]] && w[..i + 1] == w[..i] + [w[i]];
      i := i + 1;
    }
    return 0;
  }

  lemma PrecedesChains(u: seq<int>, v: seq<int>, w: seq<int>)
    requires |u| == |v| == |w| && Precedes(u, v) && Precedes(v, w)
    ensures Precedes(u, w)
  {
    var i :| 0 <= i < |u| && u[..i] == v[..i] && u[i] < v[i];
    var j :| 0 <= j < |v| && v[..j] == w[..j] && v[j] < w[j];
    var k := if i < j then i else j;
    assert u[..k] == u[..i][..k] == v[..i][..k] == v[..k] == v[..j][..k] == w[..j][..k] == w[..k];
    if i < j {
      assert v[i] == v[..j][i] == w[..j][i] == w[i];
    } else if j < i {
      assert u[j] == u[..i][j] == v[..i][j] == v[j];
    }
  }

  lemma {:induction false} PrecedesIsTotal(v: seq<int>, w: seq<int>, i: nat)
    requires |v| == |w| && i <= |v| && v[..i] == w[..i]
    ensures v == w || Precedes(v, w) || Precedes(w, v)
    decreases |v| - i
  {
    if i < |v| && v[i] == w[i] {
      assert v[..i + 1] == v[..i] + [v[i]] && w[..i + 1] == w[..i] + [w[i]];
      PrecedesIsTotal(v, w, i + 1);
    }
  }

  /** The lexicographic order is a strict total order on version lists of one length. */
  lemma PrecedesIsStrictTotalOrder(u: seq<int>, v: seq<int>, w: seq<int>)
    requires |u| == |v| == |w|
    ensures !Precedes(u, u)
    ensures !(Precedes(u, v) && Precedes(v, u))
    ensures u == v || Precedes(u, v) || Precedes(v, u)
    ensures Precedes(u, v) && Precedes(v, w) ==> Precedes(u, w)
  {
    if Precedes(u, v) && Precedes(v, u) {
      PrecedesChains(u, v, u);
    }
    if Precedes(u, v) && Precedes(v, w) {
      PrecedesChains(u, v, w);
    }
    PrecedesIsTotal(u, v, 0);
  }

  // ---------------------------------------------------------------- matching

  /** `provider` satisfies the dependency `id`. */
  ghost predicate Matches(id: ComponentId, provider: ComponentId)
    requires WellFormed(id) && WellFormed(provider)
  {
    && (forall i :: 0 <= i < |id.categories| ==> GetCategory(provider, i) == id.categories[i])
    && !Precedes(provider.versions, id.versions)
  }

  method IsMatchedBy(id: ComponentId, provider: ComponentId) returns (b: bool)
    requires WellFormed(id) && WellFormed(provider)
    ensures b <==> Matches(id, provider)
  {
    var i := 0;
    while i < |id.categories|
      invariant 0 <= i <= |id.categories|
      invariant forall k :: 0 <= k < i ==> GetCategory(provider, k) == id.categories[k]
    {
      if GetCategory(provider, i) != GetCategory(id, i) {
        return false;
      }
      i := i + 1;
    }
    var c := CompareVersion(id, provider);
    b := c <= 0;
  }

  /** The four versions of `v` are equal to those of `w`, or greater in the first that is not. */
  predicate AtLeast(v: seq<int>, w: seq<int>)
    requires |v| == |w| == 4
  {
    v[0] > w[0] || (v[0] == w[0] && (v[1] > w[1] || (v[1] == w[1] && (v[2] > w[2] || (v[2] == w[2] && v[3] >= w[3])))))
  }

  /** A dependency is satisfied by exactly the providers that have its categories first and are of at least
      its version; categories that a provider lacks are empty. */
  lemma MatchesIff(id: ComponentId, provider: ComponentId)
    requires WellFormed(id) && WellFormed(provider)
    ensures Matches(id, provider) <==>
            && AtLeast(provider.versions, id.versions)
            && forall i :: 0 <= i < |id.categories| ==>
                 id.categories[i] == if i < |provider.categories| then provider.categories[i] else ""
  {
    PrecedesIff(provider.versions, id.versions);
    forall i | 0 <= i < |id.categories|
      ensures GetCategory(provider, i) == if i < |provider.categories| then provider.categories[i] else ""
    {
    }
  }

  lemma PrecedesIff(v: seq<int>, w: seq<int>)
    requires |v| == |w| == 4
    ensures Precedes(v, w) <==> !AtLeast(v, w)
  {
    if Precedes(v, w) {
      var i :| 0 <= i < |v| && v[..i] == w[..i] && v[i] < w[i];
      assert forall j :: 0 <= j < i ==> v[..i][j] == w[..i][j];
    } else {
      forall i | 0 <= i < 4 && (forall j :: 0 <= j < i ==> v[j] == w[j]) ensures v[i] >= w[i] {
        assert v[..i] == w[..i];
      }
    }
  }

  /** Raising a version of a provider never loses a match, and neither does lowering one of a dependency. */
  lemma RaisingKeepsMatch(id: ComponentId, provider: ComponentId, i: nat, n: int)
    requires WellFormed(id) && WellFormed(provider) && Matches(id, provider) && i < 4
    ensures n >= provider.versions[i] ==> Matches(id, provider.(versions := provider.versions[i := n]))
    ensures n <= id.versions[i] ==> Matches(id.(versions := id.versions[i := n]), provider)
  {
    MatchesIff(id, provider);
    if n >= provider.versions[i] {
      MatchesIff(id, provider.(versions := provider.versions[i := n]));
    }
    if n <= id.versions[i] {
      MatchesIff(id.(versions := id.versions[i := n]), provider);
    }
  }

  /** Of two ids with the same categories that differ, the one greater in the first version that differs
      satisfies the other, and not the other way round. */
  lemma GreaterMatchesOnly(id: ComponentId, provider: ComponentId, i: nat)
    requires WellFormed(id) && WellFormed(provider) && id.categories == provider.categories
    requires i < 4 && (forall j :: 0 <= j < i ==> provider.versions[j] == id.versions[j]) && provider.versions[i] > id.versions[i]
    ensures Matches(id, provider) && !Matches(provider, id)
  {
    MatchesIff(id, provider);
    MatchesIff(provider, id);
  }

  ghost predicate MatchingChains(a: ComponentId)
    requires WellFormed(a)
  {
    forall b, c :: WellFormed(b) && WellFormed(c) && Matches(a, b) && Matches(b, c) ==> Matches(a, c)
  }

  lemma MatchesItself(id: ComponentId)
    requires WellFormed(id)
    ensures Matches(id, id)
  {
    PrecedesIsStrictTotalOrder(id.versions, id.versions, id.versions);
  }

  lemma NotPrecedesChains(u: seq<int>, v: seq<int>, w: seq<int>)
    requires |u| == |v| == |w| && !Precedes(v, u) && !Precedes(w, v)
    ensures !Precedes(w, u)
  {
    PrecedesIsStrictTotalOrder(u, v, w);
    PrecedesIsStrictTotalOrder(w, u, v);
  }

  lemma MatchingChainsUnlessLastEmpty(a: ComponentId, b: ComponentId, c: ComponentId)
    requires WellFormed(a) && WellFormed(b) && WellFormed(c) && Matches(a, b) && Matches(b, c)
    requires |a.categories| == 0 || a.categories[|a.categories| - 1] != ""
    ensures Matches(a, c)
  {
    NotPrecedesChains(a.versions, b.versions, c.versions);
    if |a.categories| > 0 {
      assert GetCategory(b, |a.categories| - 1) == a.categories[|a.categories| - 1];
      forall i | 0 <= i < |a.categories| ensures GetCategory(c, i) == a.categories[i] {
        assert GetCategory(b, i) == a.categories[i];
      }
    }
  }

  /** A missing provider category reads as the empty name, so a dependency ending in an empty
      category accepts a shorter provider that a longer one in turn satisfies.  Such
      dependencies are the only ones for which matching does not chain. */
  lemma MatchingChainsIff(a: ComponentId)
    requires WellFormed(a)
    ensures MatchingChains(a) <==> |a.categories| == 0 || a.categories[|a.categories| - 1] != ""
  {
    var n := |a.categories|;
    if n == 0 || a.categories[n - 1] != "" {
      forall b, c | WellFormed(b) && WellFormed(c) && Matches(a, b) && Matches(b, c)
        ensures Matches(a, c)
      {
        MatchingChainsUnlessLastEmpty(a, b, c);
      }
    } else {
      var b := a.(categories := a.categories[..n - 1]);
      var c := a.(categories := a.categories[..n - 1] + ["x"]);
      PrecedesIsStrictTotalOrder(a.versions, a.versions, a.versions);
      assert Matches(a, b) && Matches(b, c);
      assert GetCategory(c, n - 1) != a.categories[n - 1];
    }
  }
}

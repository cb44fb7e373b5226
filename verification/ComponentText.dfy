/** What the parser of component ids makes of any text, and how printed ids look. */
module ComponentTexts {
  import opened ComponentIds

  // ---------------------------------------------------------------- texts in pieces

  /** The pieces of `s` between separators: one more than there are separators. */
  function Pieces(s: string, separators: set<char>): (ps: seq<string>)
    ensures |ps| > 0
  {
    if s == "" then [""]
    else
      var ps := Pieces(s[1..], separators);
      if s[0] in separators then [""] + ps else [[s[0]] + ps[0]] + ps[1..]
  }

  /** The pieces of what follows `temp`, which belongs to the first. */
  function PiecesAfter(temp: string, s: string, separators: set<char>): (ps: seq<string>)
    ensures |ps| == |Pieces(s, separators)| && ps[0] == temp + Pieces(s, separators)[0]
  {
    var ps := Pieces(s, separators);
    [temp + ps[0]] + ps[1..]
  }

  lemma PiecesStep(temp: string, s: string, separators: set<char>)
    requires s != ""
    ensures s[0] in separators ==> PiecesAfter(temp, s, separators) == [temp] + PiecesAfter("", s[1..], separators)
    ensures s[0] !in separators ==> PiecesAfter(temp, s, separators) == PiecesAfter(temp + [s[0]], s[1..], separators)
  {
    var ps := Pieces(s[1..], separators);
    assert temp + ([s[0]] + ps[0]) == temp + [s[0]] + ps[0];
    assert temp + "" == temp && "" + ps[0] == ps[0] && [ps[0]] + ps[1..] == ps;
  }

  lemma PiecesOfNothing(temp: string, separators: set<char>)
    ensures PiecesAfter(temp, "", separators) == [temp]
  {
    assert temp + "" == temp;
  }

  lemma PiecesAfterNothing(s: string, separators: set<char>)
    ensures PiecesAfter("", s, separators) == Pieces(s, separators)
  {
    var ps := Pieces(s, separators);
    assert "" + ps[0] == ps[0] && [ps[0]] + ps[1..] == ps;
  }

  lemma LastBack(ps: seq<string>)
    requires ps != []
    ensures [] + ps[..|ps| - 1] + [ps[|ps| - 1]] == ps
  {
  }

  // ---------------------------------------------------------------- parsing

  lemma {:induction false} CategoriesRead(st: Parser, head: string)
    requires WellFormed(st.id) && !st.inVersion && '[' !in head && NUL !in head
    ensures var ps := PiecesAfter(st.temp, head, {':'}); var n := |ps| - 1;
            Run(st, head) == st.(temp := ps[n], id := st.id.(categories := st.id.categories + ps[..n]))
    decreases |head|
  {
    if head == "" {
      PiecesOfNothing(st.temp, {':'});
      assert st.id.categories + [] == st.id.categories;
    } else {
      PiecesStep(st.temp, head, {':'});
      CategoriesRead(Step(st, head[0]), head[1..]);
      if head[0] == ':' {
        JoinFirst(st.id.categories, st.temp, PiecesAfter("", head[1..], {':'}));
      }
    }
  }

  lemma JoinFirst(done: seq<string>, first: string, rest: seq<string>)
    requires rest != []
    ensures var all := [first] + rest;
            all[|all| - 1] == rest[|rest| - 1] && done + all[..|all| - 1] == done + [first] + rest[..|rest| - 1]
  {
  }

  /** `v` is `was`, with the numbers of the terminated pieces from place `n` on. */
  predicate Filled(v: seq<int>, was: seq<int>, n: nat, ps: seq<string>)
    requires |v| == |was|
  {
    forall i :: 0 <= i < |v| ==> v[i] == if n <= i && i - n < |ps| - 1 then Atoi(ps[i - n]) else was[i]
  }

  lemma {:induction false} VersionsRead(st: Parser, tail: string)
    requires WellFormed(st.id) && st.inVersion
    ensures var r := Run(st, tail);
            r.inVersion && r.id.categories == st.id.categories
            && Filled(r.id.versions, st.id.versions, st.vI, PiecesAfter(st.temp, tail, {'.', ']'}))
    decreases |tail|
  {
    var ps := PiecesAfter(st.temp, tail, {'.', ']'});
    if tail == "" {
      PiecesOfNothing(st.temp, {'.', ']'});
    } else {
      var next := Step(st, tail[0]);
      PiecesStep(st.temp, tail, {'.', ']'});
      VersionsRead(next, tail[1..]);
      if tail[0] == '.' || tail[0] == ']' {
        FilledOn(Run(st, tail).id.versions, next.id.versions, st.id.versions, st.vI, st.temp, PiecesAfter("", tail[1..], {'.', ']'}));
      }
    }
  }

  lemma FilledOn(v: seq<int>, mid: seq<int>, was: seq<int>, n: nat, token: string, ps: seq<string>)
    requires |v| == |mid| == |was| && ps != []
    requires mid == if n < |was| then was[n := Atoi(token)] else was
    requires Filled(v, mid, if n < |was| then n + 1 else n, ps)
    ensures Filled(v, was, n, [token] + ps)
  {
    var all := [token] + ps;
    forall i | 0 <= i < |v| ensures v[i] == if n <= i && i - n < |all| - 1 then Atoi(all[i - n]) else was[i] {
      if n == i {
        assert all[0] == token && v[i] == mid[i];
      } else if n < i && i - n < |all| - 1 {
        assert all[i - n] == ps[i - (n + 1)];
      }
    }
  }

  /** What any text denotes.  Without a bracket its categories are what stands between the colons, and the
      version is 0.0.0.0. */
  lemma ParsedPlain(s: string)
    requires '[' !in s && NUL !in s
    ensures Parsed(s) == ComponentId(Pieces(s, {':'}), [0, 0, 0, 0])
  {
    Terminated(s);
    CategoriesRead(START, s);
    var ps := PiecesAfter("", s, {':'});
    PiecesAfterNothing(s, {':'});
    LastBack(ps);
  }

  /** With one, the categories end at the first bracket, and what stands after it before the dots and closing
      brackets are the versions: the first four count, those missing are 0, and a last one that is not
      terminated is dropped. */
  lemma ParsedVersioned(head: string, tail: string)
    requires '[' !in head && NUL !in head && NUL !in tail
    ensures var id, vs := Parsed(head + "[" + tail), Pieces(tail, {'.', ']'});
            && id.categories == Pieces(head, {':'}) && |id.versions| == 4
            && forall i :: 0 <= i < 4 ==> id.versions[i] == if i < |vs| - 1 then Atoi(vs[i]) else 0
  {
    Terminated(head + "[" + tail);
    RunConcat(START, head + "[", tail);
    var mid := HeadRead(head);
    VersionsRead(mid, tail);
    PiecesAfterNothing(tail, {'.', ']'});
  }

  lemma HeadRead(head: string) returns (mid: Parser)
    requires '[' !in head && NUL !in head
    ensures mid == Run(START, head + "[") == Parser(true, "", 0, ComponentId(Pieces(head, {':'}), [0, 0, 0, 0]))
  {
    CategoriesRead(START, head);
    RunConcat(START, head, "[");
    mid := Bracket(Run(START, head));
    PiecesAfterNothing(head, {':'});
    LastBack(PiecesAfter("", head, {':'}));
  }

  lemma Bracket(st: Parser) returns (mid: Parser)
    requires WellFormed(st.id) && !st.inVersion
    ensures mid == Run(st, "[") == Parser(true, "", st.vI, st.id.(categories := st.id.categories + [st.temp]))
  {
    mid := Step(st, '[');
    assert "["[1..] == "";
  }

  /** The terminator ends the last category, or an unterminated version without an effect. */
  lemma Terminated(s: string)
    ensures var st := Run(START, s);
            Parsed(s) == if st.inVersion then st.id else st.id.(categories := st.id.categories + [st.temp])
  {
    RunConcat(START, s, [NUL]);
    assert [NUL][1..] == "";
  }

  predicate AllShort(ps: seq<string>) {
    forall i :: 0 <= i < |ps| ==> |ps[i]| < 256
  }

  lemma {:induction false} PiecesFit(st: Parser, s: string, separators: set<char>)
    requires WellFormed(st.id) && separators == if st.inVersion then {'.', ']'} else {':'}
    requires st.inVersion || ('[' !in s && NUL !in s)
    ensures FitsBuffer(st, s) <==> AllShort(PiecesAfter(st.temp, s, separators))
    decreases |s|
  {
    if s == "" {
      PiecesOfNothing(st.temp, separators);
    } else {
      var rest := PiecesAfter(Step(st, s[0]).temp, s[1..], separators);
      PiecesStep(st.temp, s, separators);
      PiecesFit(Step(st, s[0]), s[1..], separators);
      assert rest[0] == Step(st, s[0]).temp + Pieces(s[1..], separators)[0];
      if s[0] in separators {
        FirstShort(st.temp, rest);
      }
    }
  }

  lemma FirstShort(first: string, rest: seq<string>)
    ensures AllShort([first] + rest) <==> |first| < 256 && AllShort(rest)
  {
    if AllShort([first] + rest) {
      assert ([first] + rest)[0] == first;
      forall i | 0 <= i < |rest| ensures |rest[i]| < 256 {
        assert ([first] + rest)[i + 1] == rest[i];
      }
    }
  }

  lemma {:induction false} FitsInTurn(st: Parser, a: string, b: string)
    requires WellFormed(st.id)
    ensures FitsBuffer(st, a + b) <==> FitsBuffer(st, a) && FitsBuffer(Run(st, a), b)
    decreases |a|
  {
    if a == "" {
      assert a + b == b;
    } else {
      assert (a + b)[1..] == a[1..] + b;
      FitsInTurn(Step(st, a[0]), a[1..], b);
    }
  }

  /** A text can be parsed exactly when every piece of it is shorter than the buffer of 256 characters. */
  lemma FitsIff(head: string, tail: string)
    requires '[' !in head && NUL !in head
    ensures FitsBuffer(START, head) <==> AllShort(Pieces(head, {':'}))
    ensures FitsBuffer(START, head + "[" + tail) <==> AllShort(Pieces(head, {':'})) && AllShort(Pieces(tail, {'.', ']'}))
  {
    PiecesFit(START, head, {':'});
    PiecesAfterNothing(head, {':'});
    var mid := HeadRead(head);
    FitsInTurn(START, head, "[");
    FitsInTurn(START, head + "[", tail);
    PiecesFit(mid, tail, {'.', ']'});
    PiecesAfterNothing(tail, {'.', ']'});
    CategoriesRead(START, head);
    FitsInTurn(START, head, "");
    assert head + "" == head;
    BracketFits(Run(START, head));
  }

  lemma BracketFits(st: Parser)
    requires WellFormed(st.id) && !st.inVersion
    ensures FitsBuffer(st, "[") <==> FitsBuffer(st, "")
  {
    assert "["[1..] == "";
  }

  // ---------------------------------------------------------------- printing

  /** The text of an id with two categories. */
  lemma TextIs(category: string, sub: string, a: int, b: int, c: int, d: int)
    ensures Text(ComponentId([category, sub], [a, b, c, d])) ==
            (category + (":" + sub))
            + ("[" + (Decimal(a) + ("." + (Decimal(b) + ("." + (Decimal(c) + ("." + (Decimal(d) + "]"))))))))
  {
    NamesAre(category, sub);
    TailIs(b, c, d);
    assert [a, b, c, d][1..] == [b, c, d];
  }

  lemma NamesAre(category: string, sub: string)
    ensures CategoryText([category, sub]) == category + (":" + sub)
  {
    assert [category, sub][1..] == [sub] && [sub][1..] == [];
    assert ":" + sub + JoinCategories([]) == ":" + sub;
  }

  lemma TailIs(b: int, c: int, d: int)
    ensures VersionTail([b, c, d]) == "." + (Decimal(b) + ("." + (Decimal(c) + ("." + (Decimal(d) + "]")))))
  {
    assert [b, c, d][1..] == [c, d] && [c, d][1..] == [d] && [d][1..] == [];
    assert VersionTail([]) == "]";
    assert VersionTail([d]) == "." + (Decimal(d) + VersionTail([]));
    assert VersionTail([c, d]) == "." + (Decimal(c) + VersionTail([d]));
    assert VersionTail([b, c, d]) == "." + (Decimal(b) + VersionTail([c, d]));
  }

  /** Numbers are printed in base ten, with a sign when they are negative. */
  lemma DecimalIs(n: nat, d: nat)
    requires d < 10
    ensures Decimal(d) == ["0123456789"[d]]
    ensures n > 0 ==> Decimal(10 * n + d) == Decimal(n) + ["0123456789"[d]]
    ensures n > 0 ==> Decimal(0 - n) == "-" + Decimal(n)
  {
    if n > 0 {
      assert (10 * n + d) / 10 == n && (10 * n + d) % 10 == d;
    }
  }
}

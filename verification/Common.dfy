/** What several of the models use. */
module Options {
  datatype Option<+T> = None | Some(value: T)
}

module ByteStrings {
  type byte = b: int | 0 <= b < 256
  type Bytes = seq<byte>

  function Pow256(width: nat): (r: nat)
    ensures r >= 1
  {
    if width == 0 then 1 else 256 * Pow256(width - 1)
  }

  lemma PowerValues()
    ensures Pow256(1) == 0x100 && Pow256(2) == 0x1_0000 && Pow256(4) == 0x1_0000_0000
    ensures Pow256(8) == 0x1_0000_0000_0000_0000
  {
    assert Pow256(3) == 256 * Pow256(2) && Pow256(5) == 256 * Pow256(4);
    assert Pow256(6) == 256 * Pow256(5) && Pow256(7) == 256 * Pow256(6);
  }
}

module Remainders {
  lemma Ahead(q: int, q': int, m: nat)
    requires q < q'
    ensures q' * m >= q * m + m
  {
    var k := q' - q - 1;
    assert k * m >= 0;
    assert q' * m == q * m + m + k * m;
  }

  lemma RemainderUnique(q: int, r: int, q': int, r': int, m: nat)
    requires q * m + r == q' * m + r' && 0 <= r < m && 0 <= r' < m
    ensures q == q' && r == r'
  {
    if q < q' {
      Ahead(q, q', m);
    } else if q > q' {
      Ahead(q', q, m);
    }
  }
}

module Sequences {
  ghost function Elements<T>(q: seq<T>): set<T> {
    set x | x in q
  }

  ghost predicate Distinct<T>(q: seq<T>) {
    forall i, j :: 0 <= i < j < |q| ==> q[i] != q[j]
  }

  lemma Regroup<T>(a: seq<T>, b: seq<T>, c: seq<T>)
    ensures a + b + c == a + (b + c)
  {
  }
}

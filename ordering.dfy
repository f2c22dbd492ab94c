/** The order `ORDER BY` puts column values in: numbers numerically, strings lexicographically by
    code point (PostgreSQL's order under the "C" collation; other collations, such as
    en_US.UTF-8, order text differently), NULL after every other value (PostgreSQL's default
    for ascending order). */
module Ordering {
  import opened Common

  /** Lexicographic order on strings: a prefix comes first. */
  predicate StrLe(a: string, b: string)
    decreases |a|
  {
    |a| == 0 || (|b| > 0 && (a[0] < b[0] || (a[0] == b[0] && StrLe(a[1..], b[1..]))))
  }

  lemma {:induction false} StrLeReflexive(a: string)
    ensures StrLe(a, a)
    decreases |a|
  {
    if |a| > 0 {
      StrLeReflexive(a[1..]);
    }
  }

  lemma {:induction false} StrLeTotal(a: string, b: string)
    ensures StrLe(a, b) || StrLe(b, a)
    decreases |a|
  {
    if |a| > 0 && |b| > 0 && a[0] == b[0] {
      StrLeTotal(a[1..], b[1..]);
    }
  }

  lemma {:induction false} StrLeTransitive(a: string, b: string, c: string)
    requires StrLe(a, b) && StrLe(b, c)
    ensures StrLe(a, c)
    decreases |a|
  {
    if |a| > 0 && a[0] == b[0] && b[0] == c[0] {
      StrLeTransitive(a[1..], b[1..], c[1..]);
    }
  }

  lemma {:induction false} StrLeAntisymmetric(a: string, b: string)
    requires StrLe(a, b) && StrLe(b, a)
    ensures a == b
    decreases |a|
  {
    if |a| > 0 {
      StrLeAntisymmetric(a[1..], b[1..]);
      assert a == [a[0]] + a[1..] && b == [b[0]] + b[1..];
    }
  }

  /** Values of different kinds never share a column; the rank only makes the order total. */
  function Rank(v: Value): nat {
    match v
    case VBool(_) => 0
    case VInt(_) => 1
    case VReal(_) => 2
    case VStr(_) => 3
    case VNull => 4
  }

  predicate ValueLe(a: Value, b: Value) {
    if Rank(a) != Rank(b) then Rank(a) < Rank(b)
    else match (a, b)
      case (VBool(x), VBool(y)) => !x || y
      case (VInt(x), VInt(y)) => x <= y
      case (VReal(x), VReal(y)) => x <= y
      case (VStr(x), VStr(y)) => StrLe(x, y)
      case _ => true
  }

  lemma ValueLeTotal(a: Value, b: Value)
    ensures ValueLe(a, b) || ValueLe(b, a)
  {
    if a.VStr? && b.VStr? {
      StrLeTotal(a.s, b.s);
    }
  }

  lemma ValueLeTransitive(a: Value, b: Value, c: Value)
    requires ValueLe(a, b) && ValueLe(b, c)
    ensures ValueLe(a, c)
  {
    if a.VStr? && b.VStr? && c.VStr? {
      StrLeTransitive(a.s, b.s, c.s);
    }
  }

  lemma ValueLeAntisymmetric(a: Value, b: Value)
    requires ValueLe(a, b) && ValueLe(b, a)
    ensures a == b
  {
    if a.VStr? && b.VStr? {
      StrLeAntisymmetric(a.s, b.s);
    }
  }

  /** The comparison an SQL `>=`/`<=` filter makes: false when either side is NULL or the kinds differ. */
  predicate SqlLe(a: Value, b: Value) {
    !a.VNull? && !b.VNull? && Rank(a) == Rank(b) && ValueLe(a, b)
  }
}

/** Sums over finite sets, independent of any order of enumeration. */
module Sums {

  ghost function Sum<K>(s: set<K>, f: K -> int): int {
    if s == {} then 0
    else
      var k :| k in s;
      f(k) + Sum(s - {k}, f)
  }

  // Any element can be taken out first.
  lemma {:induction false} SumPick<K>(s: set<K>, k: K, f: K -> int)
    requires k in s
    ensures Sum(s, f) == f(k) + Sum(s - {k}, f)
  {
    var c :| c in s && Sum(s, f) == f(c) + Sum(s - {c}, f);
    if c != k {
      SumPick(s - {c}, k, f);
      assert s - {c} - {k} == s - {k} - {c};
      SumPick(s - {k}, c, f);
    }
  }

  lemma SumAdd<K>(s: set<K>, k: K, f: K -> int)
    requires k !in s
    ensures Sum(s + {k}, f) == Sum(s, f) + f(k)
  {
    SumPick(s + {k}, k, f);
    assert s + {k} - {k} == s;
  }

  lemma SumOne<K>(k: K, f: K -> int)
    ensures Sum({k}, f) == f(k)
  {
    SumPick({k}, k, f);
    assert {k} - {k} == {};
  }

  lemma SumTwo<K>(k: K, l: K, f: K -> int)
    requires k != l
    ensures Sum({k} + {l}, f) == f(k) + f(l)
  {
    SumAdd({k}, l, f);
    SumOne(k, f);
  }

  lemma {:induction false} SumSame<K>(s: set<K>, f: K -> int, g: K -> int)
    requires forall k :: k in s ==> f(k) == g(k)
    ensures Sum(s, f) == Sum(s, g)
  {
    if s != {} {
      var k :| k in s;
      SumPick(s, k, f);
      SumPick(s, k, g);
      SumSame(s - {k}, f, g);
    }
  }

  lemma {:induction false} SumZero<K>(s: set<K>, f: K -> int)
    requires forall k :: k in s ==> f(k) == 0
    ensures Sum(s, f) == 0
  {
    if s != {} {
      var k :| k in s;
      SumPick(s, k, f);
      SumZero(s - {k}, f);
    }
  }

  lemma {:induction false} SumDisjoint<K>(a: set<K>, b: set<K>, f: K -> int)
    requires a !! b
    ensures Sum(a + b, f) == Sum(a, f) + Sum(b, f)
  {
    if b == {} {
      assert a + b == a;
    } else {
      var k :| k in b;
      assert a + b == a + (b - {k}) + {k};
      SumDisjoint(a, b - {k}, f);
      SumAdd(a + (b - {k}), k, f);
      SumPick(b, k, f);
    }
  }

  ghost function Members<K, C>(s: set<K>, classOf: K -> C, c: C): set<K> {
    set k | k in s && classOf(k) == c
  }

  // A sum over `s` is the sum, over the classes in `cs`, of the sums over the
  // members of each class.
  lemma {:induction false} SumByClass<K, C>(s: set<K>, cs: set<C>, classOf: K -> C, f: K -> int, perClass: C -> int)
    requires forall k :: k in s ==> classOf(k) in cs
    requires forall c :: c in cs ==> perClass(c) == Sum(Members(s, classOf, c), f)
    ensures Sum(cs, perClass) == Sum(s, f)
  {
    if cs == {} {
      assert s == {};
    } else {
      var c :| c in cs;
      var mine := Members(s, classOf, c);
      var rest := s - mine;
      forall d | d in cs - {c}
        ensures perClass(d) == Sum(Members(rest, classOf, d), f)
      {
        assert Members(rest, classOf, d) == Members(s, classOf, d);
      }
      SumByClass(rest, cs - {c}, classOf, f, perClass);
      SumPick(cs, c, perClass);
      assert s == mine + rest;
      SumDisjoint(mine, rest, f);
    }
  }

  lemma {:induction false} SumAtMost<K>(s: set<K>, f: K -> int, g: K -> int)
    requires forall k :: k in s ==> f(k) <= g(k)
    ensures Sum(s, f) <= Sum(s, g)
  {
    if s != {} {
      var k :| k in s;
      SumPick(s, k, f);
      SumPick(s, k, g);
      SumAtMost(s - {k}, f, g);
    }
  }

  lemma SumLess<K>(s: set<K>, f: K -> int, g: K -> int, k: K)
    requires forall k :: k in s ==> f(k) <= g(k)
    requires k in s && f(k) < g(k)
    ensures Sum(s, f) < Sum(s, g)
  {
    SumPick(s, k, f);
    SumPick(s, k, g);
    SumAtMost(s - {k}, f, g);
  }

  lemma {:induction false} SumPlus<K>(s: set<K>, f: K -> int, g: K -> int, h: K -> int)
    requires forall k :: k in s ==> h(k) == f(k) + g(k)
    ensures Sum(s, h) == Sum(s, f) + Sum(s, g)
  {
    if s != {} {
      var k :| k in s;
      SumPick(s, k, f);
      SumPick(s, k, g);
      SumPick(s, k, h);
      SumPlus(s - {k}, f, g, h);
    }
  }

  lemma {:induction false} SumNonNegative<K>(s: set<K>, f: K -> int)
    requires forall k :: k in s ==> f(k) >= 0
    ensures Sum(s, f) >= 0
  {
    if s != {} {
      var k :| k in s;
      SumPick(s, k, f);
      SumNonNegative(s - {k}, f);
    }
  }

  lemma SumSubset<K>(a: set<K>, b: set<K>, f: K -> int)
    requires a <= b && forall k :: k in b ==> f(k) >= 0
    ensures Sum(a, f) <= Sum(b, f)
  {
    SumNonNegative(b - a, f);
    SumDisjoint(a, b - a, f);
    assert a + (b - a) == b;
  }

  // The sums over the rows and over the columns of a table of numbers.
  ghost function Row<A, B>(f: (A, B) -> int, a: A): B -> int { b => f(a, b) }

  ghost function Column<A, B>(f: (A, B) -> int, b: B): A -> int { a => f(a, b) }

  ghost function RowSum<A, B>(columns: set<B>, f: (A, B) -> int): A -> int { a => Sum(columns, Row(f, a)) }

  ghost function ColumnSum<A, B>(rows: set<A>, f: (A, B) -> int): B -> int { b => Sum(rows, Column(f, b)) }

  lemma {:induction false} SumSwap<A, B>(rows: set<A>, columns: set<B>, f: (A, B) -> int)
    ensures Sum(rows, RowSum(columns, f)) == Sum(columns, ColumnSum(rows, f))
  {
    if rows == {} {
      SumZero(columns, ColumnSum(rows, f));
    } else {
      var a :| a in rows;
      SumPick(rows, a, RowSum(columns, f));
      SumSwap(rows - {a}, columns, f);
      forall b | b in columns
        ensures ColumnSum(rows, f)(b) == Row(f, a)(b) + ColumnSum(rows - {a}, f)(b)
      {
        SumPick(rows, a, Column(f, b));
      }
      SumPlus(columns, Row(f, a), ColumnSum(rows - {a}, f), ColumnSum(rows, f));
    }
  }
}

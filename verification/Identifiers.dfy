/** Identifiers with a total order, the ascending listing of a set of them, and
    sums over maps keyed by them. */
module Identifiers {

  datatype Option<+T> = None | Some(value: T) {
    predicate IsFailure() {
      None?
    }

    function PropagateFailure<U>(): Option<U>
      requires None?
    {
      None
    }

    function Extract(): T
      requires Some?
    {
      value
    }
  }

  const UUID_LIMIT: nat := 0x1_0000_0000_0000_0000_0000_0000_0000_0000

  /** A UUID is its 128-bit value. The order of the values is the order of both
      the raw bytes and the canonical lower-case text. */
  type Uuid = n: nat | n < UUID_LIMIT

  ghost predicate IsLeast(m: Uuid, s: set<Uuid>) {
    m in s && forall y | y in s :: m <= y
  }

  lemma {:induction false} LeastExists(s: set<Uuid>) returns (m: Uuid)
    requires s != {}
    ensures IsLeast(m, s)
    decreases |s|
  {
    m :| m in s;
    var rest := s - {m};
    if rest != {} {
      var n := LeastExists(rest);
      assert forall y | y in s :: y == m || y in rest;
      if n < m { m := n; }
    }
  }

  function Least(s: set<Uuid>): (m: Uuid)
    requires s != {}
    ensures m in s && forall y | y in s :: m <= y
  {
    assert exists m :: m in s && forall y | y in s :: m <= y by {
      var w := LeastExists(s);
      assert IsLeast(w, s);
    }
    var m :| m in s && forall y | y in s :: m <= y;
    m
  }

  /** The strictly ascending listing of a set of identifiers. */
  function Ascending(s: set<Uuid>): (r: seq<Uuid>)
    ensures |r| == |s|
    ensures forall x :: x in r <==> x in s
    ensures forall i, j | 0 <= i < j < |r| :: r[i] < r[j]
  {
    if s == {} then [] else
      var m := Least(s);
      var rest := Ascending(s - {m});
      assert forall x :: x in s <==> x == m || x in s - {m};
      [m] + rest
  }

  // --- Sequences and their elements ------------------------------------------

  function Elements<T>(xs: seq<T>): set<T> {
    set x | x in xs
  }

  predicate Distinct<T(==)>(xs: seq<T>) {
    forall i, j | 0 <= i < j < |xs| :: xs[i] != xs[j]
  }

  /** A sequence has as many elements as positions exactly when none repeats. */
  lemma {:induction false} DistinctCount<T>(xs: seq<T>)
    ensures |Elements(xs)| <= |xs|
    ensures |Elements(xs)| == |xs| <==> Distinct(xs)
  {
    if xs != [] {
      var last, rest := xs[|xs| - 1], xs[..|xs| - 1];
      DistinctCount(rest);
      assert Elements(xs) == Elements(rest) + {last};
      if last in rest {
        var i :| 0 <= i < |rest| && rest[i] == last;
        assert xs[i] == xs[|xs| - 1];
        assert Elements(xs) == Elements(rest);
      } else {
        DistinctExtends(rest, last);
        assert xs == rest + [last];
      }
    }
  }

  lemma DistinctExtends<T>(rest: seq<T>, last: T)
    requires last !in rest
    ensures Distinct(rest + [last]) <==> Distinct(rest)
  {
    var xs := rest + [last];
    if Distinct(xs) {
      forall i, j | 0 <= i < j < |rest| ensures rest[i] != rest[j] {
        assert xs[i] != xs[j];
      }
    }
  }

  // --- Sums over maps --------------------------------------------------------

  function SumOver<T>(m: map<Uuid, T>, f: T -> nat): nat
    decreases |m|
  {
    if m.Keys == {} then 0 else
      var k := Least(m.Keys);
      f(m[k]) + SumOver(m - {k}, f)
  }

  /** The sum does not depend on which entry is taken first. */
  lemma {:induction false} SumRemove<T>(m: map<Uuid, T>, k: Uuid, f: T -> nat)
    requires k in m
    ensures SumOver(m, f) == f(m[k]) + SumOver(m - {k}, f)
    decreases |m|
  {
    var h := Least(m.Keys);
    if h != k {
      SumRemove(m - {h}, k, f);
      SumRemove(m - {k}, h, f);
      assert m - {h} - {k} == m - {k} - {h};
    }
  }

  lemma SumUpdate<T>(m: map<Uuid, T>, k: Uuid, v: T, f: T -> nat)
    ensures SumOver(m[k := v], f) + (if k in m then f(m[k]) else 0) == SumOver(m, f) + f(v)
  {
    SumRemove(m[k := v], k, f);
    if k in m {
      SumRemove(m, k, f);
      assert m[k := v] - {k} == m - {k};
    } else {
      assert m[k := v] - {k} == m;
    }
  }

  /** A map that keeps only some keys, each with a value that weighs no more, sums to no more. */
  lemma {:induction false} SumMonotone<T>(small: map<Uuid, T>, big: map<Uuid, T>, f: T -> nat)
    requires small.Keys <= big.Keys
    requires forall k | k in small :: f(small[k]) <= f(big[k])
    ensures SumOver(small, f) <= SumOver(big, f)
    decreases |big|
  {
    if big.Keys != {} {
      var k := Least(big.Keys);
      if k in small {
        SumRemove(small, k, f);
        SumMonotone(small - {k}, big - {k}, f);
      } else {
        SumMonotone(small, big - {k}, f);
      }
    }
  }
}

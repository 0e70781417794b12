/** ORDER BY ... LIMIT: the elements of a finite set in a strict total order,
    and the first of them. */
module Ranking {

  ghost predicate StrictOrderOn<T>(s: set<T>, less: (T, T) -> bool) {
    && (forall x | x in s :: !less(x, x))
    && (forall x, y | x in s && y in s :: x == y || less(x, y) || less(y, x))
    && (forall x, y, z | x in s && y in s && z in s :: less(x, y) && less(y, z) ==> less(x, z))
  }

  ghost predicate Sorted<T>(r: seq<T>, less: (T, T) -> bool) {
    forall i, j | 0 <= i < j < |r| :: less(r[i], r[j])
  }

  lemma {:induction false} LeastExists<T>(s: set<T>, less: (T, T) -> bool)
    requires s != {} && StrictOrderOn(s, less)
    ensures exists m :: m in s && forall x | x in s && x != m :: less(m, x)
  {
    var m :| m in s;
    if s != {m} {
      var rest := s - {m};
      LeastExists(rest, less);
      var n :| n in rest && forall x | x in rest && x != n :: less(n, x);
      if less(m, n) {
        forall x | x in s && x != m ensures less(m, x) {
          if x != n { assert less(n, x); }
        }
      } else {
        assert less(n, m);
        assert forall x | x in s && x != n :: less(n, x);
      }
    }
  }

  lemma OrderWithout<T>(s: set<T>, m: T, less: (T, T) -> bool)
    requires StrictOrderOn(s, less)
    ensures StrictOrderOn(s - {m}, less)
  {
  }

  lemma LeastThenSorted<T>(m: T, rest: seq<T>, less: (T, T) -> bool)
    requires Sorted(rest, less) && forall x <- rest :: less(m, x)
    ensures Sorted([m] + rest, less)
  {
  }

  /** The elements of `s`, ascending. */
  function Ascending<T(==)>(s: set<T>, less: (T, T) -> bool): (r: seq<T>)
    requires StrictOrderOn(s, less)
    ensures Sorted(r, less)
    ensures |r| == |s|
    ensures forall x <- r :: x in s
    ensures forall x <- s :: x in r
    decreases |s|
  {
    if s == {} then [] else
      LeastExists(s, less);
      var m :| m in s && forall x | x in s && x != m :: less(m, x);
      OrderWithout(s, m, less);
      var rest := Ascending(s - {m}, less);
      LeastThenSorted(m, rest, less);
      [m] + rest
  }

  /** The first `limit` elements of `s`: ascending, and no element left out goes
      before one taken. */
  function First<T(==)>(s: set<T>, less: (T, T) -> bool, limit: nat): (r: seq<T>)
    requires StrictOrderOn(s, less)
    ensures Sorted(r, less)
    ensures forall x <- r :: x in s
    ensures |r| == if |s| <= limit then |s| else limit
    ensures forall y <- s | y !in r :: |r| == limit
    ensures forall x, y | x in r && y in s && y !in r :: less(x, y)
  {
    var all := Ascending(s, less);
    var r := if |all| <= limit then all else all[..limit];
    assert forall x, y | x in r && y in s && y !in r :: less(x, y) by {
      forall x, y | x in r && y in s && y !in r ensures less(x, y) {
        var i :| 0 <= i < |r| && r[i] == x;
        var j :| 0 <= j < |all| && all[j] == y;
        assert forall k | 0 <= k < |r| :: r[k] == all[k];
        assert j >= |r|;
      }
    }
    r
  }

  // ----- strings, byte by byte -----

  predicate Less(a: string, b: string) {
    if b == "" then false
    else if a == "" then true
    else a[0] < b[0] || (a[0] == b[0] && Less(a[1..], b[1..]))
  }

  lemma {:induction false} LessIsStrict(a: string, b: string)
    ensures !Less(a, a)
    ensures a == b || Less(a, b) || Less(b, a)
  {
    if a != "" {
      LessIsStrict(a[1..], if b == "" then "" else b[1..]);
      if b != "" && a[0] == b[0] && a[1..] == b[1..] {
        assert a == [a[0]] + a[1..] && b == [b[0]] + b[1..];
      }
    }
  }

  lemma {:induction false} LessIsTransitive(a: string, b: string, c: string)
    requires Less(a, b) && Less(b, c)
    ensures Less(a, c)
  {
    if a != "" && a[0] == b[0] == c[0] {
      LessIsTransitive(a[1..], b[1..], c[1..]);
    }
  }

  /** What differs in the first |a| bytes differs whatever follows. */
  lemma {:induction false} LessExtends(a: string, b: string, x: string, y: string)
    requires |a| == |b| && Less(a, b)
    ensures Less(a + x, b + y)
  {
    assert (a + x)[0] == a[0] && (b + y)[0] == b[0];
    if a[0] == b[0] {
      LessExtends(a[1..], b[1..], x, y);
      assert (a + x)[1..] == a[1..] + x && (b + y)[1..] == b[1..] + y;
    }
  }

  /** A common prefix decides nothing. */
  lemma {:induction false} LessAfterPrefix(p: string, x: string, y: string)
    ensures Less(p + x, p + y) <==> Less(x, y)
  {
    if p == "" {
      assert p + x == x && p + y == y;
    } else {
      LessAfterPrefix(p[1..], x, y);
      assert (p + x)[1..] == p[1..] + x && (p + y)[1..] == p[1..] + y;
    }
  }

  lemma LessIsOneWay(a: string, b: string)
    requires Less(a, b)
    ensures !Less(b, a) && a != b
  {
    LessIsStrict(a, b);
    if Less(b, a) {
      LessIsTransitive(a, b, a);
    }
  }
}

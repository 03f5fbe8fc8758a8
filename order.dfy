/**
 * Orderings and sorting. Python compares `str` values lexicographically by
 * code point; `sorted(...)` and `np.unique` return the distinct values in
 * ascending order. Both are modelled here once, generically in the order.
 */
module Order {

  /** Python's `a < b` on strings: lexicographic comparison by code point. */
  predicate LexLess(a: string, b: string)
    decreases |a|
  {
    if |a| == 0 then |b| > 0
    else if |b| == 0 then false
    else if a[0] != b[0] then a[0] < b[0]
    else LexLess(a[1..], b[1..])
  }

  lemma {:induction false} LexLessIrreflexive(a: string)
    ensures !LexLess(a, a)
    decreases |a|
  {
    if |a| > 0 {
      LexLessIrreflexive(a[1..]);
    }
  }

  lemma {:induction false} LexLessTransitive(a: string, b: string, c: string)
    requires LexLess(a, b) && LexLess(b, c)
    ensures LexLess(a, c)
    decreases |a|
  {
    if |a| > 0 && a[0] == b[0] && b[0] == c[0] {
      LexLessTransitive(a[1..], b[1..], c[1..]);
    }
  }

  lemma {:induction false} LexLessTotal(a: string, b: string)
    ensures a == b || LexLess(a, b) || LexLess(b, a)
    decreases |a|
  {
    if |a| > 0 && |b| > 0 && a[0] == b[0] {
      LexLessTotal(a[1..], b[1..]);
      if a[1..] == b[1..] {
        assert a == [a[0]] + a[1..] && b == [b[0]] + b[1..];
      }
    }
  }

  /** Two strings that start with prefixes of equal length compare first on
      those prefixes and, when the prefixes are equal, on what follows them. */
  lemma {:induction false} LexLessConcat(x1: string, x2: string, y1: string, y2: string)
    requires |x1| == |y1|
    ensures LexLess(x1 + x2, y1 + y2) <==> LexLess(x1, y1) || (x1 == y1 && LexLess(x2, y2))
    decreases |x1|
  {
    if |x1| > 0 {
      assert (x1 + x2)[0] == x1[0] && (y1 + y2)[0] == y1[0];
      assert (x1 + x2)[1..] == x1[1..] + x2;
      assert (y1 + y2)[1..] == y1[1..] + y2;
      LexLessConcat(x1[1..], x2, y1[1..], y2);
      if x1[0] == y1[0] {
        assert x1 == y1 <==> x1[1..] == y1[1..] by {
          assert x1 == [x1[0]] + x1[1..] && y1 == [y1[0]] + y1[1..];
        }
      }
    } else {
      assert x1 == y1 == [];
      assert x1 + x2 == x2 && y1 + y2 == y2;
    }
  }

  /** `less` is a strict total order on the elements of `s`. */
  ghost predicate StrictTotalOn<T>(less: (T, T) -> bool, s: set<T>)
  {
    && (forall x :: x in s ==> !less(x, x))
    && (forall x, y, z :: x in s && y in s && z in s && less(x, y) && less(y, z) ==> less(x, z))
    && (forall x, y :: x in s && y in s ==> x == y || less(x, y) || less(y, x))
  }

  ghost predicate StrictlySorted<T>(r: seq<T>, less: (T, T) -> bool)
  {
    forall i, j :: 0 <= i < j < |r| ==> less(r[i], r[j])
  }

  predicate IsLeast<T(!new)>(m: T, s: set<T>, less: (T, T) -> bool)
  {
    m in s && forall x :: x in s ==> !less(x, m)
  }

  lemma {:induction false} LeastExists<T(!new)>(s: set<T>, less: (T, T) -> bool)
    requires s != {} && StrictTotalOn(less, s)
    ensures exists m :: IsLeast(m, s, less)
    decreases |s|
  {
    var x :| x in s;
    if s == {x} {
      assert IsLeast(x, s, less);
    } else {
      var rest := s - {x};
      LeastExists(rest, less);
      var m :| IsLeast(m, rest, less);
      if less(x, m) {
        assert IsLeast(x, s, less);
      } else {
        assert IsLeast(m, s, less);
      }
    }
  }

  /** The elements of `s` in ascending order (Python's `sorted` of a set of distinct values). */
  function SortSet<T(!new)>(s: set<T>, less: (T, T) -> bool): (r: seq<T>)
    requires StrictTotalOn(less, s)
    ensures |r| == |s|
    ensures forall x :: x in r <==> x in s
    ensures StrictlySorted(r, less)
    decreases |s|
  {
    if s == {} then []
    else
      LeastExists(s, less);
      var m :| IsLeast(m, s, less);
      [m] + SortSet(s - {m}, less)
  }

  /** The position of `x` in `r`: for a strictly sorted `r` this is the count
      of elements below `x`, which is the code LabelEncoder assigns. */
  function IndexOf<T(==)>(r: seq<T>, x: T): (i: nat)
    requires x in r
    ensures i < |r| && r[i] == x && x !in r[..i]
  {
    if r[0] == x then 0 else 1 + IndexOf(r[1..], x)
  }

  /** The first position of `x` in `a + b`. */
  lemma {:induction false} IndexOfAppend<T>(a: seq<T>, b: seq<T>, x: T)
    requires x in a + b
    ensures x in a ==> IndexOf(a + b, x) == IndexOf(a, x)
    ensures x !in a ==> x in b && IndexOf(a + b, x) == |a| + IndexOf(b, x)
  {
    if |a| > 0 {
      assert (a + b)[0] == a[0];
      if a[0] != x {
        assert (a + b)[1..] == a[1..] + b;
        IndexOfAppend(a[1..], b, x);
      }
    } else {
      assert a + b == b;
    }
  }

  /** In a sequence without repetitions, the element at `i` is found at `i`. */
  lemma IndexOfDistinct<T>(r: seq<T>, i: nat)
    requires i < |r|
    requires forall p, q :: 0 <= p < q < |r| ==> r[p] != r[q]
    ensures IndexOf(r, r[i]) == i
  {
    var k := IndexOf(r, r[i]);
    assert r[k] == r[i];
  }

  /** In a strictly sorted sequence, the order of two elements is the order of their positions. */
  lemma SortedPositions<T>(r: seq<T>, less: (T, T) -> bool, s: set<T>, p: nat, q: nat)
    requires StrictTotalOn(less, s) && (forall k :: 0 <= k < |r| ==> r[k] in s)
    requires StrictlySorted(r, less)
    requires p < |r| && q < |r|
    ensures less(r[p], r[q]) <==> p < q
  {
    assert r[p] in s && r[q] in s;
    assert q < p ==> less(r[q], r[p]);
  }

  lemma LexLessIsStrictTotal(s: set<string>)
    ensures StrictTotalOn(LexLess, s)
  {
    forall x | x in s ensures !LexLess(x, x) {
      LexLessIrreflexive(x);
    }
    forall x, y, z | x in s && y in s && z in s && LexLess(x, y) && LexLess(y, z)
      ensures LexLess(x, z)
    {
      LexLessTransitive(x, y, z);
    }
    forall x, y | x in s && y in s ensures x == y || LexLess(x, y) || LexLess(y, x) {
      LexLessTotal(x, y);
    }
  }
}

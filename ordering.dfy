/**
 The order `Array.prototype.sort` uses when called without a comparator:
 strings compared character by character, a proper prefix first. Characters
 are compared by code point (JavaScript compares UTF-16 code units; the two
 agree on every currency code). `Sort` is the sort applied to the keys of the
 symbols response.
 */
module Ordering {

  /** `a` sorts before `b` or is equal to it; a prefix sorts first. */
  predicate Precedes(a: string, b: string)
    ensures a <= b ==> Precedes(a, b)
    decreases |a|
  {
    |a| == 0 || (|b| > 0 && (a[0] < b[0] || (a[0] == b[0] && Precedes(a[1..], b[1..]))))
  }

  lemma {:induction false} PrecedesReflexive(a: string)
    ensures Precedes(a, a)
    decreases |a|
  {
    if |a| > 0 {
      PrecedesReflexive(a[1..]);
    }
  }

  lemma {:induction false} PrecedesTotal(a: string, b: string)
    ensures Precedes(a, b) || Precedes(b, a)
    decreases |a|
  {
    if |a| > 0 && |b| > 0 && a[0] == b[0] {
      PrecedesTotal(a[1..], b[1..]);
    }
  }

  lemma {:induction false} PrecedesAntisymmetric(a: string, b: string)
    requires Precedes(a, b) && Precedes(b, a)
    ensures a == b
    decreases |a|
  {
    if |a| > 0 {
      PrecedesAntisymmetric(a[1..], b[1..]);
      assert a == [a[0]] + a[1..] && b == [b[0]] + b[1..];
    }
  }

  lemma {:induction false} PrecedesTransitive(a: string, b: string, c: string)
    requires Precedes(a, b) && Precedes(b, c)
    ensures Precedes(a, c)
    decreases |a|
  {
    if |a| > 0 && a[0] == b[0] && b[0] == c[0] {
      PrecedesTransitive(a[1..], b[1..], c[1..]);
    }
  }

  /** Every earlier element precedes every later one. */
  ghost predicate Sorted(s: seq<string>) {
    forall i, j :: 0 <= i < j < |s| ==> Precedes(s[i], s[j])
  }

  /** `x` precedes every element of `s`. */
  ghost predicate Below(x: string, s: seq<string>) {
    forall y :: y in s ==> Precedes(x, y)
  }

  lemma SortedCons(x: string, s: seq<string>)
    requires Below(x, s) && Sorted(s)
    ensures Sorted([x] + s)
  {
    var r := [x] + s;
    forall i, j | 0 <= i < j < |r| ensures Precedes(r[i], r[j]) {
      if i > 0 {
        assert r[i] == s[i - 1] && r[j] == s[j - 1];
      } else {
        assert r[j] in s;
      }
    }
  }

  /** Inserts `x` into a sorted list, before the first element it precedes. */
  function Insert(x: string, s: seq<string>): (r: seq<string>)
    requires Sorted(s)
    ensures Sorted(r)
    ensures multiset(r) == multiset(s) + multiset{x}
    decreases |s|
  {
    if s == [] then
      [x]
    else if Precedes(x, s[0]) then
      assert Below(x, s) by {
        forall y | y in s ensures Precedes(x, y) {
          var k :| 0 <= k < |s| && s[k] == y;
          if k > 0 {
            PrecedesTransitive(x, s[0], y);
          } else {
            assert y == s[0];
          }
        }
      }
      SortedCons(x, s);
      [x] + s
    else
      SortedTail(s);
      var rest := Insert(x, s[1..]);
      assert Below(s[0], rest) by {
        PrecedesTotal(x, s[0]);
        forall y | y in rest ensures Precedes(s[0], y) {
          assert y in multiset(rest);
          if y != x {
            assert y in multiset(s[1..]);
            var k :| 0 <= k < |s[1..]| && s[1..][k] == y;
            assert s[k + 1] == y;
          }
        }
      }
      SortedCons(s[0], rest);
      assert s == [s[0]] + s[1..];
      [s[0]] + rest
  }

  /** The codes of `s` in sorted order. */
  function Sort(s: seq<string>): (r: seq<string>)
    ensures Sorted(r)
    ensures multiset(r) == multiset(s)
    decreases |s|
  {
    if s == [] then
      []
    else
      assert s == [s[0]] + s[1..];
      Insert(s[0], Sort(s[1..]))
  }

  lemma SortedTail(s: seq<string>)
    requires Sorted(s) && s != []
    ensures Sorted(s[1..])
  {
    forall i, j | 0 <= i < j < |s[1..]| ensures Precedes(s[1..][i], s[1..][j]) {
      assert s[1..][i] == s[i + 1] && s[1..][j] == s[j + 1];
    }
  }

  /** The head of a sorted list precedes every element of it. */
  lemma HeadIsLeast(s: seq<string>, y: string)
    requires Sorted(s) && y in multiset(s)
    ensures Precedes(s[0], y)
  {
    var k :| 0 <= k < |s| && s[k] == y;
    if k == 0 {
      PrecedesReflexive(y);
    }
  }

  lemma TailContents(s: seq<string>)
    requires s != []
    ensures multiset(s[1..]) == multiset(s) - multiset{s[0]}
  {
    assert s == [s[0]] + s[1..];
  }

  /** Two sorted lists with the same elements are the same list. */
  lemma {:induction false} SortedIsDeterminedByContents(a: seq<string>, b: seq<string>)
    requires Sorted(a) && Sorted(b)
    requires multiset(a) == multiset(b)
    ensures a == b
    decreases |a|
  {
    if a != [] {
      assert b != [] by {
        assert a[0] in multiset(b);
      }
      HeadIsLeast(b, a[0]);
      HeadIsLeast(a, b[0]);
      PrecedesAntisymmetric(a[0], b[0]);
      TailContents(a);
      TailContents(b);
      SortedTail(a);
      SortedTail(b);
      SortedIsDeterminedByContents(a[1..], b[1..]);
      assert a == [a[0]] + a[1..] && b == [b[0]] + b[1..];
    }
  }

  /** The sorted list depends only on the codes, not on the order they arrive in;
      in particular sorting a sorted list changes nothing. */
  lemma SortIgnoresArrivalOrder(s: seq<string>, t: seq<string>)
    requires multiset(s) == multiset(t)
    ensures Sort(s) == Sort(t)
    ensures Sort(Sort(s)) == Sort(s)
  {
    SortedIsDeterminedByContents(Sort(s), Sort(t));
    SortedIsDeterminedByContents(Sort(Sort(s)), Sort(s));
  }

  /** Distinct codes stay distinct after sorting. */
  lemma SortKeepsDistinct(s: seq<string>)
    requires forall i, j :: 0 <= i < j < |s| ==> s[i] != s[j]
    ensures forall i, j :: 0 <= i < j < |Sort(s)| ==> Sort(s)[i] != Sort(s)[j]
  {
    var r := Sort(s);
    forall x | x in multiset(s) ensures multiset(s)[x] == 1 {
      DistinctCountsOnce(s, x);
    }
    forall i, j | 0 <= i < j < |r| ensures r[i] != r[j] {
      if r[i] == r[j] {
        TwiceCountsTwice(r, i, j);
        assert false;
      }
    }
  }

  lemma {:induction false} DistinctCountsOnce(s: seq<string>, x: string)
    requires forall i, j :: 0 <= i < j < |s| ==> s[i] != s[j]
    ensures multiset(s)[x] <= 1
    decreases |s|
  {
    if s != [] {
      assert s == [s[0]] + s[1..];
      forall i, j | 0 <= i < j < |s[1..]| ensures s[1..][i] != s[1..][j] {
        assert s[1..][i] == s[i + 1] && s[1..][j] == s[j + 1];
      }
      DistinctCountsOnce(s[1..], x);
      if s[0] == x {
        assert x !in s[1..];
      }
    }
  }

  lemma TwiceCountsTwice(r: seq<string>, i: int, j: int)
    requires 0 <= i < j < |r| && r[i] == r[j]
    ensures multiset(r)[r[i]] >= 2
  {
    assert r == r[..i] + [r[i]] + r[i + 1..j] + [r[j]] + r[j + 1..];
  }
}

/**
 * The order Python's `sorted` puts `str` values in: lexicographic on code
 * points, a proper prefix before any of its extensions. Together with the
 * facts about strictly ascending sequences that the label utilities need.
 */
module StringOrder {

  /** `a < b` on Python strings. */
  predicate Less(a: string, b: string)
    decreases |a|
  {
    if |a| == 0 then |b| > 0
    else if |b| == 0 then false
    else if a[0] < b[0] then true
    else a[0] == b[0] && Less(a[1..], b[1..])
  }

  lemma {:induction false} LessIrreflexive(a: string)
    ensures !Less(a, a)
    decreases |a|
  {
    if |a| > 0 {
      LessIrreflexive(a[1..]);
    }
  }

  lemma {:induction false} LessTransitive(a: string, b: string, c: string)
    requires Less(a, b) && Less(b, c)
    ensures Less(a, c)
    decreases |a|
  {
    if |a| > 0 && a[0] == b[0] && b[0] == c[0] {
      LessTransitive(a[1..], b[1..], c[1..]);
    }
  }

  lemma {:induction false} LessTotal(a: string, b: string)
    ensures a == b || Less(a, b) || Less(b, a)
    decreases |a|
  {
    if |a| > 0 && |b| > 0 && a[0] == b[0] {
      LessTotal(a[1..], b[1..]);
      if a[1..] == b[1..] {
        assert a == [a[0]] + a[1..] && b == [b[0]] + b[1..];
      }
    }
  }

  lemma LessAsymmetric(a: string, b: string)
    requires Less(a, b)
    ensures !Less(b, a)
  {
    if Less(b, a) {
      LessTransitive(a, b, a);
      LessIrreflexive(a);
    }
  }

  /** Sorted with no duplicates, which is what `sorted(list(some_set))` yields. */
  predicate StrictlyAscending(s: seq<string>)
  {
    forall i, j :: 0 <= i < j < |s| ==> Less(s[i], s[j])
  }

  /** Inserts `x` at its place in a strictly ascending sequence. */
  function Insert(s: seq<string>, x: string): (r: seq<string>)
    requires StrictlyAscending(s) && x !in s
    ensures StrictlyAscending(r)
    ensures forall y :: y in r <==> y == x || y in s
    ensures |r| == |s| + 1
  {
    if |s| == 0 then [x]
    else if Less(x, s[0]) then
      InsertFrontAscending(s, x);
      [x] + s
    else
      LessTotal(x, s[0]);
      var tail := Insert(s[1..], x);
      InsertBehindHead(s, x, tail);
      [s[0]] + tail
  }

  lemma InsertFrontAscending(s: seq<string>, x: string)
    requires StrictlyAscending(s) && |s| > 0 && Less(x, s[0])
    ensures StrictlyAscending([x] + s)
  {
    forall j | 0 < j <= |s|
      ensures Less(([x] + s)[0], ([x] + s)[j])
    {
      if j > 1 {
        LessTransitive(x, s[0], s[j - 1]);
      }
    }
  }

  lemma InsertBehindHead(s: seq<string>, x: string, tail: seq<string>)
    requires StrictlyAscending(s) && |s| > 0 && Less(s[0], x)
    requires StrictlyAscending(tail)
    requires forall y :: y in tail <==> y == x || y in s[1..]
    ensures StrictlyAscending([s[0]] + tail)
  {
    forall j | 0 <= j < |tail|
      ensures Less(s[0], tail[j])
    {
      if tail[j] != x {
        assert tail[j] in s[1..];
      }
    }
  }

  /**
   * A strictly ascending sequence is determined by its elements: there is
   * exactly one way to list a finite set of strings in sorted order.
   */
  lemma {:induction false} AscendingUnique(a: seq<string>, b: seq<string>)
    requires StrictlyAscending(a) && StrictlyAscending(b)
    requires forall x :: x in a <==> x in b
    ensures a == b
    decreases |a|
  {
    assert (set x | x in a) == (set x | x in b);
    DistinctCardinality(a);
    DistinctCardinality(b);
    if |a| > 0 {
      assert a[0] in b;
      assert |b| > 0;
      assert b[0] in a;
      if a[0] != b[0] {
        var k :| 0 <= k < |b| && b[k] == a[0];
        var m :| 0 <= m < |a| && a[m] == b[0];
        assert Less(b[0], a[0]);
        assert Less(a[0], b[0]);
        LessAsymmetric(a[0], b[0]);
      }
      HeadNotInTail(a);
      HeadNotInTail(b);
      AscendingUnique(a[1..], b[1..]);
      assert a == [a[0]] + a[1..] && b == [b[0]] + b[1..];
    }
  }

  lemma HeadNotInTail(s: seq<string>)
    requires StrictlyAscending(s) && |s| > 0
    ensures s[0] !in s[1..]
    ensures forall x :: x in s[1..] <==> x in s && x != s[0]
  {
    if s[0] in s[1..] {
      var k :| 1 <= k < |s| && s[k] == s[0];
      LessIrreflexive(s[0]);
    }
    assert s == [s[0]] + s[1..];
  }

  /** A strictly ascending list has no duplicates. */
  lemma AscendingDistinct(s: seq<string>)
    requires StrictlyAscending(s)
    ensures forall k, m :: 0 <= k < m < |s| ==> s[k] != s[m]
  {
    forall k, m | 0 <= k < m < |s|
      ensures s[k] != s[m]
    {
      LessIrreflexive(s[k]);
    }
  }

  /** Number of elements of `c` that sort strictly before `k`. */
  function Rank(k: string, c: set<string>): nat
  {
    |set x | x in c && Less(x, k)|
  }

  /** In a strictly ascending listing of a set, the element at index i has rank i. */
  lemma RankOfAscending(s: seq<string>, i: nat)
    requires StrictlyAscending(s) && i < |s|
    ensures Rank(s[i], set x | x in s) == i
  {
    var below := set x | x in s && Less(x, s[i]);
    forall x | x in below
      ensures x in s[..i]
    {
      var m :| 0 <= m < |s| && s[m] == x;
      if m >= i {
        if m > i {
          LessAsymmetric(s[i], s[m]);
        } else {
          LessIrreflexive(x);
        }
      }
    }
    assert below == set x | x in s[..i];
    DistinctCardinality(s[..i]);
    assert |below| == i;
    var elems := set y | y in s;
    assert (set x | x in elems && Less(x, s[i])) == below;
  }

  lemma {:induction false} DistinctCardinality(s: seq<string>)
    requires StrictlyAscending(s)
    ensures |set x | x in s| == |s|
    decreases |s|
  {
    if |s| > 0 {
      HeadNotInTail(s);
      DistinctCardinality(s[1..]);
      assert (set x | x in s) == {s[0]} + set x | x in s[1..];
    }
  }

  /** A key that sorts strictly later has a strictly larger rank. */
  lemma RankIncreasing(c: set<string>, k1: string, k2: string)
    requires k1 in c && Less(k1, k2)
    ensures Rank(k1, c) < Rank(k2, c)
  {
    var b1 := set x | x in c && Less(x, k1);
    var b2 := set x | x in c && Less(x, k2);
    forall x | x in b1
      ensures x in b2
    {
      LessTransitive(x, k1, k2);
    }
    LessIrreflexive(k1);
    assert k1 !in b1 && k1 in b2;
    assert b1 + {k1} <= b2;
    assert |b1 + {k1}| == |b1| + 1;
    SubsetCardinality(b1 + {k1}, b2);
  }

  lemma {:induction false} SubsetCardinality(x: set<string>, y: set<string>)
    requires x <= y
    ensures |x| <= |y|
    decreases x
  {
    if x != {} {
      var e :| e in x;
      SubsetCardinality(x - {e}, y - {e});
    }
  }
}

/** Sorting, lexicographic comparison and cumulative counts of throughput vectors.

    Block selection compares windows of the swarm throughput by sorting them in ascending order and
    comparing the sorted lists lexicographically. Comparing sorted vectors is the same as comparing
    cumulative counts ("how many entries are at most w?"), and counts, unlike sorted lists, can be
    added and subtracted position by position. */
module Leximin {

  ghost predicate IsSorted(s: seq<real>) {
    forall i, j :: 0 <= i < j < |s| ==> s[i] <= s[j]
  }

  function Insert(x: real, s: seq<real>): (r: seq<real>)
    ensures |r| == |s| + 1
  {
    if s == [] || x <= s[0] then [x] + s else [s[0]] + Insert(x, s[1..])
  }

  /** Ascending sort of a vector. */
  function Sorted(s: seq<real>): (r: seq<real>)
    ensures |r| == |s|
  {
    if s == [] then [] else Insert(s[0], Sorted(s[1..]))
  }

  /** Strict lexicographic order on lists, a proper prefix being smaller. */
  predicate LexLess(p: seq<real>, q: seq<real>) {
    if q == [] then false
    else if p == [] then true
    else p[0] < q[0] || (p[0] == q[0] && LexLess(p[1..], q[1..]))
  }

  /** Number of entries that are at most w. */
  function Count(s: seq<real>, w: real): (n: nat)
    ensures n <= |s|
  {
    if s == [] then 0 else (if s[0] <= w then 1 else 0) + Count(s[1..], w)
  }

  /** x is the lowest level at which p and q have a different count, and p has more entries there. */
  ghost predicate MoreAt(p: seq<real>, q: seq<real>, x: real) {
    && Count(p, x) > Count(q, x)
    && forall y :: y < x ==> Count(p, y) == Count(q, y)
  }

  /** The sorted vector of p is lexicographically smaller than that of q. */
  predicate Worse(p: seq<real>, q: seq<real>) {
    LexLess(Sorted(p), Sorted(q))
  }

  // ---- sorting

  lemma {:induction false} InsertContents(x: real, s: seq<real>, w: real)
    ensures multiset(Insert(x, s)) == multiset(s) + multiset{x}
    ensures Count(Insert(x, s), w) == Count(s, w) + if x <= w then 1 else 0
  {
    if s == [] || x <= s[0] {
      assert ([x] + s)[1..] == s;
    } else {
      InsertContents(x, s[1..], w);
      assert s == [s[0]] + s[1..];
      assert ([s[0]] + Insert(x, s[1..]))[1..] == Insert(x, s[1..]);
    }
  }

  lemma {:induction false} InsertSorts(x: real, s: seq<real>)
    requires IsSorted(s)
    ensures IsSorted(Insert(x, s))
    ensures Insert(x, s)[0] == if s == [] || x <= s[0] then x else s[0]
  {
    if s != [] && s[0] < x {
      InsertSorts(x, s[1..]);
      var r := Insert(x, s[1..]);
      assert s[0] <= r[0];
      assert forall j :: 0 <= j < |r| ==> r[0] <= r[j];
    }
  }

  /** Sorted really is the ascending permutation, and it keeps every cumulative count. */
  lemma {:induction false} SortedIsSorted(s: seq<real>, w: real)
    ensures IsSorted(Sorted(s))
    ensures multiset(Sorted(s)) == multiset(s)
    ensures Count(Sorted(s), w) == Count(s, w)
  {
    if s != [] {
      SortedIsSorted(s[1..], w);
      InsertContents(s[0], Sorted(s[1..]), w);
      InsertSorts(s[0], Sorted(s[1..]));
      assert s == [s[0]] + s[1..];
    }
  }

  lemma SortedKeepsCounts(s: seq<real>)
    ensures IsSorted(Sorted(s))
    ensures forall w :: Count(Sorted(s), w) == Count(s, w)
  {
    SortedIsSorted(s, 0.0);
    forall w ensures Count(Sorted(s), w) == Count(s, w) {
      SortedIsSorted(s, w);
    }
  }

  // ---- the order itself

  lemma {:induction false} LexTransitive(p: seq<real>, q: seq<real>, r: seq<real>)
    requires LexLess(p, q) && LexLess(q, r)
    ensures LexLess(p, r)
  {
    if p != [] && p[0] == q[0] && q[0] == r[0] {
      LexTransitive(p[1..], q[1..], r[1..]);
    }
  }

  lemma {:induction false} LexIrreflexive(p: seq<real>)
    ensures !LexLess(p, p)
  {
    if p != [] {
      LexIrreflexive(p[1..]);
    }
  }

  lemma {:induction false} LexTotal(p: seq<real>, q: seq<real>)
    ensures LexLess(p, q) || p == q || LexLess(q, p)
  {
    if p != [] && q != [] && p[0] == q[0] {
      LexTotal(p[1..], q[1..]);
      assert p == [p[0]] + p[1..];
      assert q == [q[0]] + q[1..];
    }
  }

  // ---- counts decide the order

  lemma {:induction false} CountBelowFirst(s: seq<real>, w: real)
    requires IsSorted(s)
    requires s == [] || w < s[0]
    ensures Count(s, w) == 0
  {
    if s != [] {
      CountBelowFirst(s[1..], w);
    }
  }

  lemma {:induction false} LexGivesMoreAt(p: seq<real>, q: seq<real>) returns (x: real)
    requires IsSorted(p) && IsSorted(q) && |p| == |q|
    requires LexLess(p, q)
    ensures MoreAt(p, q, x)
    ensures p[0] <= x
  {
    if p[0] < q[0] {
      x := p[0];
      forall y | y < x ensures Count(p, y) == Count(q, y) {
        CountBelowFirst(p, y);
        CountBelowFirst(q, y);
      }
      CountBelowFirst(q, x);
    } else {
      x := LexGivesMoreAt(p[1..], q[1..]);
    }
  }

  /** Sorted comparison of equally long vectors is exactly comparison of cumulative counts: the worse
      vector has more entries at the first level where the counts differ. */
  lemma WorseIffMoreAt(p: seq<real>, q: seq<real>)
    requires |p| == |q|
    ensures Worse(p, q) <==> exists x :: MoreAt(p, q, x)
  {
    SortedKeepsCounts(p);
    SortedKeepsCounts(q);
    if Worse(p, q) {
      var x := LexGivesMoreAt(Sorted(p), Sorted(q));
      assert MoreAt(p, q, x);
    } else {
      LexTotal(Sorted(p), Sorted(q));
      if Sorted(p) == Sorted(q) {
        forall x ensures !MoreAt(p, q, x) {
          assert Count(Sorted(p), x) == Count(Sorted(q), x);
        }
      } else {
        var z := LexGivesMoreAt(Sorted(q), Sorted(p));
        forall x ensures !MoreAt(p, q, x) {
          if x <= z {
            assert Count(p, x) <= Count(q, x);
          } else {
            assert Count(p, z) != Count(q, z);
          }
        }
      }
    }
  }

  /** Vectors that are not worse than each other have the same cumulative counts. */
  lemma NotWorseGivesCounts(p: seq<real>, q: seq<real>)
    requires |p| == |q|
    requires !Worse(q, p)
    ensures (exists x :: MoreAt(p, q, x)) || (forall w :: Count(p, w) == Count(q, w))
  {
    LexTotal(Sorted(p), Sorted(q));
    SortedKeepsCounts(p);
    SortedKeepsCounts(q);
    if Worse(p, q) {
      WorseIffMoreAt(p, q);
    } else {
      forall w ensures Count(p, w) == Count(q, w) {
        assert Count(Sorted(p), w) == Count(Sorted(q), w);
      }
    }
  }

  lemma WorseTransitive(p: seq<real>, q: seq<real>, r: seq<real>)
    requires Worse(p, q) && Worse(q, r)
    ensures Worse(p, r)
  {
    LexTransitive(Sorted(p), Sorted(q), Sorted(r));
  }

  // ---- the smallest entry

  ghost predicate IsMinimum(s: seq<real>, m: real) {
    m in s && forall i :: 0 <= i < |s| ==> m <= s[i]
  }

  lemma FirstOfSortedIsMinimum(s: seq<real>, m: real)
    requires s != [] && IsMinimum(s, m)
    ensures Sorted(s)[0] == m
  {
    SortedIsSorted(s, m);
    var r := Sorted(s);
    assert m in multiset(s) && m in multiset(r);
    var k :| 0 <= k < |r| && r[k] == m;
    assert r[0] in multiset(r) && r[0] in multiset(s) && r[0] in s;
  }

  /** A vector that is not worse has no smaller minimum. */
  lemma MinimumNeverFalls(p: seq<real>, q: seq<real>, m: real, n: real)
    requires p != [] && q != []
    requires IsMinimum(p, m) && IsMinimum(q, n)
    requires p == q || Worse(p, q)
    ensures m <= n
  {
    FirstOfSortedIsMinimum(p, m);
    FirstOfSortedIsMinimum(q, n);
  }
}

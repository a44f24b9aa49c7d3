/**
 * The order in which processar.py's normaliser tries wildcard mapping keys:
 * `sorted(keys, key=lambda k: (k.count('_'), len(k)), reverse=True)`. Python's sort is stable
 * also with `reverse=True`, so keys of equal rank keep their mapping order. The sort is written
 * as an insertion sort; what it must satisfy is stated as an ordering, a permutation and
 * stability per rank.
 */
module Specificity {

  function CountChar(s: string, c: char): nat {
    if s == [] then 0 else (if s[0] == c then 1 else 0) + CountChar(s[1..], c)
  }

  /** `(k.count('_'), len(k))` */
  function Underscores(k: string): nat {
    CountChar(k, '_')
  }

  /** `a` ranks strictly below `b` in the lexicographic order of (underscore count, length). */
  predicate RankBelow(a: string, b: string) {
    Underscores(a) < Underscores(b) || (Underscores(a) == Underscores(b) && |a| < |b|)
  }

  predicate SameRank(a: string, b: string) {
    Underscores(a) == Underscores(b) && |a| == |b|
  }

  /** Highest rank first. */
  predicate SortedDesc(s: seq<string>) {
    forall i, j :: 0 <= i < j < |s| ==> !RankBelow(s[i], s[j])
  }

  /** The keys of `s` with the same rank as `x`, in their order in `s`. */
  function RankClass(s: seq<string>, x: string): (r: seq<string>)
    ensures |r| <= |s|
  {
    if s == [] then []
    else (if SameRank(s[0], x) then [s[0]] else []) + RankClass(s[1..], x)
  }

  /** Puts `x` after every key of rank at least its own. */
  function Insert(t: seq<string>, x: string): seq<string> {
    if t == [] then [x]
    else if RankBelow(t[0], x) then [x] + t
    else [t[0]] + Insert(t[1..], x)
  }

  function SortBySpecificity(s: seq<string>): seq<string> {
    if s == [] then [] else Insert(SortBySpecificity(s[..|s| - 1]), s[|s| - 1])
  }

  lemma {:induction false} InsertPermutes(t: seq<string>, x: string)
    ensures multiset(Insert(t, x)) == multiset(t) + multiset{x}
  {
    if t != [] && !RankBelow(t[0], x) {
      InsertPermutes(t[1..], x);
      assert t == [t[0]] + t[1..];
    }
  }

  lemma {:induction false} InsertSorted(t: seq<string>, x: string)
    requires SortedDesc(t)
    ensures SortedDesc(Insert(t, x))
  {
    if t != [] && !RankBelow(t[0], x) {
      InsertSorted(t[1..], x);
      InsertPermutes(t[1..], x);
      var r := Insert(t[1..], x);
      forall j | 0 <= j < |r|
        ensures !RankBelow(t[0], r[j])
      {
        assert r[j] in multiset(r);
        if r[j] != x {
          assert r[j] in multiset(t[1..]);
          var k :| 0 <= k < |t[1..]| && t[1..][k] == r[j];
          assert t[k + 1] == r[j];
        }
      }
    }
  }

  lemma {:induction false} InsertClass(t: seq<string>, x: string, y: string)
    requires SortedDesc(t)
    ensures RankClass(Insert(t, x), y) == RankClass(t, y) + (if SameRank(x, y) then [x] else [])
  {
    if t == [] {
      ClassCons(x, [], y);
      assert Insert(t, x) == [x] + [];
    } else if RankBelow(t[0], x) {
      InsertClassFront(t, x, y);
    } else {
      SortedTail(t);
      InsertClass(t[1..], x, y);
      InsertClassSkip(t, x, y);
    }
  }

  lemma InsertClassFront(t: seq<string>, x: string, y: string)
    requires SortedDesc(t) && t != [] && RankBelow(t[0], x)
    ensures RankClass(Insert(t, x), y) == RankClass(t, y) + (if SameRank(x, y) then [x] else [])
  {
    ClassCons(x, t, y);
    assert Insert(t, x) == [x] + t;
    if SameRank(x, y) {
      NoneOfRank(t, x, y);
    }
  }

  lemma InsertClassSkip(t: seq<string>, x: string, y: string)
    requires t != [] && !RankBelow(t[0], x)
    requires RankClass(Insert(t[1..], x), y) == RankClass(t[1..], y) + (if SameRank(x, y) then [x] else [])
    ensures RankClass(Insert(t, x), y) == RankClass(t, y) + (if SameRank(x, y) then [x] else [])
  {
    var cx := if SameRank(x, y) then [x] else [];
    var c0 := if SameRank(t[0], y) then [t[0]] else [];
    var r := Insert(t[1..], x);
    var rest := RankClass(t[1..], y);
    calc {
      RankClass(Insert(t, x), y);
    == { assert Insert(t, x) == [t[0]] + r; }
      RankClass([t[0]] + r, y);
    == { ClassCons(t[0], r, y); }
      c0 + RankClass(r, y);
    ==
      c0 + (rest + cx);
    == { assert c0 + (rest + cx) == (c0 + rest) + cx; }
      (c0 + rest) + cx;
    == { ClassCons(t[0], t[1..], y); assert [t[0]] + t[1..] == t; }
      RankClass(t, y) + cx;
    }
  }

  lemma SortedTail(t: seq<string>)
    requires SortedDesc(t) && t != []
    ensures SortedDesc(t[1..])
  {
  }

  lemma ClassCons(a: string, s: seq<string>, y: string)
    ensures RankClass([a] + s, y) == (if SameRank(a, y) then [a] else []) + RankClass(s, y)
  {
    assert ([a] + s)[1..] == s;
  }

  /** In a list sorted by rank whose head ranks below `x`, nothing has `x`'s rank. */
  lemma {:induction false} NoneOfRank(t: seq<string>, x: string, y: string)
    requires SortedDesc(t) && t != [] && RankBelow(t[0], x) && SameRank(x, y)
    ensures RankClass(t, y) == []
  {
    if |t| > 1 {
      assert !RankBelow(t[0], t[1]);
      NoneOfRank(t[1..], x, y);
    }
  }

  lemma {:induction false} ClassAppend(s: seq<string>, x: string, y: string)
    ensures RankClass(s + [x], y) == RankClass(s, y) + (if SameRank(x, y) then [x] else [])
  {
    if s != [] {
      ClassAppend(s[1..], x, y);
      assert (s + [x])[1..] == s[1..] + [x];
    }
  }

  /** The wildcard order is highest rank first. */
  lemma {:induction false} SortedBySpecificity(s: seq<string>)
    ensures SortedDesc(SortBySpecificity(s))
    ensures multiset(SortBySpecificity(s)) == multiset(s)
  {
    if s != [] {
      var init := s[..|s| - 1];
      SortedBySpecificity(init);
      InsertSorted(SortBySpecificity(init), s[|s| - 1]);
      InsertPermutes(SortBySpecificity(init), s[|s| - 1]);
      assert s == init + [s[|s| - 1]];
    }
  }

  /** Stability: keys of one rank come out in their original order. */
  lemma {:induction false} SortIsStable(s: seq<string>, y: string)
    ensures RankClass(SortBySpecificity(s), y) == RankClass(s, y)
  {
    if s != [] {
      var init := s[..|s| - 1];
      SortIsStable(init, y);
      SortedBySpecificity(init);
      InsertClass(SortBySpecificity(init), s[|s| - 1], y);
      ClassAppend(init, s[|s| - 1], y);
      assert s == init + [s[|s| - 1]];
    }
  }
}

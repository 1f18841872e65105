/** Python's `sorted`: a stable sort by a total preorder, written as insertion sort.
    Every sort in the sources (`sorted`, `Counter.most_common`) is an instance. */
module Sorting {
  import opened Seqs

  ghost predicate TotalPreorder<T(!new)>(le: (T, T) -> bool) {
    && (forall a, b :: le(a, b) || le(b, a))
    && (forall a, b, c :: le(a, b) && le(b, c) ==> le(a, c))
  }

  predicate SortedBy<T>(s: seq<T>, le: (T, T) -> bool) {
    forall i, j :: 0 <= i < j < |s| ==> le(s[i], s[j])
  }

  /** The first element of a sorted sequence is below every element. */
  lemma SortedHead<T(!new)>(t: seq<T>, j: nat, le: (T, T) -> bool)
    requires TotalPreorder(le) && SortedBy(t, le) && j < |t|
    ensures le(t[0], t[j])
  {
  }

  /** An element above a that is below y cannot have y below something a is not below. */
  lemma NotBelow<T(!new)>(le: (T, T) -> bool, a: T, e: T, y: T, x: T)
    requires TotalPreorder(le) && le(a, e) && le(y, x) && !le(a, x)
    ensures !le(e, y)
  {
  }

  /** Inserts x after every element that is not greater than it. */
  function Insert<T>(t: seq<T>, x: T, le: (T, T) -> bool): (r: seq<T>)
    ensures |r| == |t| + 1
  {
    if t == [] then [x]
    else if le(t[0], x) then [t[0]] + Insert(t[1..], x, le)
    else [x] + t
  }

  function Sort<T>(s: seq<T>, le: (T, T) -> bool): (r: seq<T>)
    ensures |r| == |s|
  {
    if s == [] then [] else Insert(Sort(s[..|s| - 1], le), s[|s| - 1], le)
  }

  lemma {:induction false} InsertPermutation<T>(t: seq<T>, x: T, le: (T, T) -> bool)
    ensures multiset(Insert(t, x, le)) == multiset(t) + multiset{x}
  {
    if t != [] && le(t[0], x) {
      InsertPermutation(t[1..], x, le);
      assert t == [t[0]] + t[1..];
    }
  }

  /** A head below every element of a sorted tail makes a sorted sequence. */
  lemma ConsSorted<T>(a: T, r: seq<T>, le: (T, T) -> bool)
    requires SortedBy(r, le) && forall e :: e in r ==> le(a, e)
    ensures SortedBy([a] + r, le)
  {
    forall i, j | 0 <= i < j < |[a] + r| ensures le(([a] + r)[i], ([a] + r)[j]) {
      assert ([a] + r)[j] == r[j - 1];
      if i > 0 {
        assert ([a] + r)[i] == r[i - 1];
      }
    }
  }

  /** The head of a sorted sequence is below everything inserted after it. */
  lemma InsertAboveHead<T(!new)>(t: seq<T>, x: T, le: (T, T) -> bool)
    requires TotalPreorder(le) && SortedBy(t, le) && t != [] && le(t[0], x)
    ensures forall e :: e in Insert(t[1..], x, le) ==> le(t[0], e)
  {
    InsertPermutation(t[1..], x, le);
    var r := Insert(t[1..], x, le);
    forall e | e in r ensures le(t[0], e) {
      assert e in multiset(r);
      if e != x {
        assert e in multiset(t[1..]);
        var j :| 0 <= j < |t[1..]| && t[1..][j] == e;
        assert t[j + 1] == e;
      }
    }
  }

  lemma {:induction false} InsertSorted<T(!new)>(t: seq<T>, x: T, le: (T, T) -> bool)
    requires TotalPreorder(le) && SortedBy(t, le)
    ensures SortedBy(Insert(t, x, le), le)
  {
    if t != [] {
      if le(t[0], x) {
        assert SortedBy(t[1..], le) by {
          forall i, j | 0 <= i < j < |t[1..]| ensures le(t[1..][i], t[1..][j]) {
            assert t[1..][i] == t[i + 1] && t[1..][j] == t[j + 1];
          }
        }
        InsertSorted(t[1..], x, le);
        InsertAboveHead(t, x, le);
        ConsSorted(t[0], Insert(t[1..], x, le), le);
      } else {
        forall e | e in t ensures le(x, e) {
          var j :| 0 <= j < |t| && t[j] == e;
          SortedHead(t, j, le);
        }
        ConsSorted(x, t, le);
      }
    }
  }

  lemma {:induction false} SortFacts<T(!new)>(s: seq<T>, le: (T, T) -> bool)
    requires TotalPreorder(le)
    ensures SortedBy(Sort(s, le), le)
    ensures multiset(Sort(s, le)) == multiset(s)
    ensures |Sort(s, le)| == |s|
  {
    if s != [] {
      var init := s[..|s| - 1];
      SortFacts(init, le);
      InsertSorted(Sort(init, le), s[|s| - 1], le);
      InsertPermutation(Sort(init, le), s[|s| - 1], le);
      assert s == init + [s[|s| - 1]];
      assert |multiset(Sort(s, le))| == |multiset(s)|;
    }
  }

  lemma SortMembers<T(!new)>(s: seq<T>, le: (T, T) -> bool)
    requires TotalPreorder(le)
    ensures forall x :: x in Sort(s, le) <==> x in s
  {
    SortFacts(s, le);
    forall x ensures x in Sort(s, le) <==> x in s {
      assert x in Sort(s, le) <==> x in multiset(Sort(s, le));
      assert x in s <==> x in multiset(s);
    }
  }

  lemma {:induction false} InsertDistinct<T(!new)>(t: seq<T>, x: T, le: (T, T) -> bool)
    requires Distinct(t) && x !in t
    ensures Distinct(Insert(t, x, le))
  {
    if t != [] && le(t[0], x) {
      InsertDistinct(t[1..], x, le);
      InsertPermutation(t[1..], x, le);
      var r := Insert(t[1..], x, le);
      forall e | e in r ensures e == x || e in t[1..] {
        assert e in multiset(r);
      }
      assert t[0] !in t[1..] by {
        forall j | 0 <= j < |t[1..]| ensures t[1..][j] != t[0] { assert t[j + 1] != t[0]; }
      }
    }
  }

  lemma {:induction false} SortDistinct<T(!new)>(s: seq<T>, le: (T, T) -> bool)
    requires Distinct(s)
    ensures Distinct(Sort(s, le))
  {
    if s != [] {
      var init := s[..|s| - 1];
      SortDistinct(init, le);
      InsertPermutation(Sort(init, le), s[|s| - 1], le);
      SortPermutationNoTotal(init, le);
      forall e | e in Sort(init, le) ensures e in init {
        assert e in multiset(Sort(init, le));
      }
      assert s[|s| - 1] !in init by {
        forall j | 0 <= j < |init| ensures init[j] != s[|s| - 1] { assert s[j] != s[|s| - 1]; }
      }
      InsertDistinct(Sort(init, le), s[|s| - 1], le);
    }
  }

  /** Sorting permutes whatever the relation. */
  lemma {:induction false} SortPermutationNoTotal<T>(s: seq<T>, le: (T, T) -> bool)
    ensures multiset(Sort(s, le)) == multiset(s)
  {
    if s != [] {
      SortPermutationNoTotal(s[..|s| - 1], le);
      InsertPermutation(Sort(s[..|s| - 1], le), s[|s| - 1], le);
      assert s == s[..|s| - 1] + [s[|s| - 1]];
    }
  }

  predicate Equivalent<T>(le: (T, T) -> bool, a: T, b: T) {
    le(a, b) && le(b, a)
  }

  /** The elements of s that are equivalent to y, in their order in s. */
  function ClassOf<T>(s: seq<T>, y: T, le: (T, T) -> bool): seq<T> {
    if s == [] then []
    else (if Equivalent(le, s[0], y) then [s[0]] else []) + ClassOf(s[1..], y, le)
  }

  lemma {:induction false} ClassOfAppend<T>(s: seq<T>, x: T, y: T, le: (T, T) -> bool)
    ensures ClassOf(s + [x], y, le) == ClassOf(s, y, le) + (if Equivalent(le, x, y) then [x] else [])
  {
    if s != [] {
      ClassOfAppend(s[1..], x, y, le);
      assert (s + [x])[1..] == s[1..] + [x];
    }
  }

  lemma {:induction false} ClassOfEmpty<T>(s: seq<T>, y: T, le: (T, T) -> bool)
    requires forall e :: e in s ==> !Equivalent(le, e, y)
    ensures ClassOf(s, y, le) == []
  {
    if s != [] {
      ClassOfEmpty(s[1..], y, le);
    }
  }

  lemma {:induction false} InsertClass<T(!new)>(t: seq<T>, x: T, y: T, le: (T, T) -> bool)
    requires TotalPreorder(le) && SortedBy(t, le)
    ensures ClassOf(Insert(t, x, le), y, le) == ClassOf(t, y, le) + (if Equivalent(le, x, y) then [x] else [])
  {
    var tail := if Equivalent(le, x, y) then [x] else [];
    if t == [] {
      assert [x][1..] == [];
    } else {
      if le(t[0], x) {
        var head := if Equivalent(le, t[0], y) then [t[0]] else [];
        var rest := Insert(t[1..], x, le);
        assert ([t[0]] + rest)[0] == t[0] && ([t[0]] + rest)[1..] == rest;
        calc {
          ClassOf(Insert(t, x, le), y, le);
          ClassOf([t[0]] + rest, y, le);
          head + ClassOf(rest, y, le);
          { InsertClass(t[1..], x, y, le); }
          head + (ClassOf(t[1..], y, le) + tail);
          (head + ClassOf(t[1..], y, le)) + tail;
          ClassOf(t, y, le) + tail;
        }
      } else {
        assert ([x] + t)[1..] == t;
        if Equivalent(le, x, y) {
          forall e | e in t ensures !Equivalent(le, e, y) {
            var j :| 0 <= j < |t| && t[j] == e;
            SortedHead(t, j, le);
            NotBelow(le, t[0], e, y, x);
          }
          ClassOfEmpty(t, y, le);
        }
      }
    }
  }

  /** Stability: sorting keeps the relative order of equivalent elements. */
  lemma {:induction false} SortStable<T(!new)>(s: seq<T>, y: T, le: (T, T) -> bool)
    requires TotalPreorder(le)
    ensures ClassOf(Sort(s, le), y, le) == ClassOf(s, y, le)
  {
    if s != [] {
      var init := s[..|s| - 1];
      SortStable(init, y, le);
      SortFacts(init, le);
      InsertClass(Sort(init, le), s[|s| - 1], y, le);
      ClassOfAppend(init, s[|s| - 1], y, le);
      assert s == init + [s[|s| - 1]];
    }
  }

  /** The equivalent elements in a prefix are a prefix of those in the whole. */
  lemma {:induction false} ClassOfPrefix<T>(s: seq<T>, k: nat, y: T, le: (T, T) -> bool)
    requires k <= |s|
    ensures ClassOf(s[..k], y, le) <= ClassOf(s, y, le)
  {
    if k > 0 {
      ClassOfPrefix(s[1..], k - 1, y, le);
      assert s[..k][1..] == s[1..][..k - 1];
    }
  }

  /** The first n elements of a sorted sequence without repetitions: sorted, without
      repetitions, drawn from it, and, when some element is left out, n of them, each below
      every element left out. */
  lemma TakeSorted<T>(s: seq<T>, n: nat, le: (T, T) -> bool)
    requires SortedBy(s, le) && Distinct(s)
    ensures var r := Take(s, n);
      && Distinct(r) && SortedBy(r, le)
      && (forall w :: w in r ==> w in s)
      && (forall w :: w in s && w !in r ==> |r| == n && forall v :: v in r ==> le(v, w))
  {
    var r := Take(s, n);
    assert r == s[..|r|];
    forall w | w in s && w !in r ensures |r| == n && forall v :: v in r ==> le(v, w) {
      var j :| 0 <= j < |s| && s[j] == w;
      assert j >= |r|;
      forall v | v in r ensures le(v, w) {
        var i :| 0 <= i < |r| && r[i] == v;
        assert s[i] == v;
      }
    }
  }
}

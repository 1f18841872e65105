/** Small facts about sequences used throughout the model: counting, first-seen
    de-duplication, subsequences and reversal. */
module Seqs {

  predicate Distinct<T(==)>(s: seq<T>) {
    forall i, j :: 0 <= i < j < |s| ==> s[i] != s[j]
  }

  /** Number of occurrences of x in s. */
  function Count<T(==)>(s: seq<T>, x: T): nat {
    if s == [] then 0
    else Count(s[..|s| - 1], x) + (if s[|s| - 1] == x then 1 else 0)
  }

  lemma {:induction false} CountPositive<T>(s: seq<T>, x: T)
    ensures Count(s, x) > 0 <==> x in s
  {
    if s != [] {
      CountPositive(s[..|s| - 1], x);
      assert s == s[..|s| - 1] + [s[|s| - 1]];
    }
  }

  /** The elements of s, each once, in the order of their first occurrence. */
  function Dedup<T(==)>(s: seq<T>): seq<T> {
    if s == [] then []
    else
      var d := Dedup(s[..|s| - 1]);
      if s[|s| - 1] in d then d else d + [s[|s| - 1]]
  }

  lemma {:induction false} DedupFacts<T>(s: seq<T>)
    ensures Distinct(Dedup(s))
    ensures forall x :: x in Dedup(s) <==> x in s
    ensures |Dedup(s)| <= |s|
  {
    if s != [] {
      DedupFacts(s[..|s| - 1]);
      assert s == s[..|s| - 1] + [s[|s| - 1]];
    }
  }

  /** The first n elements of s, or all of s when it is shorter (Python's s[:n]). */
  function Take<T>(s: seq<T>, n: nat): (r: seq<T>)
    ensures |r| == (if n <= |s| then n else |s|) && r <= s
    ensures n >= |s| ==> r == s
  {
    if n <= |s| then s[..n] else s
  }

  /** a is obtained from b by deleting elements. */
  predicate IsSubsequence<T(==)>(a: seq<T>, b: seq<T>)
    decreases |b|
  {
    if a == [] then true
    else if b == [] then false
    else if a[0] == b[0] then IsSubsequence(a[1..], b[1..])
    else IsSubsequence(a, b[1..])
  }

  lemma {:induction false} SubsequenceRefl<T>(a: seq<T>)
    ensures IsSubsequence(a, a)
  {
    if a != [] { SubsequenceRefl(a[1..]); }
  }

  /** Prepending an element to the larger sequence keeps a subsequence a subsequence. */
  lemma {:induction false} SubsequenceCons<T>(a: seq<T>, b: seq<T>)
    requires b != [] && IsSubsequence(a, b[1..])
    ensures IsSubsequence(a, b)
    decreases |b|, 0
  {
    if a != [] && a[0] == b[0] {
      SubsequenceDropFirst(a, b[1..]);
    }
  }

  lemma {:induction false} SubsequenceDropFirst<T>(a: seq<T>, b: seq<T>)
    requires a != [] && IsSubsequence(a, b)
    ensures IsSubsequence(a[1..], b)
    decreases |b|, 1
  {
    if a[0] != b[0] {
      SubsequenceDropFirst(a, b[1..]);
    }
    SubsequenceCons(a[1..], b);
  }

  lemma {:induction false} SubsequenceOfSuffix<T>(a: seq<T>, p: seq<T>, b: seq<T>)
    requires IsSubsequence(a, b)
    ensures IsSubsequence(a, p + b)
    decreases |p|
  {
    if p == [] {
      assert p + b == b;
    } else {
      SubsequenceOfSuffix(a, p[1..], b);
      assert (p + b)[1..] == p[1..] + b;
      SubsequenceCons(a, p + b);
    }
  }

  lemma {:induction false} SubsequenceConcat<T>(a1: seq<T>, b1: seq<T>, a2: seq<T>, b2: seq<T>)
    requires IsSubsequence(a1, b1) && IsSubsequence(a2, b2)
    ensures IsSubsequence(a1 + a2, b1 + b2)
    decreases |b1|
  {
    if a1 == [] {
      assert a1 + a2 == a2;
      SubsequenceOfSuffix(a2, b1, b2);
    } else {
      assert (b1 + b2)[1..] == b1[1..] + b2;
      assert (a1 + a2)[0] == a1[0];
      if a1[0] == b1[0] {
        assert (a1 + a2)[1..] == a1[1..] + a2;
        SubsequenceConcat(a1[1..], b1[1..], a2, b2);
      } else {
        SubsequenceConcat(a1, b1[1..], a2, b2);
      }
    }
  }

  lemma {:induction false} SubsequenceTrans<T>(a: seq<T>, b: seq<T>, c: seq<T>)
    requires IsSubsequence(a, b) && IsSubsequence(b, c)
    ensures IsSubsequence(a, c)
    decreases |c|
  {
    if a != [] {
      assert b != [] && c != [];
      if b[0] == c[0] {
        if a[0] == b[0] {
          SubsequenceTrans(a[1..], b[1..], c[1..]);
        } else {
          SubsequenceTrans(a, b[1..], c[1..]);
          SubsequenceCons(a, c);
        }
      } else {
        SubsequenceTrans(a, b, c[1..]);
        SubsequenceCons(a, c);
      }
    }
  }

  /** Every element of a subsequence occurs in the original. */
  lemma {:induction false} SubsequenceMembers<T>(a: seq<T>, b: seq<T>, x: T)
    requires IsSubsequence(a, b) && x in a
    ensures x in b
    decreases |b|
  {
    if a[0] == b[0] {
      if x != a[0] { SubsequenceMembers(a[1..], b[1..], x); }
    } else {
      SubsequenceMembers(a, b[1..], x);
    }
  }

  function Reverse<T>(s: seq<T>): (r: seq<T>)
    ensures |r| == |s|
  {
    if s == [] then [] else [s[|s| - 1]] + Reverse(s[..|s| - 1])
  }

  lemma {:induction false} ReverseIndex<T>(s: seq<T>)
    ensures forall i :: 0 <= i < |s| ==> Reverse(s)[i] == s[|s| - 1 - i]
  {
    if s != [] {
      ReverseIndex(s[..|s| - 1]);
    }
  }

  /** The concatenation of f(x) over the elements of s, in order. */
  function FlatMap<T, U>(s: seq<T>, f: T -> seq<U>): seq<U> {
    if s == [] then [] else f(s[0]) + FlatMap(s[1..], f)
  }

  lemma {:induction false} FlatMapAppend<T, U>(s: seq<T>, t: seq<T>, f: T -> seq<U>)
    ensures FlatMap(s + t, f) == FlatMap(s, f) + FlatMap(t, f)
  {
    if s == [] {
      assert s + t == t;
    } else {
      assert (s + t)[0] == s[0] && (s + t)[1..] == s[1..] + t;
      FlatMapAppend(s[1..], t, f);
    }
  }

  lemma FlatMapOne<T, U>(x: T, f: T -> seq<U>)
    ensures FlatMap([x], f) == f(x)
  {
    assert [x][1..] == [];
  }

  /** A common head keeps prefixes prefixes. */
  lemma PrefixAppend<T>(a: seq<T>, b: seq<T>, d: seq<T>)
    requires b <= d
    ensures a + b <= a + d
  {
    assert (a + d)[..|a + b|] == a + d[..|b|];
  }

  /** A prefix of a sequence is a prefix of every extension of it. */
  lemma PrefixOfConcat<T>(a: seq<T>, b: seq<T>, c: seq<T>)
    requires a <= b
    ensures a <= b + c
  {
    assert (b + c)[..|a|] == b[..|a|];
  }

  lemma ConcatAssoc<T>(a: seq<T>, b: seq<T>, c: seq<T>)
    ensures a + (b + c) == (a + b) + c
  {
  }

  lemma TakeSnoc<T>(s: seq<T>, j: nat)
    requires j < |s|
    ensures s[..j + 1] == s[..j] + [s[j]]
  {
  }

  /** f applied to each element, in order. */
  function Map<T, U>(s: seq<T>, f: T -> U): (r: seq<U>)
    ensures |r| == |s| && forall i :: 0 <= i < |s| ==> r[i] == f(s[i])
  {
    seq(|s|, i requires 0 <= i < |s| => f(s[i]))
  }

  lemma MapAppend<T, U>(s: seq<T>, t: seq<T>, f: T -> U)
    ensures Map(s + t, f) == Map(s, f) + Map(t, f)
  {
    assert forall i :: 0 <= i < |t| ==> (s + t)[|s| + i] == t[i];
  }

  lemma MapSnoc<T, U>(s: seq<T>, i: nat, f: T -> U)
    requires i < |s|
    ensures Map(s[..i + 1], f) == Map(s[..i], f) + [f(s[i])]
  {
    assert s[..i + 1] == s[..i] + [s[i]];
    MapAppend(s[..i], [s[i]], f);
  }

  lemma MapThree<T, U>(a: T, b: T, c: T, f: T -> U)
    ensures Map([a, b, c], f) == [f(a), f(b), f(c)]
  {
  }

  /** The index of the first element ok rejects, or the length when it accepts them all. */
  function FirstFailing<T>(s: seq<T>, ok: T -> bool): (k: nat)
    ensures k <= |s|
  {
    if s == [] then 0
    else if !ok(s[0]) then 0
    else 1 + FirstFailing(s[1..], ok)
  }

  /** The first failure is at k exactly when ok accepts everything before k and rejects the
      element at k, if there is one. */
  lemma {:induction false} FirstFailingAt<T>(s: seq<T>, ok: T -> bool, k: nat)
    requires k <= |s|
    requires forall j :: 0 <= j < k ==> ok(s[j])
    requires k < |s| ==> !ok(s[k])
    ensures FirstFailing(s, ok) == k
  {
    if k > 0 {
      assert ok(s[0]);
      forall j | 0 <= j < k - 1 ensures ok(s[1..][j]) {
        assert s[1..][j] == s[j + 1];
      }
      FirstFailingAt(s[1..], ok, k - 1);
    }
  }

  /** ok accepts every element before the first failure and rejects the one at it. */
  lemma {:induction false} FirstFailingFacts<T>(s: seq<T>, ok: T -> bool)
    ensures forall j :: 0 <= j < FirstFailing(s, ok) ==> ok(s[j])
    ensures FirstFailing(s, ok) < |s| ==> !ok(s[FirstFailing(s, ok)])
  {
    if s != [] && ok(s[0]) {
      FirstFailingFacts(s[1..], ok);
      forall j | 0 <= j < FirstFailing(s, ok) ensures ok(s[j]) {
        if j > 0 {
          assert s[j] == s[1..][j - 1];
        }
      }
    }
  }

  /** Scanning on past an accepted element stays within the first failure. */
  lemma FirstFailingStep<T>(s: seq<T>, ok: T -> bool, i: nat)
    requires i < |s| && i <= FirstFailing(s, ok) && ok(s[i])
    ensures i + 1 <= FirstFailing(s, ok)
  {
    FirstFailingFacts(s, ok);
  }

  /** A rejected element reached without passing a failure is the first failure. */
  lemma FirstFailingStop<T>(s: seq<T>, ok: T -> bool, i: nat)
    requires i < |s| && i <= FirstFailing(s, ok) && !ok(s[i])
    ensures FirstFailing(s, ok) == i
  {
    FirstFailingFacts(s, ok);
  }
}

/** Generic sequence operations: the list-building loops of the script
    (append when a test passes, append a transformed element, drop repeats)
    are specified by these functions. Each is defined from the END of the
    sequence, so that a loop that appends element `i` matches one unfolding. */
module Seqs {

  /** The elements of `s` that satisfy `p`, in their original order. */
  function Filter<T(!new)>(s: seq<T>, p: T -> bool): (r: seq<T>)
    ensures |r| <= |s|
  {
    if s == [] then []
    else Filter(s[..|s| - 1], p) + (if p(s[|s| - 1]) then [s[|s| - 1]] else [])
  }

  /** `f` applied to every element of `s`, in order. */
  function Map<T, U>(s: seq<T>, f: T -> U): (r: seq<U>)
    ensures |r| == |s|
  {
    if s == [] then [] else Map(s[..|s| - 1], f) + [f(s[|s| - 1])]
  }

  /** Position `i` of the mapped sequence is `f` of position `i`. */
  lemma {:induction false} MapAt<T, U>(s: seq<T>, f: T -> U, i: nat)
    requires i < |s|
    ensures Map(s, f)[i] == f(s[i])
    decreases |s|
  {
    if i < |s| - 1 {
      MapAt(s[..|s| - 1], f, i);
    }
  }

  ghost predicate Distinct<T>(s: seq<T>) {
    forall i, j :: 0 <= i < j < |s| ==> s[i] != s[j]
  }

  /** Drops every element already seen, keeping first occurrences in order. */
  function Dedup<T(==,!new)>(s: seq<T>): (r: seq<T>)
    ensures Distinct(r)
    ensures forall x :: x in r <==> x in s
  {
    if s == [] then []
    else
      var r := Dedup(s[..|s| - 1]);
      if s[|s| - 1] in r then r else r + [s[|s| - 1]]
  }

  /** Exactly the elements that pass the test remain. */
  lemma {:induction false} FilterMembers<T(!new)>(s: seq<T>, p: T -> bool, x: T)
    ensures x in Filter(s, p) <==> x in s && p(x)
    decreases |s|
  {
    if s != [] {
      FilterMembers(s[..|s| - 1], p, x);
      assert s == s[..|s| - 1] + [s[|s| - 1]];
    }
  }

  /** Filtering distributes over concatenation, so it keeps relative order. */
  lemma {:induction false} FilterAppend<T(!new)>(a: seq<T>, b: seq<T>, p: T -> bool)
    ensures Filter(a + b, p) == Filter(a, p) + Filter(b, p)
    decreases |b|
  {
    if b == [] {
      assert a + b == a;
    } else {
      var b' := b[..|b| - 1];
      assert (a + b)[..|a + b| - 1] == a + b';
      FilterAppend(a, b', p);
    }
  }

  lemma {:induction false} FilterKeepsDistinct<T(!new)>(s: seq<T>, p: T -> bool)
    requires Distinct(s)
    ensures Distinct(Filter(s, p))
    decreases |s|
  {
    if s != [] {
      var s' := s[..|s| - 1];
      assert Distinct(s');
      FilterKeepsDistinct(s', p);
      assert s[|s| - 1] !in s';
      FilterMembers(s', p, s[|s| - 1]);
    }
  }

  /** A duplicate-free sequence holds each of its elements exactly once, and
      conversely: so two duplicate-free sequences with the same elements are
      permutations of each other. */
  lemma {:induction false} DistinctIffSingleOccurrences<T(!new)>(s: seq<T>)
    ensures Distinct(s) <==> forall x :: x in s ==> multiset(s)[x] == 1
    decreases |s|
  {
    if s != [] {
      var s' := s[..|s| - 1];
      var last := s[|s| - 1];
      assert s == s' + [last];
      DistinctIffSingleOccurrences(s');
      if Distinct(s) {
        assert Distinct(s');
        assert last !in s';
        forall x | x in s ensures multiset(s)[x] == 1 {
          if x != last {
            assert x in s';
          }
        }
      }
      if forall x :: x in s ==> multiset(s)[x] == 1 {
        assert multiset(s)[last] == 1;
        assert multiset(s)[last] == multiset(s')[last] + 1;
        assert last !in s';
        forall x | x in s' ensures multiset(s')[x] == 1 {
          assert x in s;
          if x != last {
            assert multiset(s)[x] == multiset(s')[x];
          }
        }
        forall i, j | 0 <= i < j < |s| ensures s[i] != s[j] {
          if j < |s| - 1 {
            assert s[i] == s'[i] && s[j] == s'[j];
          } else {
            assert s[i] in s';
          }
        }
      }
    }
  }

  lemma {:induction false} MapMembers<T, U>(s: seq<T>, f: T -> U, y: U)
    ensures y in Map(s, f) <==> exists x :: x in s && y == f(x)
  {
    if y in Map(s, f) {
      var i :| 0 <= i < |s| && Map(s, f)[i] == y;
      MapAt(s, f, i);
      assert s[i] in s;
    }
    if exists x :: x in s && y == f(x) {
      var x :| x in s && y == f(x);
      var i :| 0 <= i < |s| && s[i] == x;
      MapAt(s, f, i);
    }
  }

  lemma FilterSnoc<T(!new)>(s: seq<T>, x: T, p: T -> bool)
    ensures Filter(s + [x], p) == Filter(s, p) + (if p(x) then [x] else [])
  {
    assert (s + [x])[..|s + [x]| - 1] == s;
  }

  lemma MapSnoc<T, U>(s: seq<T>, x: T, f: T -> U)
    ensures Map(s + [x], f) == Map(s, f) + [f(x)]
  {
    assert (s + [x])[..|s + [x]| - 1] == s;
  }

  /** One more element of a prefix passes through the filter or not. */
  lemma FilterPrefixStep<T(!new)>(s: seq<T>, i: nat, p: T -> bool)
    requires i < |s|
    ensures Filter(s[..i + 1], p) == Filter(s[..i], p) + (if p(s[i]) then [s[i]] else [])
  {
    assert s[..i + 1] == s[..i] + [s[i]];
    FilterSnoc(s[..i], s[i], p);
  }

  lemma MapPrefixStep<T, U>(s: seq<T>, i: nat, f: T -> U)
    requires i < |s|
    ensures Map(s[..i + 1], f) == Map(s[..i], f) + [f(s[i])]
  {
    assert s[..i + 1] == s[..i] + [s[i]];
    MapSnoc(s[..i], s[i], f);
  }

  /** The loop step of a filter over a prefix, when the next element passes. */
  lemma FilterKeep<T(!new)>(s: seq<T>, i: nat, p: T -> bool, acc: seq<T>)
    requires i < |s| && acc == Filter(s[..i], p) && p(s[i])
    ensures acc + [s[i]] == Filter(s[..i + 1], p)
  {
    FilterPrefixStep(s, i, p);
  }

  /** The loop step of a filter over a prefix, when the next element fails. */
  lemma FilterSkip<T(!new)>(s: seq<T>, i: nat, p: T -> bool, acc: seq<T>)
    requires i < |s| && acc == Filter(s[..i], p) && !p(s[i])
    ensures acc == Filter(s[..i + 1], p)
  {
    FilterPrefixStep(s, i, p);
  }

  /** The loop step of a filter-then-map over a prefix, when the next
      element passes. */
  lemma MapFilterKeep<T(!new), U>(s: seq<T>, i: nat, p: T -> bool, f: T -> U, acc: seq<U>)
    requires i < |s| && acc == Map(Filter(s[..i], p), f) && p(s[i])
    ensures acc + [f(s[i])] == Map(Filter(s[..i + 1], p), f)
  {
    FilterPrefixStep(s, i, p);
    MapSnoc(Filter(s[..i], p), s[i], f);
  }

  /** The loop step of a filter-then-map over a prefix, when the next
      element fails. */
  lemma MapFilterSkip<T(!new), U>(s: seq<T>, i: nat, p: T -> bool, f: T -> U, acc: seq<U>)
    requires i < |s| && acc == Map(Filter(s[..i], p), f) && !p(s[i])
    ensures acc == Map(Filter(s[..i + 1], p), f)
  {
    FilterPrefixStep(s, i, p);
    assert Filter(s[..i], p) + [] == Filter(s[..i], p);
  }
}

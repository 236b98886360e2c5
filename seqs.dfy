/** List operations the selection handlers share: filtering, the toggle
    rule for shift-clicks and category chips, and the duplicate-free
    union used when a shift-drag adds to the selection. */
module Seqs {

  predicate NoDups<T(==)>(s: seq<T>) {
    forall i, j :: 0 <= i < j < |s| ==> s[i] != s[j]
  }

  /** `a` is obtained from `b` by deleting elements (order kept). */
  predicate Subseq<T(==)>(a: seq<T>, b: seq<T>)
    decreases |b|
  {
    if a == [] then true
    else if b == [] then false
    else if a[0] == b[0] then Subseq(a[1..], b[1..])
    else Subseq(a, b[1..])
  }

  predicate StrictlyDecreasing(s: seq<int>) {
    forall i, j :: 0 <= i < j < |s| ==> s[i] > s[j]
  }

  predicate StrictlyIncreasing(s: seq<int>) {
    forall i, j :: 0 <= i < j < |s| ==> s[i] < s[j]
  }

  /** The elements of `s` that satisfy `keep`, in their original order
      (JavaScript's Array.prototype.filter). */
  function Filter<T(==,!new)>(s: seq<T>, keep: T -> bool): (r: seq<T>)
    ensures Subseq(r, s)
    ensures forall x :: x in r ==> keep(x)
    ensures forall x :: multiset(r)[x] == if keep(x) then multiset(s)[x] else 0
    ensures NoDups(s) ==> NoDups(r)
    decreases |s|
  {
    if s == [] then []
    else
      var rest := Filter(s[1..], keep);
      assert s == [s[0]] + s[1..];
      assert multiset(s) == multiset{s[0]} + multiset(s[1..]);
      assert NoDups(s) ==> NoDups(s[1..]);
      if keep(s[0]) then
        assert multiset([s[0]] + rest) == multiset{s[0]} + multiset(rest);
        NoDupsCons(s, rest);
        [s[0]] + rest
      else rest
  }

  /** Keeping the head of a duplicate-free list in front of a filtered
      tail keeps it duplicate-free. */
  lemma NoDupsCons<T>(s: seq<T>, rest: seq<T>)
    requires s != [] && Subseq(rest, s[1..])
    requires NoDups(s) ==> NoDups(rest)
    ensures NoDups(s) ==> NoDups([s[0]] + rest)
  {
    if NoDups(s) && s[0] in rest {
      SubseqIn(rest, s[1..], s[0]);
    }
  }

  lemma SubseqIn<T>(a: seq<T>, b: seq<T>, x: T)
    requires Subseq(a, b) && x in a
    ensures x in b
    decreases |b|
  {
  }

  /** `s` without any occurrence of `x` (the `filter(o => o !== x)` idiom). */
  function Remove<T(==,!new)>(s: seq<T>, x: T): (r: seq<T>)
    ensures Subseq(r, s)
    ensures x !in r
    ensures forall y :: y != x ==> multiset(r)[y] == multiset(s)[y]
    ensures NoDups(s) ==> NoDups(r)
  {
    Filter(s, y => y != x)
  }

  /** Toggle membership: remove `x` if present, otherwise append it. */
  function Toggle<T(==,!new)>(s: seq<T>, x: T): (r: seq<T>)
    ensures (x in r) <==> (x !in s)
    ensures forall y :: y != x ==> (y in r <==> y in s)
    ensures x !in s ==> r == s + [x]
    ensures x in s ==> Subseq(r, s)
    ensures NoDups(s) ==> NoDups(r)
  {
    if x in s then Remove(s, x) else s + [x]
  }

  /** `prior` followed by the elements of `extra` not already in `prior`. */
  function AppendNew<T(==,!new)>(prior: seq<T>, extra: seq<T>): (r: seq<T>)
    ensures |r| >= |prior| && r[..|prior|] == prior
    ensures forall x :: x in r <==> x in prior || x in extra
    ensures NoDups(prior) && NoDups(extra) ==> NoDups(r)
  {
    var added := Filter(extra, x => x !in prior);
    assert forall x :: x in added <==> x in extra && x !in prior by {
      forall x ensures x in added <==> x in extra && x !in prior {
        assert x in added <==> multiset(added)[x] > 0;
        assert x in extra <==> multiset(extra)[x] > 0;
      }
    }
    assert NoDups(prior) && NoDups(extra) ==> NoDups(prior + added) by {
      if NoDups(prior) && NoDups(extra) {
        forall i, j | 0 <= i < j < |prior + added|
          ensures (prior + added)[i] != (prior + added)[j]
        {
          if i < |prior| && j >= |prior| {
            assert (prior + added)[j] in added;
          }
        }
      }
    }
    prior + added
  }

  /** Two strictly decreasing sequences with the same elements are equal:
      a set listed in descending order has exactly one listing. */
  lemma {:induction false} StrictlyDecreasingUnique(a: seq<int>, b: seq<int>)
    requires StrictlyDecreasing(a) && StrictlyDecreasing(b)
    requires forall x :: x in a <==> x in b
    ensures a == b
    decreases |a|
  {
    if a != [] && b != [] {
      assert a[0] == b[0] by {
        assert b[0] in b && a[0] in a;
      }
      forall x ensures x in a[1..] <==> x in b[1..] {
        if x in a[1..] {
          assert x < a[0];
          assert x in b;
        }
        if x in b[1..] {
          assert x < b[0];
          assert x in a;
        }
      }
      StrictlyDecreasingUnique(a[1..], b[1..]);
      assert a == [a[0]] + a[1..];
      assert b == [b[0]] + b[1..];
    } else if a != [] {
      HeadIn(a);
      assert false;
    } else if b != [] {
      HeadIn(b);
      assert false;
    }
  }

  lemma HeadIn<T>(s: seq<T>)
    requires s != []
    ensures s[0] in s
  {
  }

  lemma StrictlyDecreasingNoDups(s: seq<int>)
    requires StrictlyDecreasing(s)
    ensures NoDups(s)
  {
  }

  lemma StrictlyIncreasingNoDups(s: seq<int>)
    requires StrictlyIncreasing(s)
    ensures NoDups(s)
  {
  }
}

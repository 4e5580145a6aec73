/** Order-preserving selection and distinctness, shared by every vector the agent builds. */
module Seqs {
  /** `iter().filter(..)` and `retain`: the elements that satisfy `keep`, in order. */
  function Filter<T(!new)>(s: seq<T>, keep: T -> bool): (r: seq<T>) {
    if s == [] then []
    else
      var r := Filter(s[..|s| - 1], keep);
      if keep(s[|s| - 1]) then r + [s[|s| - 1]] else r
  }

  lemma {:induction false} FilterMembers<T(!new)>(s: seq<T>, keep: T -> bool)
    ensures forall x :: x in Filter(s, keep) <==> x in s && keep(x)
  {
    if s != [] {
      FilterMembers(s[..|s| - 1], keep);
      assert s == s[..|s| - 1] + [s[|s| - 1]];
    }
  }

  lemma FilterSnoc<T(!new)>(s: seq<T>, x: T, keep: T -> bool)
    ensures Filter(s + [x], keep) == Filter(s, keep) + if keep(x) then [x] else []
  {
    assert (s + [x])[..|s|] == s;
  }

  lemma FilterPrefix<T(!new)>(s: seq<T>, i: nat, keep: T -> bool)
    requires i < |s|
    ensures Filter(s[..i + 1], keep) == Filter(s[..i], keep) + if keep(s[i]) then [s[i]] else []
  {
    assert s[..i + 1] == s[..i] + [s[i]];
    FilterSnoc(s[..i], s[i], keep);
  }

  lemma {:induction false} FilterAgree<T(!new)>(s: seq<T>, p: T -> bool, q: T -> bool)
    requires forall x :: x in s ==> p(x) == q(x)
    ensures Filter(s, p) == Filter(s, q)
  {
    if s != [] {
      FilterAgree(s[..|s| - 1], p, q);
    }
  }

  lemma {:induction false} FilterTwice<T(!new)>(s: seq<T>, p: T -> bool, q: T -> bool)
    ensures Filter(Filter(s, p), q) == Filter(s, x => p(x) && q(x))
  {
    if s != [] {
      var init, x := s[..|s| - 1], s[|s| - 1];
      FilterTwice(init, p, q);
      if p(x) {
        FilterSnoc(Filter(init, p), x, q);
      }
    }
  }

  lemma {:induction false} FilterAll<T(!new)>(s: seq<T>, keep: T -> bool)
    ensures Filter(s, keep) == s <==> forall x :: x in s ==> keep(x)
  {
    FilterMembers(s, keep);
    if s != [] && forall x :: x in s ==> keep(x) {
      var init := s[..|s| - 1];
      FilterMembers(init, keep);
      FilterAll(init, keep);
      assert s == init + [s[|s| - 1]];
    }
  }

  /** A narrower test keeps as many elements exactly when it keeps all the wider one keeps. */
  lemma {:induction false} FilterNarrower<T(!new)>(s: seq<T>, wide: T -> bool, narrow: T -> bool)
    requires forall x :: x in s && narrow(x) ==> wide(x)
    ensures |Filter(s, narrow)| <= |Filter(s, wide)|
    ensures |Filter(s, narrow)| == |Filter(s, wide)| <==> forall x :: x in s && wide(x) ==> narrow(x)
  {
    if s != [] {
      var init, last := s[..|s| - 1], s[|s| - 1];
      FilterNarrower(init, wide, narrow);
      assert s == init + [last];
    }
  }

  ghost predicate Distinct<T>(s: seq<T>) {
    forall i, j :: 0 <= i < j < |s| ==> s[i] != s[j]
  }

  lemma DistinctSnoc<T>(s: seq<T>, x: T)
    ensures Distinct(s + [x]) <==> Distinct(s) && x !in s
  {
    var t := s + [x];
    if Distinct(t) {
      assert forall i :: 0 <= i < |s| ==> t[i] == s[i] && t[i] != t[|s|];
      assert forall i, j :: 0 <= i < j < |s| ==> t[i] == s[i] && t[j] == s[j];
    }
  }

  /** The distinct elements in order of first appearance: `if !v.contains(&x) { v.push(x) }`. */
  function Unique<T(==)>(s: seq<T>): (r: seq<T>) {
    if s == [] then []
    else
      var r := Unique(s[..|s| - 1]);
      if s[|s| - 1] in r then r else r + [s[|s| - 1]]
  }

  lemma UniquePrefix<T>(s: seq<T>, i: nat)
    requires i < |s|
    ensures Unique(s[..i + 1]) == if s[i] in Unique(s[..i]) then Unique(s[..i]) else Unique(s[..i]) + [s[i]]
  {
    assert s[..i + 1][..i] == s[..i];
  }

  lemma {:induction false} UniqueElements<T>(s: seq<T>)
    ensures Distinct(Unique(s))
    ensures forall x :: x in Unique(s) <==> x in s
  {
    if s != [] {
      var init := s[..|s| - 1];
      UniqueElements(init);
      DistinctSnoc(Unique(init), s[|s| - 1]);
      assert s == init + [s[|s| - 1]];
    }
  }

  lemma {:induction false} UniqueOfDistinct<T>(s: seq<T>)
    requires Distinct(s)
    ensures Unique(s) == s
  {
    if s != [] {
      var init := s[..|s| - 1];
      assert s == init + [s[|s| - 1]];
      DistinctSnoc(init, s[|s| - 1]);
      UniqueOfDistinct(init);
    }
  }
}

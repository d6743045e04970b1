/** Positional list operations with the semantics of the Windows Runtime
    IVector used for the terminal's tab lists: IndexOf, RemoveAt and InsertAt,
    and the two compositions the tab code builds from them (moving an element
    to another position, and bumping one to the front). */
module Sequences {
  import opened Wrappers

  /** No element occurs twice, stated over pairs of positions: the form
      inductive proofs about positions need. */
  predicate NoDups<T(==)>(s: seq<T>) {
    forall i, j :: 0 <= i < j < |s| ==> s[i] != s[j]
  }

  /** No element occurs twice, stated through element counts: the form the
      model uses, because it survives rebuilding a list cheaply.
      DistinctIsNoDups shows it is the same property as NoDups. */
  predicate Distinct<T(==)>(s: seq<T>) {
    forall x :: x in multiset(s) ==> multiset(s)[x] == 1
  }

  /** In a list without repeats, each element is counted at most once. */
  lemma {:induction false} NoDupsCountsOnce<T>(s: seq<T>, x: T)
    requires NoDups(s)
    ensures multiset(s)[x] <= 1
    decreases |s|
  {
    if |s| > 0 {
      var n := |s| - 1;
      assert s == s[..n] + [s[n]];
      NoDupsCountsOnce(s[..n], x);
      if s[n] == x {
        assert x !in s[..n];
      }
    }
  }

  /** The two statements of distinctness agree. */
  lemma DistinctIsNoDups<T>(s: seq<T>)
    ensures Distinct(s) <==> NoDups(s)
  {
    if NoDups(s) {
      forall x | x in multiset(s) ensures multiset(s)[x] == 1 {
        NoDupsCountsOnce(s, x);
      }
    }
    if Distinct(s) {
      forall i, j | 0 <= i < j < |s| ensures s[i] != s[j] {
        assert s == s[..j] + [s[j]] + s[j + 1..];
        assert s[i] in s[..j];
        assert multiset(s)[s[j]] >= multiset(s[..j])[s[j]] + 1;
      }
    }
  }

  /** Position of the first occurrence of `x` (IVector::IndexOf), or None. */
  function IndexOf<T(==)>(s: seq<T>, x: T): (r: Option<nat>)
    ensures r.None? <==> x !in s
    ensures r.Some? ==> r.value < |s| && s[r.value] == x
  {
    IndexFrom(s, x, 0)
  }

  /** The scan behind IndexOf, from position `k` onwards. */
  function IndexFrom<T(==)>(s: seq<T>, x: T, k: nat): (r: Option<nat>)
    requires k <= |s|
    ensures r.Some? ==> k <= r.value < |s| && s[r.value] == x
    ensures r.None? ==> forall j :: k <= j < |s| ==> s[j] != x
    decreases |s| - k
  {
    if k == |s| then None else if s[k] == x then Some(k) else IndexFrom(s, x, k + 1)
  }

  lemma {:induction false} IndexFromFirst<T>(s: seq<T>, x: T, k: nat)
    requires k <= |s| && IndexFrom(s, x, k).Some?
    ensures forall j :: k <= j < IndexFrom(s, x, k).value ==> s[j] != x
    decreases |s| - k
  {
    if s[k] != x {
      IndexFromFirst(s, x, k + 1);
    }
  }

  /** The position IndexOf reports is the first one holding `x`. */
  lemma IndexOfFirst<T>(s: seq<T>, x: T)
    requires x in s
    ensures forall k :: 0 <= k < IndexOf(s, x).value ==> s[k] != x
  {
    IndexFromFirst(s, x, 0);
  }

  /** In a list without duplicates, the position of an element is the only one holding it. */
  lemma IndexOfUnique<T>(s: seq<T>, i: nat)
    requires Distinct(s) && i < |s|
    ensures IndexOf(s, s[i]) == Some(i)
  {
    DistinctIsNoDups(s);
    IndexOfFirst(s, s[i]);
  }

  /** The list without its element at `i` (IVector::RemoveAt): the elements
      before `i` stay in place and the later ones shift down by one. */
  function RemoveAt<T>(s: seq<T>, i: nat): (r: seq<T>)
    requires i < |s|
    ensures |r| == |s| - 1
  {
    seq(|s| - 1, k requires 0 <= k < |s| - 1 => s[if k < i then k else k + 1])
  }

  /** RemoveAt is the list with the slice at `i` cut out. */
  lemma RemoveAtSlices<T>(s: seq<T>, i: nat)
    requires i < |s|
    ensures RemoveAt(s, i) == s[..i] + s[i + 1..]
  {
  }

  /** RemoveAt takes out exactly one occurrence of the removed element. */
  lemma RemoveAtMultiset<T>(s: seq<T>, i: nat)
    requires i < |s|
    ensures multiset(RemoveAt(s, i)) + multiset{s[i]} == multiset(s)
  {
    RemoveAtSlices(s, i);
    assert s == s[..i] + [s[i]] + s[i + 1..];
  }

  /** The list with `x` placed at position `i`, later elements shifted right
      (IVector::InsertAt; `i == |s|` appends). */
  function InsertAt<T>(s: seq<T>, i: nat, x: T): (r: seq<T>)
    requires i <= |s|
    ensures |r| == |s| + 1 && r[i] == x
  {
    seq(|s| + 1, k requires 0 <= k <= |s| => if k == i then x else s[if k < i then k else k - 1])
  }

  /** InsertAt is the list with `x` spliced in between the slices at `i`. */
  lemma InsertAtSlices<T>(s: seq<T>, i: nat, x: T)
    requires i <= |s|
    ensures InsertAt(s, i, x) == s[..i] + [x] + s[i..]
  {
  }

  /** InsertAt adds exactly one occurrence of the inserted element. */
  lemma InsertAtMultiset<T>(s: seq<T>, i: nat, x: T)
    requires i <= |s|
    ensures multiset(InsertAt(s, i, x)) == multiset(s) + multiset{x}
  {
    InsertAtSlices(s, i, x);
    assert s == s[..i] + s[i..];
  }

  /** Removing what was just inserted gives back the original list. */
  lemma InsertThenRemove<T>(s: seq<T>, i: nat, x: T)
    requires i <= |s|
    ensures RemoveAt(InsertAt(s, i, x), i) == s
  {
  }

  /** Take the element at `from` out and put it back in at `to`. */
  function Move<T>(s: seq<T>, from: nat, to: nat): (r: seq<T>)
    requires from < |s| && to < |s|
    ensures |r| == |s| && r[to] == s[from]
  {
    InsertAt(RemoveAt(s, from), to, s[from])
  }

  /** Moving an element only reorders the list. */
  lemma MovePermutes<T>(s: seq<T>, from: nat, to: nat)
    requires from < |s| && to < |s|
    ensures multiset(Move(s, from, to)) == multiset(s)
  {
    RemoveAtMultiset(s, from);
    InsertAtMultiset(RemoveAt(s, from), to, s[from]);
  }

  /** Moving leaves the other elements in their relative order. */
  lemma MoveKeepsOrder<T>(s: seq<T>, from: nat, to: nat)
    requires from < |s| && to < |s|
    ensures RemoveAt(Move(s, from, to), to) == RemoveAt(s, from)
  {
    InsertThenRemove(RemoveAt(s, from), to, s[from]);
  }

  /** Lists with the same elements, counted, have the same members. */
  lemma {:induction false} MembershipIsMultiset<T>(s: seq<T>, t: seq<T>, x: T)
    requires multiset(s) == multiset(t)
    ensures x in s <==> x in t
  {
    assert x in s <==> x in multiset(s);
    assert x in t <==> x in multiset(t);
  }
}

/** Sequence helpers shared by the model: the JavaScript array idioms
    `filter`, `includes`-based toggling and `[...new Set(xs)]`. */
module Seqs {

  /** `a` is an order-preserving subsequence of `b`. */
  predicate IsSubseq<T(==)>(a: seq<T>, b: seq<T>)
    decreases |b|
  {
    if a == [] then true
    else if b == [] then false
    else (a[0] == b[0] && IsSubseq(a[1..], b[1..])) || IsSubseq(a, b[1..])
  }

  /** No element occurs twice. */
  predicate NoDup<T(==)>(s: seq<T>) {
    forall i, j :: 0 <= i < j < |s| ==> s[i] != s[j]
  }

  /** The set of elements of a sequence. */
  function Elems<T>(s: seq<T>): set<T> {
    set x | x in s
  }

  lemma {:induction false} SubseqRefl<T>(s: seq<T>)
    ensures IsSubseq(s, s)
  {
    if s != [] {
      SubseqRefl(s[1..]);
    }
  }

  /** Array.prototype.filter: keeps, in order, the elements that satisfy `keep`. */
  function Filter<T(!new)>(s: seq<T>, keep: T -> bool): (r: seq<T>)
    ensures |r| <= |s|
    ensures forall x :: x in r <==> x in s && keep(x)
    ensures IsSubseq(r, s)
    ensures NoDup(s) ==> NoDup(r)
    ensures (forall i :: 0 <= i < |s| ==> keep(s[i])) ==> r == s
  {
    if s == [] then []
    else
      var rest := Filter(s[1..], keep);
      if keep(s[0]) then
        assert s[0] in s[1..] ==> exists j :: 1 <= j < |s| && s[j] == s[0];
        assert NoDup(s) ==> s[0] !in rest;
        [s[0]] + rest
      else
        rest
  }

  /** `filter` keeps every occurrence of a kept element and none of the
      others: with `IsSubseq`, this fixes the result exactly. */
  lemma {:induction false} FilterMultiset<T(!new)>(s: seq<T>, keep: T -> bool)
    ensures forall x :: multiset(Filter(s, keep))[x] == if keep(x) then multiset(s)[x] else 0
  {
    if s != [] {
      FilterMultiset(s[1..], keep);
      assert s == [s[0]] + s[1..];
      assert multiset(s) == multiset{s[0]} + multiset(s[1..]);
      if keep(s[0]) {
        assert Filter(s, keep) == [s[0]] + Filter(s[1..], keep);
        assert multiset(Filter(s, keep)) == multiset{s[0]} + multiset(Filter(s[1..], keep));
      }
    }
  }

  /** Two filters that agree on every element of `s` give the same result. */
  lemma {:induction false} FilterAgree<T(!new)>(s: seq<T>, p: T -> bool, q: T -> bool)
    requires forall i :: 0 <= i < |s| ==> p(s[i]) == q(s[i])
    ensures Filter(s, p) == Filter(s, q)
  {
    if s != [] {
      FilterAgree(s[1..], p, q);
    }
  }

  /** Number of elements that satisfy `p`. */
  function Count<T(!new)>(s: seq<T>, p: T -> bool): (n: nat)
    ensures n <= |s|
    ensures n == |Filter(s, p)|
  {
    if s == [] then 0 else (if p(s[0]) then 1 else 0) + Count(s[1..], p)
  }

  /** Changing one element changes the count by that element's contribution only. */
  lemma {:induction false} CountUpdate<T(!new)>(s: seq<T>, t: seq<T>, k: nat, p: T -> bool)
    requires |s| == |t| && k < |s|
    requires forall i :: 0 <= i < |s| && i != k ==> s[i] == t[i]
    ensures Count(t, p) == Count(s, p) - (if p(s[k]) then 1 else 0) + (if p(t[k]) then 1 else 0)
  {
    if k > 0 {
      CountUpdate(s[1..], t[1..], k - 1, p);
    } else {
      assert s[1..] == t[1..];
    }
  }

  /** `xs.filter(y => y !== x)`: every occurrence of `x` removed. */
  function RemoveAll<T(==,!new)>(s: seq<T>, x: T): (r: seq<T>)
    ensures x !in r
    ensures forall y :: y != x ==> (y in r <==> y in s)
    ensures IsSubseq(r, s)
    ensures x !in s ==> r == s
    ensures NoDup(s) ==> NoDup(r)
    ensures multiset(r) == multiset(s)[x := 0]
  {
    var r := Filter(s, y => y != x);
    FilterMultiset(s, y => y != x);
    assert forall y :: multiset(r)[y] == multiset(s)[x := 0][y];
    r
  }

  /** The toggle used for selections: `xs.includes(x) ? xs.filter(y => y !== x) : [...xs, x]`. */
  function Toggle<T(==,!new)>(s: seq<T>, x: T): (r: seq<T>)
    ensures x in r <==> x !in s
    ensures forall y :: y != x ==> (y in r <==> y in s)
    ensures x in s ==> IsSubseq(r, s)
    ensures x !in s ==> r == s + [x]
    ensures NoDup(s) ==> NoDup(r)
  {
    if x in s then RemoveAll(s, x) else s + [x]
  }

  /** Toggling the same value twice gives back the original membership, and
      gives back the very same list when the value was absent. */
  lemma ToggleTwice<T(!new)>(s: seq<T>, x: T)
    ensures Elems(Toggle(Toggle(s, x), x)) == Elems(s)
    ensures x !in s ==> Toggle(Toggle(s, x), x) == s
  {
    if x !in s {
      RemoveAllAppended(s, x);
    }
  }

  /** Removing a value that was just appended to a list without it gives the list back. */
  lemma RemoveAllAppended<T(!new)>(s: seq<T>, x: T)
    requires x !in s
    ensures RemoveAll(s + [x], x) == s
  {
    var keep := y => y != x;
    FilterSnoc(s, x, keep);
    assert forall i :: 0 <= i < |s| ==> keep(s[i]);
  }

  /** Filtering distributes over appending one element at the end; this is
      what an accumulating `forEach` + `push` loop relies on. */
  lemma {:induction false} FilterSnoc<T(!new)>(s: seq<T>, x: T, keep: T -> bool)
    ensures Filter(s + [x], keep) == Filter(s, keep) + (if keep(x) then [x] else [])
  {
    if s == [] {
      assert [x][1..] == [];
    } else {
      assert (s + [x])[1..] == s[1..] + [x];
      FilterSnoc(s[1..], x, keep);
    }
  }

  /** A filter that keeps nothing gives the empty list. */
  lemma FilterNone<T(!new)>(s: seq<T>, keep: T -> bool)
    requires forall i :: 0 <= i < |s| ==> !keep(s[i])
    ensures Filter(s, keep) == []
  {
  }

  /** Index of the first occurrence of `x` in `s`. */
  function FirstIndex<T(==)>(s: seq<T>, x: T): (k: nat)
    requires x in s
    ensures k < |s| && s[k] == x && x !in s[..k]
  {
    if s[0] == x then 0
    else
      var k := FirstIndex(s[1..], x);
      assert s[..k + 1] == [s[0]] + s[1..][..k];
      1 + k
  }

  /** The first occurrence of an element of a prefix is found in that prefix. */
  lemma FirstIndexOfPrefix<T>(s: seq<T>, n: nat, x: T)
    requires n <= |s| && x in s[..n]
    ensures FirstIndex(s, x) == FirstIndex(s[..n], x)
  {
    var k := FirstIndex(s[..n], x);
    var m := FirstIndex(s, x);
    assert s[..n][..k] == s[..k];
  }

  /** `[...new Set(s)]`: each element kept at its first occurrence. */
  function Dedup<T(==)>(s: seq<T>): seq<T> {
    if s == [] then []
    else
      var d := Dedup(s[..|s| - 1]);
      if s[|s| - 1] in d then d else d + [s[|s| - 1]]
  }

  /** `Dedup` keeps exactly the distinct elements, once each, in
      first-occurrence order. */
  lemma {:induction false} DedupSpec<T>(s: seq<T>)
    ensures NoDup(Dedup(s))
    ensures Elems(Dedup(s)) == Elems(s)
    ensures forall i :: 0 <= i < |Dedup(s)| ==> Dedup(s)[i] in s
    ensures forall i, j :: 0 <= i < j < |Dedup(s)| ==> FirstIndex(s, Dedup(s)[i]) < FirstIndex(s, Dedup(s)[j])
  {
    if s != [] {
      var n := |s| - 1;
      var init := s[..n];
      assert s == init + [s[n]];
      DedupSpec(init);
      var d := Dedup(init);
      forall y | y in d ensures y in init && FirstIndex(s, y) == FirstIndex(init, y) {
        assert y in Elems(d);
        FirstIndexOfPrefix(s, n, y);
      }
      assert Elems(s) == Elems(init) + {s[n]};
      if s[n] !in d {
        assert s[n] !in init by { assert s[n] !in Elems(init); }
        assert FirstIndex(s, s[n]) == n;
      }
    }
  }
}

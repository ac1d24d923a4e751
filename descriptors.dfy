/** Descriptor equality as the test doubles define it, and the in-place
    ordering of a descriptor list by `sort_key()`. */
module Descriptors {
  import opened Wrappers
  import opened Resop

  /** Python's `d1 == d2` on two optional descriptors. `Storage` equals any
      other `Storage` (a type test), `FakeDescr` equals any `FakeDescr`, and
      `FakeDescrWithSnapshot` equals any `Storage` or `FakeDescrWithSnapshot`;
      the left operand's `__eq__` decides. A descriptor with the default
      equality, and `None`, fall back to the right operand's `__eq__`, which
      never accepts them, and then to identity. */
  predicate DescrEq(d1: Option<Descr>, d2: Option<Descr>) {
    match (d1, d2)
    case (None, None) => true
    case (Some(x), Some(y)) =>
      (match x.cls
       case Storage => y.cls == Storage
       case FakeDescr => y.cls == FakeDescr
       case FakeDescrWithSnapshot => y.cls == Storage || y.cls == FakeDescrWithSnapshot
       case Plain => x == y)
    case _ => false
  }

  /** Equality is reflexive on every descriptor, whatever its class. */
  lemma DescrEqReflexive(d: Option<Descr>)
    ensures DescrEq(d, d)
  {
  }

  /** The test doubles ignore identity: two distinct `Storage` instances are
      equal, and so are two distinct `FakeDescr` instances. */
  lemma DescrEqIgnoresIdentity(x: Descr, y: Descr)
    requires x.cls == y.cls && x.cls != Plain
    requires x.id != y.id
    ensures DescrEq(Some(x), Some(y))
  {
  }

  /** Only the left operand decides: a `FakeDescrWithSnapshot` equals a
      `Storage`, but the `Storage` does not equal it back. */
  lemma DescrEqNotSymmetric(x: Descr, y: Descr)
    requires x.cls == FakeDescrWithSnapshot && y.cls == Storage
    ensures DescrEq(Some(x), Some(y)) && !DescrEq(Some(y), Some(x))
  {
  }

  /** A descriptor with default equality equals only itself. */
  lemma PlainDescrEqIsIdentity(x: Descr, d: Option<Descr>)
    requires x.cls == Plain
    ensures DescrEq(Some(x), d) <==> d == Some(x)
    ensures DescrEq(d, Some(x)) <==> d == Some(x)
  {
  }

  /** `s` is in ascending `sort_key()` order. */
  predicate SortedByKey(s: seq<Descr>) {
    forall p, q :: 0 <= p < q < |s| ==> s[p].sortKey <= s[q].sortKey
  }

  /** No two elements of `s` share a sort key. */
  predicate DistinctKeys(s: seq<Descr>) {
    forall p, q :: 0 <= p < q < |s| ==> s[p].sortKey != s[q].sortKey
  }

  /** `sort_descrs(lst)`: rearranges `a` in place into ascending `sort_key()`
      order. A list that is already in order is left as it is. */
  method SortDescrs(a: array<Descr>)
    modifies a
    ensures SortedByKey(a[..])
    ensures multiset(a[..]) == multiset(old(a[..]))
    ensures SortedByKey(old(a[..])) ==> a[..] == old(a[..])
  {
    if a.Length == 0 {
      return;
    }
    var i := 1;
    while i < a.Length
      invariant 1 <= i <= a.Length
      invariant SortedByKey(a[..i])
      invariant multiset(a[..]) == multiset(old(a[..]))
      invariant SortedByKey(old(a[..])) ==> a[..] == old(a[..])
    {
      assert SortedByKey(a[..]) ==> SortedByKey(a[..i + 1]);
      SinkLast(a, i);
      i := i + 1;
    }
    assert a[..i] == a[..];
  }

  /** One step of the sort: with `a[..i]` in order, moves `a[i]` left past
      every larger key, so that `a[..i + 1]` is in order; the rest of the
      array is untouched. */
  method SinkLast(a: array<Descr>, i: nat)
    requires i < a.Length
    requires SortedByKey(a[..i])
    modifies a
    ensures SortedByKey(a[..i + 1])
    ensures a[i + 1..] == old(a[i + 1..])
    ensures multiset(a[..]) == multiset(old(a[..]))
    ensures SortedByKey(old(a[..i + 1])) ==> a[..] == old(a[..])
  {
    var j := i;
    while j > 0 && a[j - 1].sortKey > a[j].sortKey
      invariant 0 <= j <= i
      invariant SortedExceptAt(a[..i + 1], j)
      invariant a[i + 1..] == old(a[i + 1..])
      invariant multiset(a[..]) == multiset(old(a[..]))
      invariant j < i ==> !SortedByKey(old(a[..i + 1]))
      invariant j == i ==> a[..] == old(a[..])
    {
      SwapDown(a, i, j);
      j := j - 1;
    }
  }

  /** `s` is in order except that the element at `j` may be smaller than
      those before it. */
  predicate SortedExceptAt(s: seq<Descr>, j: nat) {
    forall p, q :: 0 <= p < q < |s| && q != j ==> s[p].sortKey <= s[q].sortKey
  }

  /** One swap of `SinkLast`: exchanges `a[j - 1]` and `a[j]` when they are
      out of order. */
  method SwapDown(a: array<Descr>, i: nat, j: nat)
    requires 0 < j <= i < a.Length
    requires SortedExceptAt(a[..i + 1], j)
    requires a[j - 1].sortKey > a[j].sortKey
    modifies a
    ensures SortedExceptAt(a[..i + 1], j - 1)
    ensures a[..] == old(a[..][j - 1 := a[j]][j := a[j - 1]])
    ensures a[i + 1..] == old(a[i + 1..])
    ensures multiset(a[..]) == multiset(old(a[..]))
  {
    a[j - 1], a[j] := a[j], a[j - 1];
  }

  /** Two key-ordered lists holding the same descriptors with pairwise
      distinct keys are the same list: sorting any shuffle of a key-ordered
      list gives that list back. */
  lemma {:induction false} SortedPermutationUnique(s: seq<Descr>, t: seq<Descr>)
    requires SortedByKey(s) && SortedByKey(t)
    requires DistinctKeys(s)
    requires multiset(s) == multiset(t)
    ensures s == t
  {
    if s == [] {
      assert |t| == |multiset(t)| == 0;
    } else {
      assert |t| == |multiset(t)| == |multiset(s)| == |s|;
      assert s[0] in multiset(t) && t[0] in multiset(s);
      HeadHasLeastKey(t, s[0]);
      HeadHasLeastKey(s, t[0]);
      OnlyHeadHasHeadKey(s, t[0]);
      SameTails(s, t);
      TailKeepsOrder(s);
      TailKeepsOrder(t);
      SortedPermutationUnique(s[1..], t[1..]);
      assert s == [s[0]] + s[1..] && t == [t[0]] + t[1..];
    }
  }

  lemma SameTails(s: seq<Descr>, t: seq<Descr>)
    requires |s| > 0 && |t| > 0 && s[0] == t[0]
    requires multiset(s) == multiset(t)
    ensures multiset(s[1..]) == multiset(t[1..])
  {
    assert s == [s[0]] + s[1..] && t == [t[0]] + t[1..];
    assert multiset(s[1..]) == multiset(s) - multiset{s[0]};
    assert multiset(t[1..]) == multiset(t) - multiset{t[0]};
  }

  lemma TailKeepsOrder(s: seq<Descr>)
    requires |s| > 0
    ensures SortedByKey(s) ==> SortedByKey(s[1..])
    ensures DistinctKeys(s) ==> DistinctKeys(s[1..])
  {
    if SortedByKey(s) {
      forall p, q | 0 <= p < q < |s| - 1 ensures s[1..][p].sortKey <= s[1..][q].sortKey {
        assert s[1..][p] == s[p + 1] && s[1..][q] == s[q + 1];
      }
    }
    if DistinctKeys(s) {
      forall p, q | 0 <= p < q < |s| - 1 ensures s[1..][p].sortKey != s[1..][q].sortKey {
        assert s[1..][p] == s[p + 1] && s[1..][q] == s[q + 1];
      }
    }
  }

  lemma HeadHasLeastKey(s: seq<Descr>, x: Descr)
    requires SortedByKey(s) && x in s
    ensures s[0].sortKey <= x.sortKey
  {
  }

  lemma OnlyHeadHasHeadKey(s: seq<Descr>, x: Descr)
    requires DistinctKeys(s) && x in s && x.sortKey == s[0].sortKey
    ensures x == s[0]
  {
  }
}

/** Sequences as bags: weighted sums, concatenation, and facts that survive a permutation. */
module Sequences {
  function Sum<A>(weight: A -> nat, s: seq<A>): nat {
    if s == [] then 0 else weight(s[0]) + Sum(weight, s[1..])
  }

  function Flatten<A>(ss: seq<seq<A>>): seq<A> {
    if ss == [] then [] else ss[0] + Flatten(ss[1..])
  }

  ghost predicate Distinct<A>(s: seq<A>) {
    forall i, j :: 0 <= i < j < |s| ==> s[i] != s[j]
  }

  function Reverse<A>(s: seq<A>): (r: seq<A>)
    ensures |r| == |s| && forall k :: 0 <= k < |s| ==> r[k] == s[|s| - 1 - k]
  {
    if s == [] then [] else [s[|s| - 1]] + Reverse(s[..|s| - 1])
  }

  function Repeat<A>(x: A, n: nat): (r: seq<A>)
    ensures |r| == n && forall k :: 0 <= k < n ==> r[k] == x
  {
    if n == 0 then [] else Repeat(x, n - 1) + [x]
  }

  lemma RepeatAdd<A>(s: seq<A>, x: A, m: nat, n: nat)
    ensures s + Repeat(x, m) + Repeat(x, n) == s + Repeat(x, m + n)
  {
    hide Repeat;
    assert Repeat(x, m) + Repeat(x, n) == Repeat(x, m + n);
    assert s + (Repeat(x, m) + Repeat(x, n)) == s + Repeat(x, m) + Repeat(x, n);
  }

  function RemoveAt<A>(s: seq<A>, i: nat): seq<A>
    requires i < |s|
  {
    s[..i] + s[i + 1..]
  }

  lemma {:induction false} SumAppend<A>(weight: A -> nat, a: seq<A>, b: seq<A>)
    ensures Sum(weight, a + b) == Sum(weight, a) + Sum(weight, b)
  {
    if a == [] {
      assert a + b == b;
    } else {
      assert (a + b)[1..] == a[1..] + b;
      SumAppend(weight, a[1..], b);
    }
  }

  lemma PrefixStep<A>(s: seq<A>, k: nat)
    requires k < |s|
    ensures s[..k + 1] == s[..k] + [s[k]]
  {
  }

  lemma SumRemove<A>(weight: A -> nat, s: seq<A>, i: nat)
    requires i < |s|
    ensures Sum(weight, s) == weight(s[i]) + Sum(weight, RemoveAt(s, i))
  {
    SumAppend(weight, s[..i], s[i + 1..]);
    SumAppend(weight, s[..i], s[i..]);
    assert s == s[..i] + s[i..];
    assert s[i..][1..] == s[i + 1..];
  }

  lemma MultisetRemove<A>(s: seq<A>, i: nat)
    requires i < |s|
    ensures multiset(RemoveAt(s, i)) == multiset(s) - multiset{s[i]}
  {
    assert s == s[..i] + [s[i]] + s[i + 1..];
  }

  lemma PutBack<A>(a: seq<A>, i: nat, b: seq<A>, j: nat)
    requires i < |a| && j < |b| && a[i] == b[j]
    requires multiset(RemoveAt(a, i)) == multiset(RemoveAt(b, j))
    ensures multiset(a) == multiset(b)
  {
    MultisetRemove(a, i);
    MultisetRemove(b, j);
    assert a[i] in multiset(a) && b[j] in multiset(b);
    assert multiset(a) == (multiset(a) - multiset{a[i]}) + multiset{a[i]};
    assert multiset(b) == (multiset(b) - multiset{b[j]}) + multiset{b[j]};
  }

  lemma MoveToEnd<A>(a: seq<A>, x: A, b: seq<A>)
    ensures multiset(a + [x] + b) == multiset(a + b + [x])
  {
  }

  lemma SameMembers<A>(a: seq<A>, b: seq<A>)
    requires multiset(a) == multiset(b)
    ensures |a| == |b|
    ensures forall x :: x in a ==> x in b
    ensures forall x :: x in b ==> x in a
  {
    assert |a| == |multiset(a)| == |multiset(b)| == |b|;
    forall x | x in a ensures x in b {
      assert x in multiset(b);
    }
    forall x | x in b ensures x in a {
      assert x in multiset(a);
    }
  }

  // A sum does not depend on the order of its items.
  lemma {:induction false} SumPermutation<A>(weight: A -> nat, a: seq<A>, b: seq<A>)
    requires multiset(a) == multiset(b)
    ensures Sum(weight, a) == Sum(weight, b)
    decreases |a|
  {
    SameMembers(a, b);
    if a != [] {
      assert a[0] in b;
      var i :| 0 <= i < |b| && b[i] == a[0];
      MultisetRemove(a, 0);
      MultisetRemove(b, i);
      SumRemove(weight, a, 0);
      SumRemove(weight, b, i);
      SumPermutation(weight, RemoveAt(a, 0), RemoveAt(b, i));
    }
  }

  lemma {:induction false} FlattenAppend<A>(a: seq<seq<A>>, b: seq<seq<A>>)
    ensures Flatten(a + b) == Flatten(a) + Flatten(b)
  {
    if a == [] {
      assert a + b == b;
    } else {
      assert (a + b)[1..] == a[1..] + b;
      FlattenAppend(a[1..], b);
    }
  }

  lemma {:induction false} FlattenIndex<A>(ss: seq<seq<A>>, x: A) returns (i: nat)
    requires x in Flatten(ss)
    ensures i < |ss| && x in ss[i]
  {
    if x in ss[0] {
      i := 0;
    } else {
      i := FlattenIndex(ss[1..], x);
      i := i + 1;
    }
  }

  lemma {:induction false} FlattenMember<A>(ss: seq<seq<A>>, i: nat, x: A)
    requires i < |ss| && x in ss[i]
    ensures x in Flatten(ss)
  {
    if i > 0 {
      FlattenMember(ss[1..], i - 1, x);
    }
  }

  ghost predicate Splits<A>(a: seq<A>, b: seq<A>, s: seq<A>) {
    multiset(a) + multiset(b) == multiset(s)
  }

  lemma SplitsNone<A>(none: seq<A>, s: seq<A>)
    requires none == []
    ensures Splits(none, s, s)
  {
  }

  // Putting back the removed element on the left side of a split.
  lemma ConsRemoved<A>(s: seq<A>, i: nat, a: seq<A>, b: seq<A>)
    requires i < |s| && Splits(a, b, RemoveAt(s, i))
    ensures Splits([s[i]] + a, b, s)
  {
    MultisetRemove(s, i);
    assert multiset([s[i]] + a) == multiset{s[i]} + multiset(a);
    assert s[i] in multiset(s);
    assert multiset{s[i]} + (multiset(s) - multiset{s[i]}) == multiset(s);
    assert (multiset{s[i]} + multiset(a)) + multiset(b) == multiset{s[i]} + (multiset(a) + multiset(b));
  }

  lemma {:induction false} DistinctCounts<A>(s: seq<A>)
    requires Distinct(s)
    ensures forall x :: multiset(s)[x] <= 1
  {
    if s != [] {
      DistinctCounts(s[1..]);
      assert s == [s[0]] + s[1..];
      assert s[0] !in s[1..];
    }
  }

  lemma TwiceCounted<A>(s: seq<A>, i: nat, j: nat)
    requires i < j < |s| && s[i] == s[j]
    ensures multiset(s)[s[i]] >= 2
  {
    assert s == s[..i] + [s[i]] + s[i + 1..j] + [s[j]] + s[j + 1..];
  }
}

/** Following parent links upwards: a chain of links ends exactly when it never meets a span twice. */
module Chains {
  import opened Wrappers

  // The span reached from x by n links, if there are that many.
  function Up(next: map<string, string>, x: string, n: nat): Option<string>
    decreases n
  {
    if n == 0 then Some(x)
    else if x in next then Up(next, next[x], n - 1)
    else None
  }

  // The chain from x has exactly d links.
  predicate HasLength(next: map<string, string>, x: string, d: nat) {
    Up(next, x, d).Some? && Up(next, x, d).value !in next
  }

  ghost predicate ComesToEnd(next: map<string, string>, x: string) {
    exists d: nat :: HasLength(next, x, d)
  }

  ghost predicate Reaches(next: map<string, string>, x: string, y: string) {
    exists n: nat :: n > 0 && Up(next, x, n) == Some(y)
  }

  // The chain from x meets some span at two different positions.
  ghost predicate Repeats(next: map<string, string>, x: string) {
    exists i: nat, j: nat :: i < j && Up(next, x, i).Some? && Up(next, x, i) == Up(next, x, j)
  }

  lemma {:induction false} UpAdd(next: map<string, string>, x: string, m: nat, n: nat)
    requires Up(next, x, m).Some?
    ensures Up(next, x, m + n) == Up(next, Up(next, x, m).value, n)
    decreases m
  {
    if m > 0 {
      UpAdd(next, next[x], m - 1, n);
    }
  }

  lemma {:induction false} UpBelow(next: map<string, string>, x: string, m: nat, n: nat)
    requires m <= n && Up(next, x, n).Some?
    ensures Up(next, x, m).Some?
    decreases m
  {
    if m > 0 {
      UpBelow(next, next[x], m - 1, n - 1);
    }
  }

  lemma UpNext(next: map<string, string>, x: string, n: nat)
    requires Up(next, x, n).Some?
    ensures Up(next, x, n + 1) == var y := Up(next, x, n).value; if y in next then Some(next[y]) else None
  {
    UpAdd(next, x, n, 1);
  }

  lemma {:induction false} LengthUnique(next: map<string, string>, x: string, d: nat, e: nat)
    requires HasLength(next, x, d) && HasLength(next, x, e)
    ensures d == e
    decreases d
  {
    if d > 0 && e > 0 {
      LengthUnique(next, next[x], d - 1, e - 1);
    }
  }

  // On a cycle there is always another link.
  lemma {:induction false} CycleGoesOn(next: map<string, string>, x: string, n: nat, m: nat)
    requires n > 0 && Up(next, x, n) == Some(x)
    ensures Up(next, x, m).Some?
    decreases m
  {
    if m < n {
      UpBelow(next, x, m, n);
    } else {
      CycleGoesOn(next, x, n, m - n);
      UpAdd(next, x, n, m - n);
    }
  }

  lemma CycleNeverEnds(next: map<string, string>, x: string, d: nat)
    requires Reaches(next, x, x)
    ensures !HasLength(next, x, d)
  {
    hide Up;
    var n: nat :| n > 0 && Up(next, x, n) == Some(x);
    CycleGoesOn(next, x, n, d);
    CycleGoesOn(next, x, n, d + 1);
    UpNext(next, x, d);
  }

  // The spans met before position n.
  function Met(next: map<string, string>, x: string, n: nat): set<string> {
    if n == 0 then {}
    else Met(next, x, n - 1) + (match Up(next, x, n - 1) case Some(y) => {y} case None => {})
  }

  ghost predicate IsMet(next: map<string, string>, x: string, n: nat, y: string) {
    exists i: nat :: i < n && Up(next, x, i) == Some(y)
  }

  lemma IsMetNext(next: map<string, string>, x: string, n: nat, y: string)
    ensures IsMet(next, x, n + 1, y) <==> IsMet(next, x, n, y) || Up(next, x, n) == Some(y)
  {
    hide Up;
    if IsMet(next, x, n + 1, y) {
      var i: nat :| i < n + 1 && Up(next, x, i) == Some(y);
    }
  }

  lemma {:induction false} MetIs(next: map<string, string>, x: string, n: nat, y: string)
    ensures y in Met(next, x, n) <==> IsMet(next, x, n, y)
  {
    hide Up;
    if n > 0 {
      MetIs(next, x, n - 1, y);
      IsMetNext(next, x, n - 1, y);
    }
  }

  lemma {:induction false} MetCount(next: map<string, string>, x: string, n: nat)
    requires !Repeats(next, x) && Up(next, x, n).Some?
    ensures Met(next, x, n) <= next.Keys && |Met(next, x, n)| == n
  {
    hide Up;
    if n > 0 {
      UpBelow(next, x, n - 1, n);
      MetCount(next, x, n - 1);
      UpNext(next, x, n - 1);
      var y := Up(next, x, n - 1).value;
      MetIs(next, x, n - 1, y);
      forall i: nat | i < n - 1 ensures Up(next, x, i) != Some(y) {
      }
    }
  }

  lemma SubsetSize(a: set<string>, b: set<string>)
    requires a <= b
    ensures |a| <= |b|
  {
    assert b == a + (b - a);
  }

  // A chain that never repeats ends within as many links as there are.
  lemma {:induction false} FindEnd(next: map<string, string>, x: string, n: nat) returns (d: nat)
    requires !Repeats(next, x) && Up(next, x, n).Some?
    ensures HasLength(next, x, d) && d <= |next.Keys|
    decreases |next.Keys| - n
  {
    hide Up, Repeats;
    MetCount(next, x, n);
    SubsetSize(Met(next, x, n), next.Keys);
    if Up(next, x, n).value !in next {
      d := n;
    } else {
      UpNext(next, x, n);
      MetCount(next, x, n + 1);
      SubsetSize(Met(next, x, n + 1), next.Keys);
      d := FindEnd(next, x, n + 1);
    }
  }

  // The walk up the chain stops exactly when no span is met twice.
  lemma EndsIffNeverRepeats(next: map<string, string>, x: string)
    ensures ComesToEnd(next, x) <==> !Repeats(next, x)
  {
    hide Up;
    if !Repeats(next, x) {
      UpZero(next, x);
      var d := FindEnd(next, x, 0);
    } else {
      var i: nat, j: nat :| i < j && Up(next, x, i).Some? && Up(next, x, i) == Up(next, x, j);
      var y := Up(next, x, i).value;
      UpAdd(next, x, i, j - i);
      assert Reaches(next, y, y);
      forall d: nat ensures !HasLength(next, x, d) {
        RepeatNeverEnds(next, x, i, y, d);
      }
    }
  }

  lemma UpZero(next: map<string, string>, x: string)
    ensures Up(next, x, 0) == Some(x)
  {
  }

  lemma RepeatNeverEnds(next: map<string, string>, x: string, i: nat, y: string, d: nat)
    requires Up(next, x, i) == Some(y) && Reaches(next, y, y)
    ensures !HasLength(next, x, d)
  {
    hide Up;
    if d >= i {
      UpAdd(next, x, i, d - i);
      CycleNeverEnds(next, y, d - i);
    } else if Up(next, x, d).Some? {
      UpBelow(next, x, d + 1, i);
      UpNext(next, x, d);
    }
  }
}

/** HyperCommGrid: process groups of an N-dimensional rank grid, enumerated by permuting the axes
    of a mixed-radix numbering. */
module RankGrid {
  import opened DimOrder
  import opened MixedRadix
  import opened Sequences

  // ---------- _gen_rank_enum ----------

  // Axis names einops accepts in a pattern.
  predicate AxisName(name: string) {
    && name != "" && name[0] != '_' && name[|name| - 1] != '_' && !('0' <= name[0] <= '9')
    && forall k :: 0 <= k < |name| ==>
         'a' <= name[k] <= 'z' || 'A' <= name[k] <= 'Z' || '0' <= name[k] <= '9' || name[k] == '_'
  }

  // Names are identifiers that neither start nor end with an underscore.
  lemma AxisNames()
    ensures AxisName("tp") && AxisName("d_p2") && AxisName("DP")
    ensures !AxisName("") && !AxisName("_tp") && !AxisName("tp_") && !AxisName("2d") && !AxisName("a-b")
  {
    assert "a-b"[1] == '-';
  }

  // What einops.rearrange demands of "(axes) -> (rest) (dims)".
  ghost predicate Accepted(axes: seq<string>, dims: seq<string>) {
    && Distinct(axes) && Distinct(dims)
    && (forall a :: a in axes ==> AxisName(a))
    && (forall a :: a in dims ==> a in axes)
  }

  // Coordinates of the rank at position (i, j) of the enumeration.
  function Position(rest: seq<string>, dims: seq<string>, size: string -> nat, i: nat, j: nat): string -> nat {
    (a: string) => if a in dims then Digit(dims, size, j, a) else Digit(rest, size, i, a)
  }

  // rearrange(arange(offset, offset + size), "(axes) -> (rest) (dims)")[i][j]
  function RankAt(axes: seq<string>, dims: seq<string>, size: string -> nat, offset: nat, i: nat, j: nat): nat {
    offset + Ravel(axes, size, Position(Drop(axes, NameSet(dims)), dims, size, i, j))
  }

  function Group(axes: seq<string>, dims: seq<string>, size: string -> nat, offset: nat, i: nat): (g: seq<nat>)
    ensures |g| == Prod(dims, size)
    ensures forall j :: 0 <= j < |g| ==> g[j] == RankAt(axes, dims, size, offset, i, j)
  {
    seq(Prod(dims, size), j requires 0 <= j < Prod(dims, size) => RankAt(axes, dims, size, offset, i, j))
  }

  function RankEnum(axes: seq<string>, dims: seq<string>, size: string -> nat, offset: nat): (e: seq<seq<nat>>)
    ensures |e| == Prod(Drop(axes, NameSet(dims)), size)
    ensures forall i :: 0 <= i < |e| ==> e[i] == Group(axes, dims, size, offset, i)
  {
    var n := Prod(Drop(axes, NameSet(dims)), size);
    seq(n, i requires 0 <= i < n => Group(axes, dims, size, offset, i))
  }

  // ---------- The groups ----------

  // The group and the place in it of the rank with the given coordinates.
  lemma PositionOf(axes: seq<string>, dims: seq<string>, size: string -> nat, offset: nat, i: nat, j: nat)
    requires Distinct(axes) && Distinct(dims) && forall a :: a in dims ==> a in axes
    requires i < Prod(Drop(axes, NameSet(dims)), size) && j < Prod(dims, size)
    ensures var c := Position(Drop(axes, NameSet(dims)), dims, size, i, j);
            && Within(axes, size, c)
            && Ravel(Drop(axes, NameSet(dims)), size, c) == i && Ravel(dims, size, c) == j
  {
    hide Prod, Ravel, Digit, Drop;
    var rest := Drop(axes, NameSet(dims));
    var c := Position(rest, dims, size, i, j);
    KeepDistinct(axes, NameSet(dims));
    DigitsWithin(rest, size, i);
    DigitsWithin(dims, size, j);
    assert Agree(rest, c, Digits(rest, size, i));
    assert Agree(dims, c, Digits(dims, size, j));
    RavelAgree(rest, size, c, Digits(rest, size, i));
    RavelAgree(dims, size, c, Digits(dims, size, j));
    RavelOfDigits(rest, size, i);
    RavelOfDigits(dims, size, j);
    forall a | a in axes ensures c(a) < size(a) {
      if a in dims {
        assert Digits(dims, size, j)(a) < size(a);
      } else {
        assert a in rest;
        assert Digits(rest, size, i)(a) < size(a);
      }
    }
  }

  lemma AtCoordinates(axes: seq<string>, dims: seq<string>, size: string -> nat, c: string -> nat)
    requires Distinct(axes) && Distinct(dims) && forall a :: a in dims ==> a in axes
    requires Within(axes, size, c)
    ensures var rest := Drop(axes, NameSet(dims));
            var i, j := Ravel(rest, size, c), Ravel(dims, size, c);
            && i < Prod(rest, size) && j < Prod(dims, size)
            && Agree(axes, Position(rest, dims, size, i, j), c)
  {
    hide Prod, Ravel, Digit, Drop;
    var rest := Drop(axes, NameSet(dims));
    KeepDistinct(axes, NameSet(dims));
    RavelBound(rest, size, c);
    RavelBound(dims, size, c);
    forall a | a in axes ensures Position(rest, dims, size, Ravel(rest, size, c), Ravel(dims, size, c))(a) == c(a) {
      if a in dims {
        DigitOfRavel(dims, size, c, a);
      } else {
        DigitOfRavel(rest, size, c, a);
      }
    }
  }

  // The group of a rank: the flat index of its coordinates outside dims.
  function GroupIndex(axes: seq<string>, dims: seq<string>, size: string -> nat, n: nat): nat {
    Ravel(Drop(axes, NameSet(dims)), size, Digits(axes, size, n))
  }

  lemma PlaceOfRank(axes: seq<string>, dims: seq<string>, size: string -> nat, offset: nat, i: nat, j: nat)
    requires Accepted(axes, dims)
    requires i < Prod(Drop(axes, NameSet(dims)), size) && j < Prod(dims, size)
    ensures var n := RankAt(axes, dims, size, offset, i, j) - offset;
            && n < Prod(axes, size) && GroupIndex(axes, dims, size, n) == i
            && Ravel(dims, size, Digits(axes, size, n)) == j
  {
    hide Prod, Ravel, Digit, Drop;
    var rest := Drop(axes, NameSet(dims));
    var c := Position(rest, dims, size, i, j);
    PositionOf(axes, dims, size, offset, i, j);
    RavelBound(axes, size, c);
    var d := Digits(axes, size, Ravel(axes, size, c));
    forall a | a in axes ensures d(a) == c(a) {
      DigitOfRavel(axes, size, c, a);
    }
    RavelAgree(rest, size, c, d);
    RavelAgree(dims, size, c, d);
  }

  lemma RankAtPlace(axes: seq<string>, dims: seq<string>, size: string -> nat, offset: nat, n: nat)
    requires Accepted(axes, dims) && n < Prod(axes, size)
    ensures GroupIndex(axes, dims, size, n) < Prod(Drop(axes, NameSet(dims)), size)
    ensures Ravel(dims, size, Digits(axes, size, n)) < Prod(dims, size)
    ensures RankAt(axes, dims, size, offset, GroupIndex(axes, dims, size, n), Ravel(dims, size, Digits(axes, size, n)))
         == offset + n
  {
    hide Prod, Ravel, Digit, Drop;
    var rest := Drop(axes, NameSet(dims));
    var c := Digits(axes, size, n);
    DigitsWithin(axes, size, n);
    AtCoordinates(axes, dims, size, c);
    RavelAgree(axes, size, Position(rest, dims, size, Ravel(rest, size, c), Ravel(dims, size, c)), c);
    RavelOfDigits(axes, size, n);
  }

  ghost predicate InGrid(axes: seq<string>, size: string -> nat, offset: nat, r: nat) {
    offset <= r < offset + Prod(axes, size)
  }

  // Group i holds exactly the ranks of the grid whose coordinates outside dims flatten to i.
  lemma InGroup(axes: seq<string>, dims: seq<string>, size: string -> nat, offset: nat, i: nat, r: nat)
    requires Accepted(axes, dims) && i < |RankEnum(axes, dims, size, offset)|
    ensures r in RankEnum(axes, dims, size, offset)[i]
       <==> InGrid(axes, size, offset, r) && GroupIndex(axes, dims, size, r - offset) == i
  {
    hide Prod, Ravel, Digit, Drop;
    var g := RankEnum(axes, dims, size, offset)[i];
    assert g == Group(axes, dims, size, offset, i);
    if r in g {
      var j :| 0 <= j < |g| && g[j] == r;
      PlaceOfRank(axes, dims, size, offset, i, j);
    }
    if InGrid(axes, size, offset, r) && GroupIndex(axes, dims, size, r - offset) == i {
      RankAtPlace(axes, dims, size, offset, r - offset);
      assert g[Ravel(dims, size, Digits(axes, size, r - offset))] == r;
    }
  }

  ghost predicate InSomeGroup(e: seq<seq<nat>>, r: nat) {
    exists i :: 0 <= i < |e| && r in e[i]
  }

  lemma GridRankInSomeGroup(axes: seq<string>, dims: seq<string>, size: string -> nat, offset: nat, r: nat)
    requires Accepted(axes, dims)
    ensures InGrid(axes, size, offset, r) <==> InSomeGroup(RankEnum(axes, dims, size, offset), r)
  {
    hide Prod, Ravel, Digit, Drop;
    var e := RankEnum(axes, dims, size, offset);
    if InGrid(axes, size, offset, r) {
      RankAtPlace(axes, dims, size, offset, r - offset);
      InGroup(axes, dims, size, offset, GroupIndex(axes, dims, size, r - offset), r);
    }
    if InSomeGroup(e, r) {
      var i :| 0 <= i < |e| && r in e[i];
      InGroup(axes, dims, size, offset, i, r);
    }
  }

  lemma GroupDistinct(axes: seq<string>, dims: seq<string>, size: string -> nat, offset: nat, i: nat)
    requires Accepted(axes, dims) && i < |RankEnum(axes, dims, size, offset)|
    ensures Distinct(RankEnum(axes, dims, size, offset)[i])
  {
    hide Prod, Ravel, Digit, Drop;
    var g := RankEnum(axes, dims, size, offset)[i];
    assert g == Group(axes, dims, size, offset, i);
    forall j, k | 0 <= j < k < |g| ensures g[j] != g[k] {
      PlaceOfRank(axes, dims, size, offset, i, j);
      PlaceOfRank(axes, dims, size, offset, i, k);
    }
  }

  // Every rank of the grid is in exactly one group, at exactly one place, and no other rank is.
  lemma GroupsPartitionTheGrid(axes: seq<string>, dims: seq<string>, size: string -> nat, offset: nat)
    requires Accepted(axes, dims)
    ensures var e := RankEnum(axes, dims, size, offset);
            && (forall i :: 0 <= i < |e| ==> |e[i]| == Prod(dims, size) && Distinct(e[i]))
            && (forall r: nat :: InGrid(axes, size, offset, r) <==> InSomeGroup(e, r))
            && (forall i, k, r :: 0 <= i < |e| && 0 <= k < |e| && r in e[i] && r in e[k] ==> i == k)
  {
    hide Prod, Ravel, Digit, Drop;
    var e := RankEnum(axes, dims, size, offset);
    forall r: nat ensures InGrid(axes, size, offset, r) <==> InSomeGroup(e, r) {
      GridRankInSomeGroup(axes, dims, size, offset, r);
    }
    forall i | 0 <= i < |e| ensures |e[i]| == Prod(dims, size) && Distinct(e[i]) {
      GroupDistinct(axes, dims, size, offset, i);
    }
    forall i, k, r | 0 <= i < |e| && 0 <= k < |e| && r in e[i] && r in e[k] ensures i == k {
      InGroup(axes, dims, size, offset, i, r);
      InGroup(axes, dims, size, offset, k, r);
    }
  }

  ghost predicate AgreeElsewhere(axes: seq<string>, dims: seq<string>, c: string -> nat, d: string -> nat) {
    forall a :: a in axes && a !in dims ==> c(a) == d(a)
  }

  lemma GroupIndexAgree(axes: seq<string>, dims: seq<string>, size: string -> nat, m: nat, n: nat)
    requires Accepted(axes, dims) && m < Prod(axes, size) && n < Prod(axes, size)
    ensures GroupIndex(axes, dims, size, m) == GroupIndex(axes, dims, size, n)
       <==> AgreeElsewhere(axes, dims, Digits(axes, size, m), Digits(axes, size, n))
  {
    hide Prod, Ravel, Digit, Drop;
    var rest := Drop(axes, NameSet(dims));
    DigitsWithin(axes, size, m);
    DigitsWithin(axes, size, n);
    KeepDistinct(axes, NameSet(dims));
    RavelInjective(rest, size, Digits(axes, size, m), Digits(axes, size, n));
  }

  // Two ranks share a group exactly when they agree on every coordinate outside dims.
  lemma SameGroupIffAgreeElsewhere(
    axes: seq<string>, dims: seq<string>, size: string -> nat, offset: nat, r: nat, s: nat)
    requires Accepted(axes, dims) && InGrid(axes, size, offset, r) && InGrid(axes, size, offset, s)
    ensures var e := RankEnum(axes, dims, size, offset);
            (exists i :: 0 <= i < |e| && r in e[i] && s in e[i])
            <==> AgreeElsewhere(axes, dims, Digits(axes, size, r - offset), Digits(axes, size, s - offset))
  {
    hide Prod, Ravel, Digit, Drop;
    var e := RankEnum(axes, dims, size, offset);
    GroupIndexAgree(axes, dims, size, r - offset, s - offset);
    RankAtPlace(axes, dims, size, offset, r - offset);
    var i := GroupIndex(axes, dims, size, r - offset);
    InGroup(axes, dims, size, offset, i, r);
    InGroup(axes, dims, size, offset, i, s);
    if k :| 0 <= k < |e| && r in e[k] && s in e[k] {
      InGroup(axes, dims, size, offset, k, r);
      InGroup(axes, dims, size, offset, k, s);
    }
  }

  ghost predicate Complementary(axes: seq<string>, dims: seq<string>, others: seq<string>) {
    forall a :: a in axes ==> (a in dims <==> a !in others)
  }

  ghost predicate OnlyCommon(g: seq<nat>, h: seq<nat>, r: nat) {
    r in g && r in h && forall s :: s in g && s in h ==> s == r
  }

  // A group over dims and a group over the other dims have exactly one rank in common.
  lemma ComplementaryGroupsMeetOnce(axes: seq<string>, dims: seq<string>, others: seq<string>,
                                    size: string -> nat, offset: nat, i: nat, k: nat)
    requires Accepted(axes, dims) && Accepted(axes, others) && Complementary(axes, dims, others)
    requires i < |RankEnum(axes, dims, size, offset)| && k < |RankEnum(axes, others, size, offset)|
    ensures exists r :: OnlyCommon(RankEnum(axes, dims, size, offset)[i], RankEnum(axes, others, size, offset)[k], r)
  {
    var n := CommonRank(axes, dims, others, size, i, k);
    CommonRankIsOnly(axes, dims, others, size, offset, i, k, n);
  }

  lemma CommonRankIsOnly(axes: seq<string>, dims: seq<string>, others: seq<string>,
                         size: string -> nat, offset: nat, i: nat, k: nat, n: nat)
    requires Accepted(axes, dims) && Accepted(axes, others) && Complementary(axes, dims, others)
    requires i < |RankEnum(axes, dims, size, offset)| && k < |RankEnum(axes, others, size, offset)|
    requires n < Prod(axes, size) && GroupIndex(axes, dims, size, n) == i && GroupIndex(axes, others, size, n) == k
    ensures OnlyCommon(RankEnum(axes, dims, size, offset)[i], RankEnum(axes, others, size, offset)[k], offset + n)
  {
    hide Prod, RankEnum, Group, Ravel, Digit, Drop;
    var g, h := RankEnum(axes, dims, size, offset)[i], RankEnum(axes, others, size, offset)[k];
    InGroup(axes, dims, size, offset, i, offset + n);
    InGroup(axes, others, size, offset, k, offset + n);
    forall s | s in g && s in h ensures s == offset + n {
      CommonMember(axes, dims, others, size, offset, i, k, n, s);
    }
  }

  lemma CommonMember(axes: seq<string>, dims: seq<string>, others: seq<string>,
                     size: string -> nat, offset: nat, i: nat, k: nat, n: nat, s: nat)
    requires Accepted(axes, dims) && Accepted(axes, others) && Complementary(axes, dims, others)
    requires i < |RankEnum(axes, dims, size, offset)| && k < |RankEnum(axes, others, size, offset)|
    requires n < Prod(axes, size) && GroupIndex(axes, dims, size, n) == i && GroupIndex(axes, others, size, n) == k
    requires s in RankEnum(axes, dims, size, offset)[i] && s in RankEnum(axes, others, size, offset)[k]
    ensures s == offset + n
  {
    hide Prod, RankEnum, Group, Ravel, Digit, Drop;
    InGroup(axes, dims, size, offset, i, s);
    InGroup(axes, others, size, offset, k, s);
    CommonRankUnique(axes, dims, others, size, n, s - offset);
  }

  // Take the coordinates outside dims from the first group and those in dims from the second.
  lemma CommonRank(axes: seq<string>, dims: seq<string>, others: seq<string>, size: string -> nat, i: nat, k: nat)
    returns (n: nat)
    requires Accepted(axes, dims) && Accepted(axes, others) && Complementary(axes, dims, others)
    requires i < Prod(Drop(axes, NameSet(dims)), size) && k < Prod(Drop(axes, NameSet(others)), size)
    ensures n < Prod(axes, size) && GroupIndex(axes, dims, size, n) == i && GroupIndex(axes, others, size, n) == k
  {
    hide Prod, Ravel, Digit, Drop;
    var restD, restO := Drop(axes, NameSet(dims)), Drop(axes, NameSet(others));
    var c := (a: string) => if a in dims then Digit(restO, size, k, a) else Digit(restD, size, i, a);
    forall a | a in axes ensures c(a) < size(a) {
      if a in dims {
        DigitBound(restO, size, k, a);
      } else {
        DigitBound(restD, size, i, a);
      }
    }
    RavelBound(axes, size, c);
    n := Ravel(axes, size, c);
    forall a | a in axes ensures Digit(axes, size, n, a) == c(a) {
      DigitOfRavel(axes, size, c, a);
    }
    KeepDistinct(axes, NameSet(dims));
    KeepDistinct(axes, NameSet(others));
    RavelAgree(restD, size, Digits(axes, size, n), Digits(restD, size, i));
    RavelOfDigits(restD, size, i);
    RavelAgree(restO, size, Digits(axes, size, n), Digits(restO, size, k));
    RavelOfDigits(restO, size, k);
  }

  lemma CommonRankUnique(axes: seq<string>, dims: seq<string>, others: seq<string>, size: string -> nat, m: nat, n: nat)
    requires Accepted(axes, dims) && Accepted(axes, others) && Complementary(axes, dims, others)
    requires m < Prod(axes, size) && n < Prod(axes, size)
    requires GroupIndex(axes, dims, size, m) == GroupIndex(axes, dims, size, n)
    requires GroupIndex(axes, others, size, m) == GroupIndex(axes, others, size, n)
    ensures m == n
  {
    hide Prod, Ravel, Digit, Drop;
    GroupIndexAgree(axes, dims, size, m, n);
    GroupIndexAgree(axes, others, size, m, n);
    RavelAgree(axes, size, Digits(axes, size, m), Digits(axes, size, n));
    RavelOfDigits(axes, size, m);
    RavelOfDigits(axes, size, n);
  }

  // With the dims in axis order, as create_pg passes them, each group lists its ranks increasingly.
  lemma OrderedGroupsIncrease(
    axes: seq<string>, chosen: set<string>, size: string -> nat, offset: nat, i: nat, j: nat, k: nat)
    requires Accepted(axes, Keep(axes, chosen))
    requires i < |RankEnum(axes, Keep(axes, chosen), size, offset)|
    requires j < k < |RankEnum(axes, Keep(axes, chosen), size, offset)[i]|
    ensures var g := RankEnum(axes, Keep(axes, chosen), size, offset)[i]; g[j] < g[k]
  {
    hide Prod, Ravel, Digit;
    var dims := Keep(axes, chosen);
    var rest := Drop(axes, NameSet(dims));
    var c, d := Position(rest, dims, size, i, j), Position(rest, dims, size, i, k);
    PositionOf(axes, dims, size, offset, i, j);
    PositionOf(axes, dims, size, offset, i, k);
    RavelOrder(dims, size, c, d);
    KeepSame(axes, chosen);
    LexLessKeep(axes, NameSet(dims), c, d);
    RavelOrder(axes, size, c, d);
  }

  lemma {:induction false} KeepSame(axes: seq<string>, chosen: set<string>)
    ensures Keep(axes, NameSet(Keep(axes, chosen))) == Keep(axes, chosen)
  {
    var dims := NameSet(Keep(axes, chosen));
    forall a | a in axes ensures a in dims <==> a in chosen {
    }
    KeepCongruent(axes, dims, chosen);
  }

  lemma {:induction false} KeepCongruent(axes: seq<string>, a: set<string>, b: set<string>)
    requires forall x :: x in axes ==> (x in a <==> x in b)
    ensures Keep(axes, a) == Keep(axes, b)
  {
    if axes != [] {
      assert axes[0] in axes;
      KeepCongruent(axes[1..], a, b);
    }
  }
}

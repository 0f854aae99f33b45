/** The HyperCommGrid object: process groups are created once per set of dimensions and found
    again under any listing of that set. A process group is represented by its enumeration. */
module CommGrid {
  import opened DimOrder
  import opened MixedRadix
  import opened RankGrid
  import opened Sequences
  import opened Sorting
  import opened Wrappers

  // ---------- "-".join is injective on axis names ----------

  ghost predicate HyphenFree(name: string) {
    '-' !in name
  }

  lemma HyphenInside(a: string, b: string, x: string, y: string)
    requires a + "-" + x == b + "-" + y && |a| < |b|
    ensures '-' in b
  {
    assert (a + "-" + x)[|a|] == '-';
    assert (b + "-" + y)[|a|] == b[|a|];
  }

  lemma PrefixBeforeHyphen(a: string, b: string, x: string, y: string)
    requires HyphenFree(a) && HyphenFree(b)
    requires a + "-" + x == b + "-" + y
    ensures a == b && x == y
  {
    if |a| < |b| {
      HyphenInside(a, b, x, y);
    } else if |b| < |a| {
      HyphenInside(b, a, y, x);
    } else {
      assert a == (a + "-" + x)[..|a|] && b == (b + "-" + y)[..|a|];
      assert x == (a + "-" + x)[|a| + 1..] && y == (b + "-" + y)[|a| + 1..];
    }
  }

  lemma NoHyphenInName(a: string, b: string, y: string)
    requires HyphenFree(a)
    ensures a != b + "-" + y
  {
    assert (b + "-" + y)[|b|] == '-';
  }

  lemma {:induction false} JoinInjective(a: seq<string>, b: seq<string>)
    requires a != [] && b != []
    requires forall k :: 0 <= k < |a| ==> HyphenFree(a[k])
    requires forall k :: 0 <= k < |b| ==> HyphenFree(b[k])
    requires Join(a) == Join(b)
    ensures a == b
  {
    if |a| == 1 && |b| == 1 {
    } else if |a| == 1 {
      NoHyphenInName(a[0], b[0], Join(b[1..]));
    } else if |b| == 1 {
      NoHyphenInName(b[0], a[0], Join(a[1..]));
    } else {
      PrefixBeforeHyphen(a[0], b[0], Join(a[1..]), Join(b[1..]));
      JoinInjective(a[1..], b[1..]);
      assert a == [a[0]] + a[1..] && b == [b[0]] + b[1..];
    }
  }

  // The keys of two sets of axes differ when the sets do.
  lemma KeysDiffer(axes: seq<string>, c: set<string>, d: set<string>)
    requires forall a :: a in axes ==> AxisName(a)
    requires c <= NameSet(axes) && d <= NameSet(axes) && c != {} && d != {}
    requires Join(Keep(axes, c)) == Join(Keep(axes, d))
    ensures c == d
  {
    var a :| a in c;
    var b :| b in d;
    assert a in Keep(axes, c) && b in Keep(axes, d);
    forall k | 0 <= k < |Keep(axes, c)| ensures HyphenFree(Keep(axes, c)[k]) {
      assert Keep(axes, c)[k] in axes;
    }
    forall k | 0 <= k < |Keep(axes, d)| ensures HyphenFree(Keep(axes, d)[k]) {
      assert Keep(axes, d)[k] in axes;
    }
    JoinInjective(Keep(axes, c), Keep(axes, d));
    forall x ensures x in c <==> x in d {
      assert x in Keep(axes, c) <==> x in c;
      assert x in Keep(axes, d) <==> x in d;
    }
  }

  // ---------- The grid object ----------

  function ShapeProduct(shape: seq<nat>): nat {
    if shape == [] then 1 else shape[0] * ShapeProduct(shape[1..])
  }

  // shape_dict = dict(zip(dim_names, shape))
  function SizeOf(dimNames: seq<string>, shape: seq<nat>): string -> nat
    requires |dimNames| == |shape|
  {
    (a: string) => if a in dimNames then shape[IndexOf(dimNames, a)] else 0
  }

  lemma {:induction false} IndexInPrefix(s: seq<string>, n: nat, a: string)
    requires n <= |s| && a in s[..n]
    ensures a in s && IndexOf(s, a) == IndexOf(s[..n], a) < n
  {
    assert s[..n][0] == s[0];
    if s[0] != a {
      assert s[..n][1..] == s[1..][..n - 1];
      IndexInPrefix(s[1..], n - 1, a);
    }
  }

  lemma {:induction false} ProdAgree(axes: seq<string>, size: string -> nat, other: string -> nat)
    requires Agree(axes, size, other)
    ensures Prod(axes, size) == Prod(axes, other)
  {
    if axes != [] {
      assert axes[0] in axes;
      ProdAgree(axes[1..], size, other);
    }
  }

  lemma {:induction false} ShapeProductLast(shape: seq<nat>)
    requires shape != []
    ensures ShapeProduct(shape) == shape[|shape| - 1] * ShapeProduct(shape[..|shape| - 1])
  {
    if |shape| > 1 {
      var n := |shape| - 1;
      ShapeProductLast(shape[1..]);
      assert shape[1..][..n - 1] == shape[..n][1..];
      Swap(shape[0], shape[n], ShapeProduct(shape[..n][1..]));
    }
  }

  lemma Swap(a: nat, b: nat, c: nat)
    ensures a * (b * c) == b * (a * c)
  {
  }

  // np.prod(shape) is the number of ranks the pattern enumerates.
  lemma {:induction false} SizeIsProduct(dimNames: seq<string>, shape: seq<nat>)
    requires |dimNames| == |shape| && Distinct(dimNames)
    ensures Prod(Reverse(dimNames), SizeOf(dimNames, shape)) == ShapeProduct(shape)
  {
    if dimNames != [] {
      var n := |dimNames| - 1;
      var names, rest := dimNames[..n], shape[..n];
      SizeIsProduct(names, rest);
      forall a | a in Reverse(names) ensures SizeOf(dimNames, shape)(a) == SizeOf(names, rest)(a) {
        ReverseDistinct(names);
        IndexInPrefix(dimNames, n, a);
      }
      ProdAgree(Reverse(names), SizeOf(dimNames, shape), SizeOf(names, rest));
      ShapeProductLast(shape);
      assert IndexOf(dimNames, dimNames[n]) == n;
      assert Reverse(dimNames)[1..] == Reverse(names);
    }
  }

  ghost predicate Increasing(g: seq<nat>) {
    forall j, k :: 0 <= j < k < |g| ==> g[j] < g[k]
  }

  predicate Acceptable(axes: seq<string>, dims: seq<string>) {
    && (forall i, j :: 0 <= i < j < |axes| ==> axes[i] != axes[j])
    && (forall i, j :: 0 <= i < j < |dims| ==> dims[i] != dims[j])
    && (forall k :: 0 <= k < |axes| ==> AxisName(axes[k]))
    && (forall k :: 0 <= k < |dims| ==> dims[k] in axes)
  }

  class HyperCommGrid {
    const shape: seq<nat>
    const dimNames: seq<string>
    const rankOffset: nat
    const size: nat
    var pgs: map<string, seq<seq<nat>>>
    // The sets of dimensions for which groups exist.
    ghost var created: set<set<string>>

    ghost function Axes(): seq<string> {
      Reverse(dimNames)
    }

    ghost function Enum(chosen: set<string>): seq<seq<nat>>
      requires |dimNames| == |shape|
    {
      RankEnum(Axes(), Keep(Axes(), chosen), SizeOf(dimNames, shape), rankOffset)
    }

    // Exactly the created sets have a stored enumeration, each under its own key.
    ghost predicate Consistent(created: set<set<string>>, pgs: map<string, seq<seq<nat>>>)
      requires |dimNames| == |shape|
    {
      && (created != {} ==> GoodNames())
      && (forall c :: c in created ==> c != {} && c <= NameSet(Axes()))
      && (forall c :: c in created ==> var key := Join(Keep(Axes(), c)); key in pgs && pgs[key] == Enum(c))
      && (forall key :: key in pgs ==> exists c :: c in created && key == Join(Keep(Axes(), c)))
    }

    ghost predicate Valid()
      reads this
    {
      |dimNames| == |shape| && size == ShapeProduct(shape) && Consistent(created, pgs)
    }

    constructor (shape: seq<nat>, dimNames: seq<string>, rankOffset: nat)
      requires |shape| == |dimNames|
      ensures Valid() && created == {} && pgs == map[]
      ensures this.shape == shape && this.dimNames == dimNames && this.rankOffset == rankOffset
    {
      this.shape, this.dimNames, this.rankOffset := shape, dimNames, rankOffset;
      size := ShapeProduct(shape);
      pgs, created := map[], {};
    }

    // __init__ with its three checks.
    static method Create(shape: seq<nat>, dimNames: seq<string>, rankOffset: int, worldSize: int)
      returns (r: Result<HyperCommGrid, GridError>)
      ensures r.Ok? <==> |shape| == |dimNames| && rankOffset >= 0 && rankOffset + ShapeProduct(shape) <= worldSize
      ensures r.Ok? ==> fresh(r.value) && r.value.Valid() && r.value.created == {}
                        && r.value.shape == shape && r.value.dimNames == dimNames && r.value.rankOffset == rankOffset
    {
      if |shape| != |dimNames| {
        return Err(ShapeMismatch);
      }
      if rankOffset < 0 {
        return Err(NegativeOffset);
      }
      if ShapeProduct(shape) > worldSize - rankOffset {
        return Err(Oversized);
      }
      var grid := new HyperCommGrid(shape, dimNames, rankOffset);
      return Ok(grid);
    }

    // A well-formed request names existing dimensions, each once.
    ghost predicate WellFormed(dims: Dims) {
      && Requested(dims) <= NameSet(Axes())
      && (dims.Many? ==> dims.names != [] && Distinct(dims.names))
    }

    ghost predicate GoodNames() {
      Distinct(Axes()) && forall a :: a in Axes() ==> AxisName(a)
    }

    method CreatePg(dims: Dims) returns (r: Result<seq<seq<nat>>, GridError>)
      requires Valid()
      modifies this
      ensures Valid()
      ensures r.Err? ==> created == old(created) && pgs == old(pgs)
      ensures r.Ok? ==> GoodNames() && WellFormed(dims)
      ensures r.Ok? ==> r.value == Enum(Requested(dims)) && created == old(created) + {Requested(dims)}
      ensures GoodNames() && WellFormed(dims) ==>
                if Requested(dims) in old(created) then r == Err(AlreadyCreated) else r.Ok?
    {
      var axes := Reverse(dimNames);
      CreateOutcome(dims);
      var ordered := OrderDims(axes, dims);
      if ordered.Err? {
        return Err(ordered.error);
      }
      if ordered.value.1 in pgs {
        return Err(AlreadyCreated);
      }
      if !Acceptable(axes, ordered.value.0) {
        return Err(BadPattern);
      }
      var rankEnum := RankEnum(axes, ordered.value.0, SizeOf(dimNames, shape), rankOffset);
      StillConsistent(Requested(dims), ordered.value.1, created, pgs);
      pgs := pgs[ordered.value.1 := rankEnum];
      created := created + {Requested(dims)};
      return Ok(rankEnum);
    }

    // What each branch of create_pg amounts to.
    lemma CreateOutcome(dims: Dims)
      requires Valid()
      ensures |dimNames| == |shape| && Axes() == Reverse(dimNames)
      ensures var o := OrderDims(Reverse(dimNames), dims);
              var good := GoodNames() && WellFormed(dims);
              && (o.Err? ==> !good && o.error != AlreadyCreated)
              && (o.Ok? && good ==> o.value.1 == Join(Keep(Axes(), Requested(dims))) && Requested(dims) != {})
              && (o.Ok? && good ==> (o.value.1 in pgs <==> Requested(dims) in created))
              && (o.Ok? ==> (Acceptable(Reverse(dimNames), o.value.0) <==> good))
              && (o.Ok? && good ==>
                    RankEnum(Reverse(dimNames), o.value.0, SizeOf(dimNames, shape), rankOffset)
                    == Enum(Requested(dims)))
    {
      var o := OrderDims(Reverse(dimNames), dims);
      if GoodNames() && WellFormed(dims) {
        RequestKey(dims);
        StoredIff(Requested(dims));
        GoodIsAcceptable(dims);
      } else if o.Ok? && Acceptable(Axes(), o.value.0) {
        AcceptedRequest(dims);
      }
    }

    lemma GoodIsAcceptable(dims: Dims)
      requires GoodNames()
      ensures Acceptable(Axes(), Keep(Axes(), Requested(dims)))
    {
      KeepDistinct(Axes(), Requested(dims));
      forall k | 0 <= k < |Axes()| ensures AxisName(Axes()[k]) {
        assert Axes()[k] in Axes();
      }
      forall k | 0 <= k < |Keep(Axes(), Requested(dims))| ensures Keep(Axes(), Requested(dims))[k] in Axes() {
        assert Keep(Axes(), Requested(dims))[k] in Keep(Axes(), Requested(dims));
      }
    }

    method GetPg(dims: Dims) returns (r: Result<seq<seq<nat>>, GridError>)
      requires Valid()
      ensures GoodNames() && WellFormed(dims) ==>
                r == if Requested(dims) in created then Ok(Enum(Requested(dims))) else Err(NotCreated)
      ensures r.Ok? ==> exists c :: c in created && r.value == Enum(c)
    {
      if GoodNames() && WellFormed(dims) {
        RequestKey(dims);
        StoredIff(Requested(dims));
      }
      match OrderDims(Reverse(dimNames), dims) {
        case Err(e) =>
          return Err(e);
        case Ok(ordered) =>
          if ordered.1 !in pgs {
            return Err(NotCreated);
          }
          return Ok(pgs[ordered.1]);
      }
    }

    lemma RequestKey(dims: Dims)
      requires Distinct(Axes()) && WellFormed(dims)
      ensures var kept := Keep(Axes(), Requested(dims)); OrderDims(Axes(), dims) == Ok((kept, Join(kept)))
      ensures Requested(dims) != {}
    {
      OrderDimsIsAxisOrder(Axes(), dims);
      match dims {
        case One(name) => assert name in Requested(dims);
        case Many(names) => assert names[0] in Requested(dims);
      }
    }

    // A set of dimensions has a stored group exactly when one was created for it.
    lemma StoredIff(chosen: set<string>)
      requires Valid() && GoodNames() && chosen != {} && chosen <= NameSet(Axes())
      ensures chosen in created <==> Join(Keep(Axes(), chosen)) in pgs
      ensures chosen in created ==> pgs[Join(Keep(Axes(), chosen))] == Enum(chosen)
    {
      var key := Join(Keep(Axes(), chosen));
      if key in pgs {
        var c :| c in created && key == Join(Keep(Axes(), c));
        KeysDiffer(Axes(), c, chosen);
      }
    }

    // What einops accepts is a well-formed request over good names.
    lemma AcceptedRequest(dims: Dims)
      requires OrderDims(Axes(), dims).Ok? && Acceptable(Axes(), OrderDims(Axes(), dims).value.0)
      ensures GoodNames() && WellFormed(dims)
    {
      forall a | a in Axes() ensures AxisName(a) {
        var k :| 0 <= k < |Axes()| && Axes()[k] == a;
      }
      match dims {
        case One(name) =>
          assert OrderDims(Axes(), dims).value.0[0] == name;
        case Many(names) =>
          assert forall k :: 0 <= k < |names| ==> names[k] in Axes();
          SelectDistinct(Axes(), names);
      }
    }

    // The groups create_pg makes partition [rank_offset, rank_offset + size) into increasing lists.
    lemma CreatedGroups(chosen: set<string>)
      requires |dimNames| == |shape| && Distinct(dimNames) && GoodNames()
      ensures var e := Enum(chosen);
              && (forall r: nat :: rankOffset <= r < rankOffset + ShapeProduct(shape) <==> InSomeGroup(e, r))
              && (forall i, k, r :: 0 <= i < |e| && 0 <= k < |e| && r in e[i] && r in e[k] ==> i == k)
              && (forall i :: 0 <= i < |e| ==> Increasing(e[i]))
    {
      var axes, size, dims := Axes(), SizeOf(dimNames, shape), Keep(Axes(), chosen);
      KeepDistinct(axes, chosen);
      SizeIsProduct(dimNames, shape);
      GroupsPartitionTheGrid(axes, dims, size, rankOffset);
      hide Prod, Ravel, Digit, RankAt;
      forall r: nat ensures rankOffset <= r < rankOffset + ShapeProduct(shape) <==> InSomeGroup(Enum(chosen), r) {
        assert InGrid(axes, size, rankOffset, r) <==> InSomeGroup(Enum(chosen), r);
      }
      forall i, j, k | 0 <= i < |Enum(chosen)| && 0 <= j < k < |Enum(chosen)[i]|
        ensures Enum(chosen)[i][j] < Enum(chosen)[i][k]
      {
        OrderedGroupsIncrease(axes, chosen, size, rankOffset, i, j, k);
      }
    }

    lemma StillConsistent(chosen: set<string>, key: string, created: set<set<string>>, pgs: map<string, seq<seq<nat>>>)
      requires |dimNames| == |shape| && Consistent(created, pgs)
      requires GoodNames() && chosen != {} && chosen <= NameSet(Axes())
      requires key == Join(Keep(Axes(), chosen)) && key !in pgs
      ensures Consistent(created + {chosen}, pgs[key := Enum(chosen)])
    {
      hide RankEnum, Keep, Join, SizeOf, Prod, Reverse, AxisName;
      var pgs' := pgs[key := Enum(chosen)];
      forall k | k in pgs' ensures exists c :: c in created + {chosen} && k == Join(Keep(Axes(), c)) {
        if k in pgs {
          var c :| c in created && k == Join(Keep(Axes(), c));
          assert c in created + {chosen};
        } else {
          assert chosen in created + {chosen};
        }
      }
    }
  }

  // Duplicates in the request survive ordering.
  lemma SelectDistinct(axes: seq<string>, names: seq<string>)
    requires forall a :: a in names ==> a in axes
    requires OrderDims(axes, Many(names)).Ok? && Distinct(OrderDims(axes, Many(names)).value.0)
    ensures names != [] && Distinct(names)
  {
    var indices := Indices(axes, names);
    IndicesInRange(axes, names);
    var sorted := Sort(indices);
    var ordered := Select(axes, sorted);
    forall p, q | 0 <= p < q < |sorted| ensures sorted[p] != sorted[q] {
      assert ordered[p] != ordered[q];
    }
    SortPermutes(Id(), indices);
    DistinctCounts(sorted);
    forall i, j | 0 <= i < j < |names| ensures names[i] != names[j] {
      if indices[i] == indices[j] {
        TwiceCounted(indices, i, j);
      }
    }
  }
}

/** HyperCommGrid._order_dims: requested dimensions, in the order of the reversed dim_names. */
module DimOrder {
  import opened MixedRadix
  import opened Sequences
  import opened Sorting
  import opened Wrappers

  datatype Dims = One(name: string) | Many(names: seq<string>)

  datatype GridError =
    | ShapeMismatch | NegativeOffset | Oversized
    | UnknownDim | NoDims | BadPattern | AlreadyCreated | NotCreated

  lemma ReverseDistinct(s: seq<string>)
    requires Distinct(s)
    ensures Distinct(Reverse(s)) && forall a :: a in Reverse(s) <==> a in s
  {
    var r := Reverse(s);
    forall a ensures a in r <==> a in s {
      if a in s {
        var k :| 0 <= k < |s| && s[k] == a;
        assert r[|s| - 1 - k] == a;
      }
    }
  }

  // ---------- _order_dims ----------

  function IndexOf(s: seq<string>, a: string): (k: nat)
    requires a in s
    ensures k < |s| && s[k] == a
  {
    if s[0] == a then 0 else 1 + IndexOf(s[1..], a)
  }

  function Id(): nat -> int {
    (x: nat) => x
  }

  function Sort(s: seq<nat>): seq<nat> {
    SortBy(Id(), s)
  }

  function Indices(axes: seq<string>, names: seq<string>): (r: seq<nat>)
    requires forall a :: a in names ==> a in axes
    ensures |r| == |names| && forall k :: 0 <= k < |r| ==> r[k] == IndexOf(axes, names[k])
  {
    if names == [] then [] else [IndexOf(axes, names[0])] + Indices(axes, names[1..])
  }

  // itemgetter(*indices)
  function Select(axes: seq<string>, indices: seq<nat>): (r: seq<string>)
    requires forall k :: 0 <= k < |indices| ==> indices[k] < |axes|
    ensures |r| == |indices| && forall k :: 0 <= k < |indices| ==> r[k] == axes[indices[k]]
  {
    if indices == [] then [] else [axes[indices[0]]] + Select(axes, indices[1..])
  }

  function Join(names: seq<string>): string {
    if names == [] then "" else if |names| == 1 then names[0] else names[0] + "-" + Join(names[1..])
  }

  lemma SortMembers(s: seq<nat>)
    ensures forall k :: k in Sort(s) <==> k in s
  {
    hide SortBy;
    forall k: nat {
      SortMember(Id(), s, k);
    }
  }

  lemma IndicesInRange(axes: seq<string>, names: seq<string>)
    requires forall a :: a in names ==> a in axes
    ensures forall k :: 0 <= k < |Sort(Indices(axes, names))| ==> Sort(Indices(axes, names))[k] < |axes|
  {
    var indices := Indices(axes, names);
    SortMembers(indices);
    forall k | 0 <= k < |Sort(indices)| ensures Sort(indices)[k] < |axes| {
      assert Sort(indices)[k] in indices;
    }
  }

  // The ordered dims and the key they are stored under.
  function OrderDims(axes: seq<string>, dims: Dims): Result<(seq<string>, string), GridError> {
    match dims
    case One(name) => Ok(([name], Join([name])))
    case Many(names) =>
      if exists k :: 0 <= k < |names| && names[k] !in axes then Err(UnknownDim)
      else if names == [] then Err(NoDims)
      else
        assert forall a :: a in names ==> a in axes;
        IndicesInRange(axes, names);
        var ordered := Select(axes, Sort(Indices(axes, names)));
        Ok((ordered, Join(ordered)))
  }

  ghost predicate Rising(s: seq<nat>) {
    forall i, j :: 0 <= i < j < |s| ==> s[i] < s[j]
  }

  lemma SortRising(s: seq<nat>)
    requires Distinct(s)
    ensures Rising(Sort(s))
  {
    hide SortBy;
    SortAscends(Id(), s);
    SortPermutes(Id(), s);
    var sorted := Sort(s);
    forall i, j | 0 <= i < j < |sorted| ensures sorted[i] < sorted[j] {
      assert Id()(sorted[i]) <= Id()(sorted[j]);
      if sorted[i] == sorted[j] {
        DistinctCounts(s);
        TwiceCounted(sorted, i, j);
      }
    }
  }

  // A rising list of exactly the positions whose axis is in dims, from position p on.
  ghost predicate Positions(axes: seq<string>, dims: set<string>, p: nat, s: seq<nat>) {
    && Rising(s)
    && (forall k :: 0 <= k < |s| ==> p <= s[k] < |axes| && axes[s[k]] in dims)
    && (forall q :: p <= q < |axes| && axes[q] in dims ==> q in s)
  }

  // Such a list selects exactly Keep(axes, dims).
  lemma {:induction false} SelectIsKeep(axes: seq<string>, dims: set<string>, p: nat, s: seq<nat>)
    requires p <= |axes| && Positions(axes, dims, p, s)
    ensures Select(axes, s) == Keep(axes[p..], dims)
    decreases |axes| - p
  {
    if p < |axes| {
      assert axes[p..][1..] == axes[p + 1..];
      if axes[p] in dims {
        var i :| 0 <= i < |s| && s[i] == p;
        assert s[0] <= s[i];
        NextPositions(axes, dims, p, s);
        SelectIsKeep(axes, dims, p + 1, s[1..]);
      } else {
        forall k | 0 <= k < |s| ensures p + 1 <= s[k] {
          assert s[k] != p;
        }
        SelectIsKeep(axes, dims, p + 1, s);
      }
    }
  }

  lemma NextPositions(axes: seq<string>, dims: set<string>, p: nat, s: seq<nat>)
    requires p < |axes| && Positions(axes, dims, p, s)
    requires s != [] && s[0] == p
    ensures Positions(axes, dims, p + 1, s[1..])
  {
    forall q | p + 1 <= q < |axes| && axes[q] in dims ensures q in s[1..] {
      var i :| 0 <= i < |s| && s[i] == q;
      assert s[1..][i - 1] == q;
    }
  }

  function NameSet(names: seq<string>): set<string> {
    set a | a in names
  }

  function Requested(dims: Dims): set<string> {
    match dims
    case One(name) => {name}
    case Many(names) => NameSet(names)
  }

  // In whatever order the caller lists existing dims, they come out in the order of the axes.
  lemma OrderDimsIsAxisOrder(axes: seq<string>, dims: Dims)
    requires Distinct(axes) && Requested(dims) <= NameSet(axes)
    requires dims.Many? ==> dims.names != [] && Distinct(dims.names)
    ensures var kept := Keep(axes, Requested(dims));
            OrderDims(axes, dims) == Ok((kept, Join(kept)))
  {
    match dims {
      case One(name) =>
        KeepOne(axes, name);
      case Many(names) =>
        assert forall k :: 0 <= k < |names| ==> names[k] in Requested(dims);
        OrderManyIsAxisOrder(axes, names);
    }
  }

  lemma OrderManyIsAxisOrder(axes: seq<string>, names: seq<string>)
    requires Distinct(axes) && Distinct(names) && names != []
    requires forall k :: 0 <= k < |names| ==> names[k] in axes
    ensures var kept := Keep(axes, NameSet(names));
            OrderDims(axes, Many(names)) == Ok((kept, Join(kept)))
  {
    SortedPositions(axes, names);
    IndicesInRange(axes, names);
    SelectIsKeep(axes, NameSet(names), 0, Sort(Indices(axes, names)));
    assert axes[0..] == axes;
  }

  lemma SortedPositions(axes: seq<string>, names: seq<string>)
    requires Distinct(axes) && Distinct(names) && forall a :: a in names ==> a in axes
    ensures Positions(axes, NameSet(names), 0, Sort(Indices(axes, names)))
  {
    var indices := Indices(axes, names);
    SortRising(indices);
    SortMembers(indices);
    forall k | 0 <= k < |Sort(indices)| ensures Sort(indices)[k] < |axes| && axes[Sort(indices)[k]] in NameSet(names) {
      assert Sort(indices)[k] in indices;
      var i :| 0 <= i < |indices| && indices[i] == Sort(indices)[k];
      assert names[i] in names;
    }
    forall q | 0 <= q < |axes| && axes[q] in NameSet(names) ensures q in Sort(indices) {
      var i :| 0 <= i < |names| && names[i] == axes[q];
      assert indices[i] == q;
    }
  }

  lemma {:induction false} KeepOne(axes: seq<string>, name: string)
    requires Distinct(axes) && name in axes
    ensures Keep(axes, {name}) == [name]
  {
    if axes[0] == name {
      KeepNone(axes[1..], name);
    } else {
      KeepOne(axes[1..], name);
    }
  }

  lemma {:induction false} KeepNone(axes: seq<string>, name: string)
    requires name !in axes
    ensures Keep(axes, {name}) == []
  {
    if axes != [] {
      KeepNone(axes[1..], name);
    }
  }
}

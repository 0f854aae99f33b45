/** The numbering of the rank grid in terms of its shape: the first named dimension varies fastest. */
module GridStrides {
  import opened CommGrid
  import opened MixedRadix
  import opened RankGrid
  import opened Sequences

  // The number of the rank whose coordinates are listed in the order of the shape.
  function Flat(shape: seq<nat>, coordinates: seq<nat>): nat
    requires |shape| == |coordinates|
  {
    if shape == [] then 0 else coordinates[0] + shape[0] * Flat(shape[1..], coordinates[1..])
  }

  function Coordinates(dimNames: seq<string>, c: string -> nat): (r: seq<nat>)
    ensures |r| == |dimNames| && forall k :: 0 <= k < |r| ==> r[k] == c(dimNames[k])
  {
    if dimNames == [] then [] else [c(dimNames[0])] + Coordinates(dimNames[1..], c)
  }

  // A dimension has the size the shape gives it.
  lemma {:induction false} SizeAt(dimNames: seq<string>, shape: seq<nat>, k: nat)
    requires |dimNames| == |shape| && Distinct(dimNames) && k < |shape|
    ensures SizeOf(dimNames, shape)(dimNames[k]) == shape[k]
  {
    if k > 0 {
      SizeAt(dimNames[1..], shape[1..], k - 1);
      assert dimNames[1..][k - 1] == dimNames[k] && dimNames[0] != dimNames[k];
    }
  }

  lemma {:induction false} FlatLast(shape: seq<nat>, coordinates: seq<nat>, size: nat, c: nat)
    requires |shape| == |coordinates|
    ensures Flat(shape + [size], coordinates + [c]) == Flat(shape, coordinates) + c * ShapeProduct(shape)
  {
    if shape == [] {
      assert shape + [size] == [size] && coordinates + [c] == [c];
      assert Flat([size][1..], [c][1..]) == 0;
    } else {
      assert (shape + [size])[1..] == shape[1..] + [size] && (coordinates + [c])[1..] == coordinates[1..] + [c];
      FlatLast(shape[1..], coordinates[1..], size, c);
      Spread(shape[0], Flat(shape[1..], coordinates[1..]), c, ShapeProduct(shape[1..]));
    }
  }

  lemma Spread(s: nat, x: nat, c: nat, p: nat)
    ensures s * (x + c * p) == s * x + c * (s * p)
  {
  }

  lemma {:induction false} RavelSizes(axes: seq<string>, size: string -> nat, other: string -> nat, c: string -> nat)
    requires Agree(axes, size, other)
    ensures Ravel(axes, size, c) == Ravel(axes, other, c)
  {
    if axes != [] {
      assert axes[0] in axes;
      ProdAgree(axes[1..], size, other);
      RavelSizes(axes[1..], size, other, c);
    }
  }

  lemma SizeOfPrefix(dimNames: seq<string>, shape: seq<nat>)
    requires |dimNames| == |shape| > 0
    ensures var n := |shape| - 1;
            Agree(Reverse(dimNames[..n]), SizeOf(dimNames, shape), SizeOf(dimNames[..n], shape[..n]))
  {
    var n := |shape| - 1;
    var names, rest := dimNames[..n], shape[..n];
    forall a | a in Reverse(names) ensures SizeOf(dimNames, shape)(a) == SizeOf(names, rest)(a) {
      var k :| 0 <= k < |Reverse(names)| && Reverse(names)[k] == a;
      assert a == names[n - 1 - k] && a in names;
      IndexInPrefix(dimNames, n, a);
    }
  }

  lemma ReverseLast(dimNames: seq<string>)
    requires dimNames != []
    ensures Reverse(dimNames) == [dimNames[|dimNames| - 1]] + Reverse(dimNames[..|dimNames| - 1])
  {
  }

  lemma RavelFirst(first: string, rest: seq<string>, size: string -> nat, c: string -> nat)
    ensures Ravel([first] + rest, size, c) == c(first) * Prod(rest, size) + Ravel(rest, size, c)
  {
    assert ([first] + rest)[1..] == rest;
  }

  lemma CoordinatesLast(names: seq<string>, last: string, c: string -> nat)
    ensures Coordinates(names + [last], c) == Coordinates(names, c) + [c(last)]
  {
    hide Coordinates;
  }

  lemma NoDims(dimNames: seq<string>, shape: seq<nat>, c: string -> nat)
    requires dimNames == [] && shape == []
    ensures Ravel(Reverse(dimNames), SizeOf(dimNames, shape), c) == 0 == Flat(shape, Coordinates(dimNames, c))
  {
  }

  // The reversed names without the first one have the sizes of the shape without its last entry.
  lemma PrefixRavel(dimNames: seq<string>, shape: seq<nat>, c: string -> nat)
    requires |dimNames| == |shape| > 0 && Distinct(dimNames)
    ensures var n := |shape| - 1;
            var names, rest := dimNames[..n], shape[..n];
            && Prod(Reverse(names), SizeOf(dimNames, shape)) == ShapeProduct(rest)
            && Ravel(Reverse(names), SizeOf(dimNames, shape), c) == Ravel(Reverse(names), SizeOf(names, rest), c)
  {
    hide SizeOf, Ravel, Prod, Reverse, ShapeProduct;
    var n := |shape| - 1;
    var names, rest := dimNames[..n], shape[..n];
    SizeOfPrefix(dimNames, shape);
    RavelSizes(Reverse(names), SizeOf(dimNames, shape), SizeOf(names, rest), c);
    ProdAgree(Reverse(names), SizeOf(dimNames, shape), SizeOf(names, rest));
    SizeIsProduct(names, rest);
  }

  // The flat index of the reversed dimensions is the one above, on the shape as it was given.
  lemma {:induction false} RankIsStrideSum(dimNames: seq<string>, shape: seq<nat>, c: string -> nat)
    requires |dimNames| == |shape| && Distinct(dimNames)
    ensures Ravel(Reverse(dimNames), SizeOf(dimNames, shape), c) == Flat(shape, Coordinates(dimNames, c))
    decreases |dimNames|
  {
    hide SizeOf, Ravel, Prod, Flat, Coordinates, Reverse, ShapeProduct;
    if dimNames == [] {
      NoDims(dimNames, shape, c);
    } else {
      var n := |dimNames| - 1;
      var names, rest, last := dimNames[..n], shape[..n], dimNames[n];
      RankIsStrideSum(names, rest, c);
      PrefixRavel(dimNames, shape, c);
      ReverseLast(dimNames);
      RavelFirst(last, Reverse(names), SizeOf(dimNames, shape), c);
      FlatLast(rest, Coordinates(names, c), shape[n], c(last));
      CoordinatesLast(names, last, c);
      assert dimNames == names + [last] && shape == rest + [shape[n]];
    }
  }

  // The product of the sizes of the chosen dimensions.
  function ChosenProduct(dimNames: seq<string>, shape: seq<nat>, chosen: set<string>): nat
    requires |dimNames| == |shape|
  {
    if shape == [] then 1
    else
      var n := |shape| - 1;
      (if dimNames[n] in chosen then shape[n] else 1) * ChosenProduct(dimNames[..n], shape[..n], chosen)
  }

  lemma {:induction false} KeepSizes(axes: seq<string>, chosen: set<string>, size: string -> nat, other: string -> nat)
    requires Agree(axes, size, other)
    ensures Prod(Keep(axes, chosen), size) == Prod(Keep(axes, chosen), other)
  {
    ProdAgree(Keep(axes, chosen), size, other);
  }

  lemma ProdKeepFirst(first: string, rest: seq<string>, chosen: set<string>, size: string -> nat)
    ensures Prod(Keep([first] + rest, chosen), size)
            == (if first in chosen then size(first) else 1) * Prod(Keep(rest, chosen), size)
  {
    assert ([first] + rest)[1..] == rest;
    if first in chosen {
      assert ([first] + Keep(rest, chosen))[1..] == Keep(rest, chosen);
    } else {
      assert [] + Keep(rest, chosen) == Keep(rest, chosen);
    }
  }

  lemma {:induction false} SizesMultiply(dimNames: seq<string>, shape: seq<nat>, chosen: set<string>)
    requires |dimNames| == |shape| && Distinct(dimNames)
    ensures Prod(Keep(Reverse(dimNames), chosen), SizeOf(dimNames, shape)) == ChosenProduct(dimNames, shape, chosen)
    decreases |dimNames|
  {
    if dimNames != [] {
      hide SizeOf, Prod, Keep, Reverse;
      var n := |dimNames| - 1;
      var names, rest := dimNames[..n], shape[..n];
      SizesMultiply(names, rest, chosen);
      SizeOfPrefix(dimNames, shape);
      KeepSizes(Reverse(names), chosen, SizeOf(dimNames, shape), SizeOf(names, rest));
      SizeAt(dimNames, shape, n);
      ReverseLast(dimNames);
      ProdKeepFirst(dimNames[n], Reverse(names), chosen, SizeOf(dimNames, shape));
    }
  }

  // Every group of a created set has as many ranks as the chosen dimensions span.
  lemma GroupSize(dimNames: seq<string>, shape: seq<nat>, chosen: set<string>, offset: nat, i: nat)
    requires |dimNames| == |shape| && Distinct(dimNames)
    requires i < |RankEnum(Reverse(dimNames), Keep(Reverse(dimNames), chosen), SizeOf(dimNames, shape), offset)|
    ensures |RankEnum(Reverse(dimNames), Keep(Reverse(dimNames), chosen), SizeOf(dimNames, shape), offset)[i]|
            == ChosenProduct(dimNames, shape, chosen)
  {
    SizesMultiply(dimNames, shape, chosen);
  }
}

/** Mixed-radix numbering of a hyperrectangle: row-major flattening of named axes, as einops
    composes "(a b c)", and its inverse. */
module MixedRadix {
  import opened Arithmetic
  import opened Sequences

  ghost predicate Within(axes: seq<string>, size: string -> nat, c: string -> nat) {
    forall a :: a in axes ==> c(a) < size(a)
  }

  ghost predicate Agree(axes: seq<string>, c: string -> nat, d: string -> nat) {
    forall a :: a in axes ==> c(a) == d(a)
  }

  function Prod(axes: seq<string>, size: string -> nat): nat {
    if axes == [] then 1 else size(axes[0]) * Prod(axes[1..], size)
  }

  // The flat index of a coordinate; the last axis varies fastest.
  function Ravel(axes: seq<string>, size: string -> nat, c: string -> nat): nat {
    if axes == [] then 0 else c(axes[0]) * Prod(axes[1..], size) + Ravel(axes[1..], size, c)
  }

  // The coordinate of axis a in the flat index n.
  function Digit(axes: seq<string>, size: string -> nat, n: nat, a: string): nat {
    if axes == [] then 0
    else
      var p := Prod(axes[1..], size);
      if p == 0 then 0
      else if a == axes[0] then n / p
      else Digit(axes[1..], size, n % p, a)
  }

  function Digits(axes: seq<string>, size: string -> nat, n: nat): string -> nat {
    (a: string) => Digit(axes, size, n, a)
  }

  lemma {:induction false} RavelBound(axes: seq<string>, size: string -> nat, c: string -> nat)
    requires Within(axes, size, c)
    ensures Ravel(axes, size, c) < Prod(axes, size)
  {
    if axes != [] {
      RavelBound(axes[1..], size, c);
      assert axes[0] in axes;
      MulBound(c(axes[0]), size(axes[0]), Prod(axes[1..], size), Ravel(axes[1..], size, c));
    }
  }

  lemma {:induction false} RavelAgree(axes: seq<string>, size: string -> nat, c: string -> nat, d: string -> nat)
    requires Agree(axes, c, d)
    ensures Ravel(axes, size, c) == Ravel(axes, size, d)
  {
    if axes != [] {
      assert axes[0] in axes;
      RavelAgree(axes[1..], size, c, d);
    }
  }

  lemma {:induction false} DigitBound(axes: seq<string>, size: string -> nat, n: nat, a: string)
    requires n < Prod(axes, size) && a in axes
    ensures Digit(axes, size, n, a) < size(a)
  {
    var p := Prod(axes[1..], size);
    DivBound(n, size(axes[0]), p);
    if a != axes[0] {
      DigitBound(axes[1..], size, n % p, a);
    }
  }

  lemma DigitsWithin(axes: seq<string>, size: string -> nat, n: nat)
    requires n < Prod(axes, size)
    ensures Within(axes, size, Digits(axes, size, n))
  {
    forall a | a in axes ensures Digit(axes, size, n, a) < size(a) {
      DigitBound(axes, size, n, a);
    }
  }

  // Reading a coordinate back from the flat index.
  lemma {:induction false} DigitOfRavel(axes: seq<string>, size: string -> nat, c: string -> nat, a: string)
    requires Distinct(axes) && Within(axes, size, c) && a in axes
    ensures Digit(axes, size, Ravel(axes, size, c), a) == c(a)
  {
    RavelBound(axes[1..], size, c);
    DivMod(c(axes[0]), Prod(axes[1..], size), Ravel(axes[1..], size, c));
    if a != axes[0] {
      DigitOfRavel(axes[1..], size, c, a);
    }
  }

  // Flattening the coordinates of a flat index.
  lemma {:induction false} RavelOfDigits(axes: seq<string>, size: string -> nat, n: nat)
    requires Distinct(axes) && n < Prod(axes, size)
    ensures Ravel(axes, size, Digits(axes, size, n)) == n
  {
    if axes != [] {
      var p := Prod(axes[1..], size);
      DivBound(n, size(axes[0]), p);
      RavelOfDigits(axes[1..], size, n % p);
      forall a | a in axes[1..] ensures Digit(axes, size, n, a) == Digit(axes[1..], size, n % p, a) {
      }
      RavelAgree(axes[1..], size, Digits(axes, size, n), Digits(axes[1..], size, n % p));
      assert n == (n / p) * p + n % p;
    }
  }

  // Coordinates inside the grid are determined by their flat index.
  lemma RavelInjective(axes: seq<string>, size: string -> nat, c: string -> nat, d: string -> nat)
    requires Distinct(axes) && Within(axes, size, c) && Within(axes, size, d)
    ensures Ravel(axes, size, c) == Ravel(axes, size, d) <==> Agree(axes, c, d)
  {
    if Agree(axes, c, d) {
      RavelAgree(axes, size, c, d);
    } else if Ravel(axes, size, c) == Ravel(axes, size, d) {
      forall a | a in axes ensures c(a) == d(a) {
        DigitOfRavel(axes, size, c, a);
        DigitOfRavel(axes, size, d, a);
      }
    }
  }

  // ---------- Order ----------

  ghost predicate LexLess(axes: seq<string>, c: string -> nat, d: string -> nat) {
    axes != [] && (c(axes[0]) < d(axes[0]) || (c(axes[0]) == d(axes[0]) && LexLess(axes[1..], c, d)))
  }

  lemma {:induction false} RavelOrder(axes: seq<string>, size: string -> nat, c: string -> nat, d: string -> nat)
    requires Within(axes, size, c) && Within(axes, size, d)
    ensures Ravel(axes, size, c) < Ravel(axes, size, d) <==> LexLess(axes, c, d)
  {
    if axes != [] {
      var p := Prod(axes[1..], size);
      RavelBound(axes[1..], size, c);
      RavelBound(axes[1..], size, d);
      RavelOrder(axes[1..], size, c, d);
      if c(axes[0]) < d(axes[0]) {
        MulBound(c(axes[0]), d(axes[0]), p, Ravel(axes[1..], size, c));
      } else if d(axes[0]) < c(axes[0]) {
        MulBound(d(axes[0]), c(axes[0]), p, Ravel(axes[1..], size, d));
      }
    }
  }

  function Keep(axes: seq<string>, dims: set<string>): (r: seq<string>)
    ensures forall a :: a in r <==> a in axes && a in dims
  {
    if axes == [] then []
    else (if axes[0] in dims then [axes[0]] else []) + Keep(axes[1..], dims)
  }

  function Drop(axes: seq<string>, dims: set<string>): (r: seq<string>)
    ensures forall a :: a in r <==> a in axes && a !in dims
  {
    if axes == [] then []
    else (if axes[0] in dims then [] else [axes[0]]) + Drop(axes[1..], dims)
  }

  // Coordinates that agree outside dims compare by dims alone, taken in axis order.
  lemma {:induction false} LexLessKeep(axes: seq<string>, dims: set<string>, c: string -> nat, d: string -> nat)
    requires Agree(Drop(axes, dims), c, d)
    ensures LexLess(axes, c, d) <==> LexLess(Keep(axes, dims), c, d)
  {
    if axes != [] {
      LexLessKeep(axes[1..], dims, c, d);
      if axes[0] in dims {
        assert Keep(axes, dims)[1..] == Keep(axes[1..], dims);
      } else {
        assert axes[0] in Drop(axes, dims);
        assert Keep(axes, dims) == Keep(axes[1..], dims);
      }
    }
  }

  lemma {:induction false} KeepDistinct(axes: seq<string>, dims: set<string>)
    requires Distinct(axes)
    ensures Distinct(Keep(axes, dims)) && Distinct(Drop(axes, dims))
  {
    if axes != [] {
      KeepDistinct(axes[1..], dims);
    }
  }
}

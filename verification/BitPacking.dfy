/** pack_to_int32: unsigned codes of 1 to 8 bits, packed little-end first into two's-complement
    32-bit words, and the shift-and-mask reader that takes them out again. */
module BitPacking {
  import opened Arithmetic

  datatype PackError = TooManyBits | TooFewBits

  const INT32_SPAN := 0x1_0000_0000

  function Pow2(n: nat): (p: nat)
    ensures p >= 1
  {
    if n == 0 then 1 else 2 * Pow2(n - 1)
  }

  // Two's-complement wrap-around of int32 arithmetic.
  function Wrap(x: int): (w: int)
    ensures -0x8000_0000 <= w < 0x8000_0000
  {
    (x + 0x8000_0000) % INT32_SPAN - 0x8000_0000
  }

  predicate AllCodes(codes: seq<int>, bits: nat) {
    forall k :: 0 <= k < |codes| ==> 0 <= codes[k] < Pow2(bits)
  }

  // (reshaped << bit_shifts).sum(dim=2, dtype=int32), from lane k on.
  function ShiftedSum(codes: seq<int>, bits: nat, k: nat): int {
    if codes == [] then 0 else Wrap(codes[0] * Pow2(bits * k)) + ShiftedSum(codes[1..], bits, k + 1)
  }

  function PackWord(codes: seq<int>, bits: nat): int {
    Wrap(ShiftedSum(codes, bits, 0))
  }

  // (word >> bits * k) & (2 ** bits - 1), with the arithmetic shift of a signed word.
  function Lane(word: int, bits: nat, k: nat): (code: int)
    ensures 0 <= code < Pow2(bits)
  {
    word / Pow2(bits * k) % Pow2(bits)
  }

  // ---------- Powers of two ----------

  lemma {:induction false} Pow2Add(m: nat, n: nat)
    ensures Pow2(m + n) == Pow2(m) * Pow2(n)
  {
    if m > 0 {
      Pow2Add(m - 1, n);
      assert Pow2(m + n) == 2 * Pow2(m - 1 + n);
      assert 2 * (Pow2(m - 1) * Pow2(n)) == (2 * Pow2(m - 1)) * Pow2(n);
    }
  }

  lemma Pow2Lane(bits: nat, k: nat)
    ensures Pow2(bits * (k + 1)) == Pow2(bits * k) * Pow2(bits)
  {
    assert bits * (k + 1) == bits * k + bits;
    Pow2Add(bits * k, bits);
  }

  lemma Pow2Is32()
    ensures Pow2(32) == INT32_SPAN
  {
    assert Pow2(8) == 256;
    Pow2Add(8, 8);
    Pow2Add(16, 16);
  }

  // ---------- A word as a number in base 2 ** bits ----------

  function Value(codes: seq<int>, bits: nat): int {
    if codes == [] then 0 else codes[0] + Pow2(bits) * Value(codes[1..], bits)
  }

  lemma {:induction false} ValueBound(codes: seq<int>, bits: nat)
    requires AllCodes(codes, bits)
    ensures 0 <= Value(codes, bits) < Pow2(bits * |codes|)
  {
    if codes != [] {
      var n := |codes| - 1;
      ValueBound(codes[1..], bits);
      Pow2Lane(bits, n);
      MulBound(Value(codes[1..], bits), Pow2(bits * n), Pow2(bits), codes[0]);
    }
  }

  lemma Congruent(x: int, y: int, q: int)
    requires x == y + q * INT32_SPAN
    ensures Wrap(x) == Wrap(y)
  {
    ModShift(y + 0x8000_0000, q, INT32_SPAN);
  }

  // How much wrapping took off.
  lemma WrapQuotient(x: int) returns (q: int)
    ensures Wrap(x) == x - q * INT32_SPAN
  {
    q := (x + 0x8000_0000) / INT32_SPAN;
  }

  // Wrapping each shifted lane changes the sum by a multiple of 2 ** 32 only.
  lemma {:induction false} ShiftedSumIsValue(codes: seq<int>, bits: nat, k: nat) returns (q: int)
    ensures ShiftedSum(codes, bits, k) == Value(codes, bits) * Pow2(bits * k) + q * INT32_SPAN
  {
    if codes == [] {
      q := 0;
    } else {
      var rest := ShiftedSumIsValue(codes[1..], bits, k + 1);
      var first := WrapQuotient(codes[0] * Pow2(bits * k));
      q := rest - first;
      Pow2Lane(bits, k);
      ShiftSum(codes[0], Pow2(bits), Value(codes[1..], bits), Pow2(bits * k));
    }
  }

  lemma ShiftSum(a: int, b: int, c: int, d: int)
    ensures (a + b * c) * d == a * d + c * (d * b)
  {
  }

  lemma PackWordIsValue(codes: seq<int>, bits: nat)
    ensures PackWord(codes, bits) == Wrap(Value(codes, bits))
  {
    var q := ShiftedSumIsValue(codes, bits, 0);
    Congruent(ShiftedSum(codes, bits, 0), Value(codes, bits), q);
  }

  lemma DivDiv(x: nat, a: nat, b: nat)
    requires a > 0 && b > 0
    ensures a * b > 0 && x / (a * b) == x / a / b
  {
    var q := x / a / b;
    assert x == x / a * a + x % a;
    assert x / a == q * b + x / a % b;
    MulBound(x / a % b, b, a, x % a);
    Regroup(q, b, x / a % b, a, x % a);
    QuotientUnique(x, q, x / a % b * a + x % a, a * b);
  }

  lemma Regroup(q: nat, b: nat, r: nat, a: nat, s: nat)
    ensures (q * b + r) * a + s == q * (a * b) + (r * a + s)
    ensures b * a == a * b
  {
  }

  lemma {:induction false} LaneOfValue(codes: seq<int>, bits: nat, k: nat)
    requires AllCodes(codes, bits) && k < |codes|
    ensures Lane(Value(codes, bits), bits, k) == codes[k]
  {
    hide Pow2;
    ValueBound(codes[1..], bits);
    if k == 0 {
      FirstLane(Value(codes[1..], bits), bits, codes[0]);
    } else {
      LaneOfValue(codes[1..], bits, k - 1);
      NextLane(Value(codes[1..], bits), bits, codes[0], k - 1);
    }
  }

  lemma FirstLane(rest: nat, bits: nat, low: nat)
    requires low < Pow2(bits)
    ensures Lane(low + Pow2(bits) * rest, bits, 0) == low
  {
    assert Pow2(bits * 0) == 1;
    SplitLowLane(rest, Pow2(bits), low);
  }

  lemma NextLane(rest: nat, bits: nat, low: nat, k: nat)
    requires low < Pow2(bits)
    ensures Lane(low + Pow2(bits) * rest, bits, k + 1) == Lane(rest, bits, k)
  {
    hide Pow2;
    Pow2Lane(bits, k);
    DropLowLane(rest, Pow2(bits), low, Pow2(bits * k));
  }

  lemma DropLowLane(rest: nat, base: nat, low: nat, p: nat)
    requires low < base && p > 0
    ensures p * base > 0 && (low + base * rest) / (p * base) == rest / p
  {
    SplitLowLane(rest, base, low);
    DivDiv(low + base * rest, base, p);
    ProductSymmetric(p, base);
  }

  lemma ProductSymmetric(a: nat, b: nat)
    ensures a * b == b * a
  {
  }

  lemma SplitLowLane(rest: nat, base: nat, low: nat)
    requires low < base
    ensures (low + base * rest) % base == low && (low + base * rest) / base == rest
  {
    DivMod(rest, base, low);
  }

  // Sign bit set or not, a lane inside the word reads the same.
  lemma LaneOfWrapped(x: int, bits: nat, k: nat)
    requires bits * (k + 1) <= 32
    ensures Lane(Wrap(x), bits, k) == Lane(x, bits, k)
  {
    var q := WrapQuotient(x);
    var low, high := bits * k, 32 - bits * (k + 1);
    assert bits * (k + 1) == low + bits;
    Pow2Add(low, bits + high);
    Pow2Add(bits, high);
    Pow2Is32();
    LaneShift(x, q, Pow2(low), Pow2(bits), Pow2(high));
  }

  lemma LaneShift(x: int, q: int, a: nat, b: nat, c: nat)
    requires a > 0 && b > 0
    ensures (x - q * (a * (b * c))) / a % b == x / a % b
  {
    Regroup3(q, a, b, c);
    ModShift(x, -q * c * b, a);
    ModShift(x / a, -q * c, b);
  }

  lemma Regroup3(q: int, a: int, b: int, c: int)
    ensures -(q * (a * (b * c))) == -q * c * b * a
  {
  }

  // Every lane of a packed word holds the code that went in.
  lemma UnpackPackWord(codes: seq<int>, bits: nat, k: nat)
    requires AllCodes(codes, bits) && k < |codes| && bits * |codes| <= 32
    ensures Lane(PackWord(codes, bits), bits, k) == codes[k]
  {
    MulMono(k + 1, |codes|, bits);
    PackWordIsValue(codes, bits);
    LaneOfWrapped(Value(codes, bits), bits, k);
    LaneOfValue(codes, bits, k);
  }
}

/** The packed words and quantised values themselves, beyond the round trips. */
module Int4Values {
  import opened BitPacking
  import opened Int4Layers
  import opened Wrappers

  // A packed word is the number with the codes as digits, the first one lowest, as a signed 32-bit word.
  lemma WordIsNumber(codes: seq<int>, bits: nat) returns (q: int)
    ensures PackWord(codes, bits) == Value(codes, bits) - q * 0x1_0000_0000
    ensures -0x8000_0000 <= PackWord(codes, bits) < 0x8000_0000
  {
    PackWordIsValue(codes, bits);
    q := WrapQuotient(Value(codes, bits));
  }

  lemma DigitsAreWeighted(first: int, rest: seq<int>)
    ensures Value([first] + rest, 4) == first + 16 * Value(rest, 4) && Value([], 4) == 0
    ensures Value([first] + rest, 8) == first + 256 * Value(rest, 8) && Value([], 8) == 0
  {
    assert ([first] + rest)[1..] == rest;
    assert Pow2(4) == 16 && Pow2(8) == 256;
  }

  // The lanes of a word from the lowest bits on, of a negative word as well.
  lemma LanesOfWords()
    ensures Lane(0x321, 4, 0) == 1 && Lane(0x321, 4, 1) == 2 && Lane(0x321, 4, 2) == 3
    ensures Lane(-2, 4, 0) == 14 && Lane(-2, 4, 1) == 15
  {
    assert Pow2(0) == 1 && Pow2(4) == 16 && Pow2(8) == 256;
  }

  // Packing rejects more than eight and fewer than one bit, in this order, and nothing else.
  lemma PackFailsIff(rows: seq<seq<int>>, bits: int, sym: bool)
    ensures PackToInt32(rows, bits, sym).Err? <==> bits > 8 || bits < 1
    ensures bits > 8 ==> PackToInt32(rows, bits, sym) == Err(TooManyBits)
    ensures bits < 1 ==> PackToInt32(rows, bits, sym) == Err(TooFewBits)
  {
    hide PackRows;
  }

  // The symmetric mode adds half the range of the lanes to every value before it packs them.
  lemma {:induction false} SymmetricLanes(row: seq<int>, bits: nat, c: nat)
    requires 1 <= bits <= 8 && Int8(row) && SignedCodes(row, bits) && c < |row|
    ensures c < |AllLanes(PackRow(Unsigned(row, bits), bits), bits)|
    ensures 2 * (AllLanes(PackRow(Unsigned(row, bits), bits), bits)[c] - row[c]) == Pow2(bits)
  {
    hide PackRow, Pow2, Offset, AllLanes, ToUint8;
    UnsignedInRange(row, bits);
    var pad := PaddingIsZero(Unsigned(row, bits), bits);
    OffsetIsHalf(bits);
    UnsignedAt(row[c], Offset(bits));
  }

  // Whatever the values, the offset ones are bytes that differ from value plus offset by a multiple of 256.
  lemma UnsignedBytes(row: seq<int>, bits: nat, c: nat) returns (q: int)
    requires bits >= 1 && c < |row|
    ensures 0 <= Unsigned(row, bits)[c] < 256
    ensures 2 * (Unsigned(row, bits)[c] - row[c] - 256 * q) == Pow2(bits)
  {
    var v := row[c] + Offset(bits);
    q := -(v / 256);
    assert v == v / 256 * 256 + v % 256;
  }

  // Every row is packed on its own, the values offset when symmetric.
  lemma {:induction false} RowsPacked(rows: seq<seq<int>>, bits: nat, sym: bool, r: nat)
    requires 1 <= bits <= 8 && r < |rows|
    ensures PackRows(rows, bits, sym)[r] == PackRow(if sym then Unsigned(rows[r], bits) else rows[r], bits)
  {
    hide PackRow, Unsigned;
    if r > 0 {
      RowsPacked(rows[1..], bits, sym, r - 1);
    }
  }

  // Quantising takes the nearest integer to the scaled value, the even one of two that are equally near, and the
  // nearer end of the range for values outside it.
  lemma QuantizeIsNearest(x: real, scale: real, zeroPoint: int, low: int, high: int)
    requires scale != 0.0 && low <= high
    ensures var v, q := x / scale + zeroPoint as real, QuantizeAt(x, scale, zeroPoint, low, high);
            && low <= q <= high
            && (v <= low as real ==> q == low) && (v >= high as real ==> q == high)
            && (low as real <= v <= high as real ==>
                  -0.5 <= v - q as real <= 0.5 && (v - q as real == 0.5 || v - q as real == -0.5 ==> q % 2 == 0))
  {
    var v := x / scale + zeroPoint as real;
    RoundIsNearest(Clamp(v, low, high));
    RoundWithin(Clamp(v, low, high), low, high);
    hide Round;
    IntegersStay(low);
    IntegersStay(high);
  }

  lemma RoundIsNearest(r: real)
    ensures -0.5 <= r - Round(r) as real <= 0.5
    ensures r - Round(r) as real == 0.5 || r - Round(r) as real == -0.5 ==> Round(r) % 2 == 0
  {
  }

  lemma RoundWithin(r: real, low: int, high: int)
    requires low as real <= r <= high as real
    ensures low <= Round(r) <= high
  {
  }

  lemma IntegersStay(n: int)
    ensures Round(n as real) == n
  {
  }

  // Zero points at even positions fill the lower half of the word, those at odd positions the upper half.
  lemma ZeroPointOrder(zeros: seq<int>, k: nat)
    requires |zeros| == 8 && AllCodes(zeros, 4) && k < 8
    ensures Lane(PackZeroPoints(zeros), 4, if k % 2 == 0 then k / 2 else 4 + k / 2) == zeros[k]
  {
    hide Lane, PackZeroPoints;
    ZeroPointLanes(zeros, k);
  }

  // ---------- Reading ----------

  lemma {:induction false} UngroupedLength(scales: seq<seq<real>>, groupSize: int)
    requires groupSize <= 0
    ensures |FlatScales(scales, groupSize)| == Numel(scales)
  {
    if scales != [] {
      UngroupedLength(scales[1..], groupSize);
    }
  }

  // Reading fails if and only if the scales, each counted once for every element of its group, are not as many as
  // the elements; without a group size each counts once.
  lemma ReadFailsIff(packed: seq<seq<int>>, scales: seq<seq<real>>, cols: nat, groupSize: int)
    ensures Dequantize(packed, scales, cols, groupSize).Err?
            <==> Numel(ReadRows(packed, cols)) != (if groupSize > 0 then Numel(scales) * groupSize else Numel(scales))
  {
    hide FlatScales, ReadRows, ScaleRows;
    if groupSize > 0 {
      FlatLength(scales, groupSize);
    } else {
      UngroupedLength(scales, groupSize);
    }
  }

  ghost predicate SameRows(rows: seq<seq<int>>, scales: seq<seq<real>>) {
    |rows| == |scales| && forall r :: 0 <= r < |rows| ==> |rows[r]| == |scales[r]|
  }

  lemma {:induction false} UngroupedRows(rows: seq<seq<int>>, scales: seq<seq<real>>, groupSize: int)
    requires groupSize <= 0 && SameRows(rows, scales)
    ensures |FlatScales(scales, groupSize)| == Numel(rows)
    ensures |ScaleRows(rows, FlatScales(scales, groupSize))| == |rows|
    ensures forall r :: 0 <= r < |rows| ==>
              ScaleRows(rows, FlatScales(scales, groupSize))[r] == ScaleRow(rows[r], scales[r])
  {
    hide ScaleRow;
    if rows != [] {
      UngroupedRows(rows[1..], scales[1..], groupSize);
      var flat, rest := FlatScales(scales, groupSize), FlatScales(scales[1..], groupSize);
      assert flat == scales[0] + rest;
      assert flat[..|rows[0]|] == scales[0] && flat[|rows[0]|..] == rest;
    }
  }

  // Without a group size every element is multiplied by its own scale.
  lemma ReadUngrouped(packed: seq<seq<int>>, scales: seq<seq<real>>, cols: nat, groupSize: int, r: nat, c: nat)
    requires groupSize <= 0 && SameRows(ReadRows(packed, cols), scales)
    requires r < |scales| && c < |scales[r]|
    ensures Dequantize(packed, scales, cols, groupSize).Ok?
    ensures var read := Dequantize(packed, scales, cols, groupSize).value;
            |read| == |scales| && |read[r]| == |scales[r]|
            && read[r][c] == Mul(ReadRows(packed, cols)[r][c], scales[r][c])
  {
    hide FlatScales, ReadRows, ScaleRows, Mul;
    UngroupedRows(ReadRows(packed, cols), scales, groupSize);
  }
}

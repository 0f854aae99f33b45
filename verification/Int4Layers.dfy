/** From quantized weight codes to packed int32 words and back to scaled weights, in exact
    arithmetic: pack_to_int32, quantize and pack_layer against the reader _dequantize_tensor. */
module Int4Layers {
  import opened Arithmetic
  import opened BitPacking
  import opened Sequences
  import opened Wrappers

  // ---------- Rows of codes ----------

  function LanesPerWord(bits: nat): (f: nat)
    requires 1 <= bits <= 8
    ensures f >= 4 && bits * f <= 32 < bits * (f + 1)
  {
    32 / bits
  }

  // Pads a row with zeros to whole words and packs it word by word.
  function PackRow(codes: seq<int>, bits: nat): seq<int>
    requires 1 <= bits <= 8
    decreases |codes|
  {
    var f := LanesPerWord(bits);
    if codes == [] then []
    else if |codes| <= f then [PackWord(codes + Repeat(0, f - |codes|), bits)]
    else [PackWord(codes[..f], bits)] + PackRow(codes[f..], bits)
  }

  // The first n lanes of a word.
  function Lanes(word: int, bits: nat, n: nat): (r: seq<int>)
    ensures |r| == n && forall k :: 0 <= k < n ==> r[k] == Lane(word, bits, k)
  {
    if n == 0 then [] else Lanes(word, bits, n - 1) + [Lane(word, bits, n - 1)]
  }

  function AllLanes(words: seq<int>, bits: nat): seq<int>
    requires 1 <= bits <= 8
  {
    if words == [] then [] else Lanes(words[0], bits, LanesPerWord(bits)) + AllLanes(words[1..], bits)
  }

  // The codes of a packed row, padding cropped.
  function UnpackRow(words: seq<int>, bits: nat, cols: nat): seq<int>
    requires 1 <= bits <= 8
  {
    var all := AllLanes(words, bits);
    if cols <= |all| then all[..cols] else all
  }

  lemma WordReadsBack(codes: seq<int>, bits: nat)
    requires 1 <= bits <= 8 && AllCodes(codes, bits) && |codes| == LanesPerWord(bits)
    ensures Lanes(PackWord(codes, bits), bits, LanesPerWord(bits)) == codes
  {
    hide PackWord, Lane, AllCodes;
    var back := Lanes(PackWord(codes, bits), bits, LanesPerWord(bits));
    forall k | 0 <= k < |codes| ensures back[k] == codes[k] {
      UnpackPackWord(codes, bits, k);
    }
  }

  lemma {:induction false} LanesOfPackedRow(codes: seq<int>, bits: nat)
    requires 1 <= bits <= 8 && AllCodes(codes, bits)
    ensures codes <= AllLanes(PackRow(codes, bits), bits)
    decreases |codes|
  {
    hide PackWord, Lane, Lanes, Pow2, AllLanes;
    var f := LanesPerWord(bits);
    if codes == [] {
    } else if |codes| <= f {
      var padded := codes + Repeat(0, f - |codes|);
      PaddingInRange(codes, f - |codes|, bits);
      WordReadsBack(padded, bits);
      OneWord(PackWord(padded, bits), bits);
      assert codes <= padded;
    } else {
      WordReadsBack(codes[..f], bits);
      LanesOfPackedRow(codes[f..], bits);
      ConsWord(PackWord(codes[..f], bits), PackRow(codes[f..], bits), bits);
      PrefixAppend(codes, f, AllLanes(PackRow(codes[f..], bits), bits));
    }
  }

  // The lanes of a packed row are its codes and then zeros up to the end of the last word.
  lemma {:induction false} PaddingIsZero(codes: seq<int>, bits: nat) returns (pad: nat)
    requires 1 <= bits <= 8 && AllCodes(codes, bits)
    ensures pad < 32 / bits && AllLanes(PackRow(codes, bits), bits) == codes + Repeat(0, pad)
    decreases |codes|
  {
    hide PackWord, Lane, Lanes, Pow2, AllLanes, Repeat;
    var f := LanesPerWord(bits);
    if codes == [] {
      pad := 0;
      NoWords(bits);
    } else if |codes| <= f {
      pad := f - |codes|;
      var padded := codes + Repeat(0, pad);
      PaddingInRange(codes, pad, bits);
      WordReadsBack(padded, bits);
      OneWord(PackWord(padded, bits), bits);
    } else {
      WordReadsBack(codes[..f], bits);
      pad := PaddingIsZero(codes[f..], bits);
      ConsWord(PackWord(codes[..f], bits), PackRow(codes[f..], bits), bits);
      assert codes == codes[..f] + codes[f..];
      assert codes[..f] + (codes[f..] + Repeat(0, pad)) == (codes[..f] + codes[f..]) + Repeat(0, pad);
    }
  }

  lemma NoWords(bits: nat)
    requires 1 <= bits <= 8
    ensures AllLanes(PackRow([], bits), bits) == [] + Repeat(0, 0)
  {
  }

  lemma OneWord(word: int, bits: nat)
    requires 1 <= bits <= 8
    ensures AllLanes([word], bits) == Lanes(word, bits, LanesPerWord(bits))
  {
    assert AllLanes([word][1..], bits) == [];
  }

  lemma ConsWord(word: int, words: seq<int>, bits: nat)
    requires 1 <= bits <= 8
    ensures AllLanes([word] + words, bits) == Lanes(word, bits, LanesPerWord(bits)) + AllLanes(words, bits)
  {
    assert ([word] + words)[1..] == words;
  }

  lemma PrefixAppend(codes: seq<int>, f: nat, rest: seq<int>)
    requires f <= |codes| && codes[f..] <= rest
    ensures codes <= codes[..f] + rest
  {
    assert codes == codes[..f] + codes[f..];
  }

  lemma PaddingInRange(codes: seq<int>, n: nat, bits: nat)
    requires AllCodes(codes, bits)
    ensures AllCodes(codes + Repeat(0, n), bits)
  {
  }

  lemma {:induction false} LanesInRange(words: seq<int>, bits: nat)
    requires 1 <= bits <= 8
    ensures AllCodes(AllLanes(words, bits), bits)
  {
    if words != [] {
      LanesInRange(words[1..], bits);
    }
  }

  // Packing loses nothing exactly when every code fits its lane.
  lemma UnpackPackRow(codes: seq<int>, bits: nat)
    requires 1 <= bits <= 8
    ensures UnpackRow(PackRow(codes, bits), bits, |codes|) == codes <==> AllCodes(codes, bits)
  {
    LanesInRange(PackRow(codes, bits), bits);
    if AllCodes(codes, bits) {
      LanesOfPackedRow(codes, bits);
    }
  }

  // ---------- Matrices, offset to unsigned when symmetric ----------

  function Offset(bits: nat): nat
    requires bits >= 1
  {
    Pow2(bits - 1)
  }

  function ToUint8(v: int): int {
    v % 256
  }

  // value + offset, converted to uint8.
  function Unsigned(row: seq<int>, bits: nat): (r: seq<int>)
    requires bits >= 1
    ensures |r| == |row| && forall c :: 0 <= c < |row| ==> r[c] == ToUint8(row[c] + Offset(bits))
  {
    if row == [] then [] else [ToUint8(row[0] + Offset(bits))] + Unsigned(row[1..], bits)
  }

  function PackRows(rows: seq<seq<int>>, bits: nat, sym: bool): (r: seq<seq<int>>)
    requires 1 <= bits <= 8
    ensures |r| == |rows|
  {
    if rows == [] then []
    else [PackRow(if sym then Unsigned(rows[0], bits) else rows[0], bits)] + PackRows(rows[1..], bits, sym)
  }

  function PackToInt32(rows: seq<seq<int>>, bits: int, sym: bool): Result<seq<seq<int>>, PackError> {
    if bits > 8 then Err(TooManyBits)
    else if bits < 1 then Err(TooFewBits)
    else Ok(PackRows(rows, bits, sym))
  }

  function Minus(codes: seq<int>, offset: int): (r: seq<int>)
    ensures |r| == |codes| && forall c :: 0 <= c < |codes| ==> r[c] == codes[c] - offset
  {
    if codes == [] then [] else [codes[0] - offset] + Minus(codes[1..], offset)
  }

  // The library reader: shift, mask, crop, and subtract the offset again.
  function ReadRow(words: seq<int>, bits: nat, cols: nat): seq<int>
    requires 1 <= bits <= 8
  {
    Minus(UnpackRow(words, bits, cols), Offset(bits))
  }

  predicate SignedCodes(row: seq<int>, bits: nat)
    requires bits >= 1
  {
    forall c :: 0 <= c < |row| ==> 0 - Offset(bits) <= row[c] < Offset(bits)
  }

  predicate Int8(row: seq<int>) {
    forall c :: 0 <= c < |row| ==> -128 <= row[c] < 128
  }

  lemma Pow2Small(n: nat)
    requires n < 8
    ensures Pow2(n) <= 128
  {
    Pow2Add(n, 7 - n);
    assert Pow2(7) == 128;
    MulMono(1, Pow2(7 - n), Pow2(n));
  }

  lemma OffsetIsHalf(bits: nat)
    requires 1 <= bits <= 8
    ensures Pow2(bits) == 2 * Offset(bits) && 1 <= Offset(bits) <= 128
  {
    Pow2Small(bits - 1);
  }

  lemma UnsignedInRange(row: seq<int>, bits: nat)
    requires 1 <= bits <= 8 && Int8(row)
    ensures Pow2(bits) == 2 * Offset(bits) && 1 <= Offset(bits) <= 128
    ensures AllCodes(Unsigned(row, bits), bits) <==> SignedCodes(row, bits)
  {
    hide Pow2, Offset, ToUint8, Unsigned;
    OffsetIsHalf(bits);
    var codes := Unsigned(row, bits);
    if AllCodes(codes, bits) {
      forall c | 0 <= c < |row| ensures 0 - Offset(bits) <= row[c] < Offset(bits) {
        assert 0 <= codes[c] < Pow2(bits);
        UnsignedAt(row[c], Offset(bits));
      }
    }
    if SignedCodes(row, bits) {
      forall c | 0 <= c < |codes| ensures 0 <= codes[c] < Pow2(bits) {
        UnsignedAt(row[c], Offset(bits));
      }
    }
  }

  lemma UnsignedMinusOffset(row: seq<int>, bits: nat)
    requires 1 <= bits <= 8 && Int8(row) && SignedCodes(row, bits)
    ensures Minus(Unsigned(row, bits), Offset(bits)) == row
  {
    UnsignedInRange(row, bits);
    hide Pow2, Offset, ToUint8;
    forall c | 0 <= c < |row| ensures Minus(Unsigned(row, bits), Offset(bits))[c] == row[c] {
      UnsignedAt(row[c], Offset(bits));
    }
  }

  lemma UnsignedAt(v: int, offset: nat)
    requires -128 <= v < 128 && 1 <= offset <= 128
    ensures 0 <= ToUint8(v + offset) < 2 * offset <==> 0 - offset <= v < offset
    ensures 0 - offset <= v < offset ==> ToUint8(v + offset) == v + offset
  {
  }

  // For int8 values: writing and reading a symmetric row is the identity exactly on rows whose
  // values fit the signed range of the bit width, whatever the row's length.
  lemma SymmetricRowRoundTrip(row: seq<int>, bits: nat)
    requires 1 <= bits <= 8 && Int8(row)
    ensures ReadRow(PackRow(Unsigned(row, bits), bits), bits, |row|) == row <==> SignedCodes(row, bits)
  {
    var codes := Unsigned(row, bits);
    var read := UnpackRow(PackRow(codes, bits), bits, |row|);
    UnsignedInRange(row, bits);
    UnpackPackRow(codes, bits);
    hide PackRow, Pow2, Offset, AllLanes, ToUint8;
    if SignedCodes(row, bits) {
      UnsignedMinusOffset(row, bits);
    }
    LanesInRange(PackRow(codes, bits), bits);
    assert AllCodes(read, bits);
    if Minus(read, Offset(bits)) == row {
      forall c | 0 <= c < |row| ensures 0 - Offset(bits) <= row[c] < Offset(bits) {
        assert row[c] == read[c] - Offset(bits);
      }
    }
  }

  // ---------- quantize ----------

  // torch.round: nearest integer, ties to even.
  function Round(r: real): int {
    var low := r.Floor;
    var d := r - low as real;
    if d < 0.5 then low else if d > 0.5 then low + 1 else if low % 2 == 0 then low else low + 1
  }

  function Clamp(r: real, low: int, high: int): real {
    if r < low as real then low as real else if r > high as real then high as real else r
  }

  // One element of x / scale + zero_point, clamped and rounded to the integer type.
  function QuantizeAt(x: real, scale: real, zeroPoint: int, low: int, high: int): int
    requires scale != 0.0
  {
    Round(Clamp(x / scale + zeroPoint as real, low, high))
  }

  // Dividing by the scale that was multiplied in gives the code back, in either mode.
  lemma QuantizeInvertsScaling(x: real, code: int, scale: real, zeroPoint: int, low: int, high: int)
    requires scale != 0.0 && low <= code <= high && x == (code - zeroPoint) as real * scale
    ensures QuantizeAt(x, scale, zeroPoint, low, high) == code
  {
    TimesDiv((code - zeroPoint) as real, scale);
    assert (code - zeroPoint) as real + zeroPoint as real == code as real;
    assert (code as real).Floor == code;
  }

  // ---------- pack_layer after the foreign call, symmetric mode ----------

  function Mul(code: int, scale: real): real {
    code as real * scale
  }

  // One group of w * scale, and one group of quantize.
  function Times(codes: seq<int>, scale: real): (r: seq<real>)
    ensures |r| == |codes| && forall k :: 0 <= k < |codes| ==> r[k] == Mul(codes[k], scale)
  {
    if codes == [] then [] else [Mul(codes[0], scale)] + Times(codes[1..], scale)
  }

  function QuantizeGroup(x: seq<real>, scale: real): (r: seq<int>)
    requires scale != 0.0
    ensures |r| == |x| && forall k :: 0 <= k < |x| ==> r[k] == QuantizeAt(x[k], scale, 0, -128, 127)
  {
    if x == [] then [] else [QuantizeAt(x[0], scale, 0, -128, 127)] + QuantizeGroup(x[1..], scale)
  }

  predicate NonZero(scales: seq<real>) {
    forall g :: 0 <= g < |scales| ==> scales[g] != 0.0
  }

  // A row of |scales| groups of n elements, each group times its scale.
  function ScaleGroups(codes: seq<int>, scales: seq<real>, n: nat): (r: seq<real>)
    requires |codes| == |scales| * n
    ensures |r| == |codes|
    decreases |scales|
  {
    if scales == [] then []
    else
      OneGroup(|scales|, n);
      Times(codes[..n], scales[0]) + ScaleGroups(codes[n..], scales[1..], n)
  }

  function QuantizeGroups(x: seq<real>, scales: seq<real>, n: nat): (r: seq<int>)
    requires |x| == |scales| * n && NonZero(scales)
    ensures |r| == |x|
    decreases |scales|
  {
    if scales == [] then []
    else
      OneGroup(|scales|, n);
      QuantizeGroup(x[..n], scales[0]) + QuantizeGroups(x[n..], scales[1..], n)
  }

  lemma OneGroup(k: nat, n: nat)
    requires k > 0
    ensures k * n == n + (k - 1) * n && n <= k * n
  {
  }

  lemma QuantizeOneGroup(codes: seq<int>, scale: real)
    requires scale != 0.0 && Int8(codes)
    ensures QuantizeGroup(Times(codes, scale), scale) == codes
  {
    hide QuantizeAt, Mul;
    var back := QuantizeGroup(Times(codes, scale), scale);
    forall k | 0 <= k < |codes| ensures back[k] == codes[k] {
      QuantizeSymmetric(codes[k], scale);
    }
  }

  lemma QuantizeSymmetric(code: int, scale: real)
    requires scale != 0.0 && -128 <= code < 128
    ensures QuantizeAt(Mul(code, scale), scale, 0, -128, 127) == code
  {
    assert (code - 0) as real * scale == Mul(code, scale);
    QuantizeInvertsScaling(Mul(code, scale), code, scale, 0, -128, 127);
  }

  lemma {:induction false} QuantizeOfScaled(codes: seq<int>, scales: seq<real>, n: nat)
    requires |codes| == |scales| * n && NonZero(scales) && Int8(codes)
    ensures QuantizeGroups(ScaleGroups(codes, scales, n), scales, n) == codes
    decreases |scales|
  {
    hide QuantizeAt, Mul, QuantizeGroup, Times;
    if scales != [] {
      OneGroup(|scales|, n);
      QuantizeOneGroup(codes[..n], scales[0]);
      QuantizeOfScaled(codes[n..], scales[1..], n);
      assert ScaleGroups(codes, scales, n)[..n] == Times(codes[..n], scales[0]);
      assert ScaleGroups(codes, scales, n)[n..] == ScaleGroups(codes[n..], scales[1..], n);
      assert codes == codes[..n] + codes[n..];
    }
  }

  // Weight codes from the foreign quantizer, with groupSize columns per scale.
  ghost predicate Layer(codes: seq<seq<int>>, scales: seq<seq<real>>, groupSize: nat) {
    && |codes| == |scales|
    && forall r :: 0 <= r < |codes| ==> |codes[r]| == |scales[r]| * groupSize && NonZero(scales[r])
  }

  function Requantize(codes: seq<seq<int>>, scales: seq<seq<real>>, groupSize: nat): (r: seq<seq<int>>)
    requires Layer(codes, scales, groupSize)
    ensures |r| == |codes|
  {
    if codes == [] then []
    else [QuantizeGroups(ScaleGroups(codes[0], scales[0], groupSize), scales[0], groupSize)]
         + Requantize(codes[1..], scales[1..], groupSize)
  }

  // The packed weight that pack_layer returns beside the scales.
  function PackLayer(codes: seq<seq<int>>, scales: seq<seq<real>>, groupSize: nat): seq<seq<int>>
    requires Layer(codes, scales, groupSize)
  {
    PackToInt32(Requantize(codes, scales, groupSize), 4, true).value
  }

  // ---------- _dequantize_tensor ----------

  datatype ReadError = IncompatibleScales

  // torch.repeat_interleave along a row.
  function Interleave(scales: seq<real>, n: nat): seq<real> {
    if scales == [] then [] else Repeat(scales[0], n) + Interleave(scales[1..], n)
  }

  // All scales row after row, repeated when the group size is positive.
  function FlatScales(scales: seq<seq<real>>, groupSize: int): seq<real> {
    if scales == [] then []
    else (if groupSize > 0 then Interleave(scales[0], groupSize) else scales[0]) + FlatScales(scales[1..], groupSize)
  }

  function ReadRows(packed: seq<seq<int>>, cols: nat): seq<seq<int>> {
    if packed == [] then [] else [ReadRow(packed[0], 4, cols)] + ReadRows(packed[1..], cols)
  }

  function Numel<A>(rows: seq<seq<A>>): nat {
    if rows == [] then 0 else |rows[0]| + Numel(rows[1..])
  }

  function ScaleRow(row: seq<int>, scales: seq<real>): (r: seq<real>)
    requires |row| == |scales|
    ensures |r| == |row| && forall c :: 0 <= c < |row| ==> r[c] == Mul(row[c], scales[c])
  {
    if row == [] then [] else [Mul(row[0], scales[0])] + ScaleRow(row[1..], scales[1..])
  }

  // Element-wise product with scales taken in row-major order.
  function ScaleRows(rows: seq<seq<int>>, flat: seq<real>): seq<seq<real>>
    requires |flat| == Numel(rows)
  {
    if rows == [] then [] else [ScaleRow(rows[0], flat[..|rows[0]|])] + ScaleRows(rows[1..], flat[|rows[0]|..])
  }

  // Scales of the right number are reshaped to the weight; any other number is an error.
  function Dequantize(packed: seq<seq<int>>, scales: seq<seq<real>>, cols: nat, groupSize: int)
    : Result<seq<seq<real>>, ReadError>
  {
    var rows, flat := ReadRows(packed, cols), FlatScales(scales, groupSize);
    if |flat| == Numel(rows) then Ok(ScaleRows(rows, flat)) else Err(IncompatibleScales)
  }

  // ---------- The round trip ----------

  function Scaled(codes: seq<seq<int>>, scales: seq<seq<real>>, groupSize: nat): (r: seq<seq<real>>)
    requires Layer(codes, scales, groupSize)
    ensures |r| == |codes|
    ensures forall i :: 0 <= i < |codes| ==> r[i] == ScaleGroups(codes[i], scales[i], groupSize)
  {
    if codes == [] then []
    else [ScaleGroups(codes[0], scales[0], groupSize)] + Scaled(codes[1..], scales[1..], groupSize)
  }

  // Element k of group q is its code times scale q.
  lemma ScaleGroupsAt(codes: seq<int>, scales: seq<real>, n: nat, q: nat, k: nat)
    requires |codes| == |scales| * n && q < |scales| && k < n
    ensures q * n + k < |codes|
    ensures ScaleGroups(codes, scales, n)[q * n + k] == Mul(codes[q * n + k], scales[q])
  {
    hide Mul, ScaleGroups;
    MulBound(q, |scales|, n, k);
    GroupElement(codes, scales, n, q, k, q * n + k);
  }

  lemma {:induction false} GroupElement(codes: seq<int>, scales: seq<real>, n: nat, q: nat, k: nat, c: nat)
    requires |codes| == |scales| * n && q < |scales| && k < n && c == q * n + k < |codes|
    ensures ScaleGroups(codes, scales, n)[c] == Mul(codes[c], scales[q])
    decreases q
  {
    hide Mul;
    OneGroup(|scales|, n);
    if q > 0 {
      OneGroup(q, n);
      GroupElement(codes[n..], scales[1..], n, q - 1, k, c - n);
    }
  }

  lemma {:induction false} InterleaveLength(scales: seq<real>, n: nat)
    ensures |Interleave(scales, n)| == |scales| * n
  {
    if scales != [] {
      OneGroup(|scales|, n);
      InterleaveLength(scales[1..], n);
    }
  }

  // Multiplying by the repeated scales is multiplying group by group.
  lemma {:induction false} ScaleRowInterleaved(codes: seq<int>, scales: seq<real>, n: nat)
    requires |codes| == |scales| * n
    ensures |Interleave(scales, n)| == |codes|
    ensures ScaleRow(codes, Interleave(scales, n)) == ScaleGroups(codes, scales, n)
    decreases |scales|
  {
    hide Mul;
    InterleaveLength(scales, n);
    if scales != [] {
      OneGroup(|scales|, n);
      ScaleRowInterleaved(codes[n..], scales[1..], n);
      ScaleRowSplit(codes, Repeat(scales[0], n), Interleave(scales[1..], n));
      ScaleRowConstant(codes[..n], scales[0]);
    }
  }

  lemma ScaleRowConstant(row: seq<int>, scale: real)
    ensures ScaleRow(row, Repeat(scale, |row|)) == Times(row, scale)
  {
    hide Mul;
    assert forall c :: 0 <= c < |row| ==> ScaleRow(row, Repeat(scale, |row|))[c] == Times(row, scale)[c];
  }

  lemma ScaleRowSplit(row: seq<int>, a: seq<real>, b: seq<real>)
    requires |row| == |a| + |b|
    ensures ScaleRow(row, a + b) == ScaleRow(row[..|a|], a) + ScaleRow(row[|a|..], b)
  {
    hide Mul;
    var left, right := ScaleRow(row, a + b), ScaleRow(row[..|a|], a) + ScaleRow(row[|a|..], b);
    forall c | 0 <= c < |row| ensures left[c] == right[c] {
      assert left[c] == Mul(row[c], (a + b)[c]);
    }
  }

  // Every row that was written is read back as its codes.
  lemma {:induction false} LayerReadsBack(codes: seq<seq<int>>, scales: seq<seq<real>>, groupSize: nat, cols: nat)
    requires Layer(codes, scales, groupSize)
    requires forall r :: 0 <= r < |codes| ==> |codes[r]| == cols && SignedCodes(codes[r], 4)
    ensures ReadRows(PackLayer(codes, scales, groupSize), cols) == codes
  {
    if codes != [] {
      RowReadsBack(codes[0], scales[0], groupSize);
      LayerReadsBack(codes[1..], scales[1..], groupSize, cols);
      assert PackLayer(codes, scales, groupSize)[1..] == PackLayer(codes[1..], scales[1..], groupSize);
    }
  }

  lemma RowReadsBack(codes: seq<int>, scales: seq<real>, groupSize: nat)
    requires |codes| == |scales| * groupSize && NonZero(scales) && SignedCodes(codes, 4)
    ensures var again := QuantizeGroups(ScaleGroups(codes, scales, groupSize), scales, groupSize);
            ReadRow(PackRow(Unsigned(again, 4), 4), 4, |codes|) == codes
  {
    assert Offset(4) == 8;
    assert Int8(codes);
    QuantizeOfScaled(codes, scales, groupSize);
    SymmetricRowRoundTrip(codes, 4);
  }

  lemma {:induction false} FlatLength(scales: seq<seq<real>>, groupSize: nat)
    requires groupSize > 0
    ensures |FlatScales(scales, groupSize)| == Numel(scales) * groupSize
  {
    if scales != [] {
      InterleaveLength(scales[0], groupSize);
      FlatLength(scales[1..], groupSize);
      Distributes(|scales[0]|, Numel(scales[1..]), groupSize);
    }
  }

  lemma {:induction false} ScaleRowsFlat(codes: seq<seq<int>>, scales: seq<seq<real>>, groupSize: nat)
    requires groupSize > 0 && Layer(codes, scales, groupSize)
    ensures |FlatScales(scales, groupSize)| == Numel(codes)
    ensures ScaleRows(codes, FlatScales(scales, groupSize)) == Scaled(codes, scales, groupSize)
  {
    if codes != [] {
      ScaleRowsFlat(codes[1..], scales[1..], groupSize);
      ScaleRowInterleaved(codes[0], scales[0], groupSize);
      var first, rest := Interleave(scales[0], groupSize), FlatScales(scales[1..], groupSize);
      assert (first + rest)[..|codes[0]|] == first && (first + rest)[|codes[0]|..] == rest;
    }
  }

  // Quantize, pack, unpack and rescale: every element comes back as its code times its group's
  // scale, when the reader uses the writer's group size; any other group size is rejected.
  lemma LayerRoundTrip(codes: seq<seq<int>>, scales: seq<seq<real>>, cols: nat, groupSize: nat, readerGroupSize: nat)
    requires Layer(codes, scales, groupSize) && groupSize > 0 && readerGroupSize > 0 && Numel(scales) > 0
    requires forall r :: 0 <= r < |codes| ==> |codes[r]| == cols && SignedCodes(codes[r], 4)
    ensures Dequantize(PackLayer(codes, scales, groupSize), scales, cols, readerGroupSize)
         == if readerGroupSize == groupSize then Ok(Scaled(codes, scales, groupSize)) else Err(IncompatibleScales)
  {
    hide PackLayer;
    LayerReadsBack(codes, scales, groupSize, cols);
    ScaleRowsFlat(codes, scales, groupSize);
    FlatLength(scales, groupSize);
    FlatLength(scales, readerGroupSize);
    SameProduct(Numel(scales), groupSize, readerGroupSize);
  }

  lemma SameProduct(n: nat, a: nat, b: nat)
    requires n > 0
    ensures n * a == n * b <==> a == b
  {
    if a < b {
      MulMono(a + 1, b, n);
    } else if b < a {
      MulMono(b + 1, a, n);
    }
  }

  // ---------- Packed zero points of the asymmetric mode ----------

  const ORDER_MAP: seq<nat> := [0, 4, 1, 5, 2, 6, 3, 7]

  // torch.sum(zeros << new_order_map, dim=-1) over eight rows.
  function PackZeroPoints(zeros: seq<int>): int
    requires |zeros| == 8
  {
    Wrap(Wrap(zeros[0] * Pow2(4 * 0)) + Wrap(zeros[1] * Pow2(4 * 4)) + Wrap(zeros[2] * Pow2(4 * 1))
       + Wrap(zeros[3] * Pow2(4 * 5)) + Wrap(zeros[4] * Pow2(4 * 2)) + Wrap(zeros[5] * Pow2(4 * 6))
       + Wrap(zeros[6] * Pow2(4 * 3)) + Wrap(zeros[7] * Pow2(4 * 7)))
  }

  // Zero point k sits in lane ORDER_MAP[k].
  lemma ZeroPointLanes(zeros: seq<int>, k: nat)
    requires |zeros| == 8 && AllCodes(zeros, 4) && k < 8
    ensures Lane(PackZeroPoints(zeros), 4, ORDER_MAP[k]) == zeros[k]
  {
    hide Lane, Wrap, Pow2, Value, ShiftedSum;
    var lanes := [zeros[0], zeros[2], zeros[4], zeros[6], zeros[1], zeros[3], zeros[5], zeros[7]];
    assert lanes[ORDER_MAP[k]] == zeros[k];
    EightLanes(lanes);
    assert AllCodes(lanes, 4);
    UnpackPackWord(lanes, 4, ORDER_MAP[k]);
  }

  lemma EightLanes(z: seq<int>)
    requires |z| == 8
    ensures ShiftedSum(z, 4, 0)
         == Wrap(z[0] * Pow2(4 * 0)) + Wrap(z[1] * Pow2(4 * 1)) + Wrap(z[2] * Pow2(4 * 2)) + Wrap(z[3] * Pow2(4 * 3))
          + Wrap(z[4] * Pow2(4 * 4)) + Wrap(z[5] * Pow2(4 * 5)) + Wrap(z[6] * Pow2(4 * 6)) + Wrap(z[7] * Pow2(4 * 7))
  {
    hide Wrap, Pow2;
    FourLanes(z, 0);
    FourLanes(z[4..], 4);
    assert z[4..][4..] == [];
  }

  lemma FourLanes(z: seq<int>, k: nat)
    requires |z| >= 4
    ensures ShiftedSum(z, 4, k)
         == Wrap(z[0] * Pow2(4 * k)) + Wrap(z[1] * Pow2(4 * (k + 1))) + Wrap(z[2] * Pow2(4 * (k + 2)))
          + Wrap(z[3] * Pow2(4 * (k + 3))) + ShiftedSum(z[4..], 4, k + 4)
  {
    hide Wrap, Pow2;
    assert z[1..][1..] == z[2..] && z[2..][1..] == z[3..] && z[3..][1..] == z[4..];
    assert ShiftedSum(z, 4, k) == Wrap(z[0] * Pow2(4 * k)) + ShiftedSum(z[1..], 4, k + 1);
    assert ShiftedSum(z[1..], 4, k + 1) == Wrap(z[1] * Pow2(4 * (k + 1))) + ShiftedSum(z[2..], 4, k + 2);
    assert ShiftedSum(z[2..], 4, k + 2) == Wrap(z[2] * Pow2(4 * (k + 2))) + ShiftedSum(z[3..], 4, k + 3);
    assert ShiftedSum(z[3..], 4, k + 3) == Wrap(z[3] * Pow2(4 * (k + 3))) + ShiftedSum(z[4..], 4, k + 4);
  }
}

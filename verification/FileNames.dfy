/** The names the converter gives to worker files, worker indices and final files. */
module FileNames {
  predicate IsDigit(c: char) {
    '0' <= c <= '9'
  }

  predicate AllDigits(s: string) {
    forall i :: 0 <= i < |s| ==> IsDigit(s[i])
  }

  function DigitOf(d: nat): char
    requires d < 10
  {
    ('0' as int + d) as char
  }

  // str(n)
  function Decimal(n: nat): string {
    if n < 10 then [DigitOf(n)] else Decimal(n / 10) + [DigitOf(n % 10)]
  }

  function Zeros(k: nat): string {
    if k == 0 then "" else "0" + Zeros(k - 1)
  }

  // f"{n:05d}": at least five digits, more when the number needs them.
  function Pad5(n: nat): string {
    var digits := Decimal(n);
    if |digits| < 5 then Zeros(5 - |digits|) + digits else digits
  }

  function Value(s: string): nat
    requires AllDigits(s)
  {
    if s == "" then 0
    else 10 * Value(s[..|s| - 1]) + (s[|s| - 1] as int - '0' as int)
  }

  lemma {:induction false} DecimalValue(n: nat)
    ensures AllDigits(Decimal(n)) && Decimal(n) != "" && Value(Decimal(n)) == n
  {
    if n >= 10 {
      DecimalValue(n / 10);
      assert Decimal(n)[..|Decimal(n)| - 1] == Decimal(n / 10);
    }
  }

  lemma {:induction false} LeadingZero(s: string)
    requires AllDigits(s)
    ensures AllDigits("0" + s) && Value("0" + s) == Value(s)
  {
    var r := "0" + s;
    if s == "" {
      assert r[..0] == "";
      assert Value("") == 0;
    } else {
      LeadingZero(s[..|s| - 1]);
      assert r[..|r| - 1] == "0" + s[..|s| - 1];
    }
  }

  lemma {:induction false} ZerosPrefix(k: nat, s: string)
    requires AllDigits(s)
    ensures AllDigits(Zeros(k) + s) && Value(Zeros(k) + s) == Value(s)
  {
    if k > 0 {
      ZerosPrefix(k - 1, s);
      LeadingZero(Zeros(k - 1) + s);
      assert Zeros(k) + s == "0" + (Zeros(k - 1) + s);
    } else {
      assert Zeros(0) + s == s;
    }
  }

  lemma Pad5Value(n: nat)
    ensures AllDigits(Pad5(n)) && Value(Pad5(n)) == n
  {
    DecimalValue(n);
    if |Decimal(n)| < 5 {
      ZerosPrefix(5 - |Decimal(n)|, Decimal(n));
    }
  }

  // The digits of n, none more than needed.
  predicate Spells(digits: string, n: nat) {
    AllDigits(digits) && digits != "" && Value(digits) == n && (|digits| > 1 ==> digits[0] != '0')
  }

  // The digits of n, filled up to five with zeros.
  predicate SpellsPadded(digits: string, n: nat) {
    AllDigits(digits) && |digits| >= 5 && Value(digits) == n && (|digits| > 5 ==> digits[0] != '0')
  }

  lemma {:induction false} DecimalSpells(n: nat)
    ensures Spells(Decimal(n), n)
    ensures n >= 10 ==> Decimal(n)[0] != '0'
  {
    DecimalValue(n);
    if n >= 10 {
      DecimalSpells(n / 10);
      if n < 100 {
        assert Decimal(n / 10) == [DigitOf(n / 10)];
      }
      assert Decimal(n)[0] == Decimal(n / 10)[0];
    }
  }

  lemma {:induction false} ZerosLength(k: nat)
    ensures |Zeros(k)| == k
  {
    if k > 0 {
      ZerosLength(k - 1);
    }
  }

  lemma Pad5Spells(n: nat)
    ensures SpellsPadded(Pad5(n), n)
  {
    hide Decimal, Zeros, Value;
    Pad5Value(n);
    DecimalSpells(n);
    if |Decimal(n)| < 5 {
      ZerosLength(5 - |Decimal(n)|);
    }
  }

  lemma DigitsReach(a: string, x: string, b: string, y: string)
    requires AllDigits(b) && a + x == b + y && x != "" && !IsDigit(x[0])
    ensures |b| <= |a|
  {
    var all := a + x;
    assert all[|a|] == x[0];
    forall i | 0 <= i < |b| ensures IsDigit(all[i]) {
      assert all[i] == (b + y)[i] == b[i];
    }
  }

  // A run of digits ends where the first other character is.
  lemma DigitsEnd(a: string, x: string, b: string, y: string)
    requires AllDigits(a) && AllDigits(b) && a + x == b + y
    requires x != "" && y != "" && !IsDigit(x[0]) && !IsDigit(y[0])
    ensures a == b && x == y
  {
    DigitsReach(a, x, b, y);
    DigitsReach(b, y, a, x);
    assert a == (a + x)[..|a|] && b == (b + y)[..|b|];
    assert x == (a + x)[|a|..] && y == (b + y)[|b|..];
  }

  lemma SamePrefix(p: string, x: string, y: string)
    requires p + x == p + y
    ensures x == y
  {
    assert x == (p + x)[|p|..] && y == (p + y)[|p|..];
  }

  lemma NumberThen(m: nat, x: string, n: nat, y: string)
    requires Pad5(m) + x == Pad5(n) + y
    requires x != "" && y != "" && !IsDigit(x[0]) && !IsDigit(y[0])
    ensures m == n && x == y
  {
    Pad5Value(m);
    Pad5Value(n);
    DigitsEnd(Pad5(m), x, Pad5(n), y);
  }

  lemma DecimalThen(m: nat, x: string, n: nat, y: string)
    requires Decimal(m) + x == Decimal(n) + y
    requires x != "" && y != "" && !IsDigit(x[0]) && !IsDigit(y[0])
    ensures m == n && x == y
  {
    DecimalValue(m);
    DecimalValue(n);
    DigitsEnd(Decimal(m), x, Decimal(n), y);
  }

  // ---------- The names ----------

  const INDEX_FILE := "model.safetensors.index.json"

  function WorkerFile(w: nat, i: nat, n: nat): string {
    "worker_" + (Decimal(w) + ("_model-" + (Pad5(i) + ("-of-" + (Pad5(n) + ".safetensors")))))
  }

  function WorkerIndex(w: nat): string {
    "worker_" + (Decimal(w) + "_model.safetensors.index.json")
  }

  function ModelFile(k: nat): string {
    "model-" + (Pad5(k) + ".safetensors")
  }

  function FinalFile(k: nat, total: nat): string {
    "model-" + (Pad5(k) + ("-of-" + (Pad5(total) + ".safetensors")))
  }

  // Which number stands where in each name.
  lemma NamesSpelled(w: nat, i: nat, n: nat, k: nat, total: nat)
    ensures exists a, b, c :: Spells(a, w) && SpellsPadded(b, i) && SpellsPadded(c, n)
              && WorkerFile(w, i, n) == "worker_" + (a + ("_model-" + (b + ("-of-" + (c + ".safetensors")))))
    ensures exists a :: Spells(a, w) && WorkerIndex(w) == "worker_" + (a + "_model.safetensors.index.json")
    ensures exists a :: SpellsPadded(a, k) && ModelFile(k) == "model-" + (a + ".safetensors")
    ensures exists a, b :: SpellsPadded(a, k) && SpellsPadded(b, total)
              && FinalFile(k, total) == "model-" + (a + ("-of-" + (b + ".safetensors")))
    ensures INDEX_FILE == "model.safetensors.index.json"
  {
    hide Decimal, Pad5, Spells, SpellsPadded;
    DecimalSpells(w);
    Pad5Spells(i);
    Pad5Spells(n);
    Pad5Spells(k);
    Pad5Spells(total);
  }

  // The names a worker writes; no final name is among them.
  predicate Temporary(f: string) {
    f != "" && f[0] == 'w'
  }

  lemma WorkerFileUnique(w: nat, i: nat, n: nat, w': nat, i': nat, n': nat)
    requires WorkerFile(w, i, n) == WorkerFile(w', i', n')
    ensures w == w' && i == i' && n == n'
  {
    hide Decimal, Pad5;
    var x, x' := Pad5(n) + ".safetensors", Pad5(n') + ".safetensors";
    var y, y' := Pad5(i) + ("-of-" + x), Pad5(i') + ("-of-" + x');
    SamePrefix("worker_", Decimal(w) + ("_model-" + y), Decimal(w') + ("_model-" + y'));
    DecimalThen(w, "_model-" + y, w', "_model-" + y');
    SamePrefix("_model-", y, y');
    NumberThen(i, "-of-" + x, i', "-of-" + x');
    SamePrefix("-of-", x, x');
    NumberThen(n, ".safetensors", n', ".safetensors");
  }

  lemma WorkerIndexUnique(w: nat, w': nat)
    requires WorkerIndex(w) == WorkerIndex(w')
    ensures w == w'
  {
    hide Decimal;
    var tail := "_model.safetensors.index.json";
    SamePrefix("worker_", Decimal(w) + tail, Decimal(w') + tail);
    DecimalThen(w, tail, w', tail);
  }

  lemma WorkerIndexIsNoFile(w: nat, w': nat, i: nat, n: nat)
    ensures WorkerIndex(w) != WorkerFile(w', i, n)
  {
    hide Decimal, Pad5;
    if WorkerIndex(w) == WorkerFile(w', i, n) {
      var tail := "_model.safetensors.index.json";
      var tail' := "_model-" + (Pad5(i) + ("-of-" + (Pad5(n) + ".safetensors")));
      SamePrefix("worker_", Decimal(w) + tail, Decimal(w') + tail');
      assert tail[6] == '.' && tail'[6] == '-';
      DecimalThen(w, tail, w', tail');
    }
  }

  lemma ModelFileUnique(k: nat, k': nat)
    requires ModelFile(k) == ModelFile(k')
    ensures k == k'
  {
    hide Pad5;
    SamePrefix("model-", Pad5(k) + ".safetensors", Pad5(k') + ".safetensors");
    NumberThen(k, ".safetensors", k', ".safetensors");
  }

  lemma FinalFileUnique(k: nat, total: nat, k': nat, total': nat)
    requires FinalFile(k, total) == FinalFile(k', total')
    ensures k == k' && total == total'
  {
    hide Pad5;
    var x, x' := Pad5(total) + ".safetensors", Pad5(total') + ".safetensors";
    SamePrefix("model-", Pad5(k) + ("-of-" + x), Pad5(k') + ("-of-" + x'));
    NumberThen(k, "-of-" + x, k', "-of-" + x');
    SamePrefix("-of-", x, x');
    NumberThen(total, ".safetensors", total', ".safetensors");
  }

  lemma ModelIsNotFinal(k: nat, k': nat, total: nat)
    ensures ModelFile(k) != FinalFile(k', total)
  {
    hide Pad5;
    if ModelFile(k) == FinalFile(k', total) {
      var tail := "-of-" + (Pad5(total) + ".safetensors");
      assert tail[0] == '-' && ".safetensors"[0] == '.';
      SamePrefix("model-", Pad5(k) + ".safetensors", Pad5(k') + tail);
      NumberThen(k, ".safetensors", k', tail);
    }
  }

  // Temporary names, numbered names and the name of the index never coincide.
  lemma NamesApart(w: nat, i: nat, n: nat, k: nat, total: nat)
    ensures Temporary(WorkerFile(w, i, n)) && Temporary(WorkerIndex(w))
    ensures !Temporary(ModelFile(k)) && !Temporary(FinalFile(k, total)) && !Temporary(INDEX_FILE)
    ensures ModelFile(k) != INDEX_FILE && FinalFile(k, total) != INDEX_FILE
  {
    hide Decimal, Pad5;
    assert ModelFile(k)[5] == FinalFile(k, total)[5] == '-' && INDEX_FILE[5] == '.';
    assert ModelFile(k)[0] == FinalFile(k, total)[0] == INDEX_FILE[0] == 'm';
  }
}

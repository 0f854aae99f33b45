/** Pairing of checkpoint keys by renaming linear_q_down_proj to linear_kv_down_proj and back. */
module KeyPairs {
  const Q_DOWN := "linear_q_down_proj"
  const KV_DOWN := "linear_kv_down_proj"

  predicate StartsWith(s: string, w: string) {
    |w| <= |s| && s[..|w|] == w
  }

  // w in s
  predicate Contains(s: string, w: string) {
    StartsWith(s, w) || (s != "" && Contains(s[1..], w))
  }

  // s.replace(from, to): leftmost occurrences first, not overlapping.
  function Replace(s: string, from: string, to: string): string
    requires from != ""
    decreases |s|
  {
    if s == "" then ""
    else if StartsWith(s, from) then to + Replace(s[|from|..], from, to)
    else [s[0]] + Replace(s[1..], from, to)
  }

  lemma StartAt(s: string, w: string, i: nat)
    ensures i < |w| && StartsWith(s, w) ==> s[i] == w[i]
  {
    if i < |w| && StartsWith(s, w) {
      assert s[..|w|][i] == s[i];
    }
  }

  // The first character of a marker occurs nowhere else in it.
  predicate Marker(w: string, c: char) {
    w != "" && w[0] == c && c !in w[1..]
  }

  // A stretch without the markers' first character was not touched by the replacement.
  lemma {:induction false} Untouched(s: string, from: string, to: string, c: char, w: string)
    requires Marker(from, c) && Marker(to, c) && c !in w
    requires StartsWith(Replace(s, from, to), w)
    ensures StartsWith(s, w)
    decreases |w|
  {
    if w != "" {
      var r := Replace(s, from, to);
      assert r[0] == r[..|w|][0] == w[0];
      assert w[0] in w;
      StartAt(r, to, 0);
      if !StartsWith(s, from) {
        var rest := Replace(s[1..], from, to);
        assert rest == r[1..];
        assert rest[..|w| - 1] == r[..|w|][1..] == w[1..];
        Untouched(s[1..], from, to, c, w[1..]);
        assert s[..|w|] == [s[0]] + s[1..][..|w| - 1];
      }
    }
  }

  // Where no marker was replaced, an occurrence of either marker was there before.
  lemma OldOccurrence(s: string, from: string, to: string, c: char, w: string)
    requires Marker(from, c) && Marker(to, c) && Marker(w, c)
    requires s != "" && !StartsWith(s, from) && StartsWith(Replace(s, from, to), w)
    ensures StartsWith(s, w)
  {
    var r, rest := Replace(s, from, to), Replace(s[1..], from, to);
    assert rest == r[1..] && r[0] == s[0];
    assert rest[..|w| - 1] == r[..|w|][1..] == w[1..];
    assert r[..|w|][0] == w[0];
    Untouched(s[1..], from, to, c, w[1..]);
    assert s[..|w|] == [s[0]] + s[1..][..|w| - 1];
  }

  // Replacing a marker and replacing back restores a string that did not hold the other marker.
  lemma {:induction false} ReplaceBack(s: string, from: string, to: string, c: char)
    requires Marker(from, c) && Marker(to, c) && !Contains(s, to)
    ensures Replace(Replace(s, from, to), to, from) == s
    decreases |s|
  {
    if s != "" {
      var r := Replace(s, from, to);
      if StartsWith(s, from) {
        SuffixContains(s, |from|, to);
        ReplaceBack(s[|from|..], from, to, c);
        assert r[..|to|] == to && r[|to|..] == Replace(s[|from|..], from, to);
        assert s == from + s[|from|..];
      } else {
        if StartsWith(r, to) {
          OldOccurrence(s, from, to, c, to);
        }
        ReplaceBack(s[1..], from, to, c);
        assert r[1..] == Replace(s[1..], from, to);
        assert s == [s[0]] + s[1..];
      }
    }
  }

  lemma {:induction false} SuffixContains(s: string, k: nat, w: string)
    requires k <= |s|
    ensures Contains(s[k..], w) ==> Contains(s, w)
  {
    if k > 0 {
      SuffixContains(s[1..], k - 1, w);
      assert s[1..][k - 1..] == s[k..];
    } else {
      assert s[0..] == s;
    }
  }

  // Two markers that differ before either ends.
  predicate Differ(a: string, b: string) {
    exists i :: 0 <= i < |a| && i < |b| && a[i] != b[i]
  }

  // No occurrence of a marker survives its replacement, nor is one created.
  lemma {:induction false} NoneLeft(s: string, from: string, to: string, c: char)
    requires Marker(from, c) && Marker(to, c) && Differ(from, to)
    ensures !Contains(Replace(s, from, to), from)
    decreases |s|
  {
    var r := Replace(s, from, to);
    if s != "" {
      if StartsWith(s, from) {
        NoneLeft(s[|from|..], from, to, c);
        NotAcross(to, Replace(s[|from|..], from, to), from, c);
      } else {
        NoneLeft(s[1..], from, to, c);
        assert r[1..] == Replace(s[1..], from, to);
        if StartsWith(r, from) {
          OldOccurrence(s, from, to, c, from);
        }
      }
    }
  }

  lemma {:induction false} NotAcross(to: string, rest: string, from: string, c: char)
    requires Marker(from, c) && Marker(to, c) && Differ(from, to) && !Contains(rest, from)
    ensures !Contains(to + rest, from)
  {
    var all := to + rest;
    var i :| 0 <= i < |from| && i < |to| && from[i] != to[i];
    assert all[i] == to[i];
    StartAt(all, from, i);
    NotInside(to[1..], rest, from, c);
    assert all[1..] == to[1..] + rest;
  }

  lemma {:induction false} NotInside(a: string, rest: string, from: string, c: char)
    requires Marker(from, c) && c !in a && !Contains(rest, from)
    ensures !Contains(a + rest, from)
  {
    if a == "" {
      assert a + rest == rest;
    } else {
      assert (a + rest)[0] == a[0] && a[0] in a;
      assert (a + rest)[1..] == a[1..] + rest;
      NotInside(a[1..], rest, from, c);
    }
  }

  lemma {:induction false} SomeMade(s: string, from: string, to: string)
    requires from != "" && to != "" && Contains(s, from)
    ensures Contains(Replace(s, from, to), to)
    decreases |s|
  {
    var r := Replace(s, from, to);
    if s != "" {
      if StartsWith(s, from) {
        assert r[..|to|] == to;
      } else {
        SomeMade(s[1..], from, to);
        assert r[1..] == Replace(s[1..], from, to);
      }
    }
  }

  // ---------- The pair of a key ----------

  predicate Special(key: string) {
    Contains(key, Q_DOWN) || Contains(key, KV_DOWN)
  }

  predicate Mixed(key: string) {
    Contains(key, Q_DOWN) && Contains(key, KV_DOWN)
  }

  function PairKey(key: string): string {
    if Contains(key, Q_DOWN) then Replace(key, Q_DOWN, KV_DOWN) else Replace(key, KV_DOWN, Q_DOWN)
  }

  lemma MarkersDiffer()
    ensures Marker(Q_DOWN, 'l') && Marker(KV_DOWN, 'l') && Differ(Q_DOWN, KV_DOWN) && Differ(KV_DOWN, Q_DOWN)
  {
    assert Q_DOWN[7] == 'q' && KV_DOWN[7] == 'k';
  }

  // Pairing is mutual exactly for keys that hold only one of the two markers.
  lemma PairIsMutualIffUnmixed(key: string)
    requires Special(key)
    ensures Special(PairKey(key)) && !Mixed(PairKey(key)) && PairKey(key) != key
    ensures PairKey(PairKey(key)) == key <==> !Mixed(key)
  {
    MarkersDiffer();
    hide Marker, Differ;
    var pair := PairKey(key);
    if Contains(key, Q_DOWN) {
      NoneLeft(key, Q_DOWN, KV_DOWN, 'l');
      SomeMade(key, Q_DOWN, KV_DOWN);
      assert PairKey(pair) == Replace(pair, KV_DOWN, Q_DOWN);
      NoneLeft(pair, KV_DOWN, Q_DOWN, 'l');
      if !Contains(key, KV_DOWN) {
        ReplaceBack(key, Q_DOWN, KV_DOWN, 'l');
      }
    } else {
      NoneLeft(key, KV_DOWN, Q_DOWN, 'l');
      SomeMade(key, KV_DOWN, Q_DOWN);
      assert PairKey(pair) == Replace(pair, Q_DOWN, KV_DOWN);
      ReplaceBack(key, KV_DOWN, Q_DOWN, 'l');
    }
  }
}

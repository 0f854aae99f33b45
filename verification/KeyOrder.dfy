/** The order of the key groups and of the chunks, and what a pair is called. */
module KeyOrder {
  import opened KeyGroups
  import opened KeyPairs

  // ---------- Names ----------

  lemma {:induction false} SkipPrefix(prefix: string, rest: string, from: string, to: string, c: char)
    requires Marker(from, c) && c !in prefix
    ensures Replace(prefix + rest, from, to) == prefix + Replace(rest, from, to)
  {
    if prefix == "" {
      assert prefix + rest == rest;
    } else {
      assert (prefix + rest)[1..] == prefix[1..] + rest;
      assert prefix[0] in prefix;
      StartAt(prefix + rest, from, 0);
      SkipPrefix(prefix[1..], rest, from, to, c);
    }
  }

  lemma ReplaceMarker(prefix: string, suffix: string, from: string, to: string, c: char)
    requires Marker(from, c) && c !in prefix && c !in suffix
    ensures Replace(prefix + from + suffix, from, to) == prefix + to + suffix
  {
    assert prefix + from + suffix == prefix + (from + suffix);
    SkipPrefix(prefix, from + suffix, from, to, c);
    assert (from + suffix)[..|from|] == from && (from + suffix)[|from|..] == suffix;
    SkipPrefix(suffix, "", from, to, c);
    assert suffix + "" == suffix;
    assert prefix + (to + suffix) == prefix + to + suffix;
  }

  lemma {:induction false} ContainsMarker(prefix: string, from: string, suffix: string)
    ensures Contains(prefix + from + suffix, from)
  {
    var s := prefix + from + suffix;
    if prefix == "" {
      assert s[..|from|] == from;
    } else {
      assert s[1..] == prefix[1..] + from + suffix;
      ContainsMarker(prefix[1..], from, suffix);
    }
  }

  lemma {:induction false} NoMarker(s: string, w: string, c: char)
    requires Marker(w, c) && c !in s
    ensures !Contains(s, w)
  {
    StartAt(s, w, 0);
    if s != "" {
      assert s[0] in s;
      NoMarker(s[1..], w, c);
    }
  }

  // The query's pair is the key and value projection of the same layer, and the other way round.
  lemma PairsByName(prefix: string, suffix: string)
    requires 'l' !in prefix && 'l' !in suffix
    ensures PairKey(prefix + "linear_q_down_proj" + suffix) == prefix + "linear_kv_down_proj" + suffix
    ensures PairKey(prefix + "linear_kv_down_proj" + suffix) == prefix + "linear_q_down_proj" + suffix
    ensures Special(prefix + "linear_q_down_proj" + suffix) && Special(prefix + "linear_kv_down_proj" + suffix)
    ensures !Special(prefix + suffix)
  {
    MarkersDiffer();
    var q, kv := prefix + Q_DOWN + suffix, prefix + KV_DOWN + suffix;
    ContainsMarker(prefix, Q_DOWN, suffix);
    ContainsMarker(prefix, KV_DOWN, suffix);
    ReplaceMarker(prefix, suffix, Q_DOWN, KV_DOWN, 'l');
    ReplaceMarker(prefix, suffix, KV_DOWN, Q_DOWN, 'l');
    NoMarker(prefix + suffix, Q_DOWN, 'l');
    NoMarker(prefix + suffix, KV_DOWN, 'l');
    hide Replace, Contains, Marker, Differ;
    PairIsMutualIffUnmixed(q);
  }

  // ---------- Groups ----------

  // Key k of the list heads the group, with its pair behind it if that is listed.
  ghost predicate HeadedBy(group: seq<string>, rest: seq<string>, k: nat, all: seq<string>) {
    k < |rest| && group == if HasPair(rest[k], all) then [rest[k], PairKey(rest[k])] else [rest[k]]
  }

  // The groups are headed by the keys at these positions, which rise.
  ghost predicate HeadsOf(heads: seq<nat>, rest: seq<string>, all: seq<string>, groups: seq<seq<string>>) {
    && |heads| == |groups| && (forall g, h :: 0 <= g < h < |heads| ==> heads[g] < heads[h])
    && (forall g :: 0 <= g < |heads| ==> HeadedBy(groups[g], rest, heads[g], all))
  }

  function Shifted(s: seq<nat>): (r: seq<nat>)
    ensures |r| == |s| && forall k :: 0 <= k < |s| ==> r[k] == s[k] + 1
  {
    if s == [] then [] else [s[0] + 1] + Shifted(s[1..])
  }

  lemma LaterHead(group: seq<string>, rest: seq<string>, k: nat, all: seq<string>)
    requires rest != [] && HeadedBy(group, rest[1..], k, all)
    ensures HeadedBy(group, rest, k + 1, all)
  {
    hide HasPair, PairKey;
  }

  lemma LaterHeads(heads: seq<nat>, rest: seq<string>, all: seq<string>, groups: seq<seq<string>>)
    requires rest != [] && HeadsOf(heads, rest[1..], all, groups)
    ensures HeadsOf(Shifted(heads), rest, all, groups)
  {
    hide HeadedBy;
    forall g | 0 <= g < |heads| ensures HeadedBy(groups[g], rest, Shifted(heads)[g], all) {
      LaterHead(groups[g], rest, heads[g], all);
    }
  }

  lemma FirstHead(heads: seq<nat>, rest: seq<string>, all: seq<string>, groups: seq<seq<string>>, group: seq<string>)
    requires HeadsOf(heads, rest, all, groups) && HeadedBy(group, rest, 0, all)
    requires forall g :: 0 <= g < |heads| ==> heads[g] > 0
    ensures HeadsOf([0] + heads, rest, all, [group] + groups)
  {
    hide HeadedBy;
  }

  // Each group starts with the first of its keys in the list, and the groups follow the list.
  lemma {:induction false} GroupsFollowList(rest: seq<string>, paired: set<string>, all: seq<string>)
    returns (heads: seq<nat>)
    ensures HeadsOf(heads, rest, all, Groups(rest, paired, all))
  {
    hide HasPair, PairKey, HeadsOf;
    if rest == [] {
      heads := [];
      NoHeads(rest, all);
    } else if rest[0] in paired {
      var later := GroupsFollowList(rest[1..], paired, all);
      heads := Shifted(later);
      LaterHeads(later, rest, all, Groups(rest[1..], paired, all));
    } else {
      var key := rest[0];
      var paired' := if HasPair(key, all) then paired + {key, PairKey(key)} else paired;
      var later := GroupsFollowList(rest[1..], paired', all);
      LaterHeads(later, rest, all, Groups(rest[1..], paired', all));
      heads := [0] + Shifted(later);
      var group := if HasPair(key, all) then [key, PairKey(key)] else [key];
      FirstHead(Shifted(later), rest, all, Groups(rest[1..], paired', all), group);
    }
  }

  lemma NoHeads(rest: seq<string>, all: seq<string>)
    ensures HeadsOf([], rest, all, [])
  {
  }

  // A pair is grouped if and only if the key is marked and its pair is listed.
  lemma HasPairIff(key: string, all: seq<string>)
    ensures HasPair(key, all)
            <==> (Contains(key, "linear_q_down_proj") || Contains(key, "linear_kv_down_proj")) && PairKey(key) in all
  {
    hide Contains, PairKey;
  }

  // ---------- Chunks ----------

  // Dealing is round-robin: group g is number g / workers of chunk g % workers.
  lemma {:induction false} DealtAt<T>(groups: seq<T>, g: nat, workers: nat)
    requires g < |groups| && workers > 0
    ensures g / workers < |Dealt(groups, g % workers, workers)|
    ensures Dealt(groups, g % workers, workers)[g / workers] == groups[g]
  {
    var last := |groups| - 1;
    if g < last {
      DealtAt(groups[..last], g, workers);
    } else {
      ShareSize(groups[..last], g % workers, workers);
    }
  }
}

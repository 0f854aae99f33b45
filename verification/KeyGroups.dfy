/** Grouping of checkpoint keys and their round-robin distribution to workers. */
module KeyGroups {
  import opened Sequences
  import opened Arithmetic
  import opened KeyPairs

  // The key's pair is listed, so the two form one group.
  predicate HasPair(key: string, all: seq<string>) {
    Special(key) && PairKey(key) in all
  }

  // The groups opened by the keys still to visit, when those in paired are already placed.
  function Groups(rest: seq<string>, paired: set<string>, all: seq<string>): seq<seq<string>> {
    if rest == [] then []
    else
      var key := rest[0];
      if key in paired then Groups(rest[1..], paired, all)
      else if HasPair(key, all) then
        [[key, PairKey(key)]] + Groups(rest[1..], paired + {key, PairKey(key)}, all)
      else [[key]] + Groups(rest[1..], paired, all)
  }

  method GroupKeys(allKeys: seq<string>) returns (keyGroups: seq<seq<string>>)
    ensures keyGroups == Groups(allKeys, {}, allKeys)
  {
    hide Special, PairKey, Groups;
    keyGroups := [];
    assert allKeys[0..] == allKeys;
    var pairedKeys: set<string> := {};
    var i := 0;
    while i < |allKeys|
      invariant 0 <= i <= |allKeys|
      invariant keyGroups + Groups(allKeys[i..], pairedKeys, allKeys) == Groups(allKeys, {}, allKeys)
    {
      var key := allKeys[i];
      VisitStep(keyGroups, allKeys, i, pairedKeys);
      i := i + 1;
      if key in pairedKeys {
        continue;
      }
      if Special(key) {
        var pairKey := PairKey(key);
        if pairKey in allKeys {
          keyGroups := keyGroups + [[key, pairKey]];
          pairedKeys := pairedKeys + {key, pairKey};
        } else {
          keyGroups := keyGroups + [[key]];
        }
      } else {
        keyGroups := keyGroups + [[key]];
      }
    }
    assert allKeys[i..] == [] && Groups([], pairedKeys, allKeys) == [] by {
      NothingToVisit(pairedKeys, allKeys);
    }
  }

  lemma NothingToVisit(paired: set<string>, all: seq<string>)
    ensures Groups([], paired, all) == []
  {
  }

  lemma VisitStep(groups: seq<seq<string>>, all: seq<string>, i: nat, paired: set<string>)
    requires i < |all|
    ensures var key := all[i];
            groups + Groups(all[i..], paired, all)
            == if key in paired then groups + Groups(all[i + 1..], paired, all)
               else if HasPair(key, all) then
                 groups + [[key, PairKey(key)]] + Groups(all[i + 1..], paired + {key, PairKey(key)}, all)
               else groups + [[key]] + Groups(all[i + 1..], paired, all)
  {
    hide HasPair, PairKey;
    assert all[i..][0] == all[i] && all[i..][1..] == all[i + 1..];
  }

  // ---------- The groups partition the keys ----------

  // No key that holds both markers has its pair in the list.
  predicate NoMixedPair(keys: seq<string>) {
    forall key :: key in keys && Mixed(key) ==> PairKey(key) !in keys
  }

  // A key that holds both markers is listed before its pair, if that is listed, and no other key has that pair.
  predicate ClaimsAlone(keys: seq<string>, i: nat, j: nat)
    requires i < |keys| && j < |keys|
  {
    Mixed(keys[i]) && keys[j] == PairKey(keys[i]) ==>
      i < j && forall m :: 0 <= m < |keys| && m != i && Special(keys[m]) ==> PairKey(keys[m]) != keys[j]
  }

  predicate PairsClaimedOnce(keys: seq<string>) {
    forall i: nat, j: nat :: i < |keys| && j < |keys| ==> ClaimsAlone(keys, i, j)
  }

  // A key is in the groups exactly as often as it is in the list.
  ghost predicate EachKeyOnce(keys: seq<string>) {
    multiset(Flatten(Groups(keys, {}, keys))) == multiset(keys)
  }

  // The placed keys are those of the groups that visited keys opened; a visited key with a pair is placed.
  ghost predicate PlacedBy(done: seq<string>, paired: set<string>, all: seq<string>) {
    && (forall q :: q in paired ==> PlacedBySome(done, q, paired, all))
    && (forall g :: g in done && HasPair(g, all) ==> g in paired)
  }

  ghost predicate Placed(g: string, q: string, paired: set<string>, all: seq<string>) {
    HasPair(g, all) && g in paired && PairKey(g) in paired && (q == g || q == PairKey(g))
  }

  ghost predicate PlacedBySome(done: seq<string>, q: string, paired: set<string>, all: seq<string>) {
    exists g :: g in done && Placed(g, q, paired, all)
  }

  lemma PairMate(key: string, all: seq<string>)
    requires key in all && !Mixed(key) && HasPair(key, all)
    ensures PairKey(key) != key && PairKey(PairKey(key)) == key && HasPair(PairKey(key), all) && !Mixed(PairKey(key))
  {
    PairIsMutualIffUnmixed(key);
  }

  // What the two conditions on mixed keys say about the key visited after done.
  lemma VisitedClaims(done: seq<string>, key: string, tail: seq<string>, all: seq<string>, g: string)
    requires all == (done + [key]) + tail && Distinct(all) && PairsClaimedOnce(all) && HasPair(key, all)
    ensures Mixed(key) ==> PairKey(key) !in done
    ensures Mixed(key) && g in done && Special(g) ==> PairKey(g) != PairKey(key)
    ensures g in done && Mixed(g) && HasPair(g, all) ==> PairKey(key) != PairKey(g)
  {
    hide Special, PairKey, Mixed;
    var n := |done|;
    assert all[n] == key;
    assert forall k :: 0 <= k < n ==> all[k] == done[k];
    var p :| 0 <= p < |all| && all[p] == PairKey(key);
    assert ClaimsAlone(all, n, p);
    if PairKey(key) in done {
      var d :| 0 <= d < n && done[d] == PairKey(key);
      assert ClaimsAlone(all, n, d);
    }
    if g in done {
      var k :| 0 <= k < n && done[k] == g;
      if HasPair(g, all) {
        var r :| 0 <= r < |all| && all[r] == PairKey(g);
        assert ClaimsAlone(all, k, r);
      }
    }
  }

  // The pair of a key that opens a group is neither visited nor placed yet.
  lemma VisitPair(done: seq<string>, key: string, tail: seq<string>, paired: set<string>, all: seq<string>)
    requires all == (done + [key]) + tail && Distinct(all) && PairsClaimedOnce(all) && HasPair(key, all)
    requires PlacedBy(done, paired, all) && key !in paired
    ensures PairKey(key) !in paired && PairKey(key) !in done && PairKey(key) != key
  {
    hide PairKey, PairsClaimedOnce, Distinct, Placed, Replace, Contains;
    PairIsMutualIffUnmixed(key);
    VisitedClaims(done, key, tail, all, key);
    var pair := PairKey(key);
    if pair in paired {
      var g :| g in done && Placed(g, pair, paired, all);
      PlacedOnce(done, key, tail, paired, all, g);
    } else if pair in done && !Mixed(key) {
      PairMate(key, all);
    }
  }

  // No earlier group can hold the pair of the key.
  lemma PlacedOnce(done: seq<string>, key: string, tail: seq<string>, paired: set<string>, all: seq<string>, g: string)
    requires all == (done + [key]) + tail && Distinct(all) && PairsClaimedOnce(all) && HasPair(key, all)
    requires key !in paired && g in done
    ensures !Placed(g, PairKey(key), paired, all)
  {
    hide PairKey, PairsClaimedOnce, Distinct, Mixed;
    PairIsMutualIffUnmixed(key);
    VisitedClaims(done, key, tail, all, g);
    HeadIsNew(done, key, tail, all);
    if Special(g) {
      PairIsMutualIffUnmixed(g);
    }
  }

  lemma PlacePair(done: seq<string>, key: string, paired: set<string>, all: seq<string>)
    requires HasPair(key, all) && PlacedBy(done, paired, all)
    ensures PlacedBy(done + [key], paired + {key, PairKey(key)}, all)
  {
    hide HasPair, PairKey, PlacedBySome;
    var more := paired + {key, PairKey(key)};
    forall q | q in more ensures PlacedBySome(done + [key], q, more, all) {
      if q in paired {
        StillPlaced(done, key, q, paired, more, all);
      } else {
        NowPlaced(done, key, q, more, all);
      }
    }
  }

  lemma StillPlaced(done: seq<string>, key: string, q: string, paired: set<string>, more: set<string>, all: seq<string>)
    requires PlacedBySome(done, q, paired, all) && paired <= more
    ensures PlacedBySome(done + [key], q, more, all)
  {
    hide HasPair, PairKey;
    var g :| g in done && Placed(g, q, paired, all);
    assert g in done + [key] && Placed(g, q, more, all);
  }

  lemma NowPlaced(done: seq<string>, key: string, q: string, more: set<string>, all: seq<string>)
    requires HasPair(key, all) && key in more && PairKey(key) in more && (q == key || q == PairKey(key))
    ensures PlacedBySome(done + [key], q, more, all)
  {
    hide HasPair, PairKey;
    assert key in done + [key] && Placed(key, q, more, all);
  }

  lemma VisitSingle(done: seq<string>, key: string, paired: set<string>, all: seq<string>)
    requires PlacedBy(done, paired, all) && (key in paired || !HasPair(key, all))
    ensures PlacedBy(done + [key], paired, all)
  {
    hide HasPair, PlacedBySome;
    forall q | q in paired ensures PlacedBySome(done + [key], q, paired, all) {
      StillPlaced(done, key, q, paired, paired, all);
    }
  }

  function Once(b: bool): nat {
    if b then 1 else 0
  }

  lemma {:induction false} GroupsCount(done: seq<string>, rest: seq<string>, paired: set<string>,
                                       all: seq<string>, x: string)
    requires all == done + rest && Distinct(all) && PairsClaimedOnce(all)
    requires PlacedBy(done, paired, all)
    ensures multiset(Flatten(Groups(rest, paired, all)))[x] == Once(x in rest && x !in paired)
    decreases rest
  {
    hide PlacedBy, PairsClaimedOnce, HasPair, PairKey, Distinct;
    if rest != [] {
      var key, tail := rest[0], rest[1..];
      assert rest == [key] + tail && all == (done + [key]) + tail && key == all[|done|];
      HeadIsNew(done, key, tail, all);
      if key in paired {
        VisitSingle(done, key, paired, all);
        GroupsCount(done + [key], tail, paired, all, x);
      } else if HasPair(key, all) {
        var pair := PairKey(key);
        VisitPair(done, key, tail, paired, all);
        PlacePair(done, key, paired, all);
        GroupsCount(done + [key], tail, paired + {key, pair}, all, x);
        PairIsAhead(done, key, tail, all, pair);
        CountCons([key, pair], Groups(tail, paired + {key, pair}, all), x);
      } else {
        VisitSingle(done, key, paired, all);
        GroupsCount(done + [key], tail, paired, all, x);
        CountCons([key], Groups(tail, paired, all), x);
      }
    }
  }

  lemma HeadIsNew(done: seq<string>, key: string, tail: seq<string>, all: seq<string>)
    requires all == done + [key] + tail && Distinct(all)
    ensures key !in tail && key !in done
  {
    forall i | 0 <= i < |tail| ensures tail[i] != key {
      assert all[|done| + 1 + i] == tail[i] && all[|done|] == key;
    }
    forall i | 0 <= i < |done| ensures done[i] != key {
      assert all[i] == done[i] && all[|done|] == key;
    }
  }

  lemma PairIsAhead(done: seq<string>, key: string, tail: seq<string>, all: seq<string>, pair: string)
    requires all == (done + [key]) + tail && HasPair(key, all) && pair == PairKey(key)
    requires pair !in done && pair != key
    ensures pair in tail
  {
  }

  lemma CountCons(group: seq<string>, groups: seq<seq<string>>, x: string)
    ensures multiset(Flatten([group] + groups))[x] == multiset(group)[x] + multiset(Flatten(groups))[x]
  {
    assert ([group] + groups)[1..] == groups;
    assert Flatten([group] + groups) == group + Flatten(groups);
  }

  lemma DistinctCount(keys: seq<string>, x: string)
    requires Distinct(keys)
    ensures multiset(keys)[x] == Once(x in keys)
    decreases keys
  {
    if keys != [] {
      assert keys == [keys[0]] + keys[1..];
      DistinctCount(keys[1..], x);
    }
  }

  // If every mixed key claims its listed pair alone and ahead of it, every key lands in exactly one group.
  lemma GroupsPartitionTheKeys(keys: seq<string>)
    requires Distinct(keys) && PairsClaimedOnce(keys)
    ensures EachKeyOnce(keys)
  {
    forall x: string
      ensures multiset(Flatten(Groups(keys, {}, keys)))[x] == multiset(keys)[x]
    {
      GroupsCount([], keys, {}, keys, x);
      DistinctCount(keys, x);
    }
  }

  // ---------- When a pair is claimed twice, or too late ----------

  // The keys already placed when key i is visited.
  function PlacedBefore(all: seq<string>, i: nat): set<string>
    requires i <= |all|
  {
    if i == 0 then {}
    else
      var before, key := PlacedBefore(all, i - 1), all[i - 1];
      if key !in before && HasPair(key, all) then before + {key, PairKey(key)} else before
  }

  predicate OpensAt(all: seq<string>, i: nat) {
    i < |all| && all[i] !in PlacedBefore(all, i)
  }

  // Key i opens a group that holds y.
  predicate OpensWith(all: seq<string>, i: nat, y: string) {
    OpensAt(all, i) && (y == all[i] || (HasPair(all[i], all) && y == PairKey(all[i])))
  }

  function FromVisit(all: seq<string>, i: nat): seq<seq<string>>
    requires i <= |all|
  {
    Groups(all[i..], PlacedBefore(all, i), all)
  }

  lemma VisitCounts(all: seq<string>, i: nat, y: string)
    requires i < |all|
    ensures multiset(Flatten(FromVisit(all, i)))[y]
            >= multiset(Flatten(FromVisit(all, i + 1)))[y] + Once(OpensWith(all, i, y))
  {
    hide Special, PairKey, Flatten;
    var key, paired := all[i], PlacedBefore(all, i);
    assert all[i..][0] == key && all[i..][1..] == all[i + 1..];
    if key !in paired {
      if HasPair(key, all) {
        CountCons([key, PairKey(key)], Groups(all[i + 1..], paired + {key, PairKey(key)}, all), y);
      } else {
        CountCons([key], Groups(all[i + 1..], paired, all), y);
      }
    }
  }

  lemma {:induction false} LaterVisitCounts(all: seq<string>, i: nat, j: nat, y: string)
    requires i <= j <= |all|
    ensures multiset(Flatten(FromVisit(all, i)))[y] >= multiset(Flatten(FromVisit(all, j)))[y]
    decreases j - i
  {
    hide FromVisit, OpensWith;
    if i < j {
      VisitCounts(all, i, y);
      LaterVisitCounts(all, i + 1, j, y);
    }
  }

  // Two groups with the same key place it twice.
  lemma TwoOpeners(all: seq<string>, i: nat, j: nat, y: string)
    requires i < j < |all| && OpensWith(all, i, y) && OpensWith(all, j, y)
    ensures multiset(Flatten(Groups(all, {}, all)))[y] >= 2
  {
    FromStart(all);
    hide FromVisit, OpensWith, Groups, Flatten;
    LaterVisitCounts(all, 0, i, y);
    VisitCounts(all, i, y);
    LaterVisitCounts(all, i + 1, j, y);
    VisitCounts(all, j, y);
  }

  lemma FromStart(all: seq<string>)
    ensures FromVisit(all, 0) == Groups(all, {}, all)
  {
    assert all[0..] == all;
  }

  // Whatever is placed was placed by a group opened before.
  lemma {:induction false} OpenerOf(all: seq<string>, i: nat, q: string) returns (g: nat)
    requires i <= |all| && q in PlacedBefore(all, i)
    ensures g < i && OpensWith(all, g, q) && HasPair(all[g], all)
  {
    hide Special, PairKey;
    if q in PlacedBefore(all, i - 1) {
      g := OpenerOf(all, i - 1, q);
    } else {
      g := i - 1;
    }
  }

  // A mixed key always opens a group with its listed pair.
  lemma MixedOpens(all: seq<string>, i: nat)
    requires Distinct(all) && i < |all| && Mixed(all[i]) && PairKey(all[i]) in all
    ensures OpensWith(all, i, all[i]) && OpensWith(all, i, PairKey(all[i]))
  {
    hide PairKey, PlacedBefore, Distinct;
    if all[i] in PlacedBefore(all, i) {
      var g := OpenerOf(all, i, all[i]);
      PairIsMutualIffUnmixed(all[g]);
      OtherPlace(all, g, i);
    }
  }

  lemma OtherPlace(all: seq<string>, i: nat, j: nat)
    requires Distinct(all) && i < |all| && j < |all| && i != j
    ensures all[i] != all[j]
  {
  }

  lemma TwoPlaces(all: seq<string>, i: nat, j: nat, y: string)
    requires i < |all| && j < |all| && i != j && OpensWith(all, i, y) && OpensWith(all, j, y)
    ensures multiset(Flatten(Groups(all, {}, all)))[y] >= 2
  {
    hide OpensWith, Groups;
    if i < j {
      TwoOpeners(all, i, j, y);
    } else {
      TwoOpeners(all, j, i, y);
    }
  }

  // A pair listed before its mixed key has a group already.
  lemma EarlyPairTwice(all: seq<string>, i: nat, j: nat)
    requires Distinct(all) && j < i < |all| && Mixed(all[i]) && all[j] == PairKey(all[i])
    ensures multiset(Flatten(Groups(all, {}, all)))[all[j]] >= 2
  {
    MixedOpens(all, i);
    hide Mixed, PairKey, HasPair, Groups, PlacedBefore;
    var g := j;
    if all[j] in PlacedBefore(all, j) {
      g := OpenerOf(all, j, all[j]);
    }
    TwoPlaces(all, g, i, all[j]);
  }

  // A second key with the same pair places it again, itself or through its own group.
  lemma SharedPairTwice(all: seq<string>, i: nat, m: nat)
    requires Distinct(all) && i < |all| && m < |all| && m != i && Mixed(all[i]) && PairKey(all[i]) in all
    requires Special(all[m]) && PairKey(all[m]) == PairKey(all[i])
    ensures multiset(Flatten(Groups(all, {}, all)))[PairKey(all[i])] >= 2
  {
    MixedOpens(all, i);
    MixedPairMarker(all[i]);
    var y := PairKey(all[i]);
    if all[m] in PlacedBefore(all, m) {
      var h := OpenerOf(all, m, all[m]);
      OtherPlace(all, h, m);
      PairOfPair(all[h], all[m], y);
      assert all[h] == y && all[i] != y;
      hide Groups, PlacedBefore;
      TwoPlaces(all, h, i, y);
    } else {
      hide Groups, PlacedBefore;
      TwoPlaces(all, m, i, y);
    }
  }

  // The pair of a mixed key holds the second marker only.
  lemma MixedPairMarker(key: string)
    requires Mixed(key)
    ensures Contains(PairKey(key), KV_DOWN) && !Contains(PairKey(key), Q_DOWN) && PairKey(key) != key
  {
    PairIsMutualIffUnmixed(key);
    MarkersDiffer();
    hide Marker, Differ;
    NoneLeft(key, Q_DOWN, KV_DOWN, 'l');
  }

  // If h has pair g, and g has a pair with the second marker only, then h is that pair.
  lemma PairOfPair(h: string, g: string, y: string)
    requires Special(h) && PairKey(h) == g && Special(g) && PairKey(g) == y
    requires Contains(y, KV_DOWN) && !Contains(y, Q_DOWN)
    ensures h == y
  {
    PairIsMutualIffUnmixed(h);
    PairIsMutualIffUnmixed(g);
    MarkersDiffer();
    hide Marker, Differ, Replace;
    if Contains(h, Q_DOWN) {
      NoneLeft(h, Q_DOWN, KV_DOWN, 'l');
      assert !Contains(g, Q_DOWN) && Contains(g, KV_DOWN);
      SomeMade(g, KV_DOWN, Q_DOWN);
    }
  }

  // For the list as it is, every key is placed exactly once if and only if each mixed key whose pair is listed
  // comes before that pair and is the only listed key with that pair.
  lemma PartitionIffClaimedOnce(keys: seq<string>)
    requires Distinct(keys)
    ensures EachKeyOnce(keys) <==> PairsClaimedOnce(keys)
  {
    if PairsClaimedOnce(keys) {
      GroupsPartitionTheKeys(keys);
    } else {
      var i: nat, j: nat :| i < |keys| && j < |keys| && !ClaimsAlone(keys, i, j);
      PlacedTwice(keys, i, j);
      DistinctCount(keys, keys[j]);
    }
  }

  lemma PlacedTwice(keys: seq<string>, i: nat, j: nat)
    requires Distinct(keys) && i < |keys| && j < |keys| && !ClaimsAlone(keys, i, j)
    ensures multiset(Flatten(Groups(keys, {}, keys)))[keys[j]] >= 2
  {
    PairIsMutualIffUnmixed(keys[i]);
    hide Groups, PairKey, Mixed;
    if j < i {
      EarlyPairTwice(keys, i, j);
    } else {
      var m :| 0 <= m < |keys| && m != i && Special(keys[m]) && PairKey(keys[m]) == keys[j];
      SharedPairTwice(keys, i, m);
    }
  }

  // A concrete list that is not partitioned: a key with both markers, after its pair.
  lemma MixedKeyExample()
    ensures var key := Q_DOWN + KV_DOWN;
            Mixed(key) && Distinct([PairKey(key), key]) && !EachKeyOnce([PairKey(key), key])
  {
    var key := Q_DOWN + KV_DOWN;
    assert key[..|Q_DOWN|] == Q_DOWN && key[|Q_DOWN|..] == KV_DOWN && KV_DOWN[..|KV_DOWN|] == KV_DOWN;
    SuffixContains(key, |Q_DOWN|, KV_DOWN);
    assert Mixed(key);
    hide Mixed, PairKey, EachKeyOnce;
    MixedPairMarker(key);
    var keys := [PairKey(key), key];
    assert !ClaimsAlone(keys, 1, 0);
    PartitionIffClaimedOnce(keys);
  }

  // Every listing of the same keys is partitioned exactly when no mixed key's pair is among them.
  lemma PartitionInEveryOrderIffNoMixedPair(keys: seq<string>)
    requires Distinct(keys)
    ensures (forall listing: seq<string> :: multiset(listing) == multiset(keys) ==> EachKeyOnce(listing))
            <==> NoMixedPair(keys)
  {
    if NoMixedPair(keys) {
      forall listing: seq<string> | multiset(listing) == multiset(keys) ensures EachKeyOnce(listing) {
        SameKeysSameConditions(keys, listing);
        NoMixedPairClaims(listing);
        GroupsPartitionTheKeys(listing);
      }
    } else {
      var x :| x in keys && Mixed(x) && PairKey(x) in keys;
      var listing := BadListing(keys, x);
      assert !EachKeyOnce(listing);
    }
  }

  lemma NoMixedPairClaims(keys: seq<string>)
    requires NoMixedPair(keys)
    ensures PairsClaimedOnce(keys)
  {
    hide Mixed, PairKey;
  }

  lemma SameKeysSameConditions(keys: seq<string>, listing: seq<string>)
    requires multiset(listing) == multiset(keys) && Distinct(keys)
    ensures Distinct(listing) && (NoMixedPair(keys) ==> NoMixedPair(listing))
  {
    SameMembers(listing, keys);
    forall i, j | 0 <= i < j < |listing| ensures listing[i] != listing[j] {
      DistinctCount(keys, listing[i]);
      TwicePresent(listing, i, j);
    }
  }

  lemma TwicePresent(s: seq<string>, i: nat, j: nat)
    requires i < j < |s|
    ensures s[i] == s[j] ==> multiset(s)[s[i]] >= 2
  {
    assert s == s[..i] + [s[i]] + s[i + 1..j] + [s[j]] + s[j + 1..];
  }

  lemma BadListing(keys: seq<string>, x: string) returns (listing: seq<string>)
    requires Distinct(keys) && x in keys && Mixed(x) && PairKey(x) in keys
    ensures multiset(listing) == multiset(keys) && !EachKeyOnce(listing)
  {
    assert Special(x);
    hide Groups, Mixed;
    var y := PairKey(x);
    PairIsMutualIffUnmixed(x);
    hide PairKey;
    var rest := TakeTwo(keys, y, x);
    listing := [y, x] + rest;
    SameKeysSameConditions(keys, listing);
    assert !ClaimsAlone(listing, 1, 0);
    PartitionIffClaimedOnce(listing);
  }

  lemma TakeTwo<T>(keys: seq<T>, y: T, x: T) returns (rest: seq<T>)
    requires x in keys && y in keys && x != y
    ensures multiset([y, x] + rest) == multiset(keys)
  {
    var others := TakeOne(keys, y);
    assert x in multiset(keys) && multiset{y}[x] == 0;
    assert x in multiset(others);
    rest := TakeOne(others, x);
    assert [y, x] + rest == [y] + ([x] + rest);
    assert multiset([y] + ([x] + rest)) == multiset{y} + multiset([x] + rest);
    assert multiset([x] + rest) == multiset{x} + multiset(rest);
  }

  lemma TakeOne<T>(keys: seq<T>, y: T) returns (rest: seq<T>)
    requires y in keys
    ensures multiset{y} + multiset(rest) == multiset(keys)
  {
    var i :| 0 <= i < |keys| && keys[i] == y;
    rest := RemoveAt(keys, i);
    MultisetRemove(keys, i);
    assert y in multiset(keys);
  }

  // A listed pair shares one group.
  lemma {:induction false} PairSharesGroup(done: seq<string>, rest: seq<string>, paired: set<string>,
                                           all: seq<string>, key: string) returns (g: nat)
    requires all == done + rest && Distinct(all) && PairsClaimedOnce(all) && PlacedBy(done, paired, all)
    requires key in rest && key !in paired && HasPair(key, all)
    ensures g < |Groups(rest, paired, all)|
    ensures Groups(rest, paired, all)[g] in {[key, PairKey(key)], [PairKey(key), key]}
    decreases rest
  {
    hide PlacedBy, PairsClaimedOnce, HasPair, PairKey, Distinct;
    var head, tail := rest[0], rest[1..];
    assert all == (done + [head]) + tail && rest == [head] + tail && head == all[|done|];
    if head in paired {
      VisitSingle(done, head, paired, all);
      g := PairSharesGroup(done + [head], tail, paired, all, key);
    } else if HasPair(head, all) {
      if key == head {
        g := 0;
      } else if key == PairKey(head) {
        PairedBack(head, key, all);
        g := 0;
      } else {
        PlacePair(done, head, paired, all);
        g := PairSharesGroup(done + [head], tail, paired + {head, PairKey(head)}, all, key);
        g := g + 1;
      }
    } else {
      VisitSingle(done, head, paired, all);
      g := PairSharesGroup(done + [head], tail, paired, all, key);
      g := g + 1;
    }
  }

  // If the pair of head has a listed pair of its own, that is head.
  lemma PairedBack(head: string, key: string, all: seq<string>)
    requires PairsClaimedOnce(all) && head in all && HasPair(head, all) && key == PairKey(head) && HasPair(key, all)
    ensures PairKey(key) == head
  {
    PairIsMutualIffUnmixed(head);
    PairIsMutualIffUnmixed(key);
    hide PairKey, Mixed, PairsClaimedOnce;
    if Mixed(head) {
      OnlyClaim(all, head, PairKey(key));
    }
  }

  lemma OnlyClaim(all: seq<string>, x: string, g: string)
    requires PairsClaimedOnce(all) && x in all && g in all && Mixed(x) && PairKey(x) in all
    requires Special(g) && PairKey(g) == PairKey(x)
    ensures g == x
  {
    hide PairKey, Mixed, Special;
    var i :| 0 <= i < |all| && all[i] == x;
    var j :| 0 <= j < |all| && all[j] == PairKey(x);
    var m :| 0 <= m < |all| && all[m] == g;
    assert ClaimsAlone(all, i, j);
  }

  lemma {:induction false} GroupsAreFilled(rest: seq<string>, paired: set<string>, all: seq<string>)
    ensures forall g :: g in Groups(rest, paired, all) ==> g != []
  {
    hide HasPair, PairKey;
    if rest != [] {
      GroupsAreFilled(rest[1..], paired, all);
      GroupsAreFilled(rest[1..], paired + {rest[0], PairKey(rest[0])}, all);
    }
  }

  // ---------- Round-robin distribution ----------

  // The groups at positions that are w modulo workers, in order.
  function Dealt<T>(groups: seq<T>, w: nat, workers: nat): seq<T>
    requires workers > 0
  {
    if groups == [] then []
    else
      var last := |groups| - 1;
      Dealt(groups[..last], w, workers) + (if last % workers == w then [groups[last]] else [])
  }

  method Distribute(keyGroups: seq<seq<string>>, numWorkers: nat) returns (keyChunks: seq<seq<string>>)
    requires numWorkers > 0
    ensures |keyChunks| == numWorkers
    ensures forall w: nat :: w < numWorkers ==> keyChunks[w] == Flatten(Dealt(keyGroups, w, numWorkers))
    ensures multiset(Flatten(keyChunks)) == multiset(Flatten(keyGroups))
  {
    hide Flatten, Dealt;
    keyChunks := seq(numWorkers, _ => []);
    NothingDealt(keyChunks, keyGroups[..0]);
    var i := 0;
    while i < |keyGroups|
      invariant 0 <= i <= |keyGroups| && |keyChunks| == numWorkers
      invariant forall w: nat :: w < numWorkers ==>
        keyChunks[w] == Flatten(Dealt(keyGroups[..i], w, numWorkers))
      invariant multiset(Flatten(keyChunks)) == multiset(Flatten(keyGroups[..i]))
    {
      var workerIdx := i % numWorkers;
      FlattenExtend(keyChunks, workerIdx, keyGroups[i]);
      FlattenNext(keyGroups, i);
      forall w: nat | w < numWorkers
        ensures Flatten(Dealt(keyGroups[..i + 1], w, numWorkers))
                == Flatten(Dealt(keyGroups[..i], w, numWorkers)) + (if workerIdx == w then keyGroups[i] else [])
      {
        DealtStep(keyGroups, i, w, numWorkers);
      }
      keyChunks := keyChunks[workerIdx := keyChunks[workerIdx] + keyGroups[i]];
      i := i + 1;
    }
    assert keyGroups[..i] == keyGroups;
  }

  lemma {:induction false} NothingDealt(chunks: seq<seq<string>>, none: seq<seq<string>>)
    requires none == [] && forall w :: 0 <= w < |chunks| ==> chunks[w] == []
    ensures Flatten(chunks) == [] == Flatten(none)
    ensures forall w: nat, workers: nat :: workers > 0 ==> Flatten(Dealt(none, w, workers)) == []
  {
    if chunks != [] {
      NothingDealt(chunks[1..], none);
    }
  }

  lemma {:induction false} FlattenExtend(chunks: seq<seq<string>>, w: nat, group: seq<string>)
    requires w < |chunks|
    ensures multiset(Flatten(chunks[w := chunks[w] + group])) == multiset(Flatten(chunks)) + multiset(group)
  {
    var longer := chunks[w := chunks[w] + group];
    if w == 0 {
      assert longer[1..] == chunks[1..];
      assert Flatten(longer) == chunks[0] + group + Flatten(chunks[1..]);
      assert Flatten(chunks) == chunks[0] + Flatten(chunks[1..]);
    } else {
      FlattenExtend(chunks[1..], w - 1, group);
      assert longer[1..] == chunks[1..][w - 1 := chunks[1..][w - 1] + group];
      assert Flatten(longer) == chunks[0] + Flatten(longer[1..]);
      assert Flatten(chunks) == chunks[0] + Flatten(chunks[1..]);
    }
  }

  lemma FlattenNext(groups: seq<seq<string>>, i: nat)
    requires i < |groups|
    ensures Flatten(groups[..i + 1]) == Flatten(groups[..i]) + groups[i]
  {
    assert groups[..i + 1] == groups[..i] + [groups[i]];
    FlattenAppend(groups[..i], [groups[i]]);
    FlattenOne(groups[i]);
  }

  lemma FlattenOne(group: seq<string>)
    ensures Flatten([group]) == group
  {
    assert [group][1..] == [];
  }

  lemma DealtNext<T>(groups: seq<T>, i: nat, w: nat, workers: nat)
    requires i < |groups| && w < workers
    ensures Dealt(groups[..i + 1], w, workers)
            == Dealt(groups[..i], w, workers) + (if i % workers == w then [groups[i]] else [])
  {
    assert groups[..i + 1][..i] == groups[..i] && groups[..i + 1][i] == groups[i];
  }

  lemma FlattenMaybe<T>(groups: seq<seq<T>>, group: seq<T>, taken: bool)
    ensures Flatten(groups + (if taken then [group] else [])) == Flatten(groups) + (if taken then group else [])
  {
    if taken {
      FlattenAppend(groups, [group]);
      assert [group][1..] == [];
    } else {
      assert groups + [] == groups;
    }
  }

  lemma DealtStep(groups: seq<seq<string>>, i: nat, w: nat, workers: nat)
    requires i < |groups| && w < workers
    ensures Flatten(Dealt(groups[..i + 1], w, workers))
            == Flatten(Dealt(groups[..i], w, workers)) + (if i % workers == w then groups[i] else [])
  {
    hide Dealt, Flatten;
    DealtNext(groups, i, w, workers);
    FlattenMaybe(Dealt(groups[..i], w, workers), groups[i], i % workers == w);
  }

  // Worker w gets the rounded-down share, plus one for the first n % workers workers.
  lemma {:induction false} ShareSize<T>(groups: seq<T>, w: nat, workers: nat)
    requires w < workers
    ensures |Dealt(groups, w, workers)| == |groups| / workers + Once(w < |groups| % workers)
  {
    if groups != [] {
      var last := |groups| - 1;
      ShareSize(groups[..last], w, workers);
      NextQuotient(last, workers);
    } else {
      DivMod(0, workers, 0);
    }
  }

  lemma NextQuotient(n: nat, m: nat)
    requires m > 0
    ensures (n + 1) % m == if n % m == m - 1 then 0 else n % m + 1
    ensures (n + 1) / m == n / m + Once(n % m == m - 1)
  {
    assert n == (n / m) * m + n % m;
    if n % m == m - 1 {
      assert (n / m + 1) * m == (n / m) * m + m;
      DivMod(n / m + 1, m, 0);
    } else {
      DivMod(n / m, m, n % m + 1);
    }
  }

  lemma {:induction false} DealtTo<T>(groups: seq<T>, g: nat, workers: nat)
    requires g < |groups| && workers > 0
    ensures groups[g] in Dealt(groups, g % workers, workers)
  {
    var last := |groups| - 1;
    if g < last {
      DealtTo(groups[..last], g, workers);
    }
  }

  // ---------- From the key list to the chunks of the workers ----------

  // The first workers get a chunk each; with fewer groups than workers the others get nothing.
  lemma ChunkIsEmptyIff(groups: seq<seq<string>>, w: nat, workers: nat)
    requires w < workers && forall g :: g in groups ==> g != []
    ensures Flatten(Dealt(groups, w, workers)) == [] <==> w >= |groups|
  {
    if w < |groups| {
      assert groups[w] in groups;
      DivMod(0, workers, w);
      DealtTo(groups, w, workers);
      var i :| 0 <= i < |Dealt(groups, w, workers)| && Dealt(groups, w, workers)[i] == groups[w];
      FlattenMember(Dealt(groups, w, workers), i, groups[w][0]);
    } else {
      DivMod(0, workers, |groups|);
      ShareSize(groups, w, workers);
    }
  }

  ghost predicate SameChunk(chunks: seq<seq<string>>, w: nat, a: string, b: string) {
    w < |chunks| && a in chunks[w] && b in chunks[w]
  }

  method ChunkKeys(allKeys: seq<string>, numWorkers: nat) returns (keyChunks: seq<seq<string>>)
    requires Distinct(allKeys) && numWorkers > 0
    ensures var groups := Groups(allKeys, {}, allKeys);
            && |keyChunks| == (if |groups| < numWorkers then |groups| else numWorkers)
            && (forall w: nat :: w < |keyChunks| ==>
                  keyChunks[w] == Flatten(Dealt(groups, w, numWorkers)) && keyChunks[w] != [])
    ensures multiset(Flatten(keyChunks)) == multiset(allKeys) <==> PairsClaimedOnce(allKeys)
    ensures PairsClaimedOnce(allKeys) ==>
      forall key :: key in allKeys && HasPair(key, allKeys) ==>
        exists w: nat :: SameChunk(keyChunks, w, key, PairKey(key))
  {
    hide Groups, Dealt, Flatten, PairKey, HasPair, PairsClaimedOnce, Distinct;
    var keyGroups := GroupKeys(allKeys);
    var chunks := Distribute(keyGroups, numWorkers);
    GroupsAreFilled(allKeys, {}, allKeys);
    keyChunks := [];
    NoKeys(keyChunks, chunks[..0]);
    var w := 0;
    while w < numWorkers
      invariant 0 <= w <= numWorkers
      invariant keyChunks == chunks[..if w < |keyGroups| then w else |keyGroups|]
      invariant forall k :: 0 <= k < |keyChunks| ==> keyChunks[k] != []
      invariant Flatten(chunks[..w]) == Flatten(keyChunks)
    {
      ChunkIsEmptyIff(keyGroups, w, numWorkers);
      FlattenNext(chunks, w);
      if chunks[w] != [] {
        keyChunks := keyChunks + [chunks[w]];
      }
      w := w + 1;
      assert chunks[..w] == chunks[..w - 1] + [chunks[w - 1]];
    }
    assert chunks[..w] == chunks;
    PartitionIffClaimedOnce(allKeys);
    if PairsClaimedOnce(allKeys) {
      forall key | key in allKeys && HasPair(key, allKeys)
        ensures exists w: nat :: SameChunk(keyChunks, w, key, PairKey(key))
      {
        var w := PairSharesChunk(allKeys, key, numWorkers);
        assert SameChunk(keyChunks, w, key, PairKey(key));
      }
    }
  }

  lemma NoKeys(a: seq<seq<string>>, b: seq<seq<string>>)
    requires a == [] == b
    ensures Flatten(a) == Flatten(b)
  {
  }

  lemma PairSharesChunk(keys: seq<string>, key: string, workers: nat) returns (w: nat)
    requires key in keys && HasPair(key, keys) && Distinct(keys) && PairsClaimedOnce(keys) && workers > 0
    ensures w < workers && w < |Groups(keys, {}, keys)|
    ensures key in Flatten(Dealt(Groups(keys, {}, keys), w, workers))
    ensures PairKey(key) in Flatten(Dealt(Groups(keys, {}, keys), w, workers))
  {
    hide Groups, Dealt, Flatten, PairKey, HasPair, PairsClaimedOnce, Distinct;
    var groups := Groups(keys, {}, keys);
    assert keys == [] + keys;
    assert PlacedBy([], {}, keys);
    var g := PairSharesGroup([], keys, {}, keys, key);
    w := g % workers;
    assert w <= g;
    DealtTo(groups, g, workers);
    var i :| 0 <= i < |Dealt(groups, w, workers)| && Dealt(groups, w, workers)[i] == groups[g];
    FlattenMember(Dealt(groups, w, workers), i, key);
    FlattenMember(Dealt(groups, w, workers), i, PairKey(key));
  }
}

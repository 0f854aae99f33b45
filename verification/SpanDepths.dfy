/** Depth of each span in the timeline: memoised, with a guard against cyclic parent links. */
module SpanDepths {
  import opened Wrappers
  import opened Chains
  import TraceEvents

  type Parents = map<string, Option<string>>

  // span_by_id reduced to the parent ids: a later span replaces an earlier one with the same id.
  function ById(spans: seq<TraceEvents.Span>): Parents {
    if spans == [] then map[]
    else
      var last := spans[|spans| - 1];
      if last.id == "" then ById(spans[..|spans| - 1])
      else ById(spans[..|spans| - 1])[last.id := last.parentId]
  }

  // The parent is named and present.
  predicate HasParent(parents: Parents, id: string)
    requires id in parents
  {
    parents[id].Some? && parents[id].value != "" && parents[id].value in parents
  }

  // The links that the depth counts.
  function Links(parents: Parents): map<string, string> {
    map id | id in parents && HasParent(parents, id) :: parents[id].value
  }

  // Every cached depth is the number of ancestors, where that number exists.
  ghost predicate Exact(parents: Parents, cache: map<string, nat>) {
    && cache.Keys <= parents.Keys
    && forall id, d: nat :: id in cache && HasLength(Links(parents), id, d) ==> cache[id] == d
  }

  // No cached depth exceeds the number of cached spans that are not being resolved.
  ghost predicate Bounded(cache: map<string, nat>, seen: set<string>) {
    forall id :: id in cache ==> cache[id] <= |cache.Keys - seen|
  }

  // The cached values of the first map are still there.
  ghost predicate Extends(cache: map<string, nat>, later: map<string, nat>) {
    forall id :: id in cache ==> id in later && later[id] == cache[id]
  }

  class DepthCache {
    const parents: Parents
    var cache: map<string, nat>

    constructor (spans: seq<TraceEvents.Span>)
      ensures parents == ById(spans) && cache == map[]
    {
      parents := ById(spans);
      cache := map[];
    }

    method Resolve(spanId: string, seen: set<string>) returns (depth: nat)
      requires "" !in parents && seen <= parents.Keys && cache.Keys !! seen
      requires forall x :: x in seen ==> Reaches(Links(parents), x, spanId)
      requires Exact(parents, cache) && Bounded(cache, seen)
      modifies this`cache
      ensures Exact(parents, cache) && Bounded(cache, seen) && Extends(old(cache), cache)
      ensures spanId in parents ==> spanId in cache && cache[spanId] == depth
      ensures spanId !in parents ==> depth == 0
      ensures depth <= |cache.Keys - seen|
      decreases |parents.Keys - seen|
    {
      hide Exact, Bounded, Extends, Links, Reaches;
      if spanId == "" || spanId !in parents {
        ExtendsSelf(cache);
        return 0;
      }
      if spanId in cache {
        CachedIsBounded(cache, seen, spanId);
        ExtendsSelf(cache);
        return cache[spanId];
      }
      if spanId in seen {
        CacheCycle(parents, cache, seen, spanId);
        cache := cache[spanId := 0];
        return 0;
      }
      var parentId := parents[spanId];
      if parentId.None? || parentId.value == "" || parentId.value !in parents {
        CacheRoot(parents, cache, seen, spanId);
        depth := 0;
      } else {
        ghost var before := cache;
        LinkTo(parents, spanId);
        ReachNext(parents, seen, spanId);
        FewerLeft(parents.Keys, seen, spanId);
        SeenStaysBounded(cache, seen, spanId);
        var parentDepth := Resolve(parentId.value, seen + {spanId});
        depth := parentDepth + 1;
        CacheAbove(parents, before, cache, seen, spanId, depth);
      }
      cache := cache[spanId := depth];
    }
  }

  lemma ExtendsSelf(cache: map<string, nat>)
    ensures Extends(cache, cache)
  {
  }

  lemma CachedIsBounded(cache: map<string, nat>, seen: set<string>, id: string)
    requires Bounded(cache, seen) && id in cache
    ensures cache[id] <= |cache.Keys - seen|
  {
  }

  lemma LinkTo(parents: Parents, id: string)
    ensures id in Links(parents) <==> id in parents && HasParent(parents, id)
    ensures id in Links(parents) ==> Links(parents)[id] == parents[id].value
  {
  }

  lemma FewerLeft(all: set<string>, seen: set<string>, id: string)
    requires id in all && id !in seen
    ensures |all - (seen + {id})| < |all - seen|
  {
    assert all - seen == (all - (seen + {id})) + {id};
  }

  // Everything being resolved leads to the next span as well.
  lemma ReachNext(parents: Parents, seen: set<string>, id: string)
    requires forall x :: x in seen ==> Reaches(Links(parents), x, id)
    requires id in parents && HasParent(parents, id)
    ensures forall x :: x in seen + {id} ==> Reaches(Links(parents), x, parents[id].value)
  {
    LinkTo(parents, id);
    var p := parents[id].value;
    hide Links, HasParent, Up;
    var next := Links(parents);
    forall x | x in seen + {id} ensures Reaches(next, x, p) {
      if x == id {
        UpZero(next, id);
        UpNext(next, id, 0);
      } else {
        var n: nat :| n > 0 && Up(next, x, n) == Some(id);
        UpNext(next, x, n);
      }
    }
  }

  lemma SeenStaysBounded(cache: map<string, nat>, seen: set<string>, id: string)
    requires Bounded(cache, seen) && id !in cache && cache.Keys !! seen
    ensures Bounded(cache, seen + {id}) && cache.Keys !! seen + {id}
  {
    assert cache.Keys - (seen + {id}) == cache.Keys - seen;
  }

  // A span met again while it is being resolved is on a cycle, so it has no ancestor count to respect.
  lemma CacheCycle(parents: Parents, cache: map<string, nat>, seen: set<string>, id: string)
    requires Exact(parents, cache) && Bounded(cache, seen) && id in parents && id !in cache
    requires id in seen && Reaches(Links(parents), id, id)
    ensures Exact(parents, cache[id := 0]) && Bounded(cache[id := 0], seen)
    ensures Extends(cache, cache[id := 0])
  {
    hide Links, Reaches, HasLength;
    forall d: nat ensures !HasLength(Links(parents), id, d) {
      CycleNeverEnds(Links(parents), id, d);
    }
    OneMoreExact(parents, cache, id, 0);
    MoreCached(cache, seen, id, 0);
  }

  lemma CacheRoot(parents: Parents, cache: map<string, nat>, seen: set<string>, id: string)
    requires Exact(parents, cache) && Bounded(cache, seen) && id in parents && id !in cache && id !in seen
    requires !HasParent(parents, id)
    ensures Exact(parents, cache[id := 0]) && Bounded(cache[id := 0], seen)
    ensures Extends(cache, cache[id := 0])
  {
    LinkTo(parents, id);
    hide Links;
    forall d: nat | HasLength(Links(parents), id, d) ensures d == 0 {
    }
    OneMoreExact(parents, cache, id, 0);
    MoreCached(cache, seen, id, 0);
  }

  lemma OneMoreExact(parents: Parents, cache: map<string, nat>, id: string, depth: nat)
    requires Exact(parents, cache) && id in parents
    requires forall d: nat :: HasLength(Links(parents), id, d) ==> depth == d
    ensures Exact(parents, cache[id := depth])
    ensures id !in cache ==> Extends(cache, cache[id := depth])
  {
    hide Links, HasLength;
  }

  // Caching another depth that is within the bound keeps the others within it.
  lemma MoreCached(cache: map<string, nat>, seen: set<string>, id: string, depth: nat)
    requires Bounded(cache, seen) && depth <= |cache[id := depth].Keys - seen|
    ensures Bounded(cache[id := depth], seen)
  {
    var more := cache[id := depth];
    SubsetSize(cache.Keys - seen, more.Keys - seen);
  }

  // One more than the depth of the parent.
  lemma CacheAbove(parents: Parents, before: map<string, nat>, cache: map<string, nat>, seen: set<string>, id: string,
                   depth: nat)
    requires Exact(parents, cache) && Bounded(cache, seen + {id}) && Extends(before, cache)
    requires id in parents && id !in seen && id !in before && HasParent(parents, id)
    requires parents[id].value in cache && cache[parents[id].value] + 1 == depth
    ensures Exact(parents, cache[id := depth]) && Bounded(cache[id := depth], seen)
    ensures Extends(before, cache[id := depth]) && depth <= |cache[id := depth].Keys - seen|
  {
    AboveIsBounded(cache, seen, id, depth, parents[id].value);
    LinkTo(parents, id);
    hide Links, Bounded, HasParent, HasLength;
    forall d: nat | HasLength(Links(parents), id, d) ensures depth == d {
      LengthOfParent(Links(parents), id, d);
    }
    OneMoreExact(parents, cache, id, depth);
  }

  lemma LengthOfParent(next: map<string, string>, id: string, d: nat)
    requires id in next && HasLength(next, id, d)
    ensures d > 0 && HasLength(next, next[id], d - 1)
  {
  }

  lemma AboveIsBounded(cache: map<string, nat>, seen: set<string>, id: string, depth: nat, parent: string)
    requires Bounded(cache, seen + {id}) && id !in seen && parent in cache && depth == cache[parent] + 1
    ensures Bounded(cache[id := depth], seen) && depth <= |cache[id := depth].Keys - seen|
  {
    var more := cache[id := depth];
    assert more.Keys - seen == (cache.Keys - (seen + {id})) + {id};
    forall x | x in more ensures more[x] <= |more.Keys - seen| {
    }
  }

  // ---------- All spans ----------

  lemma {:induction false} ByIdKeys(spans: seq<TraceEvents.Span>)
    ensures "" !in ById(spans) && |ById(spans).Keys| <= |spans|
    ensures forall span :: span in spans && span.id != "" ==> span.id in ById(spans)
  {
    if spans != [] {
      var init, last := spans[..|spans| - 1], spans[|spans| - 1];
      ByIdKeys(init);
      if last.id != "" {
        assert ById(spans).Keys == ById(init).Keys + {last.id};
        assert |ById(init).Keys + {last.id}| <= |ById(init).Keys| + 1;
      }
    }
  }

  lemma {:induction false} ByIdOnly(spans: seq<TraceEvents.Span>, id: string)
    requires id in ById(spans)
    ensures exists span :: span in spans && span.id == id != ""
  {
    var init, last := spans[..|spans| - 1], spans[|spans| - 1];
    ByIdKeys(spans);
    if last.id != id {
      ByIdOnly(init, id);
      var span :| span in init && span.id == id != "";
      assert span in spans;
    } else {
      assert last in spans;
    }
  }

  lemma NothingCached(parents: Parents)
    ensures Exact(parents, map[]) && Bounded(map[], {})
  {
  }

  // Depths of all spans. A span whose links end gets the number of its ancestors, in whatever order the
  // spans are listed and whatever the other links do; no depth exceeds the number of spans.
  method ComputeSpanDepths(spans: seq<TraceEvents.Span>) returns (depths: map<string, nat>)
    ensures depths.Keys == ById(spans).Keys
    ensures Exact(ById(spans), depths)
    ensures forall id :: id in depths ==> depths[id] <= |spans|
  {
    hide Exact, Bounded, Links, Reaches, ById, Extends;
    var resolver := new DepthCache(spans);
    ByIdKeys(spans);
    NothingCached(resolver.parents);
    var i := 0;
    while i < |spans|
      invariant 0 <= i <= |spans| && fresh(resolver) && resolver.parents == ById(spans)
      invariant Exact(resolver.parents, resolver.cache) && Bounded(resolver.cache, {})
      invariant forall span :: span in spans[..i] && span.id != "" ==> span.id in resolver.cache
    {
      var spanId := spans[i].id;
      ghost var before := resolver.cache;
      assert spans[..i + 1] == spans[..i] + [spans[i]];
      if spanId != "" {
        var depth := resolver.Resolve(spanId, {});
        ExtendsKeys(before, resolver.cache);
      }
      i := i + 1;
    }
    assert spans[..i] == spans;
    depths := resolver.cache;
    AllCached(spans, depths);
    DepthsBounded(spans, depths);
  }

  lemma ExtendsKeys(cache: map<string, nat>, later: map<string, nat>)
    requires Extends(cache, later)
    ensures forall id :: id in cache ==> id in later
  {
  }

  lemma AllCached(spans: seq<TraceEvents.Span>, depths: map<string, nat>)
    requires Exact(ById(spans), depths)
    requires forall span :: span in spans && span.id != "" ==> span.id in depths
    ensures depths.Keys == ById(spans).Keys
  {
    hide ById;
    forall id | id in ById(spans) ensures id in depths {
      ByIdOnly(spans, id);
    }
  }

  lemma DepthsBounded(spans: seq<TraceEvents.Span>, depths: map<string, nat>)
    requires Bounded(depths, {}) && depths.Keys == ById(spans).Keys
    ensures forall id :: id in depths ==> depths[id] <= |spans|
  {
    hide ById;
    ByIdKeys(spans);
    assert depths.Keys - {} == depths.Keys;
  }

  // An id stands for the parent named by the last span that has it.
  lemma {:induction false} LatestParent(spans: seq<TraceEvents.Span>, k: nat)
    requires k < |spans| && spans[k].id != ""
    requires forall j :: k < j < |spans| ==> spans[j].id != spans[k].id
    ensures spans[k].id in ById(spans) && ById(spans)[spans[k].id] == spans[k].parentId
  {
    if k < |spans| - 1 {
      LatestParent(spans[..|spans| - 1], k);
    }
  }

  // The depths of the spans of a trace: zero for a span that names no span of the trace as its parent, and otherwise
  // one more than its parent's, where following the parents ends.
  lemma DepthsCountParents(spans: seq<TraceEvents.Span>, depths: map<string, nat>, k: nat)
    requires depths.Keys == ById(spans).Keys && Exact(ById(spans), depths)
    requires k < |spans| && spans[k].id != "" && forall j :: k < j < |spans| ==> spans[j].id != spans[k].id
    ensures spans[k].id in depths
    ensures var p := spans[k].parentId;
            if p.Some? && p.value != "" && (exists j :: 0 <= j < |spans| && spans[j].id == p.value) then
              p.value in depths
              && (ComesToEnd(Links(ById(spans)), p.value) ==> depths[spans[k].id] == depths[p.value] + 1)
            else depths[spans[k].id] == 0
  {
    hide ById, Links;
    var parents, id, p := ById(spans), spans[k].id, spans[k].parentId;
    LatestParent(spans, k);
    if p.Some? {
      PresentIff(spans, p.value);
    }
    LinksOf(parents, id);
    if id in Links(parents) {
      if ComesToEnd(Links(parents), p.value) {
        var d: nat :| HasLength(Links(parents), p.value, d);
        OneLonger(Links(parents), id, d);
      }
    } else {
      NoLink(Links(parents), id);
    }
  }

  lemma OneLonger(next: map<string, string>, id: string, d: nat)
    requires id in next && HasLength(next, next[id], d)
    ensures HasLength(next, id, d + 1)
  {
  }

  lemma NoLink(next: map<string, string>, id: string)
    requires id !in next
    ensures HasLength(next, id, 0)
  {
  }

  lemma LinksOf(parents: Parents, id: string)
    requires id in parents
    ensures id in Links(parents)
            <==> parents[id].Some? && parents[id].value != "" && parents[id].value in parents
    ensures id in Links(parents) ==> Links(parents)[id] == parents[id].value
  {
  }

  lemma PresentIff(spans: seq<TraceEvents.Span>, id: string)
    ensures id in ById(spans) <==> id != "" && exists j :: 0 <= j < |spans| && spans[j].id == id
  {
    hide ById;
    ByIdKeys(spans);
    if id in ById(spans) {
      ByIdOnly(spans, id);
      var span :| span in spans && span.id == id != "";
      var j :| 0 <= j < |spans| && spans[j] == span;
      assert spans[j].id == id;
    }
    if id != "" && exists j :: 0 <= j < |spans| && spans[j].id == id {
      var j :| 0 <= j < |spans| && spans[j].id == id;
      assert spans[j] in spans;
    }
  }

  // Two computations agree on every span whose chain of links does not run into a cycle.
  lemma DepthsAgree(parents: Parents, a: map<string, nat>, b: map<string, nat>, id: string)
    requires Exact(parents, a) && Exact(parents, b) && id in a && id in b
    requires !Repeats(Links(parents), id)
    ensures a[id] == b[id]
  {
    hide Links, HasLength;
    EndsIffNeverRepeats(Links(parents), id);
    var d: nat :| HasLength(Links(parents), id, d);
  }
}

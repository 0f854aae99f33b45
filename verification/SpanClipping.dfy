/** Where an open span is drawn to end: no later than the row, the next sibling and the nearest closed ancestor. */
module SpanClipping {
  import opened Wrappers
  import opened Chains
  import opened Sorting
  import opened TraceEvents

  type SpanMap = map<string, Span>

  // A later span replaces an earlier one with the same id; spans without an id are left out.
  function SpanById(spans: seq<Span>): SpanMap {
    if spans == [] then map[]
    else
      var last := spans[|spans| - 1];
      if last.id == "" then SpanById(spans[..|spans| - 1])
      else SpanById(spans[..|spans| - 1])[last.id := last]
  }

  // An id stands for the last span that has it.
  lemma {:induction false} LatestById(spans: seq<Span>, k: nat)
    requires k < |spans| && spans[k].id != ""
    requires forall j :: k < j < |spans| ==> spans[j].id != spans[k].id
    ensures spans[k].id in SpanById(spans) && SpanById(spans)[spans[k].id] == spans[k]
  {
    if k < |spans| - 1 {
      LatestById(spans[..|spans| - 1], k);
    }
  }

  predicate Named(parentId: Option<string>) {
    parentId.Some? && parentId.value != ""
  }

  // The links the walk follows: from an open span to the parent it names.
  function OpenLinks(byId: SpanMap): map<string, string> {
    map id | id in byId && byId[id].endTs.None? && Named(byId[id].parentId) :: byId[id].parentId.value
  }

  // The walk upwards from a span with this parent comes to a stop.
  ghost predicate WalkEnds(byId: SpanMap, parentId: Option<string>) {
    Named(parentId) ==> ComesToEnd(OpenLinks(byId), parentId.value)
  }

  // The end of the first span met that is not open; None when that span is absent or nothing is left to follow.
  ghost predicate NearestEnd(byId: SpanMap, parentId: Option<string>, end: Option<int>) {
    if Named(parentId) then
      exists d: nat :: HasLength(OpenLinks(byId), parentId.value, d)
        && end == EndOf(byId, Up(OpenLinks(byId), parentId.value, d).value)
    else end == None
  }

  function EndOf(byId: SpanMap, id: string): Option<int> {
    if id in byId then byId[id].endTs else None
  }

  lemma LinkOf(byId: SpanMap, id: string)
    ensures id in OpenLinks(byId) <==> id in byId && byId[id].endTs.None? && Named(byId[id].parentId)
    ensures id in OpenLinks(byId) ==> OpenLinks(byId)[id] == byId[id].parentId.value
  {
  }

  // How a walk comes out: it stops, or it goes round the same spans for ever.
  datatype Walk = Stops(end: Option<int>) | Endless

  // A walk of more steps than there are spans meets a span twice, so the loop would not end.
  method NearestClosedAncestorEnd(byId: SpanMap, parentId: Option<string>) returns (walk: Walk)
    requires "" !in byId
    ensures walk.Stops? <==> WalkEnds(byId, parentId)
    ensures walk.Stops? ==> NearestEnd(byId, parentId, walk.end)
  {
    hide OpenLinks, Up, ComesToEnd;
    if !Named(parentId) {
      return Stops(None);
    }
    ghost var links := OpenLinks(byId);
    var walked: nat := 0;
    UpZero(links, parentId.value);
    var currentParent := parentId.value;
    while currentParent != "" && walked <= |byId|
      invariant Up(links, parentId.value, walked) == Some(currentParent)
    {
      LinkOf(byId, currentParent);
      if currentParent !in byId {
        StoppedAt(byId, parentId, walked);
        return Stops(None);
      }
      var parent := byId[currentParent];
      if parent.endTs.Some? {
        StoppedAt(byId, parentId, walked);
        return Stops(parent.endTs);
      }
      if !Named(parent.parentId) {
        StoppedAt(byId, parentId, walked);
        return Stops(None);
      }
      UpNext(links, parentId.value, walked);
      currentParent := parent.parentId.value;
      walked := walked + 1;
    }
    LinkOf(byId, currentParent);
    if currentParent != "" {
      TooLong(byId, parentId.value, walked);
      return Endless;
    }
    StoppedAt(byId, parentId, walked);
    return Stops(None);
  }

  // A walk that cannot go on has found the nearest end.
  lemma StoppedAt(byId: SpanMap, parentId: Option<string>, n: nat)
    requires Named(parentId) && HasLength(OpenLinks(byId), parentId.value, n)
    ensures WalkEnds(byId, parentId)
    ensures NearestEnd(byId, parentId, EndOf(byId, Up(OpenLinks(byId), parentId.value, n).value))
  {
    hide OpenLinks, HasLength;
  }

  lemma TooLong(byId: SpanMap, x: string, n: nat)
    requires Up(OpenLinks(byId), x, n).Some? && n > |byId|
    ensures !ComesToEnd(OpenLinks(byId), x)
  {
    hide Up, Repeats;
    var links := OpenLinks(byId);
    LinksAmong(byId);
    hide OpenLinks;
    EndsIffNeverRepeats(links, x);
    if ComesToEnd(links, x) {
      UpZero(links, x);
      var d := FindEnd(links, x, 0);
      UpNext(links, x, d);
      UpBelow(links, x, d + 1, n);
      assert false;
    }
  }

  lemma LinksAmong(byId: SpanMap)
    ensures |OpenLinks(byId).Keys| <= |byId|
  {
    SubsetSize(OpenLinks(byId).Keys, byId.Keys);
  }

  // ---------- Siblings in start order ----------

  function Siblings(spans: seq<Span>, parentId: Option<string>): seq<Span> {
    if spans == [] then []
    else (if spans[0].parentId == parentId then [spans[0]] else []) + Siblings(spans[1..], parentId)
  }

  function Start(): Span -> int {
    (span: Span) => span.startTs
  }

  function SortByStart(spans: seq<Span>): seq<Span> {
    SortBy(Start(), spans)
  }

  lemma SortSorts(spans: seq<Span>)
    ensures Ascending(Start(), SortByStart(spans))
    ensures forall s :: s in SortByStart(spans) <==> s in spans
  {
    SortAscends(Start(), spans);
    forall s: Span {
      SortMember(Start(), spans, s);
    }
  }

  lemma {:induction false} SiblingMembers(spans: seq<Span>, parentId: Option<string>)
    ensures forall s :: s in Siblings(spans, parentId) <==> s in spans && s.parentId == parentId
  {
    if spans != [] {
      SiblingMembers(spans[1..], parentId);
    }
  }

  // ---------- The drawn end of one span ----------

  datatype ClippedBy = RowEnd | NextSiblingStart | AncestorEnd | Self

  // The limits on the drawn end of a span: the row, later siblings, and an ancestor's end after the start.
  ghost predicate Within(v: int, start: int, rowEnd: int, siblings: seq<Span>, ancestorEnd: Option<int>) {
    && v <= rowEnd
    && (forall s :: s in siblings && s.startTs > start ==> v <= s.startTs)
    && (ancestorEnd.Some? && ancestorEnd.value > start ==> v <= ancestorEnd.value)
  }

  // The latest value within the limits.
  ghost predicate DrawnEnd(end: int, start: int, rowEnd: int, siblings: seq<Span>, ancestorEnd: Option<int>) {
    && start <= end && Within(end, start, rowEnd, siblings, ancestorEnd)
    && (forall v :: Within(v, start, rowEnd, siblings, ancestorEnd) ==> v <= end)
  }

  method ClipSpan(span: Span, siblings: seq<Span>, ancestorEnd: Option<int>, rowEnd: int)
      returns (displayEnd: int, clippedBy: ClippedBy)
    requires Ascending(Start(), siblings) && span.startTs <= rowEnd
    ensures DrawnEnd(displayEnd, span.startTs, rowEnd, siblings, ancestorEnd)
    ensures clippedBy == Self <==> span.startTs == rowEnd
    ensures clippedBy == RowEnd <==> displayEnd == rowEnd > span.startTs
    ensures clippedBy == NextSiblingStart
            <==> displayEnd < rowEnd && exists s :: s in siblings && s.startTs == displayEnd > span.startTs
    ensures clippedBy == AncestorEnd ==> ancestorEnd == Some(displayEnd)
  {
    displayEnd, clippedBy := rowEnd, RowEnd;
    var i := 0;
    while i < |siblings|
      invariant 0 <= i <= |siblings| && displayEnd == rowEnd && clippedBy == RowEnd
      invariant forall k :: 0 <= k < i ==> siblings[k].startTs <= span.startTs
    {
      if siblings[i] != span && siblings[i].startTs > span.startTs {
        assert forall k :: i < k < |siblings| ==> siblings[i].startTs <= siblings[k].startTs;
        if siblings[i].startTs < displayEnd {
          displayEnd, clippedBy := siblings[i].startTs, NextSiblingStart;
        }
        break;
      }
      i := i + 1;
    }
    if ancestorEnd.Some? && ancestorEnd.value > span.startTs && ancestorEnd.value < displayEnd {
      displayEnd, clippedBy := ancestorEnd.value, AncestorEnd;
    }
    if displayEnd <= span.startTs {
      displayEnd, clippedBy := span.startTs, Self;
    }
    assert Within(displayEnd, span.startTs, rowEnd, siblings, ancestorEnd);
    forall v | Within(v, span.startTs, rowEnd, siblings, ancestorEnd) ensures v <= displayEnd {
      if clippedBy == NextSiblingStart {
        assert siblings[i] in siblings;
      }
    }
  }

  // ---------- All open spans of a row ----------

  datatype Drawn = Drawn(span: Span, displayEnd: int, clippedBy: ClippedBy)

  // The open span is drawn to the latest time that its row, siblings and nearest closed ancestor allow.
  ghost predicate WellDrawn(drawn: Drawn, all: seq<Span>, rowEnd: int) {
    exists ancestorEnd: Option<int> ::
      NearestEnd(SpanById(all), drawn.span.parentId, ancestorEnd)
      && DrawnEnd(drawn.displayEnd, drawn.span.startTs, rowEnd, Siblings(all, drawn.span.parentId), ancestorEnd)
  }

  ghost predicate WalksEnd(spans: seq<Span>, byId: SpanMap) {
    forall k :: 0 <= k < |spans| ==> WalkEnds(byId, spans[k].parentId)
  }

  // None when the walk of some open span does not end.
  method ClipOpenSpans(closed: seq<Span>, open: seq<Span>, rowEnd: int) returns (result: Option<seq<Drawn>>)
    requires forall k :: 0 <= k < |open| ==> open[k].startTs <= rowEnd
    ensures result.Some? <==> WalksEnd(open, SpanById(closed + open))
    ensures result.Some? ==>
      var drawn := result.value;
      && |drawn| == |open|
      && forall k :: 0 <= k < |open| ==> drawn[k].span == open[k] && WellDrawn(drawn[k], closed + open, rowEnd)
  {
    hide SpanById, WalkEnds, NearestEnd, DrawnEnd, Siblings, SortByStart, WellDrawn, Ascending;
    var all := closed + open;
    var byId := SpanById(all);
    NoEmptyId(all);
    var drawn: seq<Drawn> := [];
    var k := 0;
    while k < |open|
      invariant 0 <= k <= |open| && |drawn| == k
      invariant forall j :: 0 <= j < k ==> drawn[j].span == open[j] && WellDrawn(drawn[j], all, rowEnd)
      invariant forall j :: 0 <= j < k ==> WalkEnds(byId, open[j].parentId)
    {
      var span := open[k];
      var group := Siblings(all, span.parentId);
      SortSorts(group);
      var walk := NearestClosedAncestorEnd(byId, span.parentId);
      if walk.Endless? {
        return None;
      }
      var displayEnd, clippedBy := ClipSpan(span, SortByStart(group), walk.end, rowEnd);
      SameLimits(displayEnd, span.startTs, rowEnd, SortByStart(group), group, walk.end);
      NowDrawn(Drawn(span, displayEnd, clippedBy), all, rowEnd, walk.end);
      drawn := drawn + [Drawn(span, displayEnd, clippedBy)];
      k := k + 1;
    }
    result := Some(drawn);
  }

  lemma NowDrawn(drawn: Drawn, all: seq<Span>, rowEnd: int, ancestorEnd: Option<int>)
    requires NearestEnd(SpanById(all), drawn.span.parentId, ancestorEnd)
    requires DrawnEnd(drawn.displayEnd, drawn.span.startTs, rowEnd, Siblings(all, drawn.span.parentId), ancestorEnd)
    ensures WellDrawn(drawn, all, rowEnd)
  {
    hide NearestEnd, DrawnEnd;
  }

  lemma {:induction false} NoEmptyId(spans: seq<Span>)
    ensures "" !in SpanById(spans)
  {
    if spans != [] {
      NoEmptyId(spans[..|spans| - 1]);
    }
  }

  lemma SameLimits(end: int, start: int, rowEnd: int, sorted: seq<Span>, siblings: seq<Span>, ancestorEnd: Option<int>)
    requires DrawnEnd(end, start, rowEnd, sorted, ancestorEnd)
    requires forall s :: s in sorted <==> s in siblings
    ensures DrawnEnd(end, start, rowEnd, siblings, ancestorEnd)
  {
    forall v
      ensures Within(v, start, rowEnd, siblings, ancestorEnd) <==> Within(v, start, rowEnd, sorted, ancestorEnd)
    {
    }
  }

  // What a drawn end promises about each other span of the row.
  lemma DrawnEndKeepsLimits(drawn: Drawn, all: seq<Span>, rowEnd: int, sibling: Span)
    requires WellDrawn(drawn, all, rowEnd)
    ensures drawn.span.startTs <= drawn.displayEnd <= rowEnd
    ensures sibling in all && sibling.parentId == drawn.span.parentId && sibling.startTs > drawn.span.startTs ==>
      drawn.displayEnd <= sibling.startTs
    ensures forall end :: NearestEnd(SpanById(all), drawn.span.parentId, Some(end)) && end > drawn.span.startTs ==>
      drawn.displayEnd <= end
  {
    hide NearestEnd, SpanById, Siblings;
    var byId := SpanById(all);
    var ancestorEnd :| NearestEnd(byId, drawn.span.parentId, ancestorEnd)
      && DrawnEnd(drawn.displayEnd, drawn.span.startTs, rowEnd, Siblings(all, drawn.span.parentId), ancestorEnd);
    SiblingMembers(all, drawn.span.parentId);
    forall end | NearestEnd(byId, drawn.span.parentId, Some(end)) ensures ancestorEnd == Some(end) {
      NearestEndUnique(byId, drawn.span.parentId, ancestorEnd, Some(end));
    }
  }

  lemma NearestEndUnique(byId: SpanMap, parentId: Option<string>, a: Option<int>, b: Option<int>)
    requires NearestEnd(byId, parentId, a) && NearestEnd(byId, parentId, b)
    ensures a == b
  {
    hide OpenLinks, Up;
    if Named(parentId) {
      var links, x := OpenLinks(byId), parentId.value;
      var d: nat :| HasLength(links, x, d) && a == EndOf(byId, Up(links, x, d).value);
      var e: nat :| HasLength(links, x, e) && b == EndOf(byId, Up(links, x, e).value);
      LengthUnique(links, x, d, e);
    }
  }

  // The nearest end, one step at a time: none without a parent or when the parent is missing, the parent's own end
  // when it has one, and otherwise the nearest end of the parent.
  lemma NearestEndSteps(byId: SpanMap, parentId: Option<string>, end: Option<int>)
    ensures parentId.None? || parentId.value == "" ==> (NearestEnd(byId, parentId, end) <==> end == None)
    ensures parentId.Some? && parentId.value != "" && parentId.value !in byId ==>
      (NearestEnd(byId, parentId, end) <==> end == None)
    ensures parentId.Some? && parentId.value != "" && parentId.value in byId ==>
      var parent := byId[parentId.value];
      NearestEnd(byId, parentId, end)
      <==> if parent.endTs.Some? then end == parent.endTs else NearestEnd(byId, parent.parentId, end)
  {
    if Named(parentId) {
      var links, x := OpenLinks(byId), parentId.value;
      LinkOf(byId, x);
      if x in links {
        NextEnd(byId, x, end);
      } else {
        FirstEnd(byId, x, end);
      }
    }
    hide NearestEnd, OpenLinks;
  }

  lemma FirstEnd(byId: SpanMap, x: string, end: Option<int>)
    requires x != "" && x !in OpenLinks(byId)
    ensures NearestEnd(byId, Some(x), end) <==> end == EndOf(byId, x)
  {
    hide OpenLinks;
    assert HasLength(OpenLinks(byId), x, 0);
    forall d: nat | HasLength(OpenLinks(byId), x, d) ensures d == 0 {
      LengthUnique(OpenLinks(byId), x, d, 0);
    }
  }

  lemma NextEnd(byId: SpanMap, x: string, end: Option<int>)
    requires x != "" && x in OpenLinks(byId)
    ensures NearestEnd(byId, Some(x), end) <==> NearestEnd(byId, byId[x].parentId, end)
  {
    LinkOf(byId, x);
    hide OpenLinks, EndOf;
    var links := OpenLinks(byId);
    forall d: nat ensures HasLength(links, x, d + 1) <==> HasLength(links, links[x], d) {
    }
    assert !HasLength(links, x, 0);
    if NearestEnd(byId, Some(x), end) {
      var d: nat :| HasLength(links, x, d) && end == EndOf(byId, Up(links, x, d).value);
      assert HasLength(links, links[x], d - 1) && Up(links, x, d) == Up(links, links[x], d - 1);
    }
    if NearestEnd(byId, byId[x].parentId, end) {
      var d: nat :| HasLength(links, links[x], d) && end == EndOf(byId, Up(links, links[x], d).value);
      assert HasLength(links, x, d + 1) && Up(links, x, d + 1) == Up(links, links[x], d);
    }
  }

  // The walk stops exactly when no open ancestor is met twice.
  lemma WalkEndsIffNoRepeat(byId: SpanMap, parentId: Option<string>)
    requires Named(parentId)
    ensures WalkEnds(byId, parentId) <==> !Repeats(OpenLinks(byId), parentId.value)
  {
    hide OpenLinks, Repeats, ComesToEnd;
    EndsIffNeverRepeats(OpenLinks(byId), parentId.value);
  }

  // ---------- From the events to the drawn row ----------

  function Latest(events: seq<Event>): int
    requires events != []
  {
    if |events| == 1 then events[0].ts
    else
      var rest := Latest(events[1..]);
      if events[0].ts >= rest then events[0].ts else rest
  }

  lemma {:induction false} LatestIsMax(events: seq<Event>)
    requires events != []
    ensures exists k :: 0 <= k < |events| && events[k].ts == Latest(events)
    ensures forall k :: 0 <= k < |events| ==> events[k].ts <= Latest(events)
  {
    if |events| == 1 {
      assert events[0].ts == Latest(events);
    } else {
      LatestIsMax(events[1..]);
      var k :| 0 <= k < |events[1..]| && events[1..][k].ts == Latest(events[1..]);
      assert events[1 + k].ts == Latest(events[1..]);
      assert Latest(events) == events[0].ts || Latest(events) == events[1 + k].ts;
      forall j | 0 <= j < |events| ensures events[j].ts <= Latest(events) {
        assert j > 0 ==> events[j] == events[1..][j - 1];
      }
    }
  }

  datatype Row = NoRow | Row(items: Items, drawn: seq<Drawn>) | NeverBuilt

  // A row with no usable event is dropped. Otherwise its open spans are drawn, unless the walk of one of them
  // goes round for ever.
  method BuildRow(events: seq<Event>) returns (row: Row)
    ensures row.NoRow? <==> events == []
    ensures row.NeverBuilt? <==> !WalksEnd(After(events).open, SpanById(After(events).closed + After(events).open))
    ensures row.Row? ==>
      && row.items == After(events) && |row.drawn| == |row.items.open|
      && forall k :: 0 <= k < |row.drawn| ==>
           row.drawn[k].span == row.items.open[k]
           && WellDrawn(row.drawn[k], row.items.closed + row.items.open, Latest(events))
  {
    hide After, SpanById, WellDrawn, WalkEnds, Unanswered, DistinctIds, Latest;
    if events == [] {
      NothingOpen();
      return NoRow;
    }
    var items := CollectItems(events);
    var rowEnd := Latest(events);
    OpenIffUnanswered(events);
    LatestIsMax(events);
    forall k | 0 <= k < |items.open| ensures items.open[k].startTs <= rowEnd {
      assert items.open[k] in items.open;
    }
    var clipped := ClipOpenSpans(items.closed, items.open, rowEnd);
    row := if clipped.Some? then Row(items, clipped.value) else NeverBuilt;
  }

  lemma NothingOpen()
    ensures After([]).open == []
  {
  }

  // One start that names itself as its parent is enough for the walk to go round.
  lemma OwnParent()
    ensures var items := After([Event(0, SpanStart, "a", Some("a"))]);
            !WalksEnd(items.open, SpanById(items.closed + items.open))
  {
    hide After, SpanById, OpenLinks, Up, ComesToEnd, Repeats;
    var event := Event(0, SpanStart, "a", Some("a"));
    var span := Opened(event, 0);
    FirstStart(event);
    OnlySpan(span);
    var byId := SpanById([span]);
    LinkOf(byId, "a");
    UpZero(OpenLinks(byId), "a");
    UpNext(OpenLinks(byId), "a", 0);
    assert Repeats(OpenLinks(byId), "a") by {
      MeetsItself(OpenLinks(byId), "a");
    }
    EndsIffNeverRepeats(OpenLinks(byId), "a");
    assert [] + [span] == [span] && !WalkEnds(byId, [span][0].parentId);
  }

  lemma FirstStart(event: Event)
    requires Opens(event)
    ensures After([event]).open == [Opened(event, 0)] && After([event]).closed == []
  {
    assert [event][..0] == [];
  }

  lemma OnlySpan(span: Span)
    requires span.id != ""
    ensures SpanById([span]) == map[span.id := span]
  {
    assert [span][..0] == [];
  }

  lemma MeetsItself(links: map<string, string>, x: string)
    requires Up(links, x, 0) == Up(links, x, 1) == Some(x)
    ensures Repeats(links, x)
  {
    hide Up;
  }
}

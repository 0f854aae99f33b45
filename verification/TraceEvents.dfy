/** Rebuilding spans from a sample's trace events: which end closes which start, and which span is on
    top of the stack when an event arrives. */
module TraceEvents {
  import opened Sequences
  import opened Wrappers

  datatype Kind = SpanStart | SpanEnd | Other

  // A normalised event. An empty span id stands for a missing one.
  datatype Event = Event(ts: int, kind: Kind, spanId: string, parentId: Option<string>)

  // A span record, with the positions of the events that opened and closed it.
  datatype Span = Span(id: string, openedBy: nat, startTs: int, parentId: Option<string>,
                       closedBy: Option<nat>, endTs: Option<int>)

  predicate Opens(event: Event) {
    event.kind == SpanStart && event.spanId != ""
  }

  predicate Ends(event: Event) {
    event.kind == SpanEnd
  }

  // ---------- The stack of active span ids ----------

  function RemoveLast(stack: seq<string>, id: string): seq<string> {
    if stack == [] then []
    else
      var last := |stack| - 1;
      if stack[last] == id then stack[..last] else RemoveLast(stack[..last], id) + [stack[last]]
  }

  function Push(stack: seq<string>, event: Event): seq<string> {
    if Opens(event) then stack + [event.spanId]
    else if Ends(event) && event.spanId != "" then RemoveLast(stack, event.spanId)
    else stack
  }

  function StackAfter(events: seq<Event>): seq<string> {
    if events == [] then []
    else
      var last := |events| - 1;
      Push(StackAfter(events[..last]), events[last])
  }

  function Top(stack: seq<string>): Option<string> {
    if stack == [] then None else Some(stack[|stack| - 1])
  }

  // The inferred parent of each event is what was on top of the stack before it.
  ghost predicate InferredFrom(events: seq<Event>, inferred: seq<Option<string>>) {
    && |inferred| == |events|
    && forall k :: 0 <= k < |events| ==> inferred[k] == Top(StackAfter(events[..k]))
  }

  // Keeps the events that have a timestamp and infers a parent for each from the stack.
  method Normalize(raw: seq<Option<Event>>) returns (events: seq<Event>, inferred: seq<Option<string>>)
    ensures events == Present(raw) && InferredFrom(events, inferred)
  {
    hide Push, RemoveLast, StackAfter, InferredFrom, Present;
    events, inferred := [], [];
    var activeStack: seq<string> := [];
    var i := 0;
    NothingInferred();
    assert raw[..0] == [];
    while i < |raw|
      invariant 0 <= i <= |raw| && events == Present(raw[..i])
      invariant InferredFrom(events, inferred) && activeStack == StackAfter(events)
    {
      assert raw[..i + 1] == raw[..i] + [raw[i]];
      PresentNext(raw[..i], raw[i]);
      if raw[i].Some? {
        var event := raw[i].value;
        InferredNext(events, inferred, event);
        events, inferred := events + [event], inferred + [Top(activeStack)];
        activeStack := UpdateStack(activeStack, event);
      }
      i := i + 1;
    }
    assert raw[..i] == raw;
  }

  lemma NothingInferred()
    ensures Present([]) == [] && StackAfter([]) == [] && InferredFrom([], [])
  {
  }

  lemma InferredNext(events: seq<Event>, inferred: seq<Option<string>>, event: Event)
    requires InferredFrom(events, inferred)
    ensures InferredFrom(events + [event], inferred + [Top(StackAfter(events))])
    ensures StackAfter(events + [event]) == Push(StackAfter(events), event)
  {
    var longer := events + [event];
    assert longer[..|events|] == events;
    hide StackAfter;
    forall k | 0 <= k < |events| ensures longer[..k] == events[..k] {
    }
  }

  function Present(raw: seq<Option<Event>>): seq<Event> {
    if raw == [] then []
    else (if raw[0].Some? then [raw[0].value] else []) + Present(raw[1..])
  }

  lemma {:induction false} PresentNext(raw: seq<Option<Event>>, next: Option<Event>)
    ensures Present(raw + [next]) == Present(raw) + (if next.Some? then [next.value] else [])
  {
    if raw == [] {
      assert [next][1..] == [];
    } else {
      PresentNext(raw[1..], next);
      assert (raw + [next])[1..] == raw[1..] + [next];
    }
  }

  lemma RemoveLastStep(stack: seq<string>, idx: nat, id: string)
    requires idx < |stack|
    ensures RemoveLast(stack[..idx + 1], id) + stack[idx + 1..]
            == if stack[idx] == id then stack[..idx] + stack[idx + 1..]
               else RemoveLast(stack[..idx], id) + stack[idx..]
  {
    assert stack[..idx + 1][..idx] == stack[..idx];
    SuffixStep(stack, idx);
  }

  lemma SuffixStep(stack: seq<string>, idx: nat)
    requires idx < |stack|
    ensures stack[idx..] == [stack[idx]] + stack[idx + 1..]
  {
  }

  // Pushes the id of a start; an end deletes the topmost entry with its id.
  method UpdateStack(stack: seq<string>, event: Event) returns (after: seq<string>)
    ensures after == Push(stack, event)
  {
    after := stack;
    if event.kind == SpanStart && event.spanId != "" {
      after := after + [event.spanId];
      return;
    }
    if event.kind == SpanEnd && event.spanId != "" {
      var idx := |stack|;
      assert stack[..idx] == stack && stack[idx..] == [];
      while idx > 0
        invariant 0 <= idx <= |stack| && after == stack
        invariant RemoveLast(stack, event.spanId) == RemoveLast(stack[..idx], event.spanId) + stack[idx..]
      {
        idx := idx - 1;
        RemoveLastStep(stack, idx, event.spanId);
        if stack[idx] == event.spanId {
          after := stack[..idx] + stack[idx + 1..];
          return;
        }
      }
      assert stack[..idx] == [];
    }
  }

  // ---------- Open, closed, orphan and point items ----------

  // open is the dictionary of open spans in its own order, one span for an id.
  datatype Items = Items(open: seq<Span>, closed: seq<Span>, orphans: seq<nat>, points: seq<nat>)

  // The position of an id in the dictionary, or its length.
  function Find(open: seq<Span>, id: string): (i: nat)
    ensures i <= |open| && (i < |open| ==> open[i].id == id)
    ensures forall j :: 0 <= j < i ==> open[j].id != id
  {
    if open == [] || open[0].id == id then 0 else 1 + Find(open[1..], id)
  }

  // Setting an existing key keeps its place.
  function SetOpen(open: seq<Span>, span: Span): seq<Span> {
    var i := Find(open, span.id);
    if i < |open| then open[i := span] else open + [span]
  }

  function Opened(event: Event, k: nat): Span {
    Span(event.spanId, k, event.ts, event.parentId, None, None)
  }

  function Closed(span: Span, event: Event, k: nat): Span {
    span.(closedBy := Some(k), endTs := Some(event.ts))
  }

  function Step(items: Items, event: Event, k: nat): Items {
    if Opens(event) then items.(open := SetOpen(items.open, Opened(event, k)))
    else if Ends(event) then
      var i := Find(items.open, event.spanId);
      if event.spanId == "" || i == |items.open| then items.(orphans := items.orphans + [k])
      else items.(open := RemoveAt(items.open, i), closed := items.closed + [Closed(items.open[i], event, k)])
    else items.(points := items.points + [k])
  }

  function After(events: seq<Event>): Items {
    if events == [] then Items([], [], [], [])
    else
      var last := |events| - 1;
      Step(After(events[..last]), events[last], last)
  }

  method CollectItems(events: seq<Event>) returns (items: Items)
    ensures items == After(events)
  {
    hide Opens, Ends;
    var openStarts: seq<Span>, closedSpans: seq<Span>, orphanEnds: seq<nat>, pointEvents: seq<nat> := [], [], [], [];
    var k := 0;
    while k < |events|
      invariant 0 <= k <= |events|
      invariant Items(openStarts, closedSpans, orphanEnds, pointEvents) == After(events[..k])
    {
      var event := events[k];
      assert events[..k + 1][..k] == events[..k] && events[..k + 1][k] == event;
      if Opens(event) {
        openStarts := SetOpen(openStarts, Opened(event, k));
      } else if Ends(event) {
        var i := Find(openStarts, event.spanId);
        if event.spanId == "" || i == |openStarts| {
          orphanEnds := orphanEnds + [k];
        } else {
          closedSpans := closedSpans + [Closed(openStarts[i], event, k)];
          openStarts := RemoveAt(openStarts, i);
        }
      } else {
        pointEvents := pointEvents + [k];
      }
      k := k + 1;
    }
    assert events[..k] == events;
    items := Items(openStarts, closedSpans, orphanEnds, pointEvents);
  }

  // The event re-opens an id that is still open, so the earlier start is overwritten.
  predicate Reopens(items: Items, event: Event) {
    Opens(event) && Find(items.open, event.spanId) < |items.open|
  }

  function Overwritten(events: seq<Event>): nat {
    if events == [] then 0
    else
      var last := |events| - 1;
      Overwritten(events[..last]) + if Reopens(After(events[..last]), events[last]) then 1 else 0
  }

  // Every event is accounted for: two for a closed span, one for anything else.
  lemma {:induction false} EventsAccounted(events: seq<Event>)
    ensures var items := After(events);
            |events| == 2 * |items.closed| + |items.open| + |items.orphans| + |items.points| + Overwritten(events)
  {
    hide Opens, Ends;
    if events != [] {
      EventsAccounted(events[..|events| - 1]);
    }
  }

  // ---------- Which end closes which start ----------

  // No start and no end of id at positions from i up to n.
  ghost predicate Quiet(events: seq<Event>, id: string, i: nat, n: nat)
    requires n <= |events|
  {
    forall k :: i <= k < n ==> events[k].spanId != id || !(Opens(events[k]) || Ends(events[k]))
  }

  ghost predicate Unanswered(events: seq<Event>, i: nat) {
    i < |events| && Opens(events[i]) && Quiet(events, events[i].spanId, i + 1, |events|)
  }

  // Start i and end j belong together: same id, and nothing of that id between them.
  ghost predicate Answers(events: seq<Event>, i: nat, j: nat) {
    && i < j < |events| && Opens(events[i]) && Ends(events[j]) && events[i].spanId == events[j].spanId
    && Quiet(events, events[i].spanId, i + 1, j)
  }

  lemma UnansweredNext(events: seq<Event>, last: Event, i: nat)
    ensures i < |events| ==>
      (Unanswered(events + [last], i)
       <==> Unanswered(events, i) && (events[i].spanId != last.spanId || !(Opens(last) || Ends(last))))
    ensures Unanswered(events + [last], |events|) <==> Opens(last)
  {
    hide Opens, Ends;
    var longer := events + [last];
    if i < |events| {
      assert longer[i] == events[i];
      assert forall k :: 0 <= k < |events| ==> longer[k] == events[k];
      assert longer[|events|] == last;
    }
  }

  lemma AnswersNext(events: seq<Event>, last: Event, i: nat, j: nat)
    ensures j < |events| ==> (Answers(events + [last], i, j) <==> Answers(events, i, j))
    ensures Answers(events + [last], i, |events|)
            <==> i < |events| && Unanswered(events, i) && Ends(last) && events[i].spanId == last.spanId
  {
    hide Opens, Ends;
    var longer := events + [last];
    assert forall k :: 0 <= k < |events| ==> longer[k] == events[k];
    assert longer[|events|] == last;
  }

  // The span was recorded from a start that nothing of the same id followed.
  ghost predicate IsOpen(events: seq<Event>, span: Span) {
    span.openedBy < |events| && Unanswered(events, span.openedBy)
    && span == Opened(events[span.openedBy], span.openedBy)
  }

  // The span was recorded from a start and closed by the end that belongs to it.
  ghost predicate IsClosed(events: seq<Event>, span: Span) {
    && span.closedBy.Some? && Answers(events, span.openedBy, span.closedBy.value)
    && span == Closed(Opened(events[span.openedBy], span.openedBy), events[span.closedBy.value], span.closedBy.value)
  }

  predicate DistinctIds(open: seq<Span>) {
    forall k, l :: 0 <= k < l < |open| ==> open[k].id != open[l].id
  }

  lemma SetOpenMembers(open: seq<Span>, span: Span)
    requires DistinctIds(open)
    ensures DistinctIds(SetOpen(open, span))
    ensures forall s :: s in SetOpen(open, span) <==> s == span || (s in open && s.id != span.id)
  {
    var i, after := Find(open, span.id), SetOpen(open, span);
    assert after[i] == span;
    forall s | s in open && s.id != span.id ensures s in after {
      var k :| 0 <= k < |open| && open[k] == s;
      assert after[k] == s;
    }
    forall k | 0 <= k < |after| && k != i ensures after[k] in open && after[k].id != span.id {
      assert after[k] == open[k];
    }
  }

  lemma RemoveOpenMembers(open: seq<Span>, i: nat)
    requires DistinctIds(open) && i < |open|
    ensures DistinctIds(RemoveAt(open, i))
    ensures forall s :: s in RemoveAt(open, i) <==> s in open && s.id != open[i].id
  {
    var after := RemoveAt(open, i);
    forall s | s in open && s.id != open[i].id ensures s in after {
      var k :| 0 <= k < |open| && open[k] == s;
      assert after[if k < i then k else k - 1] == s;
    }
    forall k | 0 <= k < |after| ensures after[k] in open && after[k].id != open[i].id {
      assert after[k] == open[if k < i then k else k + 1];
    }
  }

  lemma FindAbsent(open: seq<Span>, id: string)
    ensures (forall s :: s in open ==> s.id != id) <==> Find(open, id) == |open|
  {
    var i := Find(open, id);
    if i < |open| {
      assert open[i] in open;
    }
  }

  lemma StepOpen(items: Items, event: Event, k: nat)
    requires DistinctIds(items.open) && forall s :: s in items.open ==> s.id != ""
    ensures DistinctIds(Step(items, event, k).open)
    ensures forall s ::
      s in Step(items, event, k).open <==>
      ((s in items.open && (s.id != event.spanId || !(Opens(event) || Ends(event))))
       || (Opens(event) && s == Opened(event, k)))
  {
    hide DistinctIds, Ends, SetOpen, Find;
    if Opens(event) {
      SetOpenMembers(items.open, Opened(event, k));
    } else if Ends(event) {
      FindAbsent(items.open, event.spanId);
      if event.spanId != "" && Find(items.open, event.spanId) < |items.open| {
        RemoveOpenMembers(items.open, Find(items.open, event.spanId));
      }
    }
  }

  // The open spans are exactly the starts that nothing of the same id followed.
  lemma {:induction false} OpenIffUnanswered(events: seq<Event>)
    ensures DistinctIds(After(events).open)
    ensures forall s :: s in After(events).open <==> IsOpen(events, s)
  {
    hide DistinctIds, Ends, Opens, Step, Unanswered;
    if events != [] {
      var init, last := events[..|events| - 1], events[|events| - 1];
      assert events == init + [last];
      OpenIffUnanswered(init);
      OpenIdsSet(init);
      StepOpen(After(init), last, |init|);
      forall s ensures s in After(events).open <==> IsOpen(events, s) {
        UnansweredNext(init, last, s.openedBy);
        if s.openedBy < |init| {
          assert events[s.openedBy] == init[s.openedBy];
        }
      }
    } else {
      NothingOpen();
    }
  }

  lemma NothingOpen()
    ensures DistinctIds(After([]).open)
  {
  }

  lemma OpenIdsSet(events: seq<Event>)
    requires forall s :: s in After(events).open <==> IsOpen(events, s)
    ensures forall s :: s in After(events).open ==> s.id != ""
  {
    hide After;
  }

  // The closed spans are exactly the pairs of a start and the end that belongs to it.
  lemma {:induction false} ClosedIffAnswered(events: seq<Event>)
    ensures forall s :: s in After(events).closed <==> IsClosed(events, s)
  {
    hide DistinctIds, Ends, Opens, Unanswered, Find, Answers;
    if events != [] {
      var init, last := events[..|events| - 1], events[|events| - 1];
      assert events == init + [last];
      ClosedIffAnswered(init);
      forall s ensures s in After(events).closed <==> IsClosed(events, s) {
        StepClosed(init, last, s);
      }
    } else {
      forall s ensures !IsClosed([], s) {
        NothingAnswers(s);
      }
    }
  }

  lemma NothingAnswers(s: Span)
    ensures !IsClosed([], s)
  {
  }

  lemma BeforeLast(init: seq<Event>, last: Event, i: nat)
    ensures i < |init| ==> (init + [last])[i] == init[i]
    ensures (init + [last])[|init|] == last
  {
  }

  // The span that event n closes, if it closes one.
  predicate ClosesSpan(open: seq<Span>, last: Event, n: nat, s: Span) {
    var f := Find(open, last.spanId);
    Ends(last) && last.spanId != "" && f < |open| && s == Closed(open[f], last, n)
  }

  lemma StepClosed(init: seq<Event>, last: Event, s: Span)
    requires s in After(init).closed <==> IsClosed(init, s)
    ensures s in Step(After(init), last, |init|).closed <==> IsClosed(init + [last], s)
  {
    StepClosedMembers(After(init), last, |init|, s);
    hide DistinctIds, Unanswered, Answers, After, Step, Ends, Opens, ClosesSpan, Find;
    var n := |init|;
    LastCloses(init, last, s);
    ClosesAt(After(init).open, last, n, s);
    if s.closedBy.Some? {
      AnswersNext(init, last, s.openedBy, s.closedBy.value);
      BeforeLast(init, last, s.openedBy);
      BeforeLast(init, last, s.closedBy.value);
      AnswersWithin(init, s.openedBy, s.closedBy.value);
      AnswersWithin(init + [last], s.openedBy, s.closedBy.value);
    }
  }

  lemma AnswersWithin(events: seq<Event>, i: nat, j: nat)
    ensures Answers(events, i, j) ==> i < j < |events|
  {
  }

  lemma ClosesAt(open: seq<Span>, last: Event, n: nat, s: Span)
    ensures ClosesSpan(open, last, n, s) ==> s.closedBy == Some(n)
  {
  }

  lemma StepClosedMembers(items: Items, event: Event, k: nat, s: Span)
    ensures s in Step(items, event, k).closed <==> s in items.closed || ClosesSpan(items.open, event, k, s)
  {
  }

  lemma LastCloses(init: seq<Event>, last: Event, s: Span)
    ensures s.closedBy == Some(|init|) ==>
      (IsClosed(init + [last], s) <==> ClosesSpan(After(init).open, last, |init|, s))
  {
    hide DistinctIds, Unanswered, Answers, After, Opens, Ends, Find;
    var open, n, i := After(init).open, |init|, s.openedBy;
    if s.closedBy == Some(n) {
      OpenIffUnanswered(init);
      OpenIdsSet(init);
      FindAbsent(open, last.spanId);
      AnswersNext(init, last, i, n);
      BeforeLast(init, last, i);
      BeforeLast(init, last, n);
      if Ends(last) && i < n && Unanswered(init, i) && init[i].spanId == last.spanId {
        var o := Opened(init[i], i);
        assert IsOpen(init, o);
        OneForId(open, last.spanId, o);
        OpensSet(init, i);
      }
      ClosesFromOpen(init, last, s);
    }
  }

  // A span that is closed was open, recorded from its unanswered start.
  lemma ClosesFromOpen(init: seq<Event>, last: Event, s: Span)
    requires forall o :: o in After(init).open <==> IsOpen(init, o)
    ensures ClosesSpan(After(init).open, last, |init|, s) ==>
      s.openedBy < |init| && Unanswered(init, s.openedBy) && init[s.openedBy].spanId == last.spanId
      && s == Closed(Opened(init[s.openedBy], s.openedBy), last, |init|)
  {
    hide After, Unanswered, Ends, Find;
    if ClosesSpan(After(init).open, last, |init|, s) {
      var o := After(init).open[Find(After(init).open, last.spanId)];
      assert o in After(init).open;
      assert IsOpen(init, o);
    }
  }

  lemma OpensSet(init: seq<Event>, i: nat)
    ensures Unanswered(init, i) ==> i < |init| && init[i].spanId != ""
  {
  }

  lemma OneForId(open: seq<Span>, id: string, o: Span)
    requires DistinctIds(open) && o in open && o.id == id
    ensures Find(open, id) < |open| && open[Find(open, id)] == o
  {
  }

  // ---------- The stack and the open spans ----------

  function Ids(open: seq<Span>): seq<string> {
    if open == [] then [] else [open[0].id] + Ids(open[1..])
  }

  // After every number of events, the stack lists the open spans in the order of the dictionary.
  ghost predicate StackIsOpen(events: seq<Event>) {
    forall k :: 0 <= k <= |events| ==> StackAfter(events[..k]) == Ids(After(events[..k]).open)
  }

  lemma {:induction false} IdsAt(open: seq<Span>)
    ensures |Ids(open)| == |open| && forall k :: 0 <= k < |open| ==> Ids(open)[k] == open[k].id
  {
    if open != [] {
      IdsAt(open[1..]);
    }
  }

  lemma IdsAppend(open: seq<Span>, span: Span)
    ensures Ids(open + [span]) == Ids(open) + [span.id]
  {
    IdsAt(open);
    IdsAt(open + [span]);
  }

  lemma {:induction false} RemoveLastAbsent(stack: seq<string>, id: string)
    requires id !in stack
    ensures RemoveLast(stack, id) == stack
  {
    if stack != [] {
      RemoveLastAbsent(stack[..|stack| - 1], id);
    }
  }

  lemma {:induction false} RemoveLastAt(stack: seq<string>, i: nat)
    requires i < |stack| && stack[i] !in stack[i + 1..]
    ensures RemoveLast(stack, stack[i]) == RemoveAt(stack, i)
  {
    var last := |stack| - 1;
    if i < last {
      assert stack[last] in stack[i + 1..];
      assert stack[..last][i + 1..] == stack[i + 1..][..last - i - 1];
      RemoveLastAt(stack[..last], i);
      assert RemoveAt(stack[..last], i) + [stack[last]] == RemoveAt(stack, i);
    } else {
      assert RemoveAt(stack, i) == stack[..last];
    }
  }

  lemma IdsRemove(open: seq<Span>, i: nat)
    requires i < |open| && |Ids(open)| == |open|
    ensures Ids(RemoveAt(open, i)) == RemoveAt(Ids(open), i)
  {
    IdsAt(open);
    hide Ids;
    var after := RemoveAt(open, i);
    IdsAt(after);
    forall k | 0 <= k < |after| ensures Ids(after)[k] == RemoveAt(Ids(open), i)[k] {
      assert after[k] == open[if k < i then k else k + 1];
    }
  }

  lemma NoLaterId(open: seq<Span>, i: nat)
    requires DistinctIds(open) && i < |open| && |Ids(open)| == |open|
    ensures Ids(open)[i] == open[i].id && open[i].id !in Ids(open)[i + 1..]
  {
    IdsAt(open);
    hide Ids;
    forall k | i < k < |open| ensures Ids(open)[k] != open[i].id {
    }
  }

  lemma RemoveKeepsIds(open: seq<Span>, i: nat)
    requires DistinctIds(open) && i < |open|
    ensures RemoveLast(Ids(open), open[i].id) == Ids(RemoveAt(open, i))
  {
    hide Ids, DistinctIds, RemoveLast;
    IdsAt(open);
    NoLaterId(open, i);
    RemoveLastAt(Ids(open), i);
    IdsRemove(open, i);
  }

  // One event keeps the stack and the dictionary together unless it re-opens an open id.
  lemma StackStep(items: Items, event: Event, k: nat)
    requires DistinctIds(items.open)
    ensures Push(Ids(items.open), event) == Ids(Step(items, event, k).open) <==> !Reopens(items, event)
  {
    hide DistinctIds, RemoveLast, Ids;
    IdsAt(items.open);
    IdsAt(Step(items, event, k).open);
    var i := Find(items.open, event.spanId);
    FindAbsent(items.open, event.spanId);
    if Opens(event) {
      IdsAppend(items.open, Opened(event, k));
    } else if Ends(event) && event.spanId != "" {
      if i < |items.open| {
        RemoveKeepsIds(items.open, i);
      } else {
        RemoveLastAbsent(Ids(items.open), event.spanId);
      }
    }
  }

  // The stack and the open spans agree after every event exactly when no open id is ever re-opened.
  lemma {:induction false} StackIsOpenIffNoReopen(events: seq<Event>)
    ensures StackIsOpen(events) <==> Overwritten(events) == 0
  {
    hide Push, Step, Reopens, DistinctIds;
    if events == [] {
      assert events[..0] == [];
      NothingOnStack();
    } else {
      var last := |events| - 1;
      var init := events[..last];
      StackIsOpenIffNoReopen(init);
      assert forall k :: 0 <= k <= last ==> init[..k] == events[..k];
      assert events[..|events|] == events;
      OpenIffUnanswered(init);
      StackStep(After(init), events[last], last);
    }
  }

  lemma NothingOnStack()
    ensures StackAfter([]) == Ids(After([]).open) && Overwritten([]) == 0
  {
  }

  predicate InStartOrder(open: seq<Span>) {
    forall k, l :: 0 <= k < l < |open| ==> open[k].openedBy < open[l].openedBy
  }

  lemma StepInStartOrder(items: Items, event: Event, n: nat)
    requires InStartOrder(items.open) && !Reopens(items, event)
    requires forall k :: 0 <= k < |items.open| ==> items.open[k].openedBy < n
    ensures InStartOrder(Step(items, event, n).open)
  {
    hide Opens, Ends;
  }

  lemma {:induction false} OpenInStartOrder(events: seq<Event>)
    requires Overwritten(events) == 0
    ensures InStartOrder(After(events).open)
  {
    hide Step, Reopens, DistinctIds, Unanswered;
    if events != [] {
      var init := events[..|events| - 1];
      OpenInStartOrder(init);
      OpenIffUnanswered(init);
      forall k | 0 <= k < |After(init).open| ensures After(init).open[k].openedBy < |init| {
        assert After(init).open[k] in After(init).open;
      }
      StepInStartOrder(After(init), events[|init|], |init|);
    }
  }

  lemma {:induction false} NoEarlierReopen(events: seq<Event>, k: nat)
    requires Overwritten(events) == 0 && k <= |events|
    ensures Overwritten(events[..k]) == 0
  {
    if k < |events| {
      assert events[..|events| - 1][..k] == events[..k];
      NoEarlierReopen(events[..|events| - 1], k);
    } else {
      assert events[..k] == events;
    }
  }

  // If no open id is re-opened, the inferred parent is the latest start not yet ended.
  lemma InferredParentIsLatestOpen(events: seq<Event>, k: nat)
    requires Overwritten(events) == 0 && k <= |events|
    ensures match Top(StackAfter(events[..k]))
            case None => forall i: nat :: !Unanswered(events[..k], i)
            case Some(id) =>
              exists i: nat ::
                Unanswered(events[..k], i) && events[i].spanId == id
                && forall j: nat :: i < j ==> !Unanswered(events[..k], j)
  {
    hide Overwritten, StackAfter, Unanswered, DistinctIds;
    var seen := events[..k];
    NoEarlierReopen(events, k);
    StackIsOpenIffNoReopen(events);
    OpenIffUnanswered(seen);
    OpenInStartOrder(seen);
    var open := After(seen).open;
    IdsAt(open);
    assert StackAfter(seen) == Ids(open);
    forall i: nat | Unanswered(seen, i)
      ensures exists l :: 0 <= l < |open| && open[l].openedBy == i
    {
      StartIsListed(seen, i);
    }
    if open != [] {
      var top := open[|open| - 1];
      assert top in open;
      assert IsOpen(seen, top);
    }
  }

  lemma StartIsListed(events: seq<Event>, i: nat)
    requires Unanswered(events, i)
    requires forall s :: s in After(events).open <==> IsOpen(events, s)
    ensures exists l :: 0 <= l < |After(events).open| && After(events).open[l].openedBy == i
  {
    hide After;
    assert IsOpen(events, Opened(events[i], i));
  }

  // What the record of an open span holds: all of it from the start that nothing of the id followed.
  lemma OpenSpanIs(events: seq<Event>, span: Span)
    requires span in After(events).open
    ensures var i := span.openedBy;
            && i < |events| && Unanswered(events, i)
            && span.id == events[i].spanId && span.startTs == events[i].ts && span.parentId == events[i].parentId
            && span.closedBy.None? && span.endTs.None?
  {
    hide After, Unanswered, DistinctIds;
    OpenIffUnanswered(events);
  }

  // What the record of a closed span holds: its end from the event that closed it, the rest from its start.
  lemma ClosedSpanIs(events: seq<Event>, span: Span)
    requires span in After(events).closed
    ensures span.closedBy.Some? && span.endTs.Some?
    ensures var i, j := span.openedBy, span.closedBy.value;
            && Answers(events, i, j)
            && span.id == events[i].spanId && span.startTs == events[i].ts && span.parentId == events[i].parentId
            && span.endTs.value == events[j].ts
  {
    hide After;
    ClosedIffAnswered(events);
    assert IsClosed(events, span);
  }

  // Started twice and not ended: the stack holds the id twice, the dictionary once.
  lemma ReopenedId(first: Event, second: Event)
    requires Opens(first) && Opens(second) && first.spanId == second.spanId
    ensures Overwritten([first, second]) == 1
    ensures StackAfter([first, second]) == [first.spanId, first.spanId]
    ensures After([first, second]).open == [Opened(second, 1)]
  {
    var events := [first, second];
    assert events[..1] == [first] && events[..1][..0] == [];
    assert After([first]).open == [Opened(first, 0)];
    assert StackAfter([first]) == [first.spanId];
    assert Overwritten([first]) == 0;
  }
}

/** What the items of a trace are, read off the kinds and ids of the events alone. */
module TraceItems {
  import opened Sequences
  import opened TraceEvents
  import opened Wrappers

  // Event k opens or ends a span with this id.
  predicate Concerns(events: seq<Event>, k: nat, id: string)
    requires k < |events|
  {
    events[k].spanId == id && events[k].kind != Other
  }

  // The closed spans are exactly the pairs of a start and an end of one id with no start and no end of it between.
  lemma ClosedSpansAre(events: seq<Event>, i: nat, j: nat)
    requires i < j < |events|
    ensures (exists s :: s in After(events).closed && s.openedBy == i && s.closedBy == Some(j))
            <==> events[i].kind == SpanStart && events[j].kind == SpanEnd && events[i].spanId == events[j].spanId != ""
                 && forall k: nat :: i < k < j ==> !Concerns(events, k, events[i].spanId)
  {
    hide After;
    ClosedIffAnswered(events);
    hide IsClosed;
    AnswersAre(events, i, j);
    if Answers(events, i, j) {
      var s := Closed(Opened(events[i], i), events[j], j);
      ClosedFrom(events, i, j);
      assert s in After(events).closed;
    }
    forall s | s in After(events).closed && s.openedBy == i && s.closedBy == Some(j) ensures Answers(events, i, j) {
      ClosedSpanIs(events, s);
    }
  }

  lemma AnswersAre(events: seq<Event>, i: nat, j: nat)
    requires i < j < |events|
    ensures Answers(events, i, j)
            <==> events[i].kind == SpanStart && events[j].kind == SpanEnd && events[i].spanId == events[j].spanId != ""
                 && forall k: nat :: i < k < j ==> !Concerns(events, k, events[i].spanId)
  {
    if events[i].spanId != "" {
      forall k | i < k < j
        ensures Concerns(events, k, events[i].spanId)
                <==> events[k].spanId == events[i].spanId && (Opens(events[k]) || Ends(events[k]))
      {
      }
    }
  }

  lemma ClosedFrom(events: seq<Event>, i: nat, j: nat)
    requires Answers(events, i, j)
    ensures IsClosed(events, Closed(Opened(events[i], i), events[j], j))
  {
  }

  // The open spans are exactly the starts with no start and no end of the id behind them.
  lemma OpenSpansAre(events: seq<Event>, i: nat)
    requires i < |events|
    ensures (exists s :: s in After(events).open && s.openedBy == i)
            <==> events[i].kind == SpanStart && events[i].spanId != ""
                 && forall k: nat :: i < k < |events| ==> !Concerns(events, k, events[i].spanId)
  {
    hide After;
    OpenIffUnanswered(events);
    if Unanswered(events, i) {
      assert IsOpen(events, Opened(events[i], i));
    }
    if events[i].spanId != "" {
      forall k | i < k < |events|
        ensures Concerns(events, k, events[i].spanId)
                <==> events[k].spanId == events[i].spanId && (Opens(events[k]) || Ends(events[k]))
      {
      }
    }
  }

  // ---------- Points, orphans and the order of the lists ----------

  ghost predicate Climbing(s: seq<nat>, n: nat) {
    (forall i :: 0 <= i < |s| ==> s[i] < n) && forall i, j :: 0 <= i < j < |s| ==> s[i] < s[j]
  }

  lemma ClimbingNext(s: seq<nat>, n: nat)
    requires Climbing(s, n)
    ensures Climbing(s, n + 1) && Climbing(s + [n], n + 1)
  {
  }

  // Points are the other events and the starts without an id, in order.
  lemma {:induction false} PointsAre(events: seq<Event>)
    ensures Climbing(After(events).points, |events|)
    ensures forall k: nat :: k in After(events).points
              <==> k < |events| && (events[k].kind == Other || (events[k].kind == SpanStart && events[k].spanId == ""))
  {
    if events != [] {
      var n := |events| - 1;
      var items, event := After(events[..n]), events[n];
      PointsAre(events[..n]);
      ClimbingNext(items.points, n);
      PointsNext(items, event, n);
    }
  }

  lemma PointsNext(items: Items, event: Event, n: nat)
    ensures Step(items, event, n).points
            == if event.kind == Other || (event.kind == SpanStart && event.spanId == "") then items.points + [n]
               else items.points
  {
    hide Find, SetOpen, RemoveAt;
  }

  // Orphans are the ends that no start belongs to, in order.
  lemma {:induction false} OrphansAre(events: seq<Event>)
    ensures Climbing(After(events).orphans, |events|)
    ensures forall k: nat :: k in After(events).orphans
              <==> k < |events| && events[k].kind == SpanEnd && forall i: nat :: !Answers(events, i, k)
  {
    hide Answers, Unanswered, DistinctIds;
    if events != [] {
      var n := |events| - 1;
      var init := events[..n];
      var items, event := After(init), events[n];
      assert events == init + [event];
      OrphansAre(init);
      ClimbingNext(items.orphans, n);
      OpenIffUnanswered(init);
      OrphansNext(init, event);
      forall i: nat, k: nat | k < n ensures Answers(events, i, k) <==> Answers(init, i, k) {
        AnswersNext(init, event, i, k);
      }
      forall i: nat
        ensures Answers(events, i, n)
                <==> i < n && Unanswered(init, i) && event.kind == SpanEnd && init[i].spanId == event.spanId
      {
        AnswersNext(init, event, i, 0);
      }
    }
  }

  lemma OrphansNext(init: seq<Event>, event: Event)
    requires DistinctIds(After(init).open) && forall s :: s in After(init).open <==> IsOpen(init, s)
    ensures Step(After(init), event, |init|).orphans
            == if event.kind == SpanEnd
                  && forall i: nat :: i < |init| ==> !(Unanswered(init, i) && init[i].spanId == event.spanId)
               then After(init).orphans + [|init|] else After(init).orphans
  {
    hide After, SetOpen, RemoveAt, DistinctIds, Unanswered;
    var open := After(init).open;
    var f := Find(open, event.spanId);
    forall i: nat | i < |init| && Unanswered(init, i) && init[i].spanId == event.spanId
      ensures event.spanId != "" && f < |open|
    {
      StartOpens(init, i);
      var s := Opened(init[i], i);
      assert IsOpen(init, s);
      var k :| 0 <= k < |open| && open[k] == s;
    }
    if f < |open| {
      assert open[f] in open;
    }
  }

  lemma StartOpens(events: seq<Event>, i: nat)
    requires Unanswered(events, i)
    ensures i < |events| && events[i].spanId != ""
  {
  }

  // Closed spans are listed in the order in which they were closed.
  lemma {:induction false} ClosedInOrder(events: seq<Event>)
    ensures forall k :: 0 <= k < |After(events).closed| ==>
              After(events).closed[k].closedBy.Some? && After(events).closed[k].closedBy.value < |events|
    ensures forall k, l :: 0 <= k < l < |After(events).closed| ==>
              After(events).closed[k].closedBy.value < After(events).closed[l].closedBy.value
  {
    hide Find, SetOpen, RemoveAt;
    if events != [] {
      ClosedInOrder(events[..|events| - 1]);
    }
  }

  // A start whose id is still open takes the earlier span's place in the dictionary.
  lemma ReopenedKeepsPlace(a: Event, b: Event, c: Event)
    requires Opens(a) && Opens(b) && Opens(c) && a.spanId == c.spanId != b.spanId
    ensures After([a, b, c]).open == [Opened(c, 2), Opened(b, 1)]
  {
    assert [a, b, c][..2] == [a, b] && [a, b][..1] == [a] && [a][..0] == [];
    assert After([a]).open == [Opened(a, 0)];
    OneIsOpen(a, b);
    assert Find([Opened(a, 0), Opened(b, 1)], c.spanId) == 0;
  }

  lemma OneIsOpen(a: Event, b: Event)
    requires a.spanId != b.spanId
    ensures SetOpen([Opened(a, 0)], Opened(b, 1)) == [Opened(a, 0), Opened(b, 1)]
  {
    assert [Opened(a, 0)][1..] == [];
    assert Find([], b.spanId) == 0;
  }
}

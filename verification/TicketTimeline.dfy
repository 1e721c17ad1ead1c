/** FindHistory orders a ticket's rows by `changed_at` alone, while the rows were inserted in the
    order of their ids. When the two orders agree, exactly. */
module TicketTimeline {
  import opened TicketWorkflow
  import opened TicketProofs

  /** Anything `WHERE ticket_id = ? ORDER BY changed_at ASC` may return: ties in any order. */
  ghost predicate Returned(out: Rows, h: Rows) {
    multiset(out) == multiset(h) && InTimeOrder(out)
  }

  ghost predicate StrictlyInTime(h: Rows) {
    forall i, j :: 0 <= i < j < |h| ==> h[i].changedAt < h[j].changedAt
  }

  ghost predicate DistinctIds(h: Rows) {
    forall i, j :: 0 <= i < j < |h| ==> h[i].id != h[j].id
  }

  /** FindHistory's answer is determined, and is the order of insertion. */
  ghost predicate Determined(h: Rows) {
    forall out :: Returned(out, h) ==> out == h
  }

  // ---------------------------------------------------------------- increasing times determine it

  /** The last row of a strictly increasing history is also the last of any answer. */
  lemma LastAgrees(out: Rows, h: Rows)
    requires Returned(out, h) && StrictlyInTime(h) && h != []
    ensures |out| == |h| && out[|h| - 1] == h[|h| - 1]
  {
    assert |out| == |multiset(out)| == |multiset(h)| == |h|;
    var n := |h| - 1;
    assert h[n] in multiset(h) && h[n] in multiset(out);
    var k :| 0 <= k < |out| && out[k] == h[n];
    assert out[n] in multiset(out) && out[n] in multiset(h);
    var j :| 0 <= j < |h| && h[j] == out[n];
    assert k < n ==> out[k].changedAt <= out[n].changedAt;
    assert j < n ==> h[j].changedAt < h[n].changedAt;
  }

  lemma SnocMultiset(h: Rows)
    requires h != []
    ensures multiset(h[..|h| - 1]) == multiset(h) - multiset{h[|h| - 1]}
  {
    assert h == h[..|h| - 1] + [h[|h| - 1]];
  }

  lemma SnocEqual(out: Rows, h: Rows)
    requires out != [] && |out| == |h| && out[..|out| - 1] == h[..|h| - 1] && out[|out| - 1] == h[|h| - 1]
    ensures out == h
  {
    assert out == out[..|out| - 1] + [out[|out| - 1]] && h == h[..|h| - 1] + [h[|h| - 1]];
  }

  lemma {:induction false} OnlyOneOrder(out: Rows, h: Rows)
    requires Returned(out, h) && StrictlyInTime(h)
    ensures out == h
  {
    if h == [] {
      assert |out| == |multiset(out)| == |multiset(h)|;
    } else {
      var n := |h| - 1;
      LastAgrees(out, h);
      SnocMultiset(out);
      SnocMultiset(h);
      OnlyOneOrder(out[..n], h[..n]);
      SnocEqual(out, h);
    }
  }

  // ---------------------------------------------------------------- anything else does not

  function Insert(r: HistoryRow, sorted: Rows): Rows {
    if sorted == [] || r.changedAt <= sorted[0].changedAt then [r] + sorted
    else [sorted[0]] + Insert(r, sorted[1..])
  }

  function Sort(h: Rows): Rows {
    if h == [] then [] else Insert(h[0], Sort(h[1..]))
  }

  lemma OrderCons(x: HistoryRow, h: Rows)
    requires InTimeOrder(h) && forall r :: r in multiset(h) ==> x.changedAt <= r.changedAt
    ensures InTimeOrder([x] + h)
  {
    forall j | 0 <= j < |h|
      ensures x.changedAt <= h[j].changedAt
    {
      assert h[j] in multiset(h);
    }
  }

  lemma HeadIsLeast(h: Rows)
    requires InTimeOrder(h) && h != []
    ensures forall r :: r in multiset(h) ==> h[0].changedAt <= r.changedAt
  {
    forall r | r in multiset(h)
      ensures h[0].changedAt <= r.changedAt
    {
      var i :| 0 <= i < |h| && h[i] == r;
    }
  }

  lemma ConsMultiset(h: Rows)
    requires h != []
    ensures multiset(h) == multiset{h[0]} + multiset(h[1..])
  {
    assert h == [h[0]] + h[1..];
  }

  lemma {:induction false} InsertSorts(r: HistoryRow, sorted: Rows)
    requires InTimeOrder(sorted)
    ensures multiset(Insert(r, sorted)) == multiset(sorted) + multiset{r}
    ensures InTimeOrder(Insert(r, sorted))
  {
    if sorted == [] || r.changedAt <= sorted[0].changedAt {
      if sorted != [] {
        HeadIsLeast(sorted);
      }
      OrderCons(r, sorted);
    } else {
      InsertSorts(r, sorted[1..]);
      HeadIsLeast(sorted);
      ConsMultiset(sorted);
      OrderCons(sorted[0], Insert(r, sorted[1..]));
    }
  }

  lemma {:induction false} SortReturned(h: Rows)
    ensures Returned(Sort(h), h)
  {
    if h != [] {
      SortReturned(h[1..]);
      InsertSorts(h[0], Sort(h[1..]));
      ConsMultiset(h);
    }
  }

  lemma SwapMultiset(front: Rows, x: HistoryRow, y: HistoryRow, back: Rows)
    ensures multiset(front + [y, x] + back) == multiset(front + [x, y] + back)
  {
  }

  lemma SwapOrdered(h: Rows, i: nat, out: Rows)
    requires i + 1 < |h| && InTimeOrder(h) && h[i].changedAt == h[i + 1].changedAt
    requires out == h[i := h[i + 1]][i + 1 := h[i]]
    ensures InTimeOrder(out)
  {
    assert forall k :: 0 <= k < |h| ==> out[k].changedAt == h[k].changedAt;
  }

  lemma Swapped(h: Rows, i: nat)
    requires i + 1 < |h| && InTimeOrder(h) && h[i].changedAt == h[i + 1].changedAt
    ensures Returned(h[i := h[i + 1]][i + 1 := h[i]], h)
  {
    var out := h[i := h[i + 1]][i + 1 := h[i]];
    assert multiset(out) == multiset(h) by {
      assert h == h[..i] + [h[i], h[i + 1]] + h[i + 2..];
      assert out == h[..i] + [h[i + 1], h[i]] + h[i + 2..];
      SwapMultiset(h[..i], h[i], h[i + 1], h[i + 2..]);
    }
    SwapOrdered(h, i, out);
  }

  /** FindHistory shows the history in the order it was written if and only if the times strictly
      increase in that order: not after a tie, nor when a call wrote later than another although it
      had read the clock earlier. */
  lemma TimelineExactly(h: Rows)
    requires DistinctIds(h)
    ensures Determined(h) <==> StrictlyInTime(h)
  {
    if StrictlyInTime(h) {
      forall out | Returned(out, h)
        ensures out == h
      {
        OnlyOneOrder(out, h);
      }
    } else if InTimeOrder(h) {
      var i, j :| 0 <= i < j < |h| && h[i].changedAt >= h[j].changedAt;
      assert h[i].changedAt <= h[i + 1].changedAt <= h[j].changedAt;
      Swapped(h, i);
      assert h[i := h[i + 1]][i + 1 := h[i]][i].id != h[i].id;
    } else {
      SortReturned(h);
      assert Sort(h) != h;
    }
  }

  // ---------------------------------------------------------------- where the timeline ends

  /** A row no other is later than. */
  ghost predicate Latest(h: Rows, r: HistoryRow) {
    r in h && forall q :: q in h ==> q.changedAt <= r.changedAt
  }

  lemma LastIsLatest(out: Rows, h: Rows)
    requires Returned(out, h) && h != []
    ensures out != [] && Latest(h, out[|out| - 1])
  {
    assert |out| == |multiset(out)| == |multiset(h)| == |h|;
    var r := out[|out| - 1];
    assert r in multiset(out) && r in multiset(h);
    forall q | q in h
      ensures q.changedAt <= r.changedAt
    {
      assert q in multiset(h) && q in multiset(out);
      var i :| 0 <= i < |out| && out[i] == q;
    }
  }

  lemma SplitMultiset(h: Rows, k: nat)
    requires k < |h|
    ensures multiset(h) == multiset(h[..k] + h[k + 1..]) + multiset{h[k]}
  {
    assert h == h[..k] + [h[k]] + h[k + 1..];
  }

  lemma EndWith(sorted: Rows, rest: Rows, r: HistoryRow)
    requires Returned(sorted, rest) && forall q :: q in multiset(rest) ==> q.changedAt <= r.changedAt
    ensures multiset(sorted + [r]) == multiset(rest) + multiset{r} && InTimeOrder(sorted + [r])
  {
    if sorted != [] {
      assert sorted[|sorted| - 1] in multiset(sorted);
    }
    OrderSnoc(sorted, r);
  }

  /** Any latest row may come last. */
  lemma LatestMayEnd(h: Rows, r: HistoryRow) returns (out: Rows)
    requires Latest(h, r)
    ensures Returned(out, h) && out != [] && out[|out| - 1] == r
  {
    var k :| 0 <= k < |h| && h[k] == r;
    var rest := h[..k] + h[k + 1..];
    SplitMultiset(h, k);
    forall q: HistoryRow | q in multiset(rest)
      ensures q.changedAt <= r.changedAt
    {
      assert q in multiset(h);
    }
    SortReturned(rest);
    EndWith(Sort(rest), rest, r);
    out := Sort(rest) + [r];
  }

  /** However the database orders ties, the timeline ends in the status the ticket ended in if and
      only if every latest row went there. */
  lemma TimelineEndsExactly(h: Rows)
    requires h != []
    ensures (forall out :: Returned(out, h) ==> LastStatus(out) == LastStatus(h))
            <==> (forall r :: Latest(h, r) ==> r.toStatus == LastStatus(h))
  {
    if forall r :: Latest(h, r) ==> r.toStatus == LastStatus(h) {
      forall out | Returned(out, h)
        ensures LastStatus(out) == LastStatus(h)
      {
        LastIsLatest(out, h);
      }
    } else {
      var r :| Latest(h, r) && r.toStatus != LastStatus(h);
      var out := LatestMayEnd(h, r);
      assert LastStatus(out) == r.toStatus;
    }
  }

  // ---------------------------------------------------------------- for every run

  lemma {:induction false} RowIds(history: seq<HistoryRow>, id: TicketId)
    requires forall i :: 0 <= i < |history| ==> history[i].id == i
    ensures DistinctIds(RowsOf(history, id))
    ensures forall r :: r in RowsOf(history, id) ==> r.id < |history|
  {
    if history != [] {
      var n := |history| - 1;
      RowIds(history[..n], id);
      forall i | 0 <= i < |RowsOf(history[..n], id)|
        ensures RowsOf(history[..n], id)[i].id < n
      {
        assert RowsOf(history[..n], id)[i] in RowsOf(history[..n], id);
      }
    }
  }

  lemma {:induction false} HistoryIds(events: seq<Event>)
    ensures forall i :: 0 <= i < |Run(events).db.history| ==> Run(events).db.history[i].id == i
  {
    if events != [] {
      HistoryIds(events[..|events| - 1]);
    }
  }

  /** The timeline of a ticket that any run has produced. */
  lemma TimelineOfRun(events: seq<Event>, id: TicketId)
    ensures var h := RowsOf(Run(events).db.history, id); Determined(h) <==> StrictlyInTime(h)
  {
    HistoryIds(events);
    RowIds(Run(events).db.history, id);
    TimelineExactly(RowsOf(Run(events).db.history, id));
  }
}

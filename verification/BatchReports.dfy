/** What a batch's status tells about its combos, in terms of the updates it was sent
    (internal/api/progress_store.go, UpdateCombo). */
module BatchReports {
  import opened Common
  import opened MatrixProgressModel

  // ---------------------------------------------------------------- reading the updates

  /** The status last given to combo x, by an update or by cancelling it while unfinished. */
  function StatusOf(events: seq<Event>, x: nat): ComboStatus {
    if events == [] then Pending
    else
      var before := StatusOf(events[..|events| - 1], x);
      match events[|events| - 1]
      case Update(index, status, _, _) => if index == x then status else before
      case Cancel => if before == Pending || before == Running then Cancelled else before
  }

  predicate NamesCombo(n: nat, e: Event) {
    e.Update? && e.index < n
  }

  /** The update gives a combo a final status for the first time, or again after it was sent back. */
  predicate FinishesOne(n: nat, front: seq<Event>, e: Event) {
    NamesCombo(n, e) && Terminal(e.status) && !Terminal(StatusOf(front, e.index))
  }

  /** The update gives a final status to a combo that has one: a replay. */
  predicate Repeats(n: nat, front: seq<Event>, e: Event) {
    NamesCombo(n, e) && Terminal(e.status) && Terminal(StatusOf(front, e.index))
  }

  /** How many updates of a combo carry an error. */
  function Errors(n: nat, events: seq<Event>): nat {
    if events == [] then 0
    else
      var e := events[|events| - 1];
      Errors(n, events[..|events| - 1]) + if NamesCombo(n, e) && e.err != "" then 1 else 0
  }

  function Finishes(n: nat, events: seq<Event>): nat {
    if events == [] then 0
    else
      var front, e := events[..|events| - 1], events[|events| - 1];
      Finishes(n, front) + if FinishesOne(n, front, e) then 1 else 0
  }

  /** The combos without a final status. */
  function Open(n: nat, events: seq<Event>): set<nat> {
    set x: nat | x < n && !Terminal(StatusOf(events, x))
  }

  /** No finished combo is given an unfinished status. */
  ghost predicate NoneSentBack(n: nat, events: seq<Event>) {
    forall i :: 0 <= i < |events| && NamesCombo(n, events[i]) && !Terminal(events[i].status) ==>
                  !Terminal(StatusOf(events[..i], events[i].index))
  }

  // ---------------------------------------------------------------- the counters

  /** The record after a run, read off the updates. */
  ghost predicate Agrees(p: Progress, n: nat, events: seq<Event>) {
    && p.total == |p.combos| == n
    && p.failed == Errors(n, events) && p.completed == Finishes(n, events)
    && forall x: nat :: x < n ==> p.combos[x].status == StatusOf(events, x)
  }

  lemma AgreesStep(p: Progress, batchID: string, front: seq<Event>, e: Event)
    requires Agrees(p, |p.combos|, front)
    ensures Agrees(Apply(p, batchID, e), |p.combos|, front + [e])
  {
    var n, events := |p.combos|, front + [e];
    assert events[..|events| - 1] == front;
    if e.Update? && e.index < n {
      UpdateCounters(p, batchID, e.index, e.status, e.err, e.result);
      assert Finishes(n, events) == Finishes(n, front) + if FinishesOne(n, front, e) then 1 else 0;
      assert Errors(n, events) == Errors(n, front) + if NamesCombo(n, e) && e.err != "" then 1 else 0;
      hide Updated, Finishes, Errors;
    }
  }

  lemma {:induction false} RunAgrees(combos: seq<Combo>, batchID: string, events: seq<Event>)
    requires AllPending(combos)
    ensures Agrees(Run(Created(|combos|, combos), batchID, events), |combos|, events)
  {
    if events != [] {
      var front, e := events[..|events| - 1], events[|events| - 1];
      RunAgrees(combos, batchID, front);
      AgreesStep(Run(Created(|combos|, combos), batchID, front), batchID, front, e);
      assert front + [e] == events;
    }
  }

  /** Each combo not open was finished; without sending back, once. */
  lemma {:induction false} FinishesAndOpen(n: nat, events: seq<Event>)
    ensures Finishes(n, events) + |Open(n, events)| >= n
    ensures NoneSentBack(n, events) ==> Finishes(n, events) + |Open(n, events)| == n
  {
    if events == [] {
      AllOpen(n);
    } else {
      var front, e := events[..|events| - 1], events[|events| - 1];
      FinishesAndOpen(n, front);
      OpenStep(n, front, e);
      assert front + [e] == events;
      if NoneSentBack(n, events) {
        SentBackFront(n, events);
      }
      hide Terminal, Open, StatusOf;
    }
  }

  lemma SentBackFront(n: nat, events: seq<Event>)
    requires events != [] && NoneSentBack(n, events)
    ensures NoneSentBack(n, events[..|events| - 1])
    ensures var e := events[|events| - 1];
            NamesCombo(n, e) && !Terminal(e.status) ==> !Terminal(StatusOf(events[..|events| - 1], e.index))
  {
    var front := events[..|events| - 1];
    hide StatusOf, Terminal;
    forall i | 0 <= i < |front| && NamesCombo(n, front[i]) && !Terminal(front[i].status)
      ensures !Terminal(StatusOf(front[..i], front[i].index))
    {
      assert front[..i] == events[..i];
    }
  }

  lemma {:induction false} AllOpen(n: nat)
    ensures |Open(n, [])| == n
  {
    if n == 0 {
      assert Open(0, []) == {};
    } else {
      AllOpen(n - 1);
      assert Open(n, []) == Open(n - 1, []) + {n - 1};
    }
  }

  lemma OpenStep(n: nat, front: seq<Event>, e: Event)
    ensures var before, after := Open(n, front), Open(n, front + [e]);
            && (FinishesOne(n, front, e) ==> |after| == |before| - 1)
            && (!FinishesOne(n, front, e) ==> |after| >= |before|)
            && (!FinishesOne(n, front, e)
                && (NamesCombo(n, e) && !Terminal(e.status) ==> !Terminal(StatusOf(front, e.index)))
                ==> after == before)
  {
    var events := front + [e];
    assert events[..|events| - 1] == front;
    var before, after := Open(n, front), Open(n, events);
    assert forall x: nat :: e.Cancel? || e.index != x ==>
                              (Terminal(StatusOf(events, x)) <==> Terminal(StatusOf(front, x)));
    if FinishesOne(n, front, e) {
      assert after == before - {e.index};
    } else {
      SubsetCardinality(before, after);
    }
  }

  // ---------------------------------------------------------------- the status

  ghost predicate Right(p: Progress) {
    p.status == BatchCompleted <==> AllTerminal(p.combos)
  }

  /** The status is right after every update of the run. */
  ghost predicate ReportedRightly(combos: seq<Combo>, batchID: string, events: seq<Event>) {
    forall i :: 0 <= i <= |events| ==> Right(Run(Created(|combos|, combos), batchID, events[..i]))
  }

  /** The last update takes effect, and the finishes and errors so far add up to all combos. */
  ghost predicate Reaches(n: nat, events: seq<Event>) {
    && events != []
    && var front, e := events[..|events| - 1], events[|events| - 1];
       && NamesCombo(n, e) && !Repeats(n, front, e) && Finishes(n, events) + Errors(n, events) >= n
  }

  /** It does so although it leaves combos open: errors have made up for them. */
  ghost predicate ErrorsMakeUp(n: nat, events: seq<Event>) {
    Reaches(n, events) && Open(n, events) != {}
  }

  /** The run ends in a cancel that came after every combo had finished. */
  ghost predicate CancelsFinished(n: nat, events: seq<Event>) {
    events != [] && events[|events| - 1].Cancel? && Open(n, events) == {}
  }

  /** One more event, seen from the status. */
  lemma StatusStep(combos: seq<Combo>, batchID: string, events: seq<Event>)
    requires combos != [] && AllPending(combos) && events != []
    requires Right(Run(Created(|combos|, combos), batchID, events[..|events| - 1]))
    ensures Right(Run(Created(|combos|, combos), batchID, events))
            <==> !ErrorsMakeUp(|combos|, events) && !CancelsFinished(|combos|, events)
  {
    hide Agrees, AllPending, Open, Finishes, Errors, StatusOf, Apply, Created, AllTerminal;
    var n, front, e := |combos|, events[..|events| - 1], events[|events| - 1];
    var p, q := Run(Created(n, combos), batchID, front), Run(Created(n, combos), batchID, events);
    assert q == Apply(p, batchID, e);
    hide Run;
    RunAgrees(combos, batchID, front);
    RunAgrees(combos, batchID, events);
    FinishesAndOpen(n, front);
    FinishesAndOpen(n, events);
    OpenStep(n, front, e);
    assert front + [e] == events;
    OpenIsUnfinished(p, n, front);
    OpenIsUnfinished(q, n, events);
    StatusMoves(p, batchID, front, e);
    ReachesGrow(n, front, e);
    hide Terminal, Reaches;
  }

  lemma ReachesGrow(n: nat, front: seq<Event>, e: Event)
    ensures var events := front + [e];
            && Finishes(n, front) <= Finishes(n, events) && Errors(n, front) <= Errors(n, events)
            && (Reaches(n, events) <==> && NamesCombo(n, e) && !Repeats(n, front, e)
                                        && Finishes(n, events) + Errors(n, events) >= n)
  {
    assert (front + [e])[..|front|] == front;
  }

  lemma OpenIsUnfinished(p: Progress, n: nat, events: seq<Event>)
    requires Agrees(p, n, events)
    ensures AllTerminal(p.combos) <==> Open(n, events) == {}
    ensures p.completed == Finishes(n, events) && p.failed == Errors(n, events) && p.total == |p.combos| == n
  {
    hide Terminal, StatusOf, Errors, Finishes;
    if Open(n, events) == {} {
      forall x: nat | x < n
        ensures Terminal(p.combos[x].status)
      {
        assert x !in Open(n, events);
      }
    }
  }

  lemma StatusMoves(p: Progress, batchID: string, front: seq<Event>, e: Event)
    requires Agrees(p, |p.combos|, front)
    ensures var n, q := |p.combos|, Apply(p, batchID, e);
            q.status == if e.Cancel? then BatchCancelled
                        else if NamesCombo(n, e) && !Repeats(n, front, e) && q.completed + q.failed >= q.total
                        then BatchCompleted else p.status
  {
    if e.Update? && e.index < |p.combos| {
      UpdateCounters(p, batchID, e.index, e.status, e.err, e.result);
      hide Updated;
    }
  }

  lemma StartsRight(combos: seq<Combo>, batchID: string)
    requires AllPending(combos)
    ensures Right(Run(Created(|combos|, combos), batchID, [])) <==> combos != []
    ensures !ErrorsMakeUp(|combos|, []) && !CancelsFinished(|combos|, [])
  {
    if combos != [] {
      assert !Terminal(combos[0].status);
    }
  }

  /** Over every run of updates and cancels the status tells throughout whether all combos have
      finished, if and only if there is a combo, after no update that takes effect the errors
      have made up for combos still open, and no cancel comes after every combo has finished. */
  lemma {:induction false} StatusTellsCompletion(combos: seq<Combo>, batchID: string, events: seq<Event>)
    requires AllPending(combos)
    ensures ReportedRightly(combos, batchID, events) <==>
              && combos != []
              && forall i :: 0 <= i <= |events| ==>
                   !ErrorsMakeUp(|combos|, events[..i]) && !CancelsFinished(|combos|, events[..i])
  {
    hide Right, ErrorsMakeUp, CancelsFinished, Run, Created, AllPending;
    StartsRight(combos, batchID);
    if events == [] {
      assert events[..0] == [];
    } else {
      var n := |events| - 1;
      StatusTellsCompletion(combos, batchID, events[..n]);
      assert events[..|events|] == events;
      assert forall i :: 0 <= i <= n ==> events[..n][..i] == events[..i];
      assert ReportedRightly(combos, batchID, events) <==>
        ReportedRightly(combos, batchID, events[..n]) && Right(Run(Created(|combos|, combos), batchID, events));
      if ReportedRightly(combos, batchID, events[..n]) {
        assert Right(Run(Created(|combos|, combos), batchID, events[..n][..n]));
        StatusStep(combos, batchID, events);
      }
    }
  }

  /** When no combo is sent back, the errors have to be as many as the open combos. */
  lemma MakingUpIsCounting(n: nat, events: seq<Event>)
    requires NoneSentBack(n, events)
    ensures Finishes(n, events) + Errors(n, events) >= n <==> Errors(n, events) >= |Open(n, events)|
  {
    FinishesAndOpen(n, events);
  }

  // ---------------------------------------------------------------- cancels

  /** A cancel cancels; an update that reaches the total completes; the rest change nothing. */
  ghost function ReportedAs(n: nat, events: seq<Event>): BatchStatus {
    if events == [] then BatchRunning
    else if events[|events| - 1].Cancel? then BatchCancelled
    else if Reaches(n, events) then BatchCompleted
    else ReportedAs(n, events[..|events| - 1])
  }

  lemma {:induction false} RunStatus(combos: seq<Combo>, batchID: string, events: seq<Event>)
    requires AllPending(combos)
    ensures Run(Created(|combos|, combos), batchID, events).status == ReportedAs(|combos|, events)
  {
    if events != [] {
      var n, front, e := |combos|, events[..|events| - 1], events[|events| - 1];
      RunStatus(combos, batchID, front);
      RunAgrees(combos, batchID, front);
      RunAgrees(combos, batchID, events);
      hide Apply, AllPending, Created, StatusOf, Repeats, Errors, Finishes;
      StatusMoves(Run(Created(n, combos), batchID, front), batchID, front, e);
      assert front + [e] == events;
    }
  }

  /** The last event cancels the batch or reaches the total. */
  ghost predicate Ends(n: nat, events: seq<Event>) {
    events != [] && (events[|events| - 1].Cancel? || Reaches(n, events))
  }

  lemma {:induction false} EndedExactly(n: nat, events: seq<Event>)
    ensures ReportedAs(n, events) in {BatchRunning, BatchCompleted, BatchCancelled}
    ensures ReportedAs(n, events) != BatchRunning <==> exists i :: 0 < i <= |events| && Ends(n, events[..i])
  {
    hide Reaches;
    if events != [] {
      var m := |events| - 1;
      EndedExactly(n, events[..m]);
      assert events[..|events|] == events;
      assert forall i :: 0 < i <= m ==> events[..m][..i] == events[..i];
    }
  }

  /** A poller is told that the batch is over exactly when it has been cancelled or an update has
      reached the total, and from then on at every poll. */
  lemma PollerToldExactly(combos: seq<Combo>, batchID: string, events: seq<Event>, sinceSeq: nat)
    requires AllPending(combos)
    ensures var (_, _, over) := Since(Run(Created(|combos|, combos), batchID, events), sinceSeq);
            over <==> exists i :: 0 < i <= |events| && Ends(|combos|, events[..i])
  {
    RunStatus(combos, batchID, events);
    EndedExactly(|combos|, events);
    hide Run, Ends, AllPending, Created, ReportedAs;
  }

  /** One of the updates after the cancel reaches the total. */
  ghost predicate ReachedAfter(n: nat, before: seq<Event>, after: seq<Event>) {
    exists k :: 0 < k <= |after| && Reaches(n, before + [Cancel] + after[..k])
  }

  /** The cancel sticks if and only if none of the updates after it reaches the total; one that
      does makes the batch completed for good. */
  lemma {:induction false} CancelSticksExactly(combos: seq<Combo>, batchID: string, before: seq<Event>,
                                               after: seq<Event>)
    requires AllPending(combos) && forall i :: 0 <= i < |after| ==> after[i].Update?
    ensures Run(Created(|combos|, combos), batchID, before + [Cancel] + after).status
            == if ReachedAfter(|combos|, before, after) then BatchCompleted else BatchCancelled
  {
    var run := before + [Cancel] + after;
    RunStatus(combos, batchID, run);
    hide Run, Reaches, AllPending, Created;
    if after != [] {
      var n := |after| - 1;
      CancelSticksExactly(combos, batchID, before, after[..n]);
      RunStatus(combos, batchID, before + [Cancel] + after[..n]);
      assert run[..|run| - 1] == before + [Cancel] + after[..n];
      assert forall k :: 0 < k <= n ==> after[..n][..k] == after[..k];
      assert after[..|after|] == after;
    }
  }

  /** A batch cancelled with a combo open is reported completed once all its combos have finished
      after all. */
  lemma CancelledThenFinished(combos: seq<Combo>, batchID: string, before: seq<Event>, after: seq<Event>)
    requires AllPending(combos) && forall i :: 0 <= i < |after| ==> after[i].Update?
    requires Open(|combos|, before) != {} && Open(|combos|, before + [Cancel] + after) == {}
    ensures Run(Created(|combos|, combos), batchID, before + [Cancel] + after).status == BatchCompleted
  {
    var n := |combos|;
    CancelSticksExactly(combos, batchID, before, after);
    hide Run, AllPending, Created, Open, Finishes, Errors, Reaches;
    OpenStep(n, before, Cancel);
    var k := LastOneCloses(n, before + [Cancel], after);
    assert Reaches(n, before + [Cancel] + after[..k + 1]);
  }

  lemma LastOneCloses(n: nat, front: seq<Event>, after: seq<Event>) returns (k: nat)
    requires Open(n, front) != {} && Open(n, front + after) == {}
    requires forall i :: 0 <= i < |after| ==> after[i].Update?
    ensures k < |after| && Reaches(n, front + after[..k + 1])
  {
    hide Open, Reaches;
    k := 0;
    assert front + after[..0] == front;
    assert after[..|after|] == after;
    while Open(n, front + after[..k + 1]) != {}
      invariant k < |after| && Open(n, front + after[..k]) != {}
      decreases |after| - k
    {
      k := k + 1;
    }
    assert front + after[..k] + [after[k]] == front + after[..k + 1];
    ClosingReaches(n, front + after[..k], after[k]);
  }

  lemma ClosingReaches(n: nat, front: seq<Event>, e: Event)
    requires e.Update? && Open(n, front) != {} && Open(n, front + [e]) == {}
    ensures Reaches(n, front + [e])
  {
    OpenStep(n, front, e);
    FinishesAndOpen(n, front + [e]);
    ReachesGrow(n, front, e);
    hide Open, Reaches, Finishes, Errors, StatusOf;
  }

  lemma {:induction false} CountsGrow(n: nat, events: seq<Event>, k: nat)
    requires k <= |events|
    ensures Finishes(n, events[..k]) <= Finishes(n, events) && Errors(n, events[..k]) <= Errors(n, events)
  {
    if k < |events| {
      var m := |events| - 1;
      CountsGrow(n, events[..m], k);
      assert events[..m][..k] == events[..k];
    } else {
      assert events[..k] == events;
    }
  }

  /** Without errors and without sending a combo back, the cancel of a batch with a combo open
      sticks if and only if a combo stays open. */
  lemma ErrorFreeCancelSticks(combos: seq<Combo>, batchID: string, before: seq<Event>, after: seq<Event>)
    requires AllPending(combos) && forall i :: 0 <= i < |after| ==> after[i].Update?
    requires Open(|combos|, before) != {}
    requires Errors(|combos|, before + [Cancel] + after) == 0 && NoneSentBack(|combos|, before + [Cancel] + after)
    ensures Run(Created(|combos|, combos), batchID, before + [Cancel] + after).status == BatchCancelled
            <==> Open(|combos|, before + [Cancel] + after) != {}
  {
    var n, run := |combos|, before + [Cancel] + after;
    hide Run, AllPending, Created, Open, Finishes, Errors;
    if Open(n, run) == {} {
      CancelledThenFinished(combos, batchID, before, after);
    } else {
      CancelSticksExactly(combos, batchID, before, after);
      FinishesAndOpen(n, run);
      if k :| 0 < k <= |after| && Reaches(n, before + [Cancel] + after[..k]) {
        var m := |before| + 1 + k;
        assert run[..m] == before + [Cancel] + after[..k];
        CountsGrow(n, run, m);
      }
    }
  }

  // ---------------------------------------------------------------- every combo finished once

  /** The update gives combo x a final status. */
  predicate Final(e: Event, x: nat) {
    e.Update? && e.index == x && Terminal(e.status)
  }

  /** After its final status a combo gets no update. */
  ghost predicate NoneAfterFinal(n: nat, events: seq<Event>) {
    forall i, j :: 0 <= i < j < |events| && NamesCombo(n, events[j]) ==> !Final(events[i], events[j].index)
  }

  /** The update that finishes the last combo. */
  ghost predicate LastFinish(n: nat, events: seq<Event>, last: nat) {
    && last < |events| && NamesCombo(n, events[last]) && Terminal(events[last].status)
    && AllFinishedWithin(n, events, last + 1)
  }

  ghost predicate AllFinishedWithin(n: nat, events: seq<Event>, k: nat) {
    forall x: nat :: x < n ==> FinishedWithin(events, k, x)
  }

  /** One of the first k updates gives combo x a final status. */
  ghost predicate FinishedWithin(events: seq<Event>, k: nat, x: nat) {
    exists i :: 0 <= i < k <= |events| && Final(events[i], x)
  }

  lemma {:induction false} FinalStays(n: nat, events: seq<Event>, k: nat, x: nat)
    requires NoneAfterFinal(n, events) && k <= |events| && x < n
    ensures Terminal(StatusOf(events[..k], x)) <==> FinishedWithin(events, k, x)
  {
    if k > 0 {
      FinalStays(n, events, k - 1, x);
      assert events[..k][..k - 1] == events[..k - 1];
      if events[k - 1].Update? && events[k - 1].index == x {
        assert NamesCombo(n, events[k - 1]);
      } else {
        assert Terminal(StatusOf(events[..k], x)) <==> Terminal(StatusOf(events[..k - 1], x));
      }
    }
  }

  /** No update is a replay or sends a combo back. */
  lemma FinishedOnce(n: nat, events: seq<Event>, k: nat)
    requires NoneAfterFinal(n, events) && k <= |events|
    ensures NoneSentBack(n, events[..k])
    ensures k > 0 ==> !Repeats(n, events[..k - 1], events[k - 1])
  {
    hide StatusOf, Terminal;
    forall i | 0 <= i < k && NamesCombo(n, events[i])
      ensures !Terminal(StatusOf(events[..k][..i], events[i].index))
      ensures !Terminal(StatusOf(events[..i], events[i].index))
    {
      FinalStays(n, events, i, events[i].index);
      assert events[..k][..i] == events[..i];
    }
  }

  /** Until the last finish its combo is open; from then on none is. */
  lemma OpenUntilLast(n: nat, events: seq<Event>, last: nat, k: nat)
    requires NoneAfterFinal(n, events) && LastFinish(n, events, last) && k <= |events|
    ensures k <= last ==> events[last].index in Open(n, events[..k])
    ensures k > last ==> Open(n, events[..k]) == {}
  {
    hide StatusOf, Terminal;
    FinalStays(n, events, k, events[last].index);
    forall x: nat | x < n
      ensures k > last ==> Terminal(StatusOf(events[..k], x))
    {
      FinalStays(n, events, k, x);
      assert FinishedWithin(events, last + 1, x);
    }
  }

  /** Only the last finish's combo is open once no other update of a combo is left before it. */
  lemma OneOpen(n: nat, events: seq<Event>, last: nat, k: nat)
    requires NoneAfterFinal(n, events) && LastFinish(n, events, last) && k <= last
    requires forall i :: k <= i < last ==> !NamesCombo(n, events[i])
    ensures Open(n, events[..k]) == {events[last].index}
  {
    hide StatusOf, Terminal;
    OpenUntilLast(n, events, last, k);
    forall x: nat | x < n && x != events[last].index
      ensures x !in Open(n, events[..k])
    {
      FinalStays(n, events, k, x);
      assert FinishedWithin(events, last + 1, x);
      var i :| 0 <= i <= last && Final(events[i], x);
      assert NamesCombo(n, events[i]);
    }
  }

  lemma {:induction false} ErrorsBefore(n: nat, events: seq<Event>, k: nat)
    requires k <= |events|
    ensures Errors(n, events[..k]) == 0 <==> forall i :: 0 <= i < k && NamesCombo(n, events[i]) ==> events[i].err == ""
  {
    if k > 0 {
      ErrorsBefore(n, events, k - 1);
      assert events[..k][..k - 1] == events[..k - 1];
    }
  }

  /** The latest update of a combo from i on and before `last`. */
  lemma LatestBefore(n: nat, events: seq<Event>, i: nat, last: nat) returns (j: nat)
    requires i < last < |events| && NamesCombo(n, events[i])
    ensures i <= j < last && NamesCombo(n, events[j])
    ensures forall k :: j < k < last ==> !NamesCombo(n, events[k])
  {
    j := last - 1;
    while !NamesCombo(n, events[j])
      invariant i <= j < last
      invariant forall k :: j < k < last ==> !NamesCombo(n, events[k])
      decreases j
    {
      j := j - 1;
    }
  }

  /** A run that finishes every combo once is reported rightly throughout exactly when no update
      of a combo before the one that finishes the last carries an error and no cancel comes after
      that one. */
  lemma FinishedOnceReportedRightly(combos: seq<Combo>, batchID: string, events: seq<Event>, last: nat)
    requires AllPending(combos)
    requires NoneAfterFinal(|combos|, events) && LastFinish(|combos|, events, last)
    ensures ReportedRightly(combos, batchID, events) <==>
              && (forall i :: 0 <= i < last && NamesCombo(|combos|, events[i]) ==> events[i].err == "")
              && (forall i :: last < i < |events| ==> events[i].Update?)
  {
    var n := |combos|;
    StatusTellsCompletion(combos, batchID, events);
    hide ReportedRightly, NoneAfterFinal, LastFinish, AllPending, Open, Finishes, Errors, Repeats, StatusOf, Reaches;
    if i :| 0 <= i < last && NamesCombo(n, events[i]) && events[i].err != "" {
      var j := LatestBefore(n, events, i, last);
      MadeUpBefore(n, events, last, i, j);
    } else {
      forall k | 0 <= k <= |events|
        ensures !ErrorsMakeUp(n, events[..k])
      {
        NotMadeUp(n, events, last, k);
      }
    }
    CancelAfterLast(n, events, last);
  }

  lemma CancelAfterLast(n: nat, events: seq<Event>, last: nat)
    requires NoneAfterFinal(n, events) && LastFinish(n, events, last)
    ensures (exists k :: 0 <= k <= |events| && CancelsFinished(n, events[..k]))
            <==> exists i :: last < i < |events| && events[i].Cancel?
  {
    hide NoneAfterFinal, Open, Terminal, AllFinishedWithin;
    forall k | 0 < k <= |events|
      ensures CancelsFinished(n, events[..k]) <==> last < k - 1 && events[k - 1].Cancel?
    {
      OpenUntilLast(n, events, last, k);
    }
    if i :| last < i < |events| && events[i].Cancel? {
      assert CancelsFinished(n, events[..i + 1]);
    }
  }

  lemma MadeUpBefore(n: nat, events: seq<Event>, last: nat, i: nat, j: nat)
    requires NoneAfterFinal(n, events) && LastFinish(n, events, last)
    requires i <= j < last && NamesCombo(n, events[i]) && events[i].err != "" && NamesCombo(n, events[j])
    requires forall k :: j < k < last ==> !NamesCombo(n, events[k])
    ensures ErrorsMakeUp(n, events[..j + 1])
  {
    var prefix := events[..j + 1];
    OneOpen(n, events, last, j + 1);
    ErrorsBefore(n, events, j + 1);
    FinishedOnce(n, events, j + 1);
    MakingUpIsCounting(n, prefix);
    assert prefix[..j] == events[..j];
    hide Open, Finishes, Errors, Repeats, StatusOf, NoneAfterFinal, LastFinish, NoneSentBack;
    assert |{events[last].index}| == 1;
  }

  lemma NotMadeUp(n: nat, events: seq<Event>, last: nat, k: nat)
    requires NoneAfterFinal(n, events) && LastFinish(n, events, last) && k <= |events|
    requires forall i :: 0 <= i < last && NamesCombo(n, events[i]) ==> events[i].err == ""
    ensures !ErrorsMakeUp(n, events[..k])
  {
    OpenUntilLast(n, events, last, k);
    if k <= last {
      ErrorsBefore(n, events, k);
      FinishedOnce(n, events, k);
      MakingUpIsCounting(n, events[..k]);
    }
    hide Finishes, Errors, Repeats, StatusOf, NoneAfterFinal, LastFinish, NoneSentBack;
  }
}

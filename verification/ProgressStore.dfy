/** One matrix batch: its counters, combos and results, and what an update does to them
    (internal/api/progress_store.go). */
module MatrixProgressModel {
  import opened Common
  import opened Decimal

  datatype ComboStatus = Pending | Running | Completed | Failed | Cancelled | Other(name: string)

  datatype BatchStatus = BatchRunning | BatchCompleted | BatchCancelled | BatchOther(name: string)

  datatype Combo = Combo(symbol: string, strategyID: string, timeframe: string, status: ComboStatus, error: string)

  datatype Result = Result(
    runID: string, symbol: string, strategyID: string, timeframe: string,
    sharpeRatio: real, numTrades: int, gatePassed: Option<bool>)

  /** The value of a MatrixProgress record; times, mode and the display-only fields are left out. */
  datatype Progress = Progress(
    total: int, completed: int, failed: int, running: int, passed: int,
    combos: seq<Combo>, results: seq<Result>, status: BatchStatus, nextSeq: int,
    bestSharpe: real, bestStrategy: string, bestSymbol: string, totalTrades: int)

  predicate Terminal(s: ComboStatus) {
    s == Completed || s == Failed
  }

  predicate SameKey(a: Result, b: Result) {
    a.symbol == b.symbol && a.strategyID == b.strategyID && a.timeframe == b.timeframe
  }

  /** In-place replacement of the first result with the same key, if there is one. */
  function Replaced(results: seq<Result>, r: Result): (rs: seq<Result>)
    ensures |rs| == |results|
  {
    if results == [] then []
    else if SameKey(results[0], r) then [r] + results[1..]
    else [results[0]] + Replaced(results[1..], r)
  }

  /** The first result of the key is replaced where it stands. */
  lemma {:induction false} ReplacedAt(results: seq<Result>, r: Result, ri: nat)
    requires ri <= |results| && forall i :: 0 <= i < ri ==>
               results[i].symbol != r.symbol || results[i].strategyID != r.strategyID
               || results[i].timeframe != r.timeframe
    requires ri < |results| ==>
               results[ri].symbol == r.symbol && results[ri].strategyID == r.strategyID
               && results[ri].timeframe == r.timeframe
    ensures Replaced(results, r) == if ri < |results| then results[ri := r] else results
  {
    if ri > 0 {
      ReplacedAt(results[1..], r, ri - 1);
      assert results == [results[0]] + results[1..];
    }
  }

  function Created(total: int, combos: seq<Combo>): Progress {
    Progress(total, 0, 0, 0, 0, combos, [], BatchRunning, 0, 0.0, "", "", 0)
  }

  /** Decimal rendering of the %d in the generated run id. */
  function Number(n: int): string {
    if n < 0 then "-" + Digits(-n) else Digits(n)
  }

  function WithResult(p: Progress, batchID: string, r: Result): Progress {
    var kept := if r.runID == "" then r.(runID := batchID + "-" + Number(p.nextSeq)) else r;
    Bettered(Appended(p, kept), kept)
  }

  function Appended(p: Progress, kept: Result): Progress {
    p.(results := p.results + [kept], nextSeq := p.nextSeq + 1,
       passed := p.passed + (if kept.gatePassed == Some(true) then 1 else 0),
       totalTrades := p.totalTrades + kept.numTrades)
  }

  function Bettered(p: Progress, r: Result): Progress {
    if r.sharpeRatio > p.bestSharpe then
      p.(bestSharpe := r.sharpeRatio, bestStrategy := r.strategyID, bestSymbol := r.symbol)
    else p
  }

  predicate Due(p: Progress) {
    p.completed + p.failed >= p.total
  }

  function Closed(p: Progress): Progress {
    if Due(p) then p.(status := BatchCompleted, running := 0) else p
  }

  /** Status, error text and the error count: what every update does first. */
  function Marked(p: Progress, index: nat, status: ComboStatus, err: string): Progress
    requires index < |p.combos|
  {
    var c := p.combos[index].(status := status);
    if err == "" then p.(combos := p.combos[index := c])
    else p.(combos := p.combos[index := c.(error := err)], failed := p.failed + 1)
  }

  predicate Replay(p: Progress, index: nat, status: ComboStatus) {
    index < |p.combos| && Terminal(status) && Terminal(p.combos[index].status)
  }

  function Updated(p: Progress, batchID: string, index: nat, status: ComboStatus, err: string,
                   result: Option<Result>): Progress {
    if index >= |p.combos| then p
    else
      var before := p.combos[index].status;
      var m := Marked(p, index, status, err);
      if Replay(p, index, status) then
        if result.Some? then m.(results := Replaced(m.results, result.value)) else m
      else if Terminal(status) then
        var counted := m.(completed := m.completed + 1, running := m.running - (if before == Running then 1 else 0));
        Closed(if result.Some? then WithResult(counted, batchID, result.value) else counted)
      else
        Closed(if status == Running && before == Pending then m.(running := m.running + 1) else m)
  }

  /** An update seen from the counters. */
  lemma UpdateCounters(p: Progress, batchID: string, index: nat, status: ComboStatus, err: string,
                       result: Option<Result>)
    requires index < |p.combos|
    ensures var q := Updated(p, batchID, index, status, err, result);
            var before := p.combos[index].status;
            var running := p.running - (if Terminal(status) && before == Running then 1 else 0)
                           + (if status == Running && before == Pending then 1 else 0);
            && q.combos == Marked(p, index, status, err).combos && q.total == p.total
            && q.failed == p.failed + (if err == "" then 0 else 1)
            && q.completed == p.completed + (if Terminal(status) && !Terminal(before) then 1 else 0)
            && (if Replay(p, index, status) then q.running == p.running && q.status == p.status
                else if Due(q) then q.running == 0 && q.status == BatchCompleted
                else q.running == running && q.status == p.status)
  {
    hide Number, Replaced;
  }

  /** An update seen from the results. */
  lemma UpdateResults(p: Progress, batchID: string, index: nat, status: ComboStatus, err: string,
                      result: Option<Result>)
    requires index < |p.combos|
    ensures var q := Updated(p, batchID, index, status, err, result);
            if Replay(p, index, status) then
              && q.results == (if result.Some? then Replaced(p.results, result.value) else p.results)
              && q.nextSeq == p.nextSeq && q.passed == p.passed && q.totalTrades == p.totalTrades
                  && q.bestSharpe == p.bestSharpe
            else if Terminal(status) && result.Some? then
              var r := result.value;
              && (exists id :: q.results == p.results + [r.(runID := id)])
              && q.nextSeq == p.nextSeq + 1
              && q.passed == p.passed + (if r.gatePassed == Some(true) then 1 else 0)
              && q.totalTrades == p.totalTrades + r.numTrades
              && q.bestSharpe == (if r.sharpeRatio > p.bestSharpe then r.sharpeRatio else p.bestSharpe)
            else
              && q.results == p.results && q.nextSeq == p.nextSeq
              && q.passed == p.passed && q.totalTrades == p.totalTrades && q.bestSharpe == p.bestSharpe
  {
    MarkedShape(p, index, status, err);
    hide Number, Replaced, Marked;
    if Replay(p, index, status) {
      hide WithResult;
    } else if Terminal(status) && result.Some? {
      FinishResults(p, batchID, index, status, err, result.value);
      hide Updated;
    } else {
      hide WithResult;
    }
  }

  lemma FinishResults(p: Progress, batchID: string, index: nat, status: ComboStatus, err: string, r: Result)
    requires index < |p.combos| && !Replay(p, index, status) && Terminal(status)
    ensures var q := Updated(p, batchID, index, status, err, Some(r));
            && (exists id :: q.results == p.results + [r.(runID := id)])
            && q.nextSeq == p.nextSeq + 1
            && q.passed == p.passed + (if r.gatePassed == Some(true) then 1 else 0)
            && q.totalTrades == p.totalTrades + r.numTrades
            && q.bestSharpe == (if r.sharpeRatio > p.bestSharpe then r.sharpeRatio else p.bestSharpe)
  {
    MarkedShape(p, index, status, err);
    hide Number, Replaced, Marked, WithResult;
    var m := Marked(p, index, status, err);
    var counted := m.(completed := m.completed + 1,
                      running := m.running - (if p.combos[index].status == Running then 1 else 0));
    assert Updated(p, batchID, index, status, err, Some(r)) == Closed(WithResult(counted, batchID, r));
    hide Updated;
    WithResultShape(counted, batchID, r);
  }

  /** Marking touches combos and the error count only. */
  lemma MarkedShape(p: Progress, index: nat, status: ComboStatus, err: string)
    requires index < |p.combos|
    ensures var m := Marked(p, index, status, err);
            m == p.(combos := m.combos, failed := m.failed) && |m.combos| == |p.combos|
  {}

  lemma WithResultShape(p: Progress, batchID: string, r: Result)
    ensures var q := WithResult(p, batchID, r);
            && (exists id :: q.results == p.results + [r.(runID := id)])
            && q.nextSeq == p.nextSeq + 1
            && q.passed == p.passed + (if r.gatePassed == Some(true) then 1 else 0)
            && q.totalTrades == p.totalTrades + r.numTrades
            && q.bestSharpe == (if r.sharpeRatio > p.bestSharpe then r.sharpeRatio else p.bestSharpe)
  {
    hide Number;
    var id := if r.runID == "" then batchID + "-" + Number(p.nextSeq) else r.runID;
    assert r.(runID := r.runID) == r;
    assert WithResult(p, batchID, r).results == p.results + [r.(runID := id)];
  }

  function CancelledCombos(combos: seq<Combo>): (cs: seq<Combo>)
    ensures |cs| == |combos|
    ensures forall i :: 0 <= i < |cs| ==>
              cs[i] == if combos[i].status == Pending || combos[i].status == Running
                       then combos[i].(status := Cancelled) else combos[i]
  {
    seq(|combos|, i requires 0 <= i < |combos| =>
      if combos[i].status == Pending || combos[i].status == Running then combos[i].(status := Cancelled) else combos[i])
  }

  function CancelledBatch(p: Progress): Progress {
    p.(combos := CancelledCombos(p.combos), status := BatchCancelled)
  }

  /** The database record of a batch; it has no sequence number of its own. */
  datatype Record = Record(
    total: int, completed: int, failed: int, running: int, passed: int, status: BatchStatus,
    combos: seq<Combo>, results: seq<Result>,
    bestSharpe: real, bestStrategy: string, bestSymbol: string, totalTrades: int)

  function RecordOf(p: Progress): Record {
    Record(p.total, p.completed, p.failed, p.running, p.passed, p.status, p.combos, p.results,
           p.bestSharpe, p.bestStrategy, p.bestSymbol, p.totalTrades)
  }

  function Restored(r: Record): Progress {
    Progress(r.total, r.completed, r.failed, r.running, r.passed, r.combos, r.results, r.status, |r.results|,
             r.bestSharpe, r.bestStrategy, r.bestSymbol, r.totalTrades)
  }

  // ---------------------------------------------------------------- runs

  datatype Event =
    | Update(index: nat, status: ComboStatus, err: string, result: Option<Result>)
    | Cancel

  function Apply(p: Progress, batchID: string, e: Event): Progress {
    match e
    case Update(index, status, err, result) => Updated(p, batchID, index, status, err, result)
    case Cancel => CancelledBatch(p)
  }

  function Run(p: Progress, batchID: string, events: seq<Event>): Progress {
    if events == [] then p
    else Apply(Run(p, batchID, events[..|events| - 1]), batchID, events[|events| - 1])
  }

  function CountIf(combos: seq<Combo>, terminal: bool): nat {
    if combos == [] then 0
    else
      var last := combos[|combos| - 1].status;
      CountIf(combos[..|combos| - 1], terminal)
      + if (if terminal then Terminal(last) else last == Running) then 1 else 0
  }

  function Terminals(combos: seq<Combo>): nat {
    CountIf(combos, true)
  }

  function Runnings(combos: seq<Combo>): nat {
    CountIf(combos, false)
  }

  function Weight(s: ComboStatus, terminal: bool): nat {
    if (if terminal then Terminal(s) else s == Running) then 1 else 0
  }

  lemma {:induction false} CountUpdate(combos: seq<Combo>, index: nat, c: Combo, terminal: bool)
    requires index < |combos|
    ensures CountIf(combos[index := c], terminal)
         == CountIf(combos, terminal) - Weight(combos[index].status, terminal) + Weight(c.status, terminal)
  {
    var n := |combos| - 1;
    if index == n {
      assert combos[index := c][..n] == combos[..n];
    } else {
      assert combos[index := c][..n] == combos[..n][index := c];
      CountUpdate(combos[..n], index, c, terminal);
    }
  }

  lemma {:induction false} CountBound(combos: seq<Combo>, terminal: bool)
    ensures CountIf(combos, terminal) <= |combos|
    ensures CountIf(combos, terminal) == |combos|
            <==> forall i :: 0 <= i < |combos| ==> Weight(combos[i].status, terminal) == 1
    ensures (forall i :: 0 <= i < |combos| ==> Weight(combos[i].status, terminal) == 0)
            ==> CountIf(combos, terminal) == 0
  {
    if combos != [] {
      CountBound(combos[..|combos| - 1], terminal);
    }
  }

  lemma {:induction false} CancelKeepsTerminals(combos: seq<Combo>)
    ensures Terminals(CancelledCombos(combos)) == Terminals(combos)
  {
    if combos != [] {
      var n := |combos| - 1;
      assert CancelledCombos(combos)[..n] == CancelledCombos(combos[..n]);
      CancelKeepsTerminals(combos[..n]);
    }
  }

  // ---------------------------------------------------------------- the completed counter

  /** The update takes a combo that had finished and gives it an unfinished status. */
  predicate Revives(p: Progress, e: Event) {
    e.Update? && e.index < |p.combos| && Terminal(p.combos[e.index].status) && !Terminal(e.status)
  }

  function Revivals(p: Progress, batchID: string, events: seq<Event>): nat {
    if events == [] then 0
    else
      var front := events[..|events| - 1];
      Revivals(p, batchID, front) + if Revives(Run(p, batchID, front), events[|events| - 1]) then 1 else 0
  }

  lemma ApplyCounts(p: Progress, batchID: string, e: Event)
    ensures Apply(p, batchID, e).completed - Terminals(Apply(p, batchID, e).combos)
         == p.completed - Terminals(p.combos) + if Revives(p, e) then 1 else 0
  {
    match e
    case Cancel => CancelKeepsTerminals(p.combos);
    case Update(index, status, err, result) =>
      if index < |p.combos| {
        var m := Marked(p, index, status, err);
        UpdateCounters(p, batchID, index, status, err, result);
        CountUpdate(p.combos, index, m.combos[index], true);
        hide Updated, CountIf;
      }
  }

  /** Over every run of updates and cancels, Completed exceeds the number of combos that are
      completed or failed by exactly the number of times a finished combo was sent back: it
      counts them correctly exactly in the runs without such an update. */
  lemma {:induction false} CompletedCountsTerminals(combos: seq<Combo>, total: int, batchID: string, events: seq<Event>)
    requires forall i :: 0 <= i < |combos| ==> !Terminal(combos[i].status)
    ensures var start := Created(total, combos);
            var p := Run(start, batchID, events);
            p.completed == Terminals(p.combos) + Revivals(start, batchID, events)
  {
    var start := Created(total, combos);
    if events == [] {
      CountBound(combos, true);
    } else {
      var front := events[..|events| - 1];
      CompletedCountsTerminals(combos, total, batchID, front);
      hide Apply, Terminals, Created, Revives;
      ApplyCounts(Run(start, batchID, front), batchID, events[|events| - 1]);
    }
  }

  // ---------------------------------------------------------------- the batch status

  ghost predicate AllTerminal(combos: seq<Combo>) {
    forall i :: 0 <= i < |combos| ==> Terminal(combos[i].status)
  }

  ghost predicate AllPending(combos: seq<Combo>) {
    forall i :: 0 <= i < |combos| ==> combos[i].status == Pending
  }

  /** One failure among two combos: the batch is reported completed with a combo still pending. */
  lemma OneFailureClosesBatchOfTwo(a: Combo, b: Combo, batchID: string)
    requires a.status == Pending && b.status == Pending
    ensures var p := Run(Created(2, [a, b]), batchID, [Update(0, Failed, "server panic", None)]);
            p.status == BatchCompleted && p.combos == [a.(status := Failed, error := "server panic"), b]
  {
    var e := Update(0, Failed, "server panic", None);
    assert [e][..0] == [];
    assert Run(Created(2, [a, b]), batchID, [e]) == Apply(Run(Created(2, [a, b]), batchID, []), batchID, e);
    assert "server panic" != "";
  }

  // ---------------------------------------------------------------- error-free runs

  function Rank(s: ComboStatus): int {
    match s
    case Pending => 0
    case Running => 1
    case Completed => 2
    case Failed => 2
    case _ => -1
  }

  /** An update without error that does not move a combo back. */
  predicate Orderly(p: Progress, e: Event) {
    && e.Update? && e.err == ""
    && (e.index < |p.combos| ==> Rank(e.status) >= 0 && Rank(e.status) >= Rank(p.combos[e.index].status))
  }

  ghost predicate OrderlyRun(p: Progress, batchID: string, events: seq<Event>) {
    forall i :: 0 <= i < |events| ==> Orderly(Run(p, batchID, events[..i]), events[i])
  }

  /** All counters say what the combos say. */
  ghost predicate Healthy(p: Progress) {
    && p.failed == 0 && p.total == |p.combos| > 0
    && (forall i :: 0 <= i < |p.combos| ==> Rank(p.combos[i].status) >= 0)
    && p.completed == Terminals(p.combos) && p.running == Runnings(p.combos)
    && p.status == if AllTerminal(p.combos) then BatchCompleted else BatchRunning
  }

  lemma NoneRunningWhenAllTerminal(combos: seq<Combo>)
    ensures Terminals(combos) == |combos| <==> AllTerminal(combos)
    ensures AllTerminal(combos) ==> Runnings(combos) == 0
  {
    CountBound(combos, true);
    CountBound(combos, false);
  }

  lemma OrderlyKeepsHealthy(p: Progress, batchID: string, e: Event)
    requires Healthy(p) && Orderly(p, e)
    ensures Healthy(Apply(p, batchID, e))
  {
    if e.index < |p.combos| {
      var q := Apply(p, batchID, e);
      UpdateCounters(p, batchID, e.index, e.status, "", e.result);
      hide Updated, Apply;
      CountUpdate(p.combos, e.index, q.combos[e.index], true);
      CountUpdate(p.combos, e.index, q.combos[e.index], false);
      NoneRunningWhenAllTerminal(p.combos);
      NoneRunningWhenAllTerminal(q.combos);
      CountBound(q.combos, true);
      assert forall i :: 0 <= i < |q.combos| ==> Rank(q.combos[i].status) >= 0;
      hide AllTerminal, CountIf, Weight;
    }
  }

  /** Over every orderly run of a batch created with all its combos pending, Completed and
      Running count the finished and the running combos, and Status is "completed" exactly
      when all combos have finished. */
  lemma {:induction false} OrderlyRunsHealthy(combos: seq<Combo>, batchID: string, events: seq<Event>)
    requires combos != [] && AllPending(combos) && OrderlyRun(Created(|combos|, combos), batchID, events)
    ensures Healthy(Run(Created(|combos|, combos), batchID, events))
  {
    var start := Created(|combos|, combos);
    if events == [] {
      CountBound(combos, true);
      CountBound(combos, false);
    } else {
      var n := |events| - 1;
      var front := events[..n];
      forall i | 0 <= i < |front|
        ensures Orderly(Run(start, batchID, front[..i]), front[i])
      {
        assert front[..i] == events[..i];
      }
      OrderlyRunsHealthy(combos, batchID, front);
      assert Orderly(Run(start, batchID, events[..n]), events[n]);
      hide Apply, Healthy, Orderly, Created;
      OrderlyKeepsHealthy(Run(start, batchID, front), batchID, events[n]);
    }
  }

  /** Replaying a terminal update without an error changes no counter. */
  lemma ReplayChangesNoCounter(p: Progress, batchID: string, index: nat, status: ComboStatus, result: Option<Result>)
    requires Replay(p, index, status)
    ensures var q := Updated(p, batchID, index, status, "", result);
            q == p.(combos := q.combos, results := q.results) && |q.results| == |p.results|
  {}

  // ---------------------------------------------------------------- sequence numbers and polling

  datatype ResultKey = ResultKey(symbol: string, strategyID: string, timeframe: string)

  function KeyOf(r: Result): ResultKey {
    ResultKey(r.symbol, r.strategyID, r.timeframe)
  }

  function KeysOf(results: seq<Result>): (keys: seq<ResultKey>)
    ensures |keys| == |results|
    ensures forall i :: 0 <= i < |keys| ==> keys[i] == KeyOf(results[i])
  {
    seq(|results|, i requires 0 <= i < |results| => KeyOf(results[i]))
  }

  lemma KeysOfFirst(first: Result, rest: seq<Result>)
    ensures KeysOf([first] + rest) == [KeyOf(first)] + KeysOf(rest)
  {}

  lemma {:induction false} ReplacedKeepsKeys(results: seq<Result>, r: Result)
    ensures KeysOf(Replaced(results, r)) == KeysOf(results)
  {
    if results != [] {
      var first, rest := results[0], results[1..];
      ReplacedKeepsKeys(rest, r);
      assert results == [first] + rest;
      KeysOfFirst(first, rest);
      KeysOfFirst(r, rest);
      KeysOfFirst(first, Replaced(rest, r));
      assert SameKey(first, r) ==> KeyOf(first) == KeyOf(r);
      hide KeysOf, SameKey, KeyOf;
    }
  }

  ghost predicate Sequenced(p: Progress) {
    p.nextSeq == |p.results|
  }

  /** Every step keeps NextSeq equal to the number of results, and only appends result keys. */
  lemma ApplyKeepsSequence(p: Progress, batchID: string, e: Event)
    requires Sequenced(p)
    ensures Sequenced(Apply(p, batchID, e))
    ensures KeysOf(p.results) <= KeysOf(Apply(p, batchID, e).results)
  {
    if e.Update? && e.index < |p.combos| {
      UpdateResults(p, batchID, e.index, e.status, e.err, e.result);
      if e.result.Some? {
        ReplacedKeepsKeys(p.results, e.result.value);
      }
      hide Updated, Replaced;
    }
  }

  /** A batch restored from its record is the batch that was recorded. */
  lemma RecoveryRoundTrip(p: Progress)
    ensures Sequenced(Restored(RecordOf(p)))
    ensures Restored(RecordOf(p)) == p <==> Sequenced(p)
  {}

  /** GetSince: the results from sinceSeq on, the next sequence number, and whether it is over. */
  function Since(p: Progress, sinceSeq: nat): (seq<Result>, int, bool) {
    (if sinceSeq >= |p.results| then [] else p.results[sinceSeq..], p.nextSeq, p.status != BatchRunning)
  }

  datatype Step = Change(e: Event) | Poll

  /** A poller that feeds each returned sequence number back, and the keys it has received. */
  datatype Session = Session(p: Progress, cursor: int, received: seq<ResultKey>)

  function Advance(s: Session, batchID: string, step: Step): Session
    requires s.cursor >= 0
  {
    match step
    case Change(e) => s.(p := Apply(s.p, batchID, e))
    case Poll =>
      var (batch, next, _) := Since(s.p, s.cursor);
      s.(cursor := next, received := s.received + KeysOf(batch))
  }

  ghost predicate InStep(s: Session) {
    && Sequenced(s.p) && 0 <= s.cursor <= |s.p.results|
    && s.received == KeysOf(s.p.results)[..s.cursor]
  }

  lemma AdvanceKeepsInStep(s: Session, batchID: string, step: Step)
    requires InStep(s)
    ensures InStep(Advance(s, batchID, step))
    ensures step.Poll? ==> Advance(s, batchID, step).received == KeysOf(s.p.results)
  {
    match step
    case Change(e) =>
      ApplyKeepsSequence(s.p, batchID, e);
      hide Apply;
      assert KeysOf(Apply(s.p, batchID, e).results)[..s.cursor] == KeysOf(s.p.results)[..s.cursor];
    case Poll =>
      assert KeysOf(s.p.results) == KeysOf(s.p.results)[..s.cursor] + KeysOf(s.p.results[s.cursor..]);
  }

  function RunSession(s: Session, batchID: string, steps: seq<Step>): (t: Session)
    requires InStep(s)
    ensures InStep(t)
  {
    if steps == [] then s
    else
      var front := RunSession(s, batchID, steps[..|steps| - 1]);
      AdvanceKeepsInStep(front, batchID, steps[|steps| - 1]);
      Advance(front, batchID, steps[|steps| - 1])
  }

  /** Whatever updates, replacements and cancels come between the polls, a poll leaves the poller
      with the keys of all results so far, each once and in order. */
  lemma PollerSeesEverythingOnce(s: Session, batchID: string, steps: seq<Step>)
    requires s.cursor == 0 && s.received == [] && Sequenced(s.p)
    ensures InStep(s) && RunSession(s, batchID, steps + [Poll]).received
            == KeysOf(RunSession(s, batchID, steps).p.results)
  {
    assert InStep(s);
    assert (steps + [Poll])[..|steps|] == steps;
    AdvanceKeepsInStep(RunSession(s, batchID, steps), batchID, Poll);
  }

  // ---------------------------------------------------------------- aggregate metrics

  function PassedIn(results: seq<Result>): nat {
    if results == [] then 0
    else PassedIn(results[..|results| - 1]) + if results[|results| - 1].gatePassed == Some(true) then 1 else 0
  }

  function TradesIn(results: seq<Result>): int {
    if results == [] then 0 else TradesIn(results[..|results| - 1]) + results[|results| - 1].numTrades
  }

  /** max(0, maximum of the Sharpe ratios). */
  function BestIn(results: seq<Result>): (best: real)
    ensures best >= 0.0 && forall i :: 0 <= i < |results| ==> results[i].sharpeRatio <= best
    ensures best > 0.0 ==> exists i :: 0 <= i < |results| && results[i].sharpeRatio == best
  {
    if results == [] then 0.0
    else
      var n := |results| - 1;
      var front := BestIn(results[..n]);
      if results[n].sharpeRatio > front then results[n].sharpeRatio else
        assert front > 0.0 ==> exists i :: 0 <= i < n && results[..n][i].sharpeRatio == front;
        front
  }

  predicate SameMetrics(a: Result, b: Result) {
    a.sharpeRatio == b.sharpeRatio && a.numTrades == b.numTrades && a.gatePassed == b.gatePassed
  }

  ghost predicate MetricsAgree(p: Progress) {
    p.passed == PassedIn(p.results) && p.totalTrades == TradesIn(p.results) && p.bestSharpe == BestIn(p.results)
  }

  /** A replacement of a result has the metrics of the result it replaces. */
  ghost predicate KeepsMetrics(p: Progress, e: Event) {
    e.Update? && e.result.Some? && Replay(p, e.index, e.status) ==>
      forall i :: 0 <= i < |p.results| && SameKey(p.results[i], e.result.value)
          ==> SameMetrics(p.results[i], e.result.value)
  }

  lemma {:induction false} ReplacedMetrics(results: seq<Result>, r: Result)
    requires forall i :: 0 <= i < |results| && SameKey(results[i], r) ==> SameMetrics(results[i], r)
    ensures forall i :: 0 <= i < |results| ==> SameMetrics(Replaced(results, r)[i], results[i])
  {
    if results != [] && !SameKey(results[0], r) {
      ReplacedMetrics(results[1..], r);
    }
  }

  lemma {:induction false} MetricsOfSame(a: seq<Result>, b: seq<Result>)
    requires |a| == |b| && forall i :: 0 <= i < |a| ==> SameMetrics(a[i], b[i])
    ensures PassedIn(a) == PassedIn(b) && TradesIn(a) == TradesIn(b) && BestIn(a) == BestIn(b)
  {
    if a != [] {
      MetricsOfSame(a[..|a| - 1], b[..|b| - 1]);
    }
  }

  lemma MetricsAppend(results: seq<Result>, r: Result)
    ensures PassedIn(results + [r]) == PassedIn(results) + if r.gatePassed == Some(true) then 1 else 0
    ensures TradesIn(results + [r]) == TradesIn(results) + r.numTrades
    ensures BestIn(results + [r]) == if r.sharpeRatio > BestIn(results) then r.sharpeRatio else BestIn(results)
  {
    assert (results + [r])[..|results|] == results;
  }

  lemma ReplayKeepsMetrics(p: Progress, batchID: string, e: Event)
    requires MetricsAgree(p) && KeepsMetrics(p, e) && e.Update? && Replay(p, e.index, e.status)
    ensures MetricsAgree(Apply(p, batchID, e))
  {
    UpdateResults(p, batchID, e.index, e.status, e.err, e.result);
    hide Updated, Replaced, PassedIn, TradesIn, BestIn;
    if e.result.Some? {
      ReplacedMetrics(p.results, e.result.value);
      MetricsOfSame(Replaced(p.results, e.result.value), p.results);
    }
  }

  lemma AppendedMetrics(p: Progress, q: Progress, r: Result)
    requires MetricsAgree(p) && q.results == p.results + [r]
    requires q.passed == p.passed + (if r.gatePassed == Some(true) then 1 else 0)
    requires q.totalTrades == p.totalTrades + r.numTrades
    requires q.bestSharpe == if r.sharpeRatio > p.bestSharpe then r.sharpeRatio else p.bestSharpe
    ensures MetricsAgree(q)
  {
    MetricsAppend(p.results, r);
    hide PassedIn, TradesIn, BestIn;
  }

  lemma AppendKeepsMetrics(p: Progress, batchID: string, e: Event)
    requires MetricsAgree(p) && e.Update? && e.index < |p.combos| && !Replay(p, e.index, e.status)
    ensures MetricsAgree(Apply(p, batchID, e))
  {
    UpdateResults(p, batchID, e.index, e.status, e.err, e.result);
    hide Updated, Replaced, PassedIn, TradesIn, BestIn;
    if Terminal(e.status) && e.result.Some? {
      hide MetricsAgree;
      var q, r := Apply(p, batchID, e), e.result.value;
      var id :| q.results == p.results + [r.(runID := id)];
      AppendedMetrics(p, q, r.(runID := id));
    }
  }

  /** Passed, the trade total and the best Sharpe ratio are those of the results held, as long as
      replacements keep a result's metrics. */
  lemma ApplyKeepsMetrics(p: Progress, batchID: string, e: Event)
    requires MetricsAgree(p) && KeepsMetrics(p, e)
    ensures MetricsAgree(Apply(p, batchID, e))
  {
    hide Replaced, PassedIn, TradesIn, BestIn;
    if e.Update? && e.index < |p.combos| {
      hide MetricsAgree, KeepsMetrics, Apply;
      if Replay(p, e.index, e.status) {
        ReplayKeepsMetrics(p, batchID, e);
      } else {
        AppendKeepsMetrics(p, batchID, e);
      }
    }
  }

  lemma {:induction false} RunKeepsMetrics(total: int, combos: seq<Combo>, batchID: string, events: seq<Event>)
    requires forall i :: 0 <= i < |events| ==>
               KeepsMetrics(Run(Created(total, combos), batchID, events[..i]), events[i])
    ensures MetricsAgree(Run(Created(total, combos), batchID, events))
  {
    var start := Created(total, combos);
    if events != [] {
      var n := |events| - 1;
      forall i | 0 <= i < n
        ensures KeepsMetrics(Run(start, batchID, events[..n][..i]), events[..n][i])
      {
        assert events[..n][..i] == events[..i];
      }
      RunKeepsMetrics(total, combos, batchID, events[..n]);
      assert KeepsMetrics(Run(start, batchID, events[..n]), events[n]);
      hide Apply, MetricsAgree, KeepsMetrics, Created;
      ApplyKeepsMetrics(Run(start, batchID, events[..n]), batchID, events[n]);
    }
  }

  // ---------------------------------------------------------------- the best result's names

  /** Result i is the first of the highest Sharpe ratio. */
  ghost predicate FirstBest(results: seq<Result>, i: nat) {
    && i < |results|
    && (forall j :: 0 <= j < |results| ==> results[j].sharpeRatio <= results[i].sharpeRatio)
    && forall j :: 0 <= j < i ==> results[j].sharpeRatio < results[i].sharpeRatio
  }

  /** Strategy and symbol are those of the first best result, or empty while none is above 0. */
  ghost predicate NamesBest(p: Progress) {
    if p.bestSharpe <= 0.0 then p.bestStrategy == "" && p.bestSymbol == ""
    else exists i: nat :: FirstBest(p.results, i) && p.results[i].sharpeRatio == p.bestSharpe
                          && p.results[i].strategyID == p.bestStrategy && p.results[i].symbol == p.bestSymbol
  }

  lemma UpdateNames(p: Progress, batchID: string, index: nat, status: ComboStatus, err: string,
                    result: Option<Result>)
    requires index < |p.combos|
    ensures var q := Updated(p, batchID, index, status, err, result);
            var better := && !Replay(p, index, status) && Terminal(status) && result.Some?
                          && result.value.sharpeRatio > p.bestSharpe;
            && q.bestStrategy == (if better then result.value.strategyID else p.bestStrategy)
            && q.bestSymbol == (if better then result.value.symbol else p.bestSymbol)
  {
    MarkedShape(p, index, status, err);
    hide Number, Replaced, Marked;
  }

  lemma ReplacedNames(p: Progress, q: Progress, r: Result)
    requires NamesBest(p) && q.results == Replaced(p.results, r)
    requires forall i :: 0 <= i < |p.results| && SameKey(p.results[i], r) ==> SameMetrics(p.results[i], r)
    requires q.bestSharpe == p.bestSharpe && q.bestStrategy == p.bestStrategy && q.bestSymbol == p.bestSymbol
    ensures NamesBest(q)
  {
    ReplacedMetrics(p.results, r);
    ReplacedKeepsKeys(p.results, r);
    if p.bestSharpe > 0.0 {
      var i: nat :| FirstBest(p.results, i) && p.results[i].sharpeRatio == p.bestSharpe
                    && p.results[i].strategyID == p.bestStrategy && p.results[i].symbol == p.bestSymbol;
      assert KeysOf(p.results)[i] == KeysOf(q.results)[i];
      hide Replaced, KeysOf;
      assert FirstBest(q.results, i);
    }
  }

  lemma AppendedNames(p: Progress, q: Progress, r: Result)
    requires NamesBest(p) && MetricsAgree(p) && q.results == p.results + [r]
    requires var better := r.sharpeRatio > p.bestSharpe;
             && q.bestSharpe == (if better then r.sharpeRatio else p.bestSharpe)
             && q.bestStrategy == (if better then r.strategyID else p.bestStrategy)
             && q.bestSymbol == (if better then r.symbol else p.bestSymbol)
    ensures NamesBest(q)
  {
    var n := |p.results|;
    if r.sharpeRatio > p.bestSharpe {
      assert FirstBest(q.results, n);
    } else if p.bestSharpe > 0.0 {
      var i: nat :| FirstBest(p.results, i) && p.results[i].sharpeRatio == p.bestSharpe
                    && p.results[i].strategyID == p.bestStrategy && p.results[i].symbol == p.bestSymbol;
      assert q.results[i] == p.results[i];
      assert FirstBest(q.results, i);
    }
  }

  lemma ApplyKeepsNames(p: Progress, batchID: string, e: Event)
    requires NamesBest(p) && MetricsAgree(p) && KeepsMetrics(p, e)
    ensures NamesBest(Apply(p, batchID, e))
  {
    if e.Update? && e.index < |p.combos| {
      var q := Apply(p, batchID, e);
      UpdateResults(p, batchID, e.index, e.status, e.err, e.result);
      UpdateNames(p, batchID, e.index, e.status, e.err, e.result);
      hide Updated, NamesBest, MetricsAgree, Replaced;
      if Replay(p, e.index, e.status) && e.result.Some? {
        ReplacedNames(p, q, e.result.value);
      } else if Terminal(e.status) && e.result.Some? {
        var id :| q.results == p.results + [e.result.value.(runID := id)];
        AppendedNames(p, q, e.result.value.(runID := id));
      } else {
        SameNames(p, q);
      }
    }
  }

  lemma SameNames(p: Progress, q: Progress)
    requires NamesBest(p) && q.results == p.results
    requires q.bestSharpe == p.bestSharpe && q.bestStrategy == p.bestStrategy && q.bestSymbol == p.bestSymbol
    ensures NamesBest(q)
  {}

  /** Over the same runs the best strategy and symbol are those of the first best result. */
  lemma {:induction false} RunNamesBest(total: int, combos: seq<Combo>, batchID: string, events: seq<Event>)
    requires forall i :: 0 <= i < |events| ==>
               KeepsMetrics(Run(Created(total, combos), batchID, events[..i]), events[i])
    ensures NamesBest(Run(Created(total, combos), batchID, events))
  {
    var start := Created(total, combos);
    if events != [] {
      var n := |events| - 1;
      var front := events[..n];
      forall i | 0 <= i < n
        ensures KeepsMetrics(Run(start, batchID, front[..i]), front[i])
      {
        assert front[..i] == events[..i];
      }
      RunNamesBest(total, combos, batchID, front);
      RunKeepsMetrics(total, combos, batchID, front);
      assert KeepsMetrics(Run(start, batchID, front), events[n]);
      hide Apply, NamesBest, MetricsAgree, KeepsMetrics, Created;
      ApplyKeepsNames(Run(start, batchID, front), batchID, events[n]);
    }
  }

  // ---------------------------------------------------------------- generated run ids

  /** A result without a run id gets the batch's id, a hyphen and the numeral of its number; one
      with an id is kept as it is. */
  lemma GeneratedRunID(p: Progress, batchID: string, r: Result)
    requires Sequenced(p)
    ensures var q, n := WithResult(p, batchID, r), |p.results|;
            && |q.results| == n + 1 && q.results[..n] == p.results
            && (r.runID != "" ==> q.results[n] == r)
            && (r.runID == "" ==>
                  var id := q.results[n].runID;
                  && q.results[n] == r.(runID := id) && |id| > |batchID| + 1
                  && id[..|batchID| + 1] == batchID + "-" && Value(id[|batchID| + 1..]) == n)
  {
    if r.runID == "" {
      ValueOfDigits(p.nextSeq);
      assert (batchID + "-" + Digits(p.nextSeq))[|batchID| + 1..] == Digits(p.nextSeq);
    }
  }
}

/** The store: the records it keeps by batch id, updated in place. */
module ProgressStores {
  import opened Common
  import opened MatrixProgressModel

  class MatrixProgress {
    var total: int
    var completed: int
    var failed: int
    var running: int
    var passed: int
    var combos: seq<Combo>
    var results: seq<Result>
    var status: BatchStatus
    var nextSeq: int
    var bestSharpe: real
    var bestStrategy: string
    var bestSymbol: string
    var totalTrades: int

    ghost function View(): Progress
      reads this
    {
      Progress(total, completed, failed, running, passed, combos, results, status, nextSeq,
               bestSharpe, bestStrategy, bestSymbol, totalTrades)
    }

    constructor (total: int, combos: seq<Combo>)
      ensures View() == Created(total, combos)
    {
      this.total, this.combos := total, combos;
      completed, failed, running, passed, results := 0, 0, 0, 0, [];
      status, nextSeq := BatchRunning, 0;
      bestSharpe, bestStrategy, bestSymbol, totalTrades := 0.0, "", "", 0;
    }

    constructor FromRecord(r: Record)
      ensures View() == Restored(r)
    {
      total, completed, failed, running, passed := r.total, r.completed, r.failed, r.running, r.passed;
      combos, results, status, nextSeq := r.combos, r.results, r.status, |r.results|;
      bestSharpe, bestStrategy, bestSymbol, totalTrades := r.bestSharpe, r.bestStrategy, r.bestSymbol, r.totalTrades;
    }

    /** Lines 138-147: overwrite the first result with the same key. */
    method ReplaceResult(r: Result)
      modifies `results
      ensures results == Replaced(old(results), r)
    {
      var ri := 0;
      while ri < |results| && !SameKey(results[ri], r)
        invariant 0 <= ri <= |results|
        invariant forall i :: 0 <= i < ri ==> !SameKey(results[i], r)
      {
        ri := ri + 1;
      }
      ReplacedAt(results, r, ri);
      if ri < |results| {
        results := results[ri := r];
      }
    }

    /** Lines 159-174: append a new result and fold it into the totals. */
    method AddResult(batchID: string, r: Result)
      modifies this
      ensures View() == WithResult(old(View()), batchID, r)
    {
      hide Number;
      var kept := r;
      if r.runID == "" {
        kept := r.(runID := batchID + "-" + Number(nextSeq));
      }
      results := results + [kept];
      nextSeq := nextSeq + 1;
      if r.gatePassed == Some(true) {
        passed := passed + 1;
      }
      totalTrades := totalTrades + r.numTrades;
      assert View() == Appended(old(View()), kept);
      hide Appended;
      if r.sharpeRatio > bestSharpe {
        bestSharpe, bestStrategy, bestSymbol := r.sharpeRatio, r.strategyID, r.symbol;
      }
    }

    /** Lines 130-135. */
    method Mark(index: nat, newStatus: ComboStatus, err: string)
      requires index < |combos|
      modifies `combos, `failed
      ensures View() == Marked(old(View()), index, newStatus, err)
    {
      combos := combos[index := combos[index].(status := newStatus)];
      if err != "" {
        combos := combos[index := combos[index].(error := err)];
        failed := failed + 1;
      }
    }

    /** Lines 155-177: a combo finishes for the first time. */
    method Finish(batchID: string, prevStatus: ComboStatus, result: Option<Result>)
      modifies this
      ensures var counted := old(View()).(completed := old(completed) + 1,
                                          running := old(running) - (if prevStatus == Running then 1 else 0));
              var q := if result.Some? then WithResult(counted, batchID, result.value) else counted;
              View() == if q.running == 0 && Due(q) then q.(status := BatchCompleted) else q
    {
      hide WithResult;
      if prevStatus == Running {
        running := running - 1;
      }
      completed := completed + 1;
      if result.Some? {
        AddResult(batchID, result.value);
      }
      if running == 0 && completed + failed >= total {
        status := BatchCompleted;
      }
    }

    method Update(batchID: string, index: nat, newStatus: ComboStatus, err: string, result: Option<Result>)
      requires index < |combos|
      modifies this
      ensures View() == Updated(old(View()), batchID, index, newStatus, err, result)
    {
      hide WithResult, Replaced, Marked;
      var prevStatus := combos[index].status;
      Mark(index, newStatus, err);
      if newStatus == Completed || newStatus == Failed {
        if prevStatus == Completed || prevStatus == Failed {
          if result.Some? {
            ReplaceResult(result.value);
          }
          return;
        }
        Finish(batchID, prevStatus, result);
      } else if newStatus == Running && prevStatus == Pending {
        running := running + 1;
      }
      if completed + failed >= total {
        status := BatchCompleted;
        running := 0;
      }
    }

    /** Lines 261-267. */
    method CancelOpen()
      modifies `combos, `status
      ensures View() == CancelledBatch(old(View()))
    {
      ghost var before := combos;
      var i := 0;
      while i < |combos|
        invariant 0 <= i <= |combos| == |before|
        invariant forall k :: 0 <= k < i ==> combos[k] == CancelledCombos(before)[k]
        invariant forall k :: i <= k < |before| ==> combos[k] == before[k]
      {
        if combos[i].status == Pending || combos[i].status == Running {
          combos := combos[i := combos[i].(status := Cancelled)];
        }
        i := i + 1;
      }
      assert combos == CancelledCombos(before);
      status := BatchCancelled;
    }
  }

  class ProgressStore {
    var runs: map<string, MatrixProgress>

    /** Different batches have different records. */
    ghost predicate Valid()
      reads this
    {
      forall a, b :: a in runs && b in runs && a != b ==> runs[a] != runs[b]
    }

    ghost function Views(): (views: map<string, Progress>)
      reads this, runs.Values
    {
      map id | id in runs :: runs[id].View()
    }

    constructor ()
      ensures Valid() && Views() == map[]
    {
      runs := map[];
    }

    method Create(batchID: string, total: int, combos: seq<Combo>) returns (mp: MatrixProgress)
      requires Valid()
      modifies this
      ensures Valid() && batchID in runs && runs[batchID] == mp && fresh(mp)
      ensures Views() == old(Views())[batchID := Created(total, combos)]
    {
      hide Created;
      mp := new MatrixProgress(total, combos);
      runs := runs[batchID := mp];
    }

    /** An update of an unknown batch or combo changes nothing, and neither does a negative index of
        a known batch, which panics; any other update changes that batch only. */
    method UpdateCombo(batchID: string, index: int, status: ComboStatus, err: string, result: Option<Result>)
      returns (panics: bool)
      requires Valid()
      modifies runs.Values
      ensures Valid()
      ensures panics <==> batchID in old(Views()) && index < 0
      ensures Views() == if batchID in old(Views()) && index >= 0
                         then old(Views())[batchID := Updated(old(Views())[batchID], batchID, index, status, err,
                                                              result)]
                         else old(Views())
    {
      hide Updated;
      if batchID !in runs || index >= |runs[batchID].combos| {
        if batchID in runs {
          OutOfRange(runs[batchID].View(), batchID, index, status, err, result);
          assert Views()[batchID] == runs[batchID].View();
        }
        return false;
      }
      if index < 0 {
        return true;
      }
      assert runs[batchID] in runs.Values;
      runs[batchID].Update(batchID, index, status, err, result);
      panics := false;
    }

    lemma OutOfRange(p: Progress, batchID: string, index: nat, status: ComboStatus, err: string, result: Option<Result>)
      requires index >= |p.combos|
      ensures Updated(p, batchID, index, status, err, result) == p
    {}

    /** None is a panic: the slice from a negative number is out of range. */
    method GetSince(batchID: string, sinceSeq: int) returns (answer: Option<(seq<Result>, int, bool)>)
      ensures answer.None? <==> batchID in Views() && sinceSeq < 0
      ensures answer.Some? ==>
                answer.value == if batchID in Views() then Since(Views()[batchID], sinceSeq) else ([], 0, false)
    {
      if batchID !in runs {
        return Some(([], 0, false));
      }
      var mp := runs[batchID];
      var complete := mp.status != BatchRunning;
      if sinceSeq >= |mp.results| {
        return Some(([], mp.nextSeq, complete));
      }
      if sinceSeq < 0 {
        return None;
      }
      return Some((mp.results[sinceSeq..], mp.nextSeq, complete));
    }

    method Cancel(batchID: string)
      requires Valid()
      modifies runs.Values
      ensures Valid()
      ensures Views() == if batchID in old(Views())
                         then old(Views())[batchID := CancelledBatch(old(Views())[batchID])]
                         else old(Views())
    {
      if batchID !in runs {
        return;
      }
      assert runs[batchID] in runs.Values;
      runs[batchID].CancelOpen();
    }

    /** Restores the recorded batches the store does not hold; the records come with distinct ids
        or not, and the first of an id wins. */
    method Recover(records: seq<(string, Record)>)
      requires Valid()
      modifies this
      ensures Valid()
      ensures Views() == RecoveredViews(old(Views()), records)
    {
      hide Restored;
      ghost var before := Views();
      var i := 0;
      assert records[..0] == [];
      while i < |records|
        invariant 0 <= i <= |records|
        invariant Valid() && Views() == RecoveredViews(before, records[..i])
        invariant forall mp :: mp in runs.Values ==> mp in old(runs).Values || fresh(mp)
      {
        var (batchID, rec) := records[i];
        assert records[..i + 1][..i] == records[..i];
        if batchID !in runs {
          var mp := new MatrixProgress.FromRecord(rec);
          runs := runs[batchID := mp];
        }
        i := i + 1;
      }
      assert records[..|records|] == records;
    }
  }

  function RecoveredViews(views: map<string, Progress>, records: seq<(string, Record)>): map<string, Progress> {
    if records == [] then views
    else
      var (batchID, rec) := records[|records| - 1];
      var front := RecoveredViews(views, records[..|records| - 1]);
      if batchID in front then front else front[batchID := Restored(rec)]
  }

  /** Recovery leaves the batches in memory alone and keeps every sequence number right. */
  lemma {:induction false} RecoveryKeepsSequence(views: map<string, Progress>, records: seq<(string, Record)>)
    requires forall id :: id in views ==> Sequenced(views[id])
    ensures forall id :: id in views ==>
              id in RecoveredViews(views, records) && RecoveredViews(views, records)[id] == views[id]
    ensures forall id :: id in RecoveredViews(views, records) ==> Sequenced(RecoveredViews(views, records)[id])
  {
    if records != [] {
      var (batchID, rec) := records[|records| - 1];
      RecoveryKeepsSequence(views, records[..|records| - 1]);
      var front := RecoveredViews(views, records[..|records| - 1]);
      var after := RecoveredViews(views, records);
      assert after == if batchID in front then front else front[batchID := Restored(rec)];
      forall id | id in after
        ensures Sequenced(after[id])
      {
        if id in front {
          assert Sequenced(front[id]);
        } else {
          assert after[id] == Restored(rec);
        }
      }
    }
  }
}

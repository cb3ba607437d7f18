/** Streaming OHLC resampling (scripts/stooq_resample.py, _resample_and_insert and _flush_group).

    The cursor is a sequence of rows, an insert appends to the table; the batch size, 2000 in
    the script, is a parameter. */
module Resampler {
  import opened Common

  datatype Bar = Bar(sym: int, time: int, open: int, high: int, low: int, close: int, volume: int)

  datatype Row = Row(bar: Bar, timeframe: string, source: string, generationId: string)

  // ---------------------------------------------------------------- aggregation

  function MaxHigh(group: seq<Bar>): (m: int)
    requires group != []
    ensures forall i :: 0 <= i < |group| ==> group[i].high <= m
    ensures exists i :: 0 <= i < |group| && group[i].high == m
  {
    if |group| == 1 then group[0].high
    else
      var m := MaxHigh(group[1..]);
      if m >= group[0].high then m else group[0].high
  }

  function MinLow(group: seq<Bar>): (m: int)
    requires group != []
    ensures forall i :: 0 <= i < |group| ==> m <= group[i].low
    ensures exists i :: 0 <= i < |group| && group[i].low == m
  {
    if |group| == 1 then group[0].low
    else
      var m := MinLow(group[1..]);
      if m <= group[0].low then m else group[0].low
  }

  function Volume(group: seq<Bar>): int {
    if group == [] then 0 else group[0].volume + Volume(group[1..])
  }

  function Aggregate(group: seq<Bar>, sym: int): Bar
    requires group != []
  {
    Bar(sym, group[0].time, group[0].open, MaxHigh(group), MinLow(group), group[|group| - 1].close, Volume(group))
  }

  /** bars_per_group below 1 flushes after every bar, like 1. */
  function GroupSize(n: int): nat {
    if n < 1 then 1 else n
  }

  // ---------------------------------------------------------------- what resampling means

  /** The length of the first run of rows of one symbol. */
  function RunLength(rows: seq<Bar>): (r: nat)
    ensures r <= |rows| && (rows != [] ==> r > 0)
    ensures forall i :: 0 <= i < r ==> rows[i].sym == rows[0].sym
    ensures r < |rows| ==> rows[r].sym != rows[0].sym
  {
    if rows == [] then 0
    else if |rows| > 1 && rows[1].sym == rows[0].sym then 1 + RunLength(rows[1..])
    else 1
  }

  function Smaller(a: nat, b: nat): nat {
    if a < b then a else b
  }

  /** Cut into chunks of k, the last one possibly shorter, and aggregate each. */
  function Chunks(bars: seq<Bar>, k: nat): seq<Bar>
    requires k > 0
  {
    if bars == [] then []
    else
      var m := Smaller(k, |bars|);
      [Aggregate(bars[..m], bars[0].sym)] + Chunks(bars[m..], k)
  }

  /** Split into runs of one symbol, and chunk each run. */
  function Resample(rows: seq<Bar>, k: nat): seq<Bar>
    requires k > 0
  {
    if rows == [] then []
    else
      var r := RunLength(rows);
      Chunks(rows[..r], k) + Resample(rows[r..], k)
  }

  ghost predicate OneSymbol(bars: seq<Bar>) {
    forall i :: 0 <= i < |bars| ==> bars[i].sym == bars[0].sym
  }

  lemma {:induction false} RunOfConcat(x: seq<Bar>, y: seq<Bar>)
    requires x != [] && OneSymbol(x)
    ensures RunLength(x + y) == |x| + if y != [] && y[0].sym == x[0].sym then RunLength(y) else 0
  {
    if |x| == 1 {
      assert (x + y)[1..] == y;
    } else {
      assert (x + y)[1..] == x[1..] + y;
      assert (x + y)[1] == x[1];
      RunOfConcat(x[1..], y);
    }
  }

  lemma ResampleStep(rows: seq<Bar>, k: nat)
    requires k > 0 && rows != []
    ensures Resample(rows, k) == Chunks(rows[..RunLength(rows)], k) + Resample(rows[RunLength(rows)..], k)
  {
    hide Chunks, RunLength;
  }

  /** A full run of one symbol is resampled on its own. */
  lemma ResampleRun(x: seq<Bar>, y: seq<Bar>, k: nat)
    requires k > 0 && x != [] && OneSymbol(x) && (y == [] || y[0].sym != x[0].sym)
    ensures Resample(x + y, k) == Chunks(x, k) + Resample(y, k)
  {
    RunOfConcat(x, y);
    ResampleStep(x + y, k);
    hide Resample, Chunks, RunLength, OneSymbol;
    assert (x + y)[..|x|] == x && (x + y)[|x|..] == y;
  }

  lemma WholeChunk(group: seq<Bar>, k: nat)
    requires k > 0 && group != [] && |group| <= k
    ensures Chunks(group, k) == [Aggregate(group, group[0].sym)]
  {
    hide Aggregate;
    assert group[..|group|] == group && group[|group|..] == [];
  }

  lemma FirstChunk(head: seq<Bar>, tail: seq<Bar>, k: nat)
    requires k > 0 && head != [] && |head| <= k && (tail == [] || |head| == k)
    ensures Chunks(head + tail, k) == [Aggregate(head, head[0].sym)] + Chunks(tail, k)
  {
    hide Aggregate;
    assert (head + tail)[..|head|] == head && (head + tail)[|head|..] == tail;
  }

  /** A group that is full, or that ends with its run, comes out as one bar. */
  lemma ResampleGroup(group: seq<Bar>, rest: seq<Bar>, k: nat)
    requires k > 0 && group != [] && OneSymbol(group) && |group| <= k
    requires |group| == k || rest == [] || rest[0].sym != group[0].sym
    ensures Resample(group + rest, k) == [Aggregate(group, group[0].sym)] + Resample(rest, k)
  {
    hide Aggregate;
    if rest == [] || rest[0].sym != group[0].sym {
      ResampleRun(group, rest, k);
      WholeChunk(group, k);
    } else {
      FullGroup(group, rest, k);
    }
  }

  lemma FullGroup(group: seq<Bar>, rest: seq<Bar>, k: nat)
    requires k > 0 && OneSymbol(group) && |group| == k && rest != [] && rest[0].sym == group[0].sym
    ensures Resample(group + rest, k) == [Aggregate(group, group[0].sym)] + Resample(rest, k)
  {
    hide Resample, Aggregate, Chunks;
    var r, all := RunLength(rest), group + rest;
    RunOfConcat(group, rest);
    hide RunLength, OneSymbol;
    ResampleStep(all, k);
    ResampleStep(rest, k);
    FirstChunk(group, rest[..r], k);
    CutConcat(group, rest, r);
    Associative([Aggregate(group, group[0].sym)], Chunks(rest[..r], k), Resample(rest[r..], k));
  }

  lemma CutConcat<T>(x: seq<T>, y: seq<T>, n: nat)
    requires n <= |y|
    ensures (x + y)[..|x| + n] == x + y[..n] && (x + y)[|x| + n..] == y[n..]
  {}

  lemma TailConcat<T>(x: seq<T>, y: seq<T>)
    requires x != []
    ensures (x + y)[0] == x[0] && (x + y)[1..] == x[1..] + y
  {}

  lemma EmptyConcat<T>(x: seq<T>)
    ensures x + [] == x && [] + x == x
  {}

  /** What flushing a group emits. */
  function Flushed(group: seq<Bar>, sym: int): seq<Bar> {
    if group == [] then [] else [Aggregate(group, sym)]
  }

  /** The pending group: fewer than k rows, all of the current symbol. */
  ghost predicate Pending(group: seq<Bar>, sym: int, k: nat) {
    |group| < k && forall i :: 0 <= i < |group| ==> group[i].sym == sym
  }

  lemma FlushAtBoundary(group: seq<Bar>, sym: int, rest: seq<Bar>, k: nat)
    requires Pending(group, sym, k) && (rest == [] || rest[0].sym != sym)
    ensures Resample(group + rest, k) == Flushed(group, sym) + Resample(rest, k)
  {
    hide Aggregate;
    if group == [] {
      assert group + rest == rest;
    } else {
      ResampleGroup(group, rest, k);
    }
  }

  lemma FlushWhenFull(group: seq<Bar>, row: Bar, rest: seq<Bar>, k: nat)
    requires Pending(group, row.sym, k)
    ensures |group| + 1 == k ==>
              Resample(group + ([row] + rest), k) == Flushed(group + [row], row.sym) + Resample(rest, k)
    ensures |group| + 1 < k ==> Pending(group + [row], row.sym, k)
    ensures group + ([row] + rest) == (group + [row]) + rest
  {
    hide Aggregate;
    if |group| + 1 == k {
      assert group + ([row] + rest) == (group + [row]) + rest;
      ResampleGroup(group + [row], rest, k);
    }
  }

  // ---------------------------------------------------------------- the streaming loop

  function Labelled(bars: seq<Bar>, timeframe: string, generationId: string): (rows: seq<Row>)
    ensures |rows| == |bars|
  {
    seq(|bars|, i requires 0 <= i < |bars| => Row(bars[i], timeframe, "stooq-resampled", generationId))
  }

  /** Every bar becomes a row of the target timeframe, marked as resampled. */
  lemma LabelledAt(bars: seq<Bar>, timeframe: string, generationId: string, i: nat)
    requires i < |bars|
    ensures Labelled(bars, timeframe, generationId)[i] == Row(bars[i], timeframe, "stooq-resampled", generationId)
  {}

  /** Appends the aggregate of a non-empty group to the batch. */
  method FlushGroup(group: seq<Bar>, batch: seq<Row>, sym: int, timeframe: string, generationId: string)
    returns (flushed: seq<Row>)
    ensures flushed == batch + Labelled(Flushed(group, sym), timeframe, generationId)
  {
    if |group| == 0 {
      return batch;
    }
    flushed := batch + [Row(Aggregate(group, sym), timeframe, "stooq-resampled", generationId)];
  }

  lemma LabelledConcat(x: seq<Bar>, y: seq<Bar>, timeframe: string, generationId: string)
    ensures Labelled(x + y, timeframe, generationId)
            == Labelled(x, timeframe, generationId) + Labelled(y, timeframe, generationId)
  {}

  /** The loop invariant: what was emitted and what the pending group and the rows from position
      i on will emit make up the whole. */
  ghost predicate OnTrack(out: seq<Bar>, group: seq<Bar>, i: nat, rows: seq<Bar>, k: nat)
    requires k > 0 && i <= |rows|
  {
    out + Resample(group + rows[i..], k) == Resample(rows, k)
  }

  lemma FlushKeepsOnTrack(out: seq<Bar>, group: seq<Bar>, sym: int, i: nat, rows: seq<Bar>, k: nat)
    requires i <= |rows| && Pending(group, sym, k) && OnTrack(out, group, i, rows, k)
    requires i < |rows| ==> rows[i].sym != sym
    ensures OnTrack(out + Flushed(group, sym), [], i, rows, k)
  {
    var rest := rows[i..];
    FlushAtBoundary(group, sym, rest, k);
    EmptyConcat(rest);
    Associative(out, Flushed(group, sym), Resample(rest, k));
    hide Resample, Flushed;
  }

  lemma RowKeepsOnTrack(out: seq<Bar>, group: seq<Bar>, i: nat, rows: seq<Bar>, k: nat)
    requires i < |rows| && Pending(group, rows[i].sym, k) && OnTrack(out, group, i, rows, k)
    ensures var grown := group + [rows[i]];
            if |grown| == k then OnTrack(out + Flushed(grown, rows[i].sym), [], i + 1, rows, k)
            else Pending(grown, rows[i].sym, k) && OnTrack(out, grown, i + 1, rows, k)
  {
    var rest := rows[i + 1..];
    assert rows[i..] == [rows[i]] + rest;
    FlushWhenFull(group, rows[i], rest, k);
    hide Resample, Flushed, Pending;
    EmptyConcat(rest);
    Associative(out, Flushed(group + [rows[i]], rows[i].sym), Resample(rest, k));
  }

  lemma StartsOnTrack(rows: seq<Bar>, k: nat)
    requires k > 0
    ensures OnTrack([], [], 0, rows, k)
  {
    assert rows[0..] == rows;
    EmptyConcat(rows);
    EmptyConcat(Resample(rows, k));
    hide Resample;
  }

  lemma EndsOnTrack(out: seq<Bar>, rows: seq<Bar>, k: nat)
    requires k > 0 && OnTrack(out, [], |rows|, rows, k)
    ensures out == Resample(rows, k)
  {
    assert rows[|rows|..] == [];
    EmptyConcat(out);
    assert Resample([] + [], k) == [];
  }

  /** What the table and the batch hold, and what was counted, after these bars were emitted. */
  ghost predicate Sent(out: seq<Bar>, batch: seq<Row>, table: seq<Row>, total: nat, dryRun: bool,
                       timeframe: string, generationId: string) {
    && total + |batch| == |out|
    && if dryRun then table == [] else table + batch == Labelled(out, timeframe, generationId)
  }

  lemma FlushSent(out: seq<Bar>, more: seq<Bar>, batch: seq<Row>, table: seq<Row>, total: nat, dryRun: bool,
                  timeframe: string, generationId: string)
    requires Sent(out, batch, table, total, dryRun, timeframe, generationId)
    ensures Sent(out + more, batch + Labelled(more, timeframe, generationId), table, total, dryRun,
                 timeframe, generationId)
  {
    LabelledConcat(out, more, timeframe, generationId);
    Associative(table, batch, Labelled(more, timeframe, generationId));
  }

  lemma InsertSent(out: seq<Bar>, batch: seq<Row>, table: seq<Row>, total: nat, dryRun: bool,
                   timeframe: string, generationId: string)
    requires Sent(out, batch, table, total, dryRun, timeframe, generationId)
    ensures Sent(out, [], if dryRun then table else table + batch, total + |batch|, dryRun, timeframe, generationId)
  {
    EmptyConcat(table + batch);
  }

  lemma EmptyPending(sym: int, k: nat)
    requires k > 0
    ensures Pending([], sym, k)
  {}

  lemma FullGroups(group: seq<Bar>, sym: int, barsPerGroup: int)
    requires Pending(group, sym, GroupSize(barsPerGroup))
    ensures |group| + 1 >= barsPerGroup <==> |group| + 1 == GroupSize(barsPerGroup)
  {}

  /** The loop invariant as a whole. */
  ghost predicate Streaming(out: seq<Bar>, group: seq<Bar>, sym: int, i: nat, rows: seq<Bar>, k: nat,
                            batch: seq<Row>, table: seq<Row>, total: nat, dryRun: bool,
                            timeframe: string, generationId: string) {
    && k > 0 && i <= |rows| && Pending(group, sym, k) && OnTrack(out, group, i, rows, k)
    && Sent(out, batch, table, total, dryRun, timeframe, generationId)
  }

  lemma FlushStreams(out: seq<Bar>, group: seq<Bar>, sym: int, next: int, i: nat, rows: seq<Bar>, k: nat,
                     batch: seq<Row>, table: seq<Row>, total: nat, dryRun: bool,
                     timeframe: string, generationId: string)
    requires Streaming(out, group, sym, i, rows, k, batch, table, total, dryRun, timeframe, generationId)
    requires i < |rows| ==> rows[i].sym != sym
    ensures Streaming(out + Flushed(group, sym), [], next, i, rows, k,
                      batch + Labelled(Flushed(group, sym), timeframe, generationId), table, total, dryRun,
                      timeframe, generationId)
  {
    EmptyPending(next, k);
    hide Pending, OnTrack, Sent, Flushed, Labelled;
    FlushKeepsOnTrack(out, group, sym, i, rows, k);
    FlushSent(out, Flushed(group, sym), batch, table, total, dryRun, timeframe, generationId);
  }

  lemma EmptyStreams(out: seq<Bar>, sym: int, next: int, i: nat, rows: seq<Bar>, k: nat,
                     batch: seq<Row>, table: seq<Row>, total: nat, dryRun: bool,
                     timeframe: string, generationId: string)
    requires Streaming(out, [], sym, i, rows, k, batch, table, total, dryRun, timeframe, generationId)
    ensures Streaming(out, [], next, i, rows, k, batch, table, total, dryRun, timeframe, generationId)
  {
    hide OnTrack, Sent;
  }

  lemma RowStreams(out: seq<Bar>, group: seq<Bar>, i: nat, rows: seq<Bar>, k: nat,
                   batch: seq<Row>, table: seq<Row>, total: nat, dryRun: bool,
                   timeframe: string, generationId: string)
    requires i < |rows|
    requires Streaming(out, group, rows[i].sym, i, rows, k, batch, table, total, dryRun, timeframe, generationId)
    ensures var sym, grown := rows[i].sym, group + [rows[i]];
            if |grown| == k
            then Streaming(out + Flushed(grown, sym), [], sym, i + 1, rows, k,
                           batch + Labelled(Flushed(grown, sym), timeframe, generationId), table, total, dryRun,
                           timeframe, generationId)
            else |grown| < k && Streaming(out, grown, sym, i + 1, rows, k, batch, table, total, dryRun,
                                          timeframe, generationId)
  {
    var sym, grown := rows[i].sym, group + [rows[i]];
    assert |group| < k;
    EmptyPending(sym, k);
    hide Pending, OnTrack, Sent, Flushed, Labelled;
    RowKeepsOnTrack(out, group, i, rows, k);
    FlushSent(out, Flushed(grown, sym), batch, table, total, dryRun, timeframe, generationId);
  }

  lemma InsertStreams(out: seq<Bar>, group: seq<Bar>, sym: int, i: nat, rows: seq<Bar>, k: nat,
                      batch: seq<Row>, table: seq<Row>, total: nat, dryRun: bool,
                      timeframe: string, generationId: string)
    requires Streaming(out, group, sym, i, rows, k, batch, table, total, dryRun, timeframe, generationId)
    ensures Streaming(out, group, sym, i, rows, k, [], if dryRun then table else table + batch, total + |batch|,
                      dryRun, timeframe, generationId)
  {
    hide Pending, OnTrack, Sent;
    InsertSent(out, batch, table, total, dryRun, timeframe, generationId);
  }

  lemma StartsStreaming(rows: seq<Bar>, k: nat, dryRun: bool, timeframe: string, generationId: string)
    requires k > 0
    ensures Streaming([], [], 0, 0, rows, k, [], [], 0, dryRun, timeframe, generationId)
  {
    StartsOnTrack(rows, k);
    EmptyPending(0, k);
    hide OnTrack, Pending;
  }

  lemma EndsStreaming(out: seq<Bar>, sym: int, rows: seq<Bar>, k: nat, table: seq<Row>, total: nat, dryRun: bool,
                      timeframe: string, generationId: string)
    requires Streaming(out, [], sym, |rows|, rows, k, [], table, total, dryRun, timeframe, generationId)
    ensures total == |Resample(rows, k)|
    ensures table == if dryRun then [] else Labelled(Resample(rows, k), timeframe, generationId)
  {
    hide Resample, Labelled, Pending;
    EndsOnTrack(out, rows, k);
    AllSent(out, [], table, total, dryRun, timeframe, generationId);
  }

  /** The loop body up to the batch check: flush at a new symbol, take the row, flush a full group. */
  method TakeRow(rows: seq<Bar>, i: nat, barsPerGroup: int, batch: seq<Row>, groupBars: seq<Bar>, currentSym: int,
                 started: bool, timeframe: string, generationId: string,
                 ghost out: seq<Bar>, ghost table: seq<Row>, ghost total: nat, ghost dryRun: bool)
    returns (batch': seq<Row>, groupBars': seq<Bar>, ghost out': seq<Bar>)
    requires i < |rows| && (!started ==> groupBars == [])
    requires Streaming(out, groupBars, currentSym, i, rows, GroupSize(barsPerGroup), batch, table, total, dryRun,
                       timeframe, generationId)
    ensures Streaming(out', groupBars', rows[i].sym, i + 1, rows, GroupSize(barsPerGroup), batch', table, total,
                      dryRun, timeframe, generationId)
  {
    ghost var k := GroupSize(barsPerGroup);
    assert k == if barsPerGroup < 1 then 1 else barsPerGroup;
    var row := rows[i];
    batch', groupBars', out' := batch, groupBars, out;
    if !started {
      EmptyStreams(out, currentSym, row.sym, i, rows, k, batch, table, total, dryRun, timeframe, generationId);
    }
    if started && row.sym != currentSym {
      FlushStreams(out, groupBars, currentSym, row.sym, i, rows, k, batch, table, total, dryRun,
                   timeframe, generationId);
      out' := out + Flushed(groupBars, currentSym);
      batch' := FlushGroup(groupBars, batch, currentSym, timeframe, generationId);
      groupBars' := [];
    }
    hide *;
    RowStreams(out', groupBars', i, rows, k, batch', table, total, dryRun, timeframe, generationId);
    groupBars' := groupBars' + [row];
    if |groupBars'| >= barsPerGroup {
      out' := out' + Flushed(groupBars', row.sym);
      batch' := FlushGroup(groupBars', batch', row.sym, timeframe, generationId);
      groupBars' := [];
    }
  }

  /** For any batch size the rows inserted are the resampled rows, in order; a dry run inserts
      none, and counts the same. */
  method ResampleAndInsert(rows: seq<Bar>, barsPerGroup: int, batchSize: int, dryRun: bool, timeframe: string,
                           generationId: string)
    returns (totalInserted: nat, table: seq<Row>)
    ensures totalInserted == |Resample(rows, GroupSize(barsPerGroup))|
    ensures table == if dryRun then [] else Labelled(Resample(rows, GroupSize(barsPerGroup)), timeframe, generationId)
    ensures SymbolsAscend(rows) ==>
              IsResampling(Resample(rows, GroupSize(barsPerGroup)), rows, if barsPerGroup < 1 then 1 else barsPerGroup)
  {
    ghost var k := GroupSize(barsPerGroup);
    assert k == if barsPerGroup < 1 then 1 else barsPerGroup;
    ghost var out: seq<Bar> := [];
    totalInserted, table := 0, [];
    var currentSym, started := 0, false;
    var batch: seq<Row> := [];
    var groupBars: seq<Bar> := [];
    StartsStreaming(rows, k, dryRun, timeframe, generationId);
    hide *;
    for i := 0 to |rows|
      invariant Streaming(out, groupBars, currentSym, i, rows, k, batch, table, totalInserted, dryRun,
                          timeframe, generationId)
      invariant !started ==> groupBars == []
    {
      batch, groupBars, out := TakeRow(rows, i, barsPerGroup, batch, groupBars, currentSym, started, timeframe,
                                       generationId, out, table, totalInserted, dryRun);
      currentSym, started := rows[i].sym, true;
      if |batch| >= batchSize {
        InsertStreams(out, groupBars, currentSym, i + 1, rows, k, batch, table, totalInserted, dryRun,
                      timeframe, generationId);
        if !dryRun {
          table := table + batch;
        }
        totalInserted := totalInserted + |batch|;
        batch := [];
      }
    }
    if |groupBars| > 0 {
      FlushStreams(out, groupBars, currentSym, currentSym, |rows|, rows, k, batch, table, totalInserted, dryRun,
                   timeframe, generationId);
      out := out + Flushed(groupBars, currentSym);
      batch := FlushGroup(groupBars, batch, currentSym, timeframe, generationId);
    }
    InsertStreams(out, [], currentSym, |rows|, rows, k, batch, table, totalInserted, dryRun, timeframe, generationId);
    if |batch| > 0 {
      if !dryRun {
        table := table + batch;
      }
      totalInserted := totalInserted + |batch|;
    }
    EndsStreaming(out, currentSym, rows, k, table, totalInserted, dryRun, timeframe, generationId);
    ResampledBars(rows, k);
  }

  lemma AllSent(out: seq<Bar>, batch: seq<Row>, table: seq<Row>, total: nat, dryRun: bool,
                timeframe: string, generationId: string)
    requires Sent(out, batch, table, total, dryRun, timeframe, generationId) && batch == []
    ensures total == |out|
    ensures table == if dryRun then [] else Labelled(out, timeframe, generationId)
  {
    EmptyConcat(table);
  }

  // ---------------------------------------------------------------- by symbol

  function Of(rows: seq<Bar>, sym: int): seq<Bar> {
    if rows == [] then [] else (if rows[0].sym == sym then [rows[0]] else []) + Of(rows[1..], sym)
  }

  ghost predicate SymbolsAscend(rows: seq<Bar>) {
    forall i, j :: 0 <= i <= j < |rows| ==> rows[i].sym <= rows[j].sym
  }

  lemma {:induction false} OfConcat(x: seq<Bar>, y: seq<Bar>, sym: int)
    ensures Of(x + y, sym) == Of(x, sym) + Of(y, sym)
  {
    if x == [] {
      assert x + y == y;
    } else {
      TailConcat(x, y);
      OfConcat(x[1..], y, sym);
      Associative(if x[0].sym == sym then [x[0]] else [], Of(x[1..], sym), Of(y, sym));
    }
  }

  lemma {:induction false} OfUniform(bars: seq<Bar>, owner: int, sym: int)
    requires forall i :: 0 <= i < |bars| ==> bars[i].sym == owner
    ensures Of(bars, sym) == if sym == owner then bars else []
  {
    if bars != [] {
      OfUniform(bars[1..], owner, sym);
      assert bars == [bars[0]] + bars[1..];
    }
  }

  lemma {:induction false} OfAbsent(bars: seq<Bar>, sym: int)
    requires forall i :: 0 <= i < |bars| ==> bars[i].sym != sym
    ensures Of(bars, sym) == []
  {
    if bars != [] {
      OfAbsent(bars[1..], sym);
    }
  }

  lemma HeadAndTail(bars: seq<Bar>, k: nat) returns (head: Bar)
    requires k > 0 && bars != []
    ensures var m := Smaller(k, |bars|);
            head == Aggregate(bars[..m], bars[0].sym) && Chunks(bars, k) == [head] + Chunks(bars[m..], k)
  {
    hide MaxHigh, MinLow, Volume;
    head := Aggregate(bars[..Smaller(k, |bars|)], bars[0].sym);
  }

  lemma SymbolInFront(head: Bar, tail: seq<Bar>, sym: int)
    requires head.sym == sym && forall i :: 0 <= i < |tail| ==> tail[i].sym == sym
    ensures forall i :: 0 <= i < |[head] + tail| ==> ([head] + tail)[i].sym == sym
  {}

  lemma {:induction false} ChunksKeepSymbol(bars: seq<Bar>, k: nat)
    requires k > 0 && OneSymbol(bars)
    ensures forall i :: 0 <= i < |Chunks(bars, k)| ==> bars != [] && Chunks(bars, k)[i].sym == bars[0].sym
    ensures bars != [] <==> Chunks(bars, k) != []
  {
    if bars == [] {
      NoChunks(k);
    } else {
      var rest := bars[Smaller(k, |bars|)..];
      assert forall i :: 0 <= i < |rest| ==> rest[i].sym == bars[0].sym;
      ChunksKeepSymbol(rest, k);
      var head := HeadAndTail(bars, k);
      hide Chunks, OneSymbol;
      SymbolInFront(head, Chunks(rest, k), bars[0].sym);
    }
  }

  lemma {:induction false} ResampleKeepsOrder(rows: seq<Bar>, k: nat)
    requires k > 0 && SymbolsAscend(rows)
    ensures SymbolsAscend(Resample(rows, k))
    ensures forall i :: 0 <= i < |Resample(rows, k)| ==> rows != [] && Resample(rows, k)[i].sym >= rows[0].sym
    decreases |rows|
  {
    if rows != [] {
      var r := RunLength(rows);
      var run, rest := rows[..r], rows[r..];
      ResampleKeepsOrder(rest, k);
      ChunksKeepSymbol(run, k);
      ResampleStep(rows, k);
      assert rest != [] ==> rest[0] == rows[r];
      hide Chunks, Resample, RunLength;
      AscendConcat(Chunks(run, k), Resample(rest, k), rows[0].sym);
    }
  }

  lemma AscendConcat(x: seq<Bar>, y: seq<Bar>, sym: int)
    requires forall i :: 0 <= i < |x| ==> x[i].sym == sym
    requires SymbolsAscend(y) && forall i :: 0 <= i < |y| ==> y[i].sym >= sym
    ensures SymbolsAscend(x + y) && forall i :: 0 <= i < |x + y| ==> (x + y)[i].sym >= sym
  {}

  /** On rows ordered by symbol the output is, symbol by symbol, that symbol's bars cut into
      chunks of k and aggregated. */
  lemma {:induction false} ResampleIsGroupBy(rows: seq<Bar>, k: nat, sym: int)
    requires k > 0 && SymbolsAscend(rows)
    ensures Of(Resample(rows, k), sym) == Chunks(Of(rows, sym), k)
    decreases |rows|
  {
    if rows == [] {
      NoChunks(k);
    } else {
      var r := RunLength(rows);
      var run, rest := rows[..r], rows[r..];
      assert rows == run + rest;
      ResampleIsGroupBy(rest, k, sym);
      ResampleStep(rows, k);
      ChunksKeepSymbol(run, k);
      OfConcat(run, rest, sym);
      OfConcat(Chunks(run, k), Resample(rest, k), sym);
      OfUniform(run, rows[0].sym, sym);
      OfUniform(Chunks(run, k), rows[0].sym, sym);
      NoChunks(k);
      if sym == rows[0].sym {
        LaterSymbols(rows, r);
        OfAbsent(rest, sym);
      }
      EmptyConcat(run);
      EmptyConcat(Chunks(run, k));
      EmptyConcat(Of(rest, sym));
      EmptyConcat(Of(Resample(rest, k), sym));
      hide Chunks, Of, RunLength, Resample, SymbolsAscend;
      if sym == rows[0].sym {
        assert Of(rows, sym) == run;
        assert Of(Resample(rest, k), sym) == [];
      } else {
        assert Of(rows, sym) == Of(rest, sym);
      }
    }
  }

  lemma LaterSymbols(rows: seq<Bar>, r: nat)
    requires SymbolsAscend(rows) && 0 < r <= |rows| && (r < |rows| ==> rows[r].sym != rows[0].sym)
    ensures forall i :: 0 <= i < |rows[r..]| ==> rows[r..][i].sym != rows[0].sym
  {
    forall i | 0 <= i < |rows[r..]|
      ensures rows[r..][i].sym != rows[0].sym
    {
      assert rows[0].sym <= rows[r].sym <= rows[r + i].sym;
    }
  }

  lemma NoChunks(k: nat)
    requires k > 0
    ensures Chunks([], k) == []
  {}

  // ---------------------------------------------------------------- conservation and order

  lemma {:induction false} VolumeConcat(x: seq<Bar>, y: seq<Bar>)
    ensures Volume(x + y) == Volume(x) + Volume(y)
  {
    if x == [] {
      assert x + y == y;
    } else {
      assert (x + y)[1..] == x[1..] + y;
      VolumeConcat(x[1..], y);
    }
  }

  lemma {:induction false} ChunksConserveVolume(bars: seq<Bar>, k: nat)
    requires k > 0
    ensures Volume(Chunks(bars, k)) == Volume(bars)
  {
    if bars != [] {
      var m := Smaller(k, |bars|);
      ChunksConserveVolume(bars[m..], k);
      VolumeConcat(bars[..m], bars[m..]);
      assert bars == bars[..m] + bars[m..];
      var head := HeadAndTail(bars, k);
      hide Chunks, MaxHigh, MinLow;
      VolumeConcat([head], Chunks(bars[m..], k));
      VolumeOfOne(head);
      hide Volume;
    }
  }

  lemma VolumeOfOne(bar: Bar)
    ensures Volume([bar]) == bar.volume
  {}

  /** Each symbol's volume is conserved. */
  lemma VolumeConserved(rows: seq<Bar>, k: nat, sym: int)
    requires k > 0 && SymbolsAscend(rows)
    ensures Volume(Of(Resample(rows, k), sym)) == Volume(Of(rows, sym))
  {
    ResampleIsGroupBy(rows, k, sym);
    ChunksConserveVolume(Of(rows, sym), k);
  }

  predicate Consistent(b: Bar) {
    b.low <= b.open <= b.high && b.low <= b.close <= b.high
  }

  lemma {:induction false} ChunksConsistent(bars: seq<Bar>, k: nat)
    requires k > 0 && forall i :: 0 <= i < |bars| ==> Consistent(bars[i])
    ensures forall i :: 0 <= i < |Chunks(bars, k)| ==> Consistent(Chunks(bars, k)[i])
  {
    if bars != [] {
      var m := Smaller(k, |bars|);
      ChunksConsistent(bars[m..], k);
      var group := bars[..m];
      assert Consistent(group[0]) && Consistent(group[m - 1]);
    }
  }

  lemma {:induction false} ResampleConsistent(rows: seq<Bar>, k: nat)
    requires k > 0 && forall i :: 0 <= i < |rows| ==> Consistent(rows[i])
    ensures forall i :: 0 <= i < |Resample(rows, k)| ==> Consistent(Resample(rows, k)[i])
    decreases |rows|
  {
    if rows != [] {
      var r := RunLength(rows);
      ChunksConsistent(rows[..r], k);
      ResampleConsistent(rows[r..], k);
    }
  }

  predicate KeyBefore(a: Bar, b: Bar) {
    a.sym < b.sym || (a.sym == b.sym && a.time < b.time)
  }

  ghost predicate KeysAscend(rows: seq<Bar>) {
    forall i, j :: 0 <= i < j < |rows| ==> KeyBefore(rows[i], rows[j])
  }

  /** Each output bar carries the symbol and time of an input row, the first that of the first. */
  ghost predicate KeysFrom(out: seq<Bar>, rows: seq<Bar>) {
    && (out != [] <==> rows != [])
    && (out != [] ==> out[0].sym == rows[0].sym && out[0].time == rows[0].time)
    && forall i :: 0 <= i < |out| ==>
         exists j :: 0 <= j < |rows| && out[i].sym == rows[j].sym && out[i].time == rows[j].time
  }

  lemma KeysFromConcat(out: seq<Bar>, rows: seq<Bar>, out2: seq<Bar>, rows2: seq<Bar>)
    requires KeysFrom(out, rows) && KeysFrom(out2, rows2) && KeysAscend(out) && KeysAscend(out2)
    requires KeysAscend(rows + rows2) && rows != []
    ensures KeysFrom(out + out2, rows + rows2) && KeysAscend(out + out2)
  {
    forall i | 0 <= i < |out + out2|
      ensures exists j :: 0 <= j < |rows + rows2| && (out + out2)[i].sym == (rows + rows2)[j].sym
                          && (out + out2)[i].time == (rows + rows2)[j].time
    {
      if i < |out| {
        var j :| 0 <= j < |rows| && out[i].sym == rows[j].sym && out[i].time == rows[j].time;
        assert (rows + rows2)[j] == rows[j];
      } else {
        var j :| 0 <= j < |rows2| && out2[i - |out|].sym == rows2[j].sym && out2[i - |out|].time == rows2[j].time;
        assert (rows + rows2)[|rows| + j] == rows2[j];
      }
    }
    forall i, j | 0 <= i < |out| && 0 <= j < |out2|
      ensures KeyBefore(out[i], out2[j])
    {
      var p :| 0 <= p < |rows| && out[i].sym == rows[p].sym && out[i].time == rows[p].time;
      var q :| 0 <= q < |rows2| && out2[j].sym == rows2[q].sym && out2[j].time == rows2[q].time;
      assert KeyBefore((rows + rows2)[p], (rows + rows2)[|rows| + q]);
    }
  }

  lemma FirstKey(bars: seq<Bar>, m: nat)
    requires 0 < m <= |bars| && KeysAscend(bars)
    ensures var first := [Aggregate(bars[..m], bars[0].sym)]; KeysFrom(first, bars[..m]) && KeysAscend(first)
    ensures KeysAscend(bars[..m]) && KeysAscend(bars[m..])
  {
    hide MaxHigh, MinLow, Volume;
    assert bars[..m][0] == bars[0];
  }

  lemma ChunkKeysStep(bars: seq<Bar>, m: nat, head: Bar, tail: seq<Bar>)
    requires 0 < m <= |bars| && KeysAscend(bars)
    requires KeysFrom([head], bars[..m]) && KeysAscend([head])
    requires KeysFrom(tail, bars[m..]) && KeysAscend(tail)
    ensures KeysFrom([head] + tail, bars) && KeysAscend([head] + tail)
  {
    hide KeysFrom, KeysAscend;
    assert bars == bars[..m] + bars[m..];
    KeysFromConcat([head], bars[..m], tail, bars[m..]);
  }

  lemma {:induction false} ChunkKeys(bars: seq<Bar>, k: nat)
    requires k > 0 && KeysAscend(bars)
    ensures KeysFrom(Chunks(bars, k), bars) && KeysAscend(Chunks(bars, k))
  {
    if bars == [] {
      NoChunks(k);
    } else {
      var m := Smaller(k, |bars|);
      FirstKey(bars, m);
      hide Chunks, Aggregate, KeysFrom, KeysAscend;
      ChunkKeys(bars[m..], k);
      var head := HeadAndTail(bars, k);
      ChunkKeysStep(bars, m, head, Chunks(bars[m..], k));
    }
  }

  /** On rows with ascending (symbol, time) no such key occurs twice in the output, so the
      upsert never overwrites a row of its own run. */
  lemma {:induction false} OutputKeysDistinct(rows: seq<Bar>, k: nat)
    requires k > 0 && KeysAscend(rows)
    ensures KeysAscend(Resample(rows, k)) && KeysFrom(Resample(rows, k), rows)
    decreases |rows|
  {
    if rows != [] {
      var r := RunLength(rows);
      assert rows == rows[..r] + rows[r..];
      ChunkKeys(rows[..r], k);
      OutputKeysDistinct(rows[r..], k);
      KeysFromConcat(Chunks(rows[..r], k), rows[..r], Resample(rows[r..], k), rows[r..]);
    }
  }

  // ---------------------------------------------------------------- bar by bar

  ghost predicate IsTotalVolume(volume: int, group: seq<Bar>) {
    exists totals: seq<int> ::
      && |totals| == |group| + 1 && totals[0] == 0 && totals[|group|] == volume
      && forall j :: 0 <= j < |group| ==> totals[j + 1] == totals[j] + group[j].volume
  }

  /** The bar opens with the first and closes with the last of the group, spans its prices and
      carries its volume. */
  ghost predicate Summarises(bar: Bar, group: seq<Bar>) {
    && group != []
    && bar.sym == group[0].sym && bar.time == group[0].time
    && bar.open == group[0].open && bar.close == group[|group| - 1].close
    && (forall i :: 0 <= i < |group| ==> group[i].high <= bar.high)
    && (exists i :: 0 <= i < |group| && group[i].high == bar.high)
    && (forall i :: 0 <= i < |group| ==> bar.low <= group[i].low)
    && (exists i :: 0 <= i < |group| && group[i].low == bar.low)
    && IsTotalVolume(bar.volume, group)
  }

  lemma {:induction false} VolumeIsTotal(group: seq<Bar>)
    ensures IsTotalVolume(Volume(group), group)
  {
    if group == [] {
      assert IsTotalVolume(0, group) by {
        var totals: seq<int> := [0];
        assert totals[0] == 0;
      }
    } else {
      VolumeIsTotal(group[1..]);
      var rest: seq<int> :| && |rest| == |group[1..]| + 1 && rest[0] == 0 && rest[|group[1..]|] == Volume(group[1..])
                            && forall j :: 0 <= j < |group[1..]| ==> rest[j + 1] == rest[j] + group[1..][j].volume;
      FirstVolumeMore(group, rest);
    }
  }

  lemma FirstVolumeMore(group: seq<Bar>, rest: seq<int>)
    requires group != [] && |rest| == |group| && rest[0] == 0
    requires forall j :: 0 <= j < |group| - 1 ==> rest[j + 1] == rest[j] + group[1..][j].volume
    ensures IsTotalVolume(group[0].volume + rest[|rest| - 1], group)
  {
    var first := group[0].volume;
    var totals := seq(|group| + 1, j requires 0 <= j <= |group| => if j == 0 then 0 else first + rest[j - 1]);
    forall j | 0 <= j < |group|
      ensures totals[j + 1] == totals[j] + group[j].volume
    {
      if j > 0 {
        assert rest[j - 1 + 1] == rest[j - 1] + group[1..][j - 1].volume;
      }
    }
    assert totals[|group|] == first + rest[|rest| - 1];
  }

  lemma AggregateSummarises(group: seq<Bar>)
    requires group != []
    ensures Summarises(Aggregate(group, group[0].sym), group)
  {
    VolumeIsTotal(group);
    hide IsTotalVolume, Volume, MaxHigh, MinLow;
  }

  /** Up to k bars from position `from` on. */
  function Slice(bars: seq<Bar>, from: nat, k: nat): seq<Bar>
    requires from <= |bars|
  {
    if from + k <= |bars| then bars[from..from + k] else bars[from..]
  }

  /** Chunk i, if there is one, summarises the k bars from a position on, or as many as are left. */
  ghost predicate ChunkFrom(chunks: seq<Bar>, bars: seq<Bar>, k: nat, i: nat, from: nat) {
    && (i < |chunks| <==> from < |bars|)
    && (i < |chunks| ==> Summarises(chunks[i], Slice(bars, from, k)))
  }

  ghost predicate ChunkAt(chunks: seq<Bar>, bars: seq<Bar>, k: nat, i: nat) {
    ChunkFrom(chunks, bars, k, i, i * k)
  }

  lemma {:induction false} ChunkIsSummary(bars: seq<Bar>, k: nat, i: nat)
    requires k > 0
    ensures ChunkAt(Chunks(bars, k), bars, k, i)
    decreases i
  {
    if bars == [] {
      NoChunks(k);
    } else {
      var m := Smaller(k, |bars|);
      var head := HeadAndTail(bars, k);
      hide Chunks, Aggregate, Summarises;
      if i == 0 {
        assert Slice(bars, 0, k) == bars[..m];
        AggregateSummarises(bars[..m]);
      } else {
        ChunkIsSummary(bars[m..], k, i - 1);
        NextChunk([head] + Chunks(bars[m..], k), bars, k, i);
      }
    }
  }

  lemma NextChunk(chunks: seq<Bar>, bars: seq<Bar>, k: nat, i: nat)
    requires chunks != [] && bars != [] && k > 0 && i > 0
    requires ChunkAt(chunks[1..], bars[Smaller(k, |bars|)..], k, i - 1)
    ensures ChunkAt(chunks, bars, k, i)
  {
    hide ChunkFrom;
    assert i * k == (i - 1) * k + k;
    NextChunkFrom(chunks, bars, k, i, (i - 1) * k);
  }

  lemma NextChunkFrom(chunks: seq<Bar>, bars: seq<Bar>, k: nat, i: nat, from: nat)
    requires chunks != [] && bars != [] && k > 0 && i > 0
    requires ChunkFrom(chunks[1..], bars[Smaller(k, |bars|)..], k, i - 1, from)
    ensures ChunkFrom(chunks, bars, k, i, from + k)
  {
    hide Summarises;
    if k <= |bars| {
      SliceOfRest(bars, from, k);
    }
  }

  lemma SliceOfRest(bars: seq<Bar>, from: nat, k: nat)
    requires k <= |bars|
    ensures from + k <= |bars| ==> Slice(bars[k..], from, k) == Slice(bars, from + k, k)
  {}

  /** On rows ordered by symbol: bar i of each symbol's output summarises that symbol's rows from
      i * k on. */
  ghost predicate IsResampling(out: seq<Bar>, rows: seq<Bar>, k: nat) {
    forall sym, i: nat :: ChunkAt(Of(out, sym), Of(rows, sym), k, i)
  }

  lemma ResampledBars(rows: seq<Bar>, k: nat)
    requires k > 0
    ensures SymbolsAscend(rows) ==> IsResampling(Resample(rows, k), rows, k)
  {
    hide ChunkAt, Resample, Chunks, Of, SymbolsAscend;
    forall sym, i: nat | SymbolsAscend(rows)
      ensures ChunkAt(Of(Resample(rows, k), sym), Of(rows, sym), k, i)
    {
      ResampleIsGroupBy(rows, k, sym);
      ChunkIsSummary(Of(rows, sym), k, i);
    }
  }

  // ---------------------------------------------------------------- resampling twice

  lemma {:induction false} ChunkCount(bars: seq<Bar>, k: nat, q: nat)
    requires k > 0 && |bars| <= k * q
    ensures |Chunks(bars, k)| <= q
    ensures |bars| == k * q ==> |Chunks(bars, k)| == q
    decreases q
  {
    hide Aggregate;
    if q == 0 {
      assert |bars| <= 0;
    } else if bars != [] {
      assert k * q == k * (q - 1) + k;
      ChunkCount(bars[Smaller(k, |bars|)..], k, q - 1);
    }
  }

  lemma {:induction false} ChunksConcat(x: seq<Bar>, y: seq<Bar>, k: nat, q: nat)
    requires k > 0 && |x| == q * k
    ensures Chunks(x + y, k) == Chunks(x, k) + Chunks(y, k)
    decreases q
  {
    hide Aggregate;
    if q == 0 {
      NoChunks(k);
      assert x + y == y;
    } else {
      assert |x| == (q - 1) * k + k;
      var head, rest := x[..k], x[k..];
      assert x == head + rest;
      Associative(head, rest, y);
      ChunksConcat(rest, y, k, q - 1);
      FirstChunk(head, rest, k);
      FirstChunk(head, rest + y, k);
      Associative([Aggregate(head, head[0].sym)], Chunks(rest, k), Chunks(y, k));
      hide Chunks;
    }
  }

  lemma {:induction false} MaxOfChunks(bars: seq<Bar>, k: nat)
    requires k > 0 && bars != []
    ensures Chunks(bars, k) != []
    ensures MaxHigh(Chunks(bars, k)) == MaxHigh(bars) && MinLow(Chunks(bars, k)) == MinLow(bars)
  {
    var m := Smaller(k, |bars|);
    var rest := bars[m..];
    assert bars == bars[..m] + rest;
    if rest == [] {
      assert bars[..m] == bars;
    } else {
      MaxOfChunks(rest, k);
      MaxConcat(bars[..m], rest);
      MaxConcat([Aggregate(bars[..m], bars[0].sym)], Chunks(rest, k));
    }
  }

  lemma MaxConcat(x: seq<Bar>, y: seq<Bar>)
    requires x != [] && y != []
    ensures MaxHigh(x + y) == if MaxHigh(x) >= MaxHigh(y) then MaxHigh(x) else MaxHigh(y)
    ensures MinLow(x + y) == if MinLow(x) <= MinLow(y) then MinLow(x) else MinLow(y)
  {
    HighConcat(x, y);
    LowConcat(x, y);
    hide MaxHigh, MinLow;
  }

  lemma HighConcat(x: seq<Bar>, y: seq<Bar>)
    requires x != [] && y != []
    ensures MaxHigh(x + y) == if MaxHigh(x) >= MaxHigh(y) then MaxHigh(x) else MaxHigh(y)
  {
    hide MaxHigh;
    var z := x + y;
    var i :| 0 <= i < |x| && x[i].high == MaxHigh(x);
    var j :| 0 <= j < |y| && y[j].high == MaxHigh(y);
    var k :| 0 <= k < |z| && z[k].high == MaxHigh(z);
    assert z[i] == x[i] && z[|x| + j] == y[j];
    assert k < |x| ==> z[k] == x[k];
    assert k >= |x| ==> z[k] == y[k - |x|];
  }

  lemma LowConcat(x: seq<Bar>, y: seq<Bar>)
    requires x != [] && y != []
    ensures MinLow(x + y) == if MinLow(x) <= MinLow(y) then MinLow(x) else MinLow(y)
  {
    hide MinLow;
    var z := x + y;
    var i :| 0 <= i < |x| && x[i].low == MinLow(x);
    var j :| 0 <= j < |y| && y[j].low == MinLow(y);
    var k :| 0 <= k < |z| && z[k].low == MinLow(z);
    assert z[i] == x[i] && z[|x| + j] == y[j];
    assert k < |x| ==> z[k] == x[k];
    assert k >= |x| ==> z[k] == y[k - |x|];
  }

  lemma {:induction false} LastOfChunks(bars: seq<Bar>, k: nat)
    requires k > 0 && bars != []
    ensures Chunks(bars, k) != [] && Chunks(bars, k)[|Chunks(bars, k)| - 1].close == bars[|bars| - 1].close
  {
    var m := Smaller(k, |bars|);
    if m < |bars| {
      LastOfChunks(bars[m..], k);
    }
  }

  lemma AggregateOfChunks(bars: seq<Bar>, k: nat)
    requires k > 0 && bars != []
    ensures Chunks(bars, k) != [] && Aggregate(Chunks(bars, k), bars[0].sym) == Aggregate(bars, bars[0].sym)
  {
    MaxOfChunks(bars, k);
    LastOfChunks(bars, k);
    ChunksConserveVolume(bars, k);
  }

  /** Chunks of b of chunks of a are chunks of a * b, partial tails included. */
  lemma {:induction false} ChunksCompose(bars: seq<Bar>, a: nat, b: nat)
    requires a > 0 && b > 0
    ensures a * b > 0 && Chunks(Chunks(bars, a), b) == Chunks(bars, a * b)
    decreases |bars|
  {
    ProductPositive(a, b);
    var ab := a * b;
    if bars != [] {
      var m := Smaller(ab, |bars|);
      var head, tail := bars[..m], bars[m..];
      assert bars == head + tail;
      ChunksCompose(tail, a, b);
      HeadChunks(bars, a, b);
      ChunkCount(head, a, b);
      AggregateOfChunks(head, a);
      FirstChunk(head, tail, ab);
      ChunksFirst(head, a);
      NoChunks(a);
      hide Chunks, Aggregate;
      FirstChunk(Chunks(head, a), Chunks(tail, a), b);
    }
  }

  lemma ChunksFirst(bars: seq<Bar>, k: nat)
    requires k > 0 && bars != []
    ensures Chunks(bars, k) != [] && Chunks(bars, k)[0].sym == bars[0].sym
  {}

  lemma ProductPositive(a: nat, b: nat)
    requires a > 0 && b > 0
    ensures a * b > 0
  {}

  lemma HeadChunks(bars: seq<Bar>, a: nat, b: nat)
    requires a > 0 && b > 0 && a * b > 0
    ensures var m := Smaller(a * b, |bars|); Chunks(bars, a) == Chunks(bars[..m], a) + Chunks(bars[m..], a)
  {
    var ab := a * b;
    var m := Smaller(ab, |bars|);
    assert ab == b * a;
    HeadChunksAt(bars, a, b, m, ab);
  }

  lemma HeadChunksAt(bars: seq<Bar>, a: nat, b: nat, m: nat, ab: nat)
    requires a > 0 && ab == b * a && m == Smaller(ab, |bars|)
    ensures Chunks(bars, a) == Chunks(bars[..m], a) + Chunks(bars[m..], a)
  {
    NoChunks(a);
    hide Chunks;
    assert bars == bars[..m] + bars[m..];
    if m == |bars| {
      assert bars[..m] == bars && bars[m..] == [];
      EmptyConcat(Chunks(bars, a));
    } else {
      ChunksConcat(bars[..m], bars[m..], a, b);
    }
  }

  /** Resampling by a and the result by b is resampling by a * b, on any rows. */
  lemma {:induction false} ResampleCompose(rows: seq<Bar>, a: nat, b: nat)
    requires a > 0 && b > 0
    ensures a * b > 0 && Resample(Resample(rows, a), b) == Resample(rows, a * b)
    decreases |rows|
  {
    ProductPositive(a, b);
    if rows != [] {
      var r := RunLength(rows);
      var run, rest := rows[..r], rows[r..];
      ResampleCompose(rest, a, b);
      ChunksCompose(run, a, b);
      ChunksKeepSymbol(run, a);
      if rest != [] {
        FirstSymbol(rest, a);
      }
      hide Chunks, RunLength;
      ResampleRun(Chunks(run, a), Resample(rest, a), b);
    }
  }

  lemma FirstSymbol(rows: seq<Bar>, k: nat)
    requires k > 0 && rows != []
    ensures Resample(rows, k) != [] && Resample(rows, k)[0].sym == rows[0].sym
  {
    ChunksKeepSymbol(rows[..RunLength(rows)], k);
  }
}

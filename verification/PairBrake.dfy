/** One pair's brake, as a state machine over the checks that see the pair
    (internal/backtest/correlation_tracker.go, the body of CheckCorrelations' inner loop). */
module PairBrake {
  import opened Common

  datatype Action = BrakeApplied | BrakeReleased | BrakeAppliedVelocity

  datatype Settings = Settings(
    threshold: real, brakeDuration: int, velocityThreshold: real, cooldown: int)

  /** What the three maps hold for a pair; a missing entry reads as zero. */
  datatype PairState = PairState(brake: int, cooldown: int, rho: real)

  predicate ThresholdBreach(cfg: Settings, rho: real) {
    rho > cfg.threshold
  }

  predicate VelocityBreach(cfg: Settings, s: PairState, rho: real) {
    s.cooldown == 0 && s.rho != 0.0 && Abs(rho - s.rho) > cfg.velocityThreshold
  }

  predicate Trigger(cfg: Settings, s: PairState, rho: real) {
    ThresholdBreach(cfg, rho) || VelocityBreach(cfg, s, rho)
  }

  function Tick(n: int): int {
    if n > 0 then n - 1 else n
  }

  function Advance(cfg: Settings, s: PairState, rho: real): PairState {
    var velocity := VelocityBreach(cfg, s, rho);
    PairState(
      if Trigger(cfg, s, rho) then cfg.brakeDuration else Tick(s.brake),
      Tick(if velocity then cfg.cooldown else s.cooldown),
      rho)
  }

  function Actions(cfg: Settings, s: PairState, rho: real): seq<Action> {
    (if ThresholdBreach(cfg, rho) then [BrakeApplied]
     else if s.brake == 1 then [BrakeReleased] else [])
    + (if VelocityBreach(cfg, s, rho) then [BrakeAppliedVelocity] else [])
  }

  /** The BrakeActive flag of the reported correlation: also set at the releasing check. */
  predicate ReportedActive(cfg: Settings, s: PairState, rho: real) {
    Trigger(cfg, s, rho) || s.brake > 0
  }

  /** The brake is set by a correlation above the threshold, and by one off the last by more than
      the velocity threshold, up or down, once the cooldown is over and there is a last one;
      otherwise it counts down to 0.  The events name the causes. */
  lemma BrakeSetExactly(cfg: Settings, s: PairState, rho: real)
    ensures var above := rho > cfg.threshold;
            var jumped := && s.cooldown == 0 && s.rho != 0.0
                          && (rho > s.rho + cfg.velocityThreshold || rho < s.rho - cfg.velocityThreshold);
            && Advance(cfg, s, rho) == PairState(
                 if above || jumped then cfg.brakeDuration else if s.brake > 0 then s.brake - 1 else s.brake,
                 if jumped then (if cfg.cooldown > 0 then cfg.cooldown - 1 else cfg.cooldown)
                 else if s.cooldown > 0 then s.cooldown - 1 else s.cooldown,
                 rho)
            && (BrakeApplied in Actions(cfg, s, rho) <==> above)
            && (BrakeReleased in Actions(cfg, s, rho) <==> !above && s.brake == 1)
            && (BrakeAppliedVelocity in Actions(cfg, s, rho) <==> jumped)
            && (ReportedActive(cfg, s, rho) <==> above || jumped || s.brake > 0)
  {}

  /** What a check that sees the pair goes by: the settings then, and the correlation measured. */
  datatype Reading = Reading(cfg: Settings, rho: real)

  /** The state after a run of checks, oldest first. */
  function After(s: PairState, run: seq<Reading>): PairState {
    if run == [] then s
    else Advance(run[|run| - 1].cfg, After(s, run[..|run| - 1]), run[|run| - 1].rho)
  }

  /** Check k of the run triggers the brake. */
  predicate TriggersAt(s: PairState, run: seq<Reading>, k: nat)
    requires k < |run|
  {
    Trigger(run[k].cfg, After(s, run[..k]), run[k].rho)
  }

  predicate VelocityAt(s: PairState, run: seq<Reading>, k: nat)
    requires k < |run|
  {
    VelocityBreach(run[k].cfg, After(s, run[..k]), run[k].rho)
  }

  predicate ReleasedAt(s: PairState, run: seq<Reading>, k: nat)
    requires k < |run|
  {
    BrakeReleased in Actions(run[k].cfg, After(s, run[..k]), run[k].rho)
  }

  /** A counter left alone for `checks` checks. */
  function Decayed(n: int, checks: nat): int {
    if n > checks then n - checks else if n > 0 then 0 else n
  }

  ghost predicate QuietFrom(s: PairState, run: seq<Reading>, from: nat) {
    forall k :: from <= k < |run| ==> !TriggersAt(s, run, k)
  }

  lemma PrefixRun(s: PairState, run: seq<Reading>, n: nat, k: nat)
    requires k < n <= |run|
    ensures TriggersAt(s, run[..n], k) == TriggersAt(s, run, k)
    ensures VelocityAt(s, run[..n], k) == VelocityAt(s, run, k)
    ensures ReleasedAt(s, run[..n], k) == ReleasedAt(s, run, k)
  {
    assert run[..n][..k] == run[..k];
  }

  lemma QuietPrefix(s: PairState, run: seq<Reading>, from: nat)
    requires |run| > 0 && QuietFrom(s, run, from)
    ensures QuietFrom(s, run[..|run| - 1], from)
  {
    var n: nat := |run| - 1;
    forall k: nat | from <= k < n
      ensures !TriggersAt(s, run[..n], k)
    {
      PrefixRun(s, run, n, k);
    }
  }

  /** The brake counter is a clock: after any run it is what the last trigger set, or what the
      run started with, decayed by the number of checks since. */
  lemma {:induction false} BrakeIsTimer(s: PairState, run: seq<Reading>, last: int)
    requires -1 <= last < |run|
    requires last >= 0 ==> TriggersAt(s, run, last)
    requires QuietFrom(s, run, last + 1)
    ensures After(s, run).brake
         == Decayed(if last >= 0 then run[last].cfg.brakeDuration else s.brake, |run| - 1 - last)
  {
    if |run| > 0 {
      var n: nat := |run| - 1;
      if last < n {
        assert !TriggersAt(s, run, n);
        QuietPrefix(s, run, last + 1);
        if last >= 0 {
          PrefixRun(s, run, n, last);
        }
        BrakeIsTimer(s, run[..n], last);
      }
    }
  }

  /** A brake applied at check `last` with duration d >= 1 stays active through the next d - 1
      trigger-free checks, is off from the d-th on, and is announced as released at the d-th
      and at no other of those checks. */
  lemma BrakeLifetime(s: PairState, run: seq<Reading>, last: nat)
    requires last < |run| && run[last].cfg.brakeDuration >= 1 && TriggersAt(s, run, last) && QuietFrom(s, run, last + 1)
    ensures After(s, run).brake > 0 <==> |run| - 1 - last < run[last].cfg.brakeDuration
    ensures forall k :: last < k < |run| ==>
              (ReleasedAt(s, run, k) <==> k - last == run[last].cfg.brakeDuration)
  {
    BrakeIsTimer(s, run, last);
    forall k: nat | last < k < |run|
      ensures ReleasedAt(s, run, k) <==> k - last == run[last].cfg.brakeDuration
    {
      var before := run[..k];
      PrefixRun(s, run, k, last);
      forall i: nat | last + 1 <= i < k
        ensures !TriggersAt(s, before, i)
      {
        PrefixRun(s, run, k, i);
      }
      BrakeIsTimer(s, before, last);
      assert !TriggersAt(s, run, k);
    }
  }

  /** After a velocity brake at check `from` the cooldown counter counts the checks since. */
  lemma {:induction false} CooldownIsTimer(s: PairState, run: seq<Reading>, from: nat)
    requires from < |run| && VelocityAt(s, run, from)
    requires forall k :: from < k < |run| ==> !VelocityAt(s, run, k)
    ensures After(s, run).cooldown == Decayed(run[from].cfg.cooldown, |run| - from)
  {
    var n: nat := |run| - 1;
    if from < n {
      assert !VelocityAt(s, run, n);
      PrefixRun(s, run, n, from);
      forall k: nat | from < k < n
        ensures !VelocityAt(s, run[..n], k)
      {
        PrefixRun(s, run, n, k);
      }
      CooldownIsTimer(s, run[..n], from);
    }
  }

  /** Two velocity brakes on one pair are at least `cooldown` checks apart; a negative setting
      never counts down, so then a second one never comes. */
  lemma {:induction false} VelocityBrakesSpaced(s: PairState, run: seq<Reading>, i: nat, j: nat)
    requires i < j < |run|
    requires VelocityAt(s, run, i) && VelocityAt(s, run, j)
    ensures run[i].cfg.cooldown >= 0 && j - i >= run[i].cfg.cooldown
    decreases j - i
  {
    var front := run[..j];
    if k: nat :| i < k < j && VelocityAt(s, run, k) {
      VelocityBrakesSpaced(s, run, i, k);
    } else {
      PrefixRun(s, run, j, i);
      forall k: nat | i < k < j
        ensures !VelocityAt(s, front, k)
      {
        PrefixRun(s, run, j, k);
      }
      CooldownIsTimer(s, front, i);
    }
  }

  /** The spacing is tight: exactly `cooldown` checks later the pair can fire again. */
  lemma CooldownExpires(s: PairState, run: seq<Reading>, from: nat)
    requires from < |run| && run[from].cfg.cooldown >= 1
    requires |run| == from + run[from].cfg.cooldown && VelocityAt(s, run, from)
    ensures After(s, run).cooldown == 0
  {
    forall k: nat | from < k < |run|
      ensures !VelocityAt(s, run, k)
    {
      if VelocityAt(s, run, k) {
        VelocityBrakesSpaced(s, run, from, k);
      }
    }
    CooldownIsTimer(s, run, from);
  }

  // ---------------------------------------------------------------- the triggers, read off the readings

  /** Reading k is off the one before by more than the velocity threshold, up or down, that one is
      not 0, and every earlier such jump is at least its cooldown of checks ago. */
  ghost predicate Jumps(run: seq<Reading>, k: nat)
    requires k < |run|
    decreases k
  {
    && k > 0 && run[k - 1].rho != 0.0
    && (|| run[k].rho > run[k - 1].rho + run[k].cfg.velocityThreshold
        || run[k].rho < run[k - 1].rho - run[k].cfg.velocityThreshold)
    && forall j: nat :: j < k && Jumps(run, j) ==> 0 <= run[j].cfg.cooldown <= k - j
  }

  lemma LastReading(s: PairState, run: seq<Reading>)
    requires run != []
    ensures After(s, run).rho == run[|run| - 1].rho
  {}

  lemma {:induction false} CooldownFromStart(run: seq<Reading>)
    requires forall k :: 0 <= k < |run| ==> !VelocityAt(PairState(0, 0, 0.0), run, k)
    ensures After(PairState(0, 0, 0.0), run).cooldown == 0
  {
    if run != [] {
      var n, s := |run| - 1, PairState(0, 0, 0.0);
      forall k: nat | k < n
        ensures !VelocityAt(s, run[..n], k)
      {
        PrefixRun(s, run, n, k);
      }
      assert !VelocityAt(s, run, n);
      CooldownFromStart(run[..n]);
    }
  }

  lemma LatestVelocity(s: PairState, run: seq<Reading>, i: nat) returns (last: nat)
    requires i < |run| && VelocityAt(s, run, i)
    ensures i <= last < |run| && VelocityAt(s, run, last)
    ensures forall k :: last < k < |run| ==> !VelocityAt(s, run, k)
  {
    hide VelocityAt;
    last := |run| - 1;
    while !VelocityAt(s, run, last)
      invariant i <= last < |run|
      invariant forall k :: last < k < |run| ==> !VelocityAt(s, run, k)
      decreases last
    {
      last := last - 1;
    }
  }

  /** The cooldown is over when every velocity brake so far is its cooldown of checks ago. */
  lemma CooldownOver(run: seq<Reading>)
    ensures var s := PairState(0, 0, 0.0);
            After(s, run).cooldown == 0 <==>
              forall j: nat :: j < |run| && VelocityAt(s, run, j) ==> 0 <= run[j].cfg.cooldown <= |run| - j
  {
    hide VelocityAt, After;
    var s := PairState(0, 0, 0.0);
    if i: nat :| i < |run| && VelocityAt(s, run, i) {
      var last := LatestVelocity(s, run, i);
      CooldownIsTimer(s, run, last);
      forall j: nat | j < last && VelocityAt(s, run, j)
        ensures 0 <= run[j].cfg.cooldown <= last - j
      {
        VelocityBrakesSpaced(s, run, j, last);
      }
    } else {
      CooldownFromStart(run);
    }
  }

  lemma {:induction false} JumpsExactly(run: seq<Reading>, k: nat)
    requires k < |run|
    ensures VelocityAt(PairState(0, 0, 0.0), run, k) <==> Jumps(run, k)
    decreases k
  {
    var s, before := PairState(0, 0, 0.0), run[..k];
    CooldownOver(before);
    forall j: nat | j < k
      ensures VelocityAt(s, before, j) <==> Jumps(run, j)
    {
      PrefixRun(s, run, k, j);
      JumpsExactly(run, j);
    }
    if k > 0 {
      LastReading(s, before);
    }
    hide After;
  }

  /** From a pair's first check on, exactly the correlations above the threshold and the jumps
      trigger its brake. */
  lemma TriggersExactly(run: seq<Reading>, k: nat)
    requires k < |run|
    ensures TriggersAt(PairState(0, 0, 0.0), run, k) <==> run[k].rho > run[k].cfg.threshold || Jumps(run, k)
  {
    JumpsExactly(run, k);
    hide After, Jumps, VelocityBreach;
  }
}

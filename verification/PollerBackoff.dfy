/**
 Per-device back-off of the property poller
 (apis/miot-bridge-api/src/services/DevicePropertyPollerService.ts:291-307 and 401-441):
 the entries of `_errorCounts` and `_skipCycles` for one device, a missing entry being 0.
 */
module PollerBackoff {
  import opened Arithmetic

  /** `errorSkipCycles` and `maxErrorCount` are plain numbers in the configuration schema: any integer is allowed. */
  datatype Config = Config(maxErrorCount: int, errorSkipCycles: int)

  datatype Backoff = Backoff(errors: nat, skip: int)

  /** A read fails, succeeds, or succeeds after polling has been switched off in the meantime. */
  datatype Outcome = Failed | Succeeded | SwitchedOff

  const FRESH := Backoff(0, 0)

  predicate Due(b: Backoff) {
    b.skip <= 0
  }

  function AfterRead(cfg: Config, b: Backoff, o: Outcome): Backoff {
    match o
    case Succeeded => b.(errors := 0)
    case SwitchedOff => b
    case Failed =>
      if b.errors + 1 >= cfg.maxErrorCount then Backoff(0, cfg.errorSkipCycles) else b.(errors := b.errors + 1)
  }

  /** One tick of a subscribed device: skip one cycle, or read it. */
  function AfterTick(cfg: Config, b: Backoff, o: Outcome): Backoff {
    if Due(b) then AfterRead(cfg, b, o) else b.(skip := b.skip - 1)
  }

  /** State after a run of ticks; `outcomes[i]` is what a read in tick i gives, if there is one. */
  function Run(cfg: Config, outcomes: seq<Outcome>): Backoff {
    if outcomes == [] then FRESH else AfterTick(cfg, Run(cfg, outcomes[..|outcomes| - 1]), outcomes[|outcomes| - 1])
  }

  /** Reads made in a run of ticks. */
  function Polls(cfg: Config, outcomes: seq<Outcome>): nat {
    if outcomes == [] then 0
    else
      var before := outcomes[..|outcomes| - 1];
      Polls(cfg, before) + (if Due(Run(cfg, before)) then 1 else 0)
  }

  /** Failures before a pause: at least one even if the configured count is not positive. */
  function Patience(cfg: Config): int {
    Max(1, cfg.maxErrorCount)
  }

  /** Skipped cycles of a pause. */
  function Pause(cfg: Config): int {
    Max(0, cfg.errorSkipCycles)
  }

  // ---------- every device ----------

  ghost predicate WithinBounds(cfg: Config, b: Backoff) {
    && Max(0, b.skip) <= Pause(cfg)
    && b.errors < Patience(cfg)
    && (b.skip > 0 ==> b.errors == 0)
  }

  lemma {:induction false} CountersStayWithinBounds(cfg: Config, outcomes: seq<Outcome>)
    ensures WithinBounds(cfg, Run(cfg, outcomes))
  {
    if outcomes != [] {
      CountersStayWithinBounds(cfg, outcomes[..|outcomes| - 1]);
    }
  }

  /** Any `Pause + 1` consecutive ticks of a subscribed device contain a read. */
  lemma EveryWindowPolls(cfg: Config, outcomes: seq<Outcome>, start: nat)
    requires start + Pause(cfg) + 1 <= |outcomes|
    ensures exists i :: start <= i < start + Pause(cfg) + 1 && Due(Run(cfg, outcomes[..i]))
  {
    CountersStayWithinBounds(cfg, outcomes[..start]);
    var i := start + Max(0, Run(cfg, outcomes[..start]).skip);
    SkippingCountsDown(cfg, outcomes, start, i);
    assert Due(Run(cfg, outcomes[..i]));
  }

  lemma {:induction false} SkippingCountsDown(cfg: Config, outcomes: seq<Outcome>, start: nat, i: nat)
    requires start <= i <= |outcomes| && i - start <= Max(0, Run(cfg, outcomes[..start]).skip)
    ensures i > start ==> Run(cfg, outcomes[..i]).skip == Run(cfg, outcomes[..start]).skip - (i - start)
    decreases i
  {
    if i > start {
      assert outcomes[..i][..i - 1] == outcomes[..i - 1];
      SkippingCountsDown(cfg, outcomes, start, i - 1);
    }
  }

  // ---------- failures in a row ----------

  /** In tick `i` the device is read. */
  predicate IsRead(cfg: Config, outcomes: seq<Outcome>, i: nat)
    requires i < |outcomes|
  {
    Run(cfg, outcomes[..i]).skip <= 0
  }

  /** The failed reads from tick `lo` on, before tick `hi`. */
  function FailedReads(cfg: Config, outcomes: seq<Outcome>, lo: nat, hi: nat): set<int>
    requires hi <= |outcomes|
  {
    Among(i => 0 <= i < |outcomes| && IsRead(cfg, outcomes, i) && outcomes[i] == Failed, lo, hi)
  }

  function Among(p: int -> bool, lo: int, hi: int): set<int> {
    set i | lo <= i < hi && p(i)
  }

  lemma OneMoreAmong(p: int -> bool, lo: int, hi: int)
    requires lo <= hi
    ensures |Among(p, lo, hi + 1)| == |Among(p, lo, hi)| + (if p(hi) then 1 else 0)
  {
    var before, after := Among(p, lo, hi), Among(p, lo, hi + 1);
    assert hi !in before;
    assert after == if p(hi) then before + {hi} else before;
  }

  /** The first tick after the last successful read, or the last read to begin a pause, among the first `n` ticks. */
  function Since(cfg: Config, outcomes: seq<Outcome>, n: nat): (m: nat)
    requires n <= |outcomes|
    ensures m <= n
    decreases n, 0
  {
    if n == 0 then 0
    else if IsRead(cfg, outcomes, n - 1) && outcomes[n - 1] == Succeeded then n
    else if BeginsPause(cfg, outcomes, n - 1) then n
    else Since(cfg, outcomes, n - 1)
  }

  /** The read in tick `i` fails as the maxErrorCount-th, and at least the first, in a row. */
  predicate BeginsPause(cfg: Config, outcomes: seq<Outcome>, i: nat)
    requires i < |outcomes|
    decreases i, 1
  {
    && IsRead(cfg, outcomes, i) && outcomes[i] == Failed
    && |FailedReads(cfg, outcomes, Since(cfg, outcomes, i), i + 1)| == (if cfg.maxErrorCount >= 1 then cfg.maxErrorCount else 1)
  }

  /**
   The error count is the number of failed reads since the last successful one or the last pause; a failed read begins
   a pause if and only if it makes these as many as are tolerated, and the pause is as long as configured.
   */
  lemma {:induction false} PausesFollowFailuresInARow(cfg: Config, outcomes: seq<Outcome>, n: nat)
    requires n <= |outcomes|
    ensures Run(cfg, outcomes[..n]).errors == |FailedReads(cfg, outcomes, Since(cfg, outcomes, n), n)|
    ensures n > 0 && BeginsPause(cfg, outcomes, n - 1) ==> Run(cfg, outcomes[..n]).skip == cfg.errorSkipCycles
    ensures n > 0 && !BeginsPause(cfg, outcomes, n - 1) ==>
              Run(cfg, outcomes[..n]).skip == Run(cfg, outcomes[..n - 1]).skip - (if IsRead(cfg, outcomes, n - 1) then 0 else 1)
  {
    if n == 0 {
      NoReadsYet(cfg, outcomes, 0);
    } else {
      var i, m := n - 1, Since(cfg, outcomes, n - 1);
      PausesFollowFailuresInARow(cfg, outcomes, i);
      CountersStayWithinBounds(cfg, outcomes[..i]);
      OneMoreTick(cfg, outcomes, m, i);
      NoReadsYet(cfg, outcomes, n);
      TickOfARun(cfg, outcomes, i);
      PauseOrNot(cfg, outcomes, i);
    }
  }

  lemma TickOfARun(cfg: Config, outcomes: seq<Outcome>, i: nat)
    requires i < |outcomes|
    ensures Run(cfg, outcomes[..i + 1]) == AfterTick(cfg, Run(cfg, outcomes[..i]), outcomes[i])
  {
    assert outcomes[..i + 1][..i] == outcomes[..i];
  }

  /** One tick, with the failed reads before it and in it already counted. */
  lemma PauseOrNot(cfg: Config, outcomes: seq<Outcome>, i: nat)
    requires i < |outcomes|
    requires WithinBounds(cfg, Run(cfg, outcomes[..i]))
    requires Run(cfg, outcomes[..i + 1]) == AfterTick(cfg, Run(cfg, outcomes[..i]), outcomes[i])
    requires var m := Since(cfg, outcomes, i);
             && Run(cfg, outcomes[..i]).errors == |FailedReads(cfg, outcomes, m, i)|
             && |FailedReads(cfg, outcomes, m, i + 1)| ==
                  |FailedReads(cfg, outcomes, m, i)| + (if IsRead(cfg, outcomes, i) && outcomes[i] == Failed then 1 else 0)
    requires FailedReads(cfg, outcomes, i + 1, i + 1) == {}
    ensures Run(cfg, outcomes[..i + 1]).errors == |FailedReads(cfg, outcomes, Since(cfg, outcomes, i + 1), i + 1)|
    ensures BeginsPause(cfg, outcomes, i) ==> Run(cfg, outcomes[..i + 1]).skip == cfg.errorSkipCycles
    ensures !BeginsPause(cfg, outcomes, i) ==>
              Run(cfg, outcomes[..i + 1]).skip == Run(cfg, outcomes[..i]).skip - (if IsRead(cfg, outcomes, i) then 0 else 1)
  {
  }

  lemma NoReadsYet(cfg: Config, outcomes: seq<Outcome>, n: nat)
    requires n <= |outcomes|
    ensures FailedReads(cfg, outcomes, n, n) == {}
  {
  }

  lemma OneMoreTick(cfg: Config, outcomes: seq<Outcome>, m: nat, i: nat)
    requires m <= i < |outcomes|
    ensures |FailedReads(cfg, outcomes, m, i + 1)| ==
              |FailedReads(cfg, outcomes, m, i)| + (if IsRead(cfg, outcomes, i) && outcomes[i] == Failed then 1 else 0)
  {
    OneMoreAmong(k => 0 <= k < |outcomes| && IsRead(cfg, outcomes, k) && outcomes[k] == Failed, m, i);
  }

  /** So a device that never fails often enough in a row is never paused. */
  lemma SeparateFailuresDoNotPause(cfg: Config, outcomes: seq<Outcome>, n: nat)
    requires n <= |outcomes| && cfg.errorSkipCycles > 0
    requires forall i :: 0 <= i < n ==> !BeginsPause(cfg, outcomes, i)
    ensures Run(cfg, outcomes[..n]).skip <= 0
    decreases n
  {
    if n > 0 {
      SeparateFailuresDoNotPause(cfg, outcomes, n - 1);
      PausesFollowFailuresInARow(cfg, outcomes, n);
      assert outcomes[..n][..n - 1] == outcomes[..n - 1];
      assert !BeginsPause(cfg, outcomes, n - 1);
    }
  }

  // ---------- a device that always fails ----------

  function AlwaysFailing(n: nat): seq<Outcome> {
    seq(n, _ => Failed)
  }

  /** Position within the cycle of `Patience` reads followed by `Pause` skips. */
  lemma CycleStep(n: nat, period: int)
    requires period > 0
    ensures if n % period == period - 1
            then (n + 1) % period == 0 && (n + 1) / period == n / period + 1
            else (n + 1) % period == n % period + 1 && (n + 1) / period == n / period
  {
    var q, r := n / period, n % period;
    OneMore(q, period);
    if r == period - 1 {
      QuotientAndRemainder(n + 1, period, q + 1, 0);
    } else {
      QuotientAndRemainder(n + 1, period, q, r + 1);
    }
  }

  lemma {:induction false} FailingDeviceState(cfg: Config, n: nat)
    ensures var p, k := Patience(cfg), Pause(cfg);
            var phase := n % (p + k);
            var b := Run(cfg, AlwaysFailing(n));
            if phase < p then b.errors == phase && b.skip <= 0
            else b == Backoff(0, p + k - phase)
  {
    if n > 0 {
      FailingDeviceState(cfg, n - 1);
      CycleStep(n - 1, Patience(cfg) + Pause(cfg));
      assert AlwaysFailing(n)[..n - 1] == AlwaysFailing(n - 1);
    }
  }

  /** A permanently failing device is read `Patience` times out of every `Patience + Pause` ticks. */
  lemma {:induction false} FailingDevicePolls(cfg: Config, n: nat)
    ensures var p, k := Patience(cfg), Pause(cfg);
            Polls(cfg, AlwaysFailing(n)) == (n / (p + k)) * p + Min(n % (p + k), p)
  {
    if n > 0 {
      var p, k := Patience(cfg), Pause(cfg);
      var before := AlwaysFailing(n - 1);
      var q := (n - 1) / (p + k);
      FailingDevicePolls(cfg, n - 1);
      FailingDeviceState(cfg, n - 1);
      assert AlwaysFailing(n)[..n - 1] == before;
      assert Polls(cfg, AlwaysFailing(n)) == Polls(cfg, before) + (if (n - 1) % (p + k) < p then 1 else 0);
      CycleStep(n - 1, p + k);
      OneMore(q, p);
    }
  }
}

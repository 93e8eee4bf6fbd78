/** The release clock, budget and integer deltas of `DpExporter::export`, src/metrics.rs. */
module DpExporter {
  import opened Wrappers

  const METRIC_COUNT: nat := 5

  /** Lifetime counters, in the order of the snapshot. */
  type Counters = s: seq<nat> | |s| == METRIC_COUNT witness [0, 0, 0, 0, 0]

  datatype Snapshot = Snapshot(values: seq<real>, releasesDone: nat)

  datatype ExportError = BudgetExhausted(releasesDone: nat, maxReleases: nat)

  datatype Config = Config(windowMs: nat, maxReleases: Option<nat>)
  {
    predicate Valid() {
      windowMs >= 1 && (maxReleases.Some? ==> maxReleases.value >= 1)
    }
  }

  const U32_MAX: nat := 0xffff_ffff

  datatype State = State(lastLifetime: Counters, cached: Option<Snapshot>, windowStart: nat, releasesDone: nat)

  const FRESH: State := State([0, 0, 0, 0, 0], None, 0, 0)

  function SaturatingSub(a: nat, b: nat): nat {
    if a >= b then a - b else 0
  }

  function Deltas(current: Counters, last: Counters): Counters {
    seq(METRIC_COUNT, i requires 0 <= i < METRIC_COUNT => SaturatingSub(current[i], last[i]))
  }

  /** Why an export does not start a new release: a cached window, or a spent budget. */
  predicate InWindow(config: Config, s: State, now: nat) {
    s.cached.Some? && SaturatingSub(now, s.windowStart) < config.windowMs
  }

  predicate Exhausted(config: Config, s: State) {
    s.cached.Some? && config.maxReleases.Some? && s.releasesDone >= config.maxReleases.value
  }

  predicate Releases(config: Config, s: State, now: nat) {
    !InWindow(config, s, now) && !Exhausted(config, s)
  }

  function Noisy(deltas: Counters, noise: seq<real>): seq<real>
    requires |noise| == METRIC_COUNT
  {
    seq(METRIC_COUNT, i requires 0 <= i < METRIC_COUNT =>
      if deltas[i] as real + noise[i] >= 0.0 then deltas[i] as real + noise[i] else 0.0)
  }

  function Bump(releasesDone: nat): nat {
    if releasesDone >= U32_MAX then U32_MAX else releasesDone + 1
  }

  function Next(config: Config, s: State, now: nat, current: Counters, noise: seq<real>): State
    requires |noise| == METRIC_COUNT
  {
    if !Releases(config, s, now) then s
    else State(current, Some(Snapshot(Noisy(Deltas(current, s.lastLifetime), noise), Bump(s.releasesDone))),
               now, Bump(s.releasesDone))
  }

  /** The larger of 0 and delta plus noise, for each of the five counters; a counter that fell back has
      delta 0. */
  ghost predicate IsRelease(values: seq<real>, current: Counters, last: Counters, noise: seq<real>)
    requires |noise| == METRIC_COUNT
  {
    |values| == 5 && forall i :: 0 <= i < 5 ==>
      var noisy := (if current[i] > last[i] then current[i] - last[i] else 0) as real + noise[i];
      values[i] == if noisy > 0.0 then noisy else 0.0
  }

  /** `export`; the Laplace noise is an arbitrary vector of reals. */
  class DpExporter {
    const config: Config
    var state: State

    constructor (config: Config)
      requires config.Valid()
      ensures this.config == config && state == FRESH
    {
      this.config := config;
      state := FRESH;
    }

    method Export(now: nat, current: Counters, noise: seq<real>) returns (r: Result<Snapshot, ExportError>)
      requires |noise| == METRIC_COUNT
      modifies this
      // inside the window of a release: that release again
      ensures old(state).cached.Some? && old(state).windowStart + config.windowMs > now && config.windowMs > 0 ==>
                r == Ok(old(state).cached.value) && state == old(state)
      // past it with the budget spent: nothing
      ensures old(state).cached.Some? && old(state).windowStart + config.windowMs <= now &&
              config.maxReleases.Some? && old(state).releasesDone >= config.maxReleases.value ==>
                r == Err(BudgetExhausted(old(state).releasesDone, config.maxReleases.value)) && state == old(state)
      // else a new release: every delta since the last one with its own noise, clamped at zero
      ensures old(state).cached.None? ||
              (old(state).windowStart + config.windowMs <= now &&
               (config.maxReleases.Some? ==> old(state).releasesDone < config.maxReleases.value)) ==>
                r.Ok? && IsRelease(r.value.values, current, old(state).lastLifetime, noise) &&
                r.value.releasesDone == (if old(state).releasesDone < 0xffff_ffff then old(state).releasesDone + 1 else 0xffff_ffff) &&
                state == State(current, Some(r.value), now, r.value.releasesDone)
      ensures state == Next(config, old(state), now, current, noise)
      ensures r == if !InWindow(config, old(state), now) && Exhausted(config, old(state))
                   then Err(BudgetExhausted(state.releasesDone, config.maxReleases.value))
                   else Ok(state.cached.value)
    {
      if state.cached.Some? {
        var elapsed := if now >= state.windowStart then now - state.windowStart else 0;
        if elapsed < config.windowMs {
          return Ok(state.cached.value);
        }
        if config.maxReleases.Some? && state.releasesDone >= config.maxReleases.value {
          return Err(BudgetExhausted(state.releasesDone, config.maxReleases.value));
        }
      }
      var values: seq<real> := [];
      for i := 0 to METRIC_COUNT
        invariant |values| == i
        invariant forall j :: 0 <= j < i ==> values[j] == Noisy(Deltas(current, state.lastLifetime), noise)[j]
        invariant state == old(state)
      {
        var delta := if current[i] >= state.lastLifetime[i] then current[i] - state.lastLifetime[i] else 0;
        var noisy := delta as real + noise[i];
        values := values + [if noisy >= 0.0 then noisy else 0.0];
      }
      assert values == Noisy(Deltas(current, state.lastLifetime), noise);
      var done := if state.releasesDone >= U32_MAX then U32_MAX else state.releasesDone + 1;
      var snapshot := Snapshot(values, done);
      state := State(current, Some(snapshot), now, done);
      return Ok(snapshot);
    }
  }

  // ---- Whole runs ----

  datatype Scrape = Scrape(now: nat, current: Counters, noise: seq<real>)

  /** The exporter after some scrapes, with the start and the deltas of every release so far. */
  datatype Log = Log(state: State, starts: seq<nat>, deltas: seq<Counters>)

  predicate WellFormed(scrapes: seq<Scrape>) {
    forall i :: 0 <= i < |scrapes| ==> |scrapes[i].noise| == METRIC_COUNT
  }

  function RunScrapes(config: Config, scrapes: seq<Scrape>): Log
    requires WellFormed(scrapes)
  {
    if scrapes == [] then Log(FRESH, [], []) else
      var n := |scrapes| - 1;
      var log, x := RunScrapes(config, scrapes[..n]), scrapes[n];
      var state := Next(config, log.state, x.now, x.current, x.noise);
      if Releases(config, log.state, x.now)
      then Log(state, log.starts + [x.now], log.deltas + [Deltas(x.current, log.state.lastLifetime)])
      else log.(state := state)
  }

  function Total(deltas: seq<Counters>, i: nat): nat
    requires i < METRIC_COUNT
  {
    if deltas == [] then 0 else Total(deltas[..|deltas| - 1], i) + deltas[|deltas| - 1][i]
  }

  /** Release starts are at least one window apart; the budget counts the releases and stays within
      the cap. */
  ghost predicate Paced(config: Config, log: Log) {
    |log.starts| == |log.deltas| && (log.state.cached.Some? <==> log.starts != []) &&
    (forall i :: 0 <= i < |log.starts| - 1 ==> log.starts[i] + config.windowMs <= log.starts[i + 1]) &&
    (log.starts != [] ==> log.state.windowStart == log.starts[|log.starts| - 1]) &&
    log.state.releasesDone == (if |log.starts| <= U32_MAX then |log.starts| else U32_MAX) &&
    (config.maxReleases.Some? ==> log.state.releasesDone <= config.maxReleases.value)
  }

  /** For any clock, forwards or backwards, and any noise. */
  lemma {:induction false} EveryRunIsPaced(config: Config, scrapes: seq<Scrape>)
    requires config.Valid() && WellFormed(scrapes)
    ensures Paced(config, RunScrapes(config, scrapes))
  {
    if scrapes != [] {
      EveryRunIsPaced(config, scrapes[..|scrapes| - 1]);
    }
  }

  /** Counter i of every scrape is at most that of the next one. */
  predicate NeverDecreases(scrapes: seq<Scrape>, i: nat)
    requires i < METRIC_COUNT
  {
    forall k :: 0 < k < |scrapes| ==> scrapes[k - 1].current[i] <= scrapes[k].current[i]
  }

  lemma OneMoreRelease(deltas: seq<Counters>, last: Counters, current: Counters, i: nat)
    requires i < METRIC_COUNT && Total(deltas, i) == last[i] <= current[i]
    ensures Total(deltas + [Deltas(current, last)], i) == current[i]
  {
    var d := Deltas(current, last);
    assert (deltas + [d])[..|deltas|] == deltas && d[i] == current[i] - last[i];
  }

  lemma PrefixNeverDecreases(scrapes: seq<Scrape>, n: nat, i: nat)
    requires i < METRIC_COUNT && NeverDecreases(scrapes, i) && n <= |scrapes|
    ensures NeverDecreases(scrapes[..n], i)
  {
    forall k | 0 < k < n ensures scrapes[..n][k - 1].current[i] <= scrapes[..n][k].current[i] {
      assert scrapes[k - 1].current[i] <= scrapes[k].current[i];
    }
  }

  /** When a counter never decreases, the deltas released so far add up to its lifetime value at the
      last release: no event is lost between windows or counted twice. */
  lemma {:induction false} DeltasTelescope(config: Config, scrapes: seq<Scrape>, i: nat)
    requires WellFormed(scrapes) && i < METRIC_COUNT && NeverDecreases(scrapes, i)
    ensures var log := RunScrapes(config, scrapes);
      Total(log.deltas, i) == log.state.lastLifetime[i] &&
      log.state.lastLifetime[i] <= if scrapes == [] then 0 else scrapes[|scrapes| - 1].current[i]
  {
    if scrapes != [] {
      var n := |scrapes| - 1;
      var before, x := scrapes[..n], scrapes[n];
      PrefixNeverDecreases(scrapes, n, i);
      DeltasTelescope(config, before, i);
      var log := RunScrapes(config, before);
      assert log.state.lastLifetime[i] <= x.current[i] by {
        if n > 0 { assert before[n - 1] == scrapes[n - 1] && scrapes[n - 1].current[i] <= scrapes[n].current[i]; }
      }
      OneMoreRelease(log.deltas, log.state.lastLifetime, x.current, i);
    }
  }
}

/** The outbound queue and its Emergency guard, src/queue/priority.rs. */
module OutboundQueue {
  import opened Wrappers
  import opened PriorityOrder

  datatype GuardConfig = GuardConfig(maxCount: nat, windowSecs: nat)

  datatype QueueError = EmergencyQueueLimitExceeded(current: nat, max: nat, windowSecs: nat)

  /** `now.saturating_sub(at) >= window`. */
  predicate Expired(config: GuardConfig, at: nat, now: nat) {
    (if now >= at then now - at else 0) >= config.windowSecs
  }

  /** An admission counts until the window has gone by since its time; a window of zero counts none. */
  lemma ExpiredIff(config: GuardConfig, at: nat, now: nat)
    ensures Expired(config, at, now) <==> config.windowSecs == 0 || at + config.windowSecs <= now
  {
  }

  /** Pruning looks at the front of the history only. */
  function Prune(config: GuardConfig, history: seq<nat>, now: nat): (kept: seq<nat>)
    ensures |kept| <= |history|
  {
    if history != [] && Expired(config, history[0], now) then Prune(config, history[1..], now) else history
  }

  predicate Admits(config: GuardConfig, history: seq<nat>, now: nat) {
    |Prune(config, history, now)| < config.maxCount
  }

  class EmergencyGuard {
    const config: GuardConfig
    var history: seq<nat>

    constructor (config: GuardConfig)
      ensures this.config == config && history == []
    {
      this.config := config;
      history := [];
    }

    method PruneFront(now: nat)
      modifies this
      ensures history == Prune(config, old(history), now)
    {
      while history != [] && Expired(config, history[0], now)
        invariant Prune(config, history, now) == Prune(config, old(history), now)
        decreases |history|
      {
        history := history[1..];
      }
    }

    method Check(now: nat) returns (r: Result<(), QueueError>)
      modifies this
      ensures history == Prune(config, old(history), now)
      ensures r == if Admits(config, old(history), now) then Ok(())
                   else Err(EmergencyQueueLimitExceeded(|history|, config.maxCount, config.windowSecs))
    {
      PruneFront(now);
      if |history| >= config.maxCount {
        return Err(EmergencyQueueLimitExceeded(|history|, config.maxCount, config.windowSecs));
      }
      return Ok(());
    }

    method Record(at: nat)
      modifies this
      ensures history == old(history) + [at]
    {
      history := history + [at];
    }
  }

  /** `BinaryHeap`: a multiset with some maximal element at its root. */
  class OutboundTxQueue {
    var heap: multiset<QueuedTx>
    var root: Option<QueuedTx>
    const guard: EmergencyGuard?

    ghost predicate Valid()
      reads this
    {
      match root
      case None => heap == multiset{}
      case Some(top) => IsTop(heap, top)
    }

    constructor (guard: EmergencyGuard?)
      ensures Valid() && heap == multiset{} && this.guard == guard
    {
      heap, root := multiset{}, None;
      this.guard := guard;
    }

    /** `BinaryHeap::push`: a tie leaves the root where it is. */
    method Insert(tx: QueuedTx)
      requires Valid()
      modifies this
      ensures Valid() && heap == old(heap) + multiset{tx}
    {
      if root.None? || !tx.AtMost(root.value) {
        root := Some(tx);
      }
      heap := heap + multiset{tx};
    }

    /** `push_at`. */
    method PushAt(tx: QueuedTx) returns (r: Result<(), QueueError>)
      requires Valid()
      modifies this, guard
      ensures Valid()
      ensures tx.priority.Emergency? && guard != null ==>
                (r.Ok? <==> Admits(guard.config, old(guard.history), tx.enqueuedAt)) &&
                guard.history == Prune(guard.config, old(guard.history), tx.enqueuedAt) +
                                 if r.Ok? then [tx.enqueuedAt] else []
      ensures tx.priority.Emergency? && guard != null ==>
                guard.history == GuardStep(guard.config, GuardRun(old(guard.history), [], 0), Push(tx.enqueuedAt)).history
      ensures !tx.priority.Emergency? && guard != null ==> guard.history == old(guard.history)
      ensures !tx.priority.Emergency? || guard == null ==> r.Ok?
      ensures r.Err? ==> guard != null && |guard.history| >= guard.config.maxCount
      ensures r.Err? && guard != null ==>
                r.error == EmergencyQueueLimitExceeded(|guard.history|, guard.config.maxCount, guard.config.windowSecs)
      ensures heap == if r.Ok? then old(heap) + multiset{tx} else old(heap)
    {
      if tx.priority.Emergency? && guard != null {
        r := guard.Check(tx.enqueuedAt);
        if r.Err? {
          return;
        }
        guard.Record(tx.enqueuedAt);
      }
      Insert(tx);
      return Ok(());
    }

    /** `restore_at`: folded into the guard's history without a check. */
    method RestoreAt(tx: QueuedTx)
      requires Valid()
      modifies this, guard
      ensures Valid() && heap == old(heap) + multiset{tx}
      ensures guard != null ==>
                guard.history == old(guard.history) + if tx.priority.Emergency? then [tx.enqueuedAt] else []
    {
      if tx.priority.Emergency? && guard != null {
        guard.Record(tx.enqueuedAt);
      }
      Insert(tx);
    }

    /** `peek`. */
    method Peek() returns (top: Option<QueuedTx>)
      requires Valid()
      ensures top == root && (top.None? <==> heap == multiset{})
      ensures top.Some? ==> IsTop(heap, top.value) && GoesFirst(heap, top.value)
    {
      if root.Some? { TopGoesFirst(heap, root.value); }
      return root;
    }

    /** `pop`: takes out what `peek` shows. */
    method Pop() returns (top: Option<QueuedTx>)
      requires Valid()
      modifies this
      ensures Valid() && top == old(root)
      ensures top.None? <==> old(heap) == multiset{}
      ensures top.Some? ==> GoesFirst(old(heap), top.value)
      ensures heap == if top.Some? then old(heap) - multiset{top.value} else old(heap)
    {
      top := root;
      if top.Some? { TopGoesFirst(heap, top.value); }
      if top.Some? {
        heap := heap - multiset{top.value};
        if heap == multiset{} {
          root := None;
        } else {
          TopExists(heap);
          var next :| next in heap && IsTop(heap, next);
          root := Some(next);
        }
      }
    }
  }

  // ---- The rolling window over whole runs ----

  datatype GuardOp = Replay(at: nat) | Push(at: nat)

  /** The guard's history, together with every admission ever recorded (replayed or accepted), of
      which pruning has removed the first `dropped`. */
  datatype GuardRun = GuardRun(history: seq<nat>, recorded: seq<nat>, dropped: nat)

  const FRESH: GuardRun := GuardRun([], [], 0)

  function GuardStep(config: GuardConfig, g: GuardRun, op: GuardOp): GuardRun {
    match op
    case Replay(at) => g.(history := g.history + [at], recorded := g.recorded + [at])
    case Push(at) =>
      var kept := Prune(config, g.history, at);
      var dropped := g.dropped + (|g.history| - |kept|);
      if |kept| < config.maxCount then GuardRun(kept + [at], g.recorded + [at], dropped)
      else GuardRun(kept, g.recorded, dropped)
  }

  function RunGuard(config: GuardConfig, ops: seq<GuardOp>): GuardRun {
    if ops == [] then FRESH else
      var n := |ops| - 1;
      GuardStep(config, RunGuard(config, ops[..n]), ops[n])
  }

  /** The admissions that count at `now`. */
  function InWindow(config: GuardConfig, recorded: seq<nat>, now: nat): nat {
    if recorded == [] then 0 else
      var n := |recorded| - 1;
      InWindow(config, recorded[..n], now) + if Expired(config, recorded[n], now) then 0 else 1
  }

  /** Push times never decrease; replayed times are free. */
  predicate PushesInOrder(ops: seq<GuardOp>) {
    forall i, j :: 0 <= i < j < |ops| && ops[i].Push? && ops[j].Push? ==> ops[i].at <= ops[j].at
  }

  /** Nothing, replayed or pushed, is older than what came before it. */
  predicate OldestFirst(ops: seq<GuardOp>) {
    forall i, j :: 0 <= i < j < |ops| ==> ops[i].at <= ops[j].at
  }

  lemma {:induction false} PruneIsSuffix(config: GuardConfig, history: seq<nat>, now: nat)
    ensures var kept := Prune(config, history, now); var d := |history| - |kept|;
      0 <= d <= |history| && kept == history[d..] &&
      (forall i :: 0 <= i < d ==> Expired(config, history[i], now)) &&
      (kept != [] ==> !Expired(config, kept[0], now))
  {
    if history != [] && Expired(config, history[0], now) {
      PruneIsSuffix(config, history[1..], now);
    }
  }

  /** The history is what pruning left of the record, and what it removed stays expired. */
  ghost predicate WindowKept(config: GuardConfig, g: GuardRun, now: nat) {
    g.dropped <= |g.recorded| && g.history == g.recorded[g.dropped..] &&
    forall i :: 0 <= i < g.dropped ==> Expired(config, g.recorded[i], now)
  }

  lemma StepKeepsWindow(config: GuardConfig, g: GuardRun, op: GuardOp, before: nat, now: nat)
    requires WindowKept(config, g, before) && before <= now && (op.Push? ==> before == op.at)
    ensures WindowKept(config, GuardStep(config, g, op), now)
  {
    if op.Push? {
      PruneIsSuffix(config, g.history, op.at);
      var kept := Prune(config, g.history, op.at);
      var d := |g.history| - |kept|;
      assert kept == g.recorded[g.dropped + d..];
      forall i | 0 <= i < g.dropped + d ensures Expired(config, g.recorded[i], now) {
        if g.dropped <= i {
          assert g.recorded[i] == g.history[i - g.dropped];
        }
      }
    }
  }

  lemma {:induction false} RunKeepsWindow(config: GuardConfig, ops: seq<GuardOp>, now: nat)
    requires PushesInOrder(ops) && forall i :: 0 <= i < |ops| && ops[i].Push? ==> ops[i].at <= now
    ensures WindowKept(config, RunGuard(config, ops), now)
  {
    if ops != [] {
      var n := |ops| - 1;
      var at := if ops[n].Push? then ops[n].at else now;
      assert forall i :: 0 <= i < n && ops[..n][i].Push? ==> ops[..n][i] == ops[i] && ops[i].at <= at;
      RunKeepsWindow(config, ops[..n], at);
      StepKeepsWindow(config, RunGuard(config, ops[..n]), ops[n], at, now);
    }
  }

  lemma {:induction false} InWindowBounds(config: GuardConfig, recorded: seq<nat>, dropped: nat, now: nat)
    requires dropped <= |recorded|
    requires forall i :: 0 <= i < dropped ==> Expired(config, recorded[i], now)
    ensures InWindow(config, recorded, now) <= |recorded| - dropped
    ensures InWindow(config, recorded, now) == |recorded| - dropped <==>
            forall i :: dropped <= i < |recorded| ==> !Expired(config, recorded[i], now)
  {
    if |recorded| > dropped {
      InWindowBounds(config, recorded[..|recorded| - 1], dropped, now);
    } else if recorded != [] {
      InWindowBounds(config, recorded[..|recorded| - 1], dropped - 1, now);
    }
  }

  /** Safety: however the replays were ordered, an accepted Emergency push leaves at most `maxCount`
      recorded admissions in the window that ends with it. */
  lemma AcceptedPushFitsTheWindow(config: GuardConfig, ops: seq<GuardOp>, now: nat)
    requires PushesInOrder(ops + [Push(now)])
    requires Admits(config, RunGuard(config, ops).history, now)
    ensures InWindow(config, RunGuard(config, ops + [Push(now)]).recorded, now) <= config.maxCount
  {
    var all := ops + [Push(now)];
    assert all[..|ops|] == ops;
    assert forall i :: 0 <= i < |ops| && ops[i].Push? ==> all[i].at <= all[|ops|].at;
    RunKeepsWindow(config, all, now);
    var g := RunGuard(config, all);
    InWindowBounds(config, g.recorded, g.dropped, now);
    assert |g.history| <= config.maxCount;
  }

  ghost predicate SortedUpTo(s: seq<nat>, now: nat) {
    (forall i :: 0 <= i < |s| ==> s[i] <= now) && (forall i, j :: 0 <= i <= j < |s| ==> s[i] <= s[j])
  }

  lemma {:induction false} RecordIsOldestFirst(config: GuardConfig, ops: seq<GuardOp>, now: nat)
    requires OldestFirst(ops) && (ops != [] ==> ops[|ops| - 1].at <= now)
    ensures SortedUpTo(RunGuard(config, ops).recorded, now)
  {
    if ops != [] {
      var n := |ops| - 1;
      assert n > 0 ==> ops[..n][n - 1].at <= ops[n].at;
      RecordIsOldestFirst(config, ops[..n], ops[n].at);
    }
  }

  /** No admission that still counts stands in front of an expired one. */
  ghost predicate ExpiredFirst(config: GuardConfig, history: seq<nat>, now: nat) {
    forall i, j :: 0 <= i < j < |history| && Expired(config, history[j], now) ==> Expired(config, history[i], now)
  }

  lemma KeptUnexpiredIff(config: GuardConfig, history: seq<nat>, now: nat)
    ensures var kept := Prune(config, history, now);
      ExpiredFirst(config, history, now) <==> forall i :: 0 <= i < |kept| ==> !Expired(config, kept[i], now)
  {
    PruneIsSuffix(config, history, now);
    var kept := Prune(config, history, now);
    var d := |history| - |kept|;
    if ExpiredFirst(config, history, now) {
      forall i | 0 <= i < |kept| ensures !Expired(config, kept[i], now) {
        assert kept[i] == history[d + i] && kept[0] == history[d];
      }
    }
    if forall i :: 0 <= i < |kept| ==> !Expired(config, kept[i], now) {
      forall i, j | 0 <= i < j < |history| && Expired(config, history[j], now) ensures Expired(config, history[i], now) {
        assert j < d;
      }
    }
  }

  /** Looking at the front finds exactly the admissions in the window if and only if the expired ones
      stand first in the history. */
  lemma PruneIsExactIff(config: GuardConfig, g: GuardRun, now: nat)
    requires WindowKept(config, g, now)
    ensures |Prune(config, g.history, now)| >= InWindow(config, g.recorded, now)
    ensures |Prune(config, g.history, now)| == InWindow(config, g.recorded, now) <==>
            ExpiredFirst(config, g.history, now)
  {
    PruneIsSuffix(config, g.history, now);
    var kept := Prune(config, g.history, now);
    var d := |g.recorded| - |kept|;
    assert kept == g.recorded[d..];
    forall i | 0 <= i < d ensures Expired(config, g.recorded[i], now) {
      if g.dropped <= i {
        assert g.recorded[i] == g.history[i - g.dropped];
      }
    }
    InWindowBounds(config, g.recorded, d, now);
    KeptUnexpiredIff(config, g.history, now);
    assert forall i :: 0 <= i < |kept| ==> kept[i] == g.recorded[d + i];
    assert forall i :: d <= i < |g.recorded| ==> g.recorded[i] == kept[i - d];
  }

  /** The guard with another limit. */
  function WithLimit(config: GuardConfig, maxCount: nat): GuardConfig {
    config.(maxCount := maxCount)
  }

  lemma {:induction false} LimitDoesNotMatter(config: GuardConfig, history: seq<nat>, now: nat, maxCount: nat)
    ensures Prune(WithLimit(config, maxCount), history, now) == Prune(config, history, now)
  {
    if history != [] && Expired(config, history[0], now) {
      LimitDoesNotMatter(config, history[1..], now, maxCount);
    }
  }

  /** After any run with ordered pushes, a push at `now` is refused exactly when the window is full,
      whatever the limit, if and only if the expired admissions stand first in the history. */
  lemma RefusesExactlyWhenFullIff(config: GuardConfig, ops: seq<GuardOp>, now: nat)
    requires PushesInOrder(ops + [Push(now)])
    ensures var g := RunGuard(config, ops);
      (forall maxCount ::
         Admits(WithLimit(config, maxCount), g.history, now) <==> InWindow(config, g.recorded, now) < maxCount) <==>
      ExpiredFirst(config, g.history, now)
  {
    var g, all := RunGuard(config, ops), ops + [Push(now)];
    assert forall i :: 0 <= i < |ops| ==> all[i] == ops[i];
    assert forall i :: 0 <= i < |ops| && ops[i].Push? ==> all[i].at <= all[|ops|].at;
    assert PushesInOrder(ops) by {
      assert forall i, j :: 0 <= i < j < |ops| && all[i].Push? && all[j].Push? ==> all[i].at <= all[j].at;
    }
    RunKeepsWindow(config, ops, now);
    PruneIsExactIff(config, g, now);
    forall maxCount ensures |Prune(WithLimit(config, maxCount), g.history, now)| == |Prune(config, g.history, now)| {
      LimitDoesNotMatter(config, g.history, now, maxCount);
    }
    var kept := |Prune(config, g.history, now)|;
    assert !Admits(WithLimit(config, kept), g.history, now);
  }

  function Replays(times: seq<nat>): (ops: seq<GuardOp>) {
    seq(|times|, i requires 0 <= i < |times| => Replay(times[i]))
  }

  lemma {:induction false} ReplayedHistory(config: GuardConfig, times: seq<nat>)
    ensures RunGuard(config, Replays(times)) == GuardRun(times, times, 0)
  {
    if times != [] {
      var n := |times| - 1;
      ReplayedHistory(config, times[..n]);
      assert Replays(times)[..n] == Replays(times[..n]);
      assert times == times[..n] + [times[n]];
    }
  }

  /** An admission replayed before an older one has left the window when pushes begin. */
  ghost predicate LateOnesAreOver(config: GuardConfig, times: seq<nat>, from: nat) {
    forall i, j :: 0 <= i < j < |times| && times[i] > times[j] ==> times[i] + config.windowSecs <= from
  }

  ghost predicate ExactFrom(config: GuardConfig, times: seq<nat>, from: nat) {
    forall now :: now >= from ==> |Prune(config, times, now)| == InWindow(config, times, now)
  }

  lemma LateOneSpoilsAnInstant(config: GuardConfig, times: seq<nat>, from: nat, i: nat, j: nat)
    requires i < j < |times| && times[i] > times[j] && times[i] + config.windowSecs > from && config.windowSecs > 0
    ensures !ExactFrom(config, times, from)
  {
    var over := times[j] + config.windowSecs;
    var now := if over >= from then over else from;
    assert Expired(config, times[j], now) && !Expired(config, times[i], now);
    PruneIsExactIff(config, GuardRun(times, times, 0), now);
  }

  /** A replay makes the guard exact at every instant from `from` on if and only if each admission it
      replays ahead of an older one has left the window by then (or the window is empty). */
  lemma ReplayIsExactIff(config: GuardConfig, times: seq<nat>, from: nat)
    ensures RunGuard(config, Replays(times)) == GuardRun(times, times, 0)
    ensures ExactFrom(config, times, from) <==> config.windowSecs == 0 || LateOnesAreOver(config, times, from)
  {
    ReplayedHistory(config, times);
    if config.windowSecs == 0 || LateOnesAreOver(config, times, from) {
      forall now | now >= from ensures |Prune(config, times, now)| == InWindow(config, times, now) {
        PruneIsExactIff(config, GuardRun(times, times, 0), now);
      }
    } else {
      var i, j :| 0 <= i < j < |times| && times[i] > times[j] && times[i] + config.windowSecs > from;
      LateOneSpoilsAnInstant(config, times, from, i, j);
    }
  }

  /** For a clock that may show any time: if and only if the replayed times never decrease. */
  lemma ReplayIsAlwaysExactIffSorted(config: GuardConfig, times: seq<nat>)
    requires config.windowSecs > 0
    ensures ExactFrom(config, times, 0) <==> forall i, j :: 0 <= i < j < |times| ==> times[i] <= times[j]
  {
    ReplayIsExactIff(config, times, 0);
  }

  /** On a sorted record, pruning the front keeps exactly the admissions in the window. */
  lemma PruneKeepsExactlyTheWindow(config: GuardConfig, g: GuardRun, now: nat)
    requires WindowKept(config, g, now) && SortedUpTo(g.recorded, now)
    ensures |Prune(config, g.history, now)| == InWindow(config, g.recorded, now)
  {
    PruneIsExactIff(config, g, now);
    assert forall i :: 0 <= i < |g.history| ==> g.history[i] == g.recorded[g.dropped + i];
  }

  /** Exactness: when the replay is oldest first, a push is rejected exactly when the window already
      holds `maxCount` admissions or more. */
  lemma OldestFirstRejectsExactlyWhenFull(config: GuardConfig, ops: seq<GuardOp>, now: nat)
    requires OldestFirst(ops + [Push(now)])
    ensures var g := RunGuard(config, ops);
      Admits(config, g.history, now) <==> InWindow(config, g.recorded, now) < config.maxCount
  {
    var all := ops + [Push(now)];
    assert forall i :: 0 <= i < |ops| ==> all[i] == ops[i] && all[i].at <= all[|ops|].at;
    assert OldestFirst(ops) by {
      assert forall i, j :: 0 <= i < j < |ops| ==> all[i].at <= all[j].at;
    }
    RunKeepsWindow(config, ops, now);
    RecordIsOldestFirst(config, ops, now);
    PruneKeepsExactlyTheWindow(config, RunGuard(config, ops), now);
  }

  // ---- Replaying through `push_at`, which checks again ----

  function Pushes(times: seq<nat>): seq<GuardOp> {
    seq(|times|, i requires 0 <= i < |times| => Push(times[i]))
  }

  /** Each admission finds room among those before it. */
  ghost predicate AllFit(config: GuardConfig, times: seq<nat>) {
    forall k :: 0 <= k < |times| ==> InWindow(config, times[..k], times[k]) < config.maxCount
  }

  lemma AllFitAppend(config: GuardConfig, times: seq<nat>, at: nat)
    ensures AllFit(config, times + [at]) <==> AllFit(config, times) && InWindow(config, times, at) < config.maxCount
  {
    var all := times + [at];
    assert all[..|times|] == times && all[|times|] == at;
    forall k | 0 <= k < |times| ensures all[..k] == times[..k] && all[k] == times[k] {
    }
  }

  lemma PushesAppend(times: seq<nat>, at: nat)
    ensures Pushes(times + [at]) == Pushes(times) + [Push(at)]
  {
  }

  lemma OneMorePush(config: GuardConfig, times: seq<nat>, at: nat)
    requires SortedUpTo(times, at)
    requires var g := RunGuard(config, Pushes(times));
      |g.recorded| <= |times| && (g.recorded == times <==> AllFit(config, times))
    ensures var g := RunGuard(config, Pushes(times + [at]));
      |g.recorded| <= |times + [at]| && (g.recorded == times + [at] <==> AllFit(config, times + [at]))
  {
    var ops := Pushes(times);
    PushesAppend(times, at);
    AllFitAppend(config, times, at);
    assert (ops + [Push(at)])[..|ops|] == ops;
    OldestFirstRejectsExactlyWhenFull(config, ops, at);
    var g := RunGuard(config, ops);
    assert g.recorded + [at] == times + [at] ==> g.recorded == (times + [at])[..|times|] == times;
  }

  /** Restored oldest first through `push_at`, all admissions survive if and only if each finds room in
      the window among those restored before it. */
  lemma {:induction false} PushReplayKeepsAllIff(config: GuardConfig, times: seq<nat>)
    requires forall i, j :: 0 <= i <= j < |times| ==> times[i] <= times[j]
    ensures var g := RunGuard(config, Pushes(times));
      |g.recorded| <= |times| && (g.recorded == times <==> AllFit(config, times))
  {
    if times != [] {
      var before, at := times[..|times| - 1], times[|times| - 1];
      assert times == before + [at];
      PushReplayKeepsAllIff(config, before);
      OneMorePush(config, before, at);
    } else {
      assert Pushes(times) == [];
    }
  }

  /** With a replay in another order the guard can reject too much: a fresh admission in front keeps
      an expired one behind it from being pruned. */
  lemma UnorderedReplayRejectsTooMuch()
    ensures var config := GuardConfig(2, 60); var g := RunGuard(config, [Replay(100), Replay(10)]);
      InWindow(config, g.recorded, 100) == 1 && !Admits(config, g.history, 100)
  {
    var config := GuardConfig(2, 60);
    var one, two := [Replay(100)], [Replay(100), Replay(10)];
    assert one[..0] == [] && two[..1] == one;
    assert RunGuard(config, []) == FRESH && [] + [100] == [100] && [100] + [10] == [100, 10];
    assert RunGuard(config, one) == GuardStep(config, FRESH, Replay(100)) == GuardRun([100], [100], 0);
    var g := RunGuard(config, two);
    assert g == GuardStep(config, RunGuard(config, one), Replay(10)) == GuardRun([100, 10], [100, 10], 0);
    assert g.recorded[..1] == [100] && [100][..0] == [];
    assert InWindow(config, [], 100) == 0 && InWindow(config, [100], 100) == 1;
  }
}

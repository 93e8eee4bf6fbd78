/** In-flight backpressure per relay session, src/queue/dispatch.rs. */
module DispatchWindow {
  import opened Wrappers
  import opened Settlement

  datatype WindowError =
    | InvalidDispatchWindow
    | BackpressureWindowFull(maxInFlight: nat)
    | DuplicateInFlight

  type InFlight = map<Id, nat>

  /** `now.saturating_sub(dispatched_at) < timeout`. */
  predicate Held(dispatchedAt: nat, now: nat, timeout: nat) {
    (if now >= dispatchedAt then now - dispatchedAt else 0) < timeout
  }

  function Sweep(inFlight: InFlight, now: nat, timeout: nat): InFlight {
    map id | id in inFlight && Held(inFlight[id], now, timeout) :: inFlight[id]
  }

  function TryAcquire(inFlight: InFlight, max: nat, timeout: nat, id: Id, now: nat): (InFlight, Result<(), WindowError>) {
    var swept := Sweep(inFlight, now, timeout);
    if id in swept then (swept, Err(DuplicateInFlight))
    else if |swept| >= max then (swept, Err(BackpressureWindowFull(max)))
    else (swept[id := now], Ok(()))
  }

  class DispatchWindow {
    const maxInFlight: nat
    const timeoutSecs: nat
    var inFlight: InFlight

    /** Capacity and timeout are non-zero, and the capacity is never exceeded. */
    ghost predicate Valid()
      reads this
    {
      maxInFlight > 0 && timeoutSecs > 0 && |inFlight| <= maxInFlight
    }

    constructor (maxInFlight: nat, timeoutSecs: nat)
      requires maxInFlight > 0 && timeoutSecs > 0
      ensures Valid() && inFlight == map[] && this.maxInFlight == maxInFlight && this.timeoutSecs == timeoutSecs
    {
      this.maxInFlight, this.timeoutSecs, inFlight := maxInFlight, timeoutSecs, map[];
    }

    /** `DispatchWindow::new`, which validates its configuration. */
    static method Create(maxInFlight: nat, timeoutSecs: nat) returns (r: Result<DispatchWindow, WindowError>)
      ensures r.Ok? <==> maxInFlight > 0 && timeoutSecs > 0
      ensures r.Ok? ==> fresh(r.value) && r.value.Valid() && r.value.inFlight == map[] &&
                        r.value.maxInFlight == maxInFlight && r.value.timeoutSecs == timeoutSecs
    {
      if maxInFlight == 0 || timeoutSecs == 0 {
        return Err(InvalidDispatchWindow);
      }
      var window := new DispatchWindow(maxInFlight, timeoutSecs);
      return Ok(window);
    }

    method SweepExpired(now: nat)
      requires Valid()
      modifies this
      ensures Valid() && inFlight == Sweep(old(inFlight), now, timeoutSecs)
      ensures inFlight ==
        map id | id in old(inFlight) && now < old(inFlight)[id] + timeoutSecs :: old(inFlight)[id]
    {
      SweepShrinks(inFlight, now, timeoutSecs);
      inFlight := map id | id in inFlight && Held(inFlight[id], now, timeoutSecs) :: inFlight[id];
    }

    method Acquire(id: Id, now: nat) returns (r: Result<(), WindowError>)
      requires Valid()
      modifies this
      ensures Valid() && (inFlight, r) == TryAcquire(old(inFlight), maxInFlight, timeoutSecs, id, now)
      ensures var kept := map x | x in old(inFlight) && now < old(inFlight)[x] + timeoutSecs :: old(inFlight)[x];
        (r.Ok? <==> id !in kept && |kept| < maxInFlight) &&
        (id in kept ==> r == Err(DuplicateInFlight)) &&
        (id !in kept && |kept| >= maxInFlight ==> r == Err(BackpressureWindowFull(maxInFlight))) &&
        inFlight == if r.Ok? then kept[id := now] else kept
    {
      SweepExpired(now);
      if id in inFlight {
        return Err(DuplicateInFlight);
      }
      if |inFlight| >= maxInFlight {
        return Err(BackpressureWindowFull(maxInFlight));
      }
      inFlight := inFlight[id := now];
      return Ok(());
    }

    /** `acknowledge` and `abandon`. */
    method Acknowledge(id: Id) returns (freed: bool)
      requires Valid()
      modifies this
      ensures Valid() && inFlight == old(inFlight) - {id} && (freed <==> id in old(inFlight))
    {
      freed := id in inFlight;
      MapRemoveShrinks(inFlight, id);
      inFlight := inFlight - {id};
    }

    method ReleaseExpired(now: nat) returns (released: nat)
      requires Valid()
      modifies this
      ensures Valid() && inFlight == Sweep(old(inFlight), now, timeoutSecs)
      ensures inFlight ==
        map id | id in old(inFlight) && now < old(inFlight)[id] + timeoutSecs :: old(inFlight)[id]
      ensures released == |old(inFlight)| - |inFlight|
    {
      var before := |inFlight|;
      SweepShrinks(inFlight, now, timeoutSecs);
      SweepExpired(now);
      released := before - |inFlight|;
    }
  }

  lemma SweepShrinks(inFlight: InFlight, now: nat, timeout: nat)
    ensures |Sweep(inFlight, now, timeout)| <= |inFlight|
  {
    var swept := Sweep(inFlight, now, timeout);
    SubsetIsSmaller(swept.Keys, inFlight.Keys);
    assert |swept| == |swept.Keys| && |inFlight| == |inFlight.Keys|;
  }

  lemma MapRemoveShrinks(inFlight: InFlight, id: Id)
    ensures |inFlight - {id}| <= |inFlight|
  {
    var rest := inFlight - {id};
    SubsetIsSmaller(rest.Keys, inFlight.Keys);
    assert |rest| == |rest.Keys| && |inFlight| == |inFlight.Keys|;
  }

  // ---- Runs ----

  datatype Call = AcquireAt(id: Id, now: nat) | Free(id: Id) | SweepAt(now: nat)

  /** The window's map with what a stretch of calls has done: slots acquired, slots freed by an
      acknowledgment or an abandon, and the ids acquired in the stretch and not yet freed. */
  datatype Stretch = Stretch(inFlight: InFlight, acquired: nat, freed: nat, recent: set<Id>)

  function StretchStep(s: Stretch, max: nat, timeout: nat, call: Call): Stretch {
    match call
    case AcquireAt(id, now) =>
      var (after, r) := TryAcquire(s.inFlight, max, timeout, id, now);
      if r.Ok? then s.(inFlight := after, acquired := s.acquired + 1, recent := s.recent + {id})
      else s.(inFlight := after)
    case Free(id) =>
      if id in s.inFlight then
        s.(inFlight := s.inFlight - {id}, freed := s.freed + 1, recent := s.recent - {id})
      else s
    case SweepAt(now) => s.(inFlight := Sweep(s.inFlight, now, timeout))
  }

  function RunStretch(inFlight: InFlight, max: nat, timeout: nat, calls: seq<Call>): Stretch {
    if calls == [] then Stretch(inFlight, 0, 0, {}) else
      var n := |calls| - 1;
      StretchStep(RunStretch(inFlight, max, timeout, calls[..n]), max, timeout, calls[n])
  }

  /** All times of the stretch lie in an interval shorter than the timeout. */
  predicate ShorterThan(calls: seq<Call>, from: nat, timeout: nat) {
    forall i :: 0 <= i < |calls| && !calls[i].Free? ==> from <= calls[i].now < from + timeout
  }

  /** Whatever the clock does, the capacity is never exceeded. */
  lemma {:induction false} CapacityIsNeverExceeded(inFlight: InFlight, max: nat, timeout: nat, calls: seq<Call>)
    requires |inFlight| <= max
    ensures |RunStretch(inFlight, max, timeout, calls).inFlight| <= max
  {
    if calls != [] {
      var n := |calls| - 1;
      CapacityIsNeverExceeded(inFlight, max, timeout, calls[..n]);
      var s := RunStretch(inFlight, max, timeout, calls[..n]);
      match calls[n]
      case AcquireAt(_, now) => SweepShrinks(s.inFlight, now, timeout);
      case SweepAt(now) => SweepShrinks(s.inFlight, now, timeout);
      case Free(id) => MapRemoveShrinks(s.inFlight, id);
    }
  }

  /** Nothing acquired within the stretch can have expired in it. */
  ghost predicate RecentIsHeld(s: Stretch, from: nat) {
    s.recent <= s.inFlight.Keys && (forall id :: id in s.recent ==> from <= s.inFlight[id]) &&
    s.acquired <= |s.recent| + s.freed
  }

  lemma {:induction false} StretchKeepsRecent(
    inFlight: InFlight, max: nat, timeout: nat, calls: seq<Call>, from: nat)
    requires ShorterThan(calls, from, timeout)
    ensures RecentIsHeld(RunStretch(inFlight, max, timeout, calls), from)
  {
    if calls != [] {
      var n := |calls| - 1;
      assert forall i :: 0 <= i < n ==> calls[..n][i] == calls[i];
      StretchKeepsRecent(inFlight, max, timeout, calls[..n], from);
      StepKeepsRecent(RunStretch(inFlight, max, timeout, calls[..n]), max, timeout, calls[n], from);
    }
  }

  lemma SweepKeepsRecent(s: Stretch, timeout: nat, now: nat, from: nat)
    requires RecentIsHeld(s, from) && from <= now < from + timeout
    ensures RecentIsHeld(s.(inFlight := Sweep(s.inFlight, now, timeout)), from)
  {
    var swept := Sweep(s.inFlight, now, timeout);
    forall id | id in s.recent ensures id in swept && swept[id] == s.inFlight[id] {
      assert Held(s.inFlight[id], now, timeout);
    }
  }

  /** A slot won is a recent one, and the id was not held before. */
  lemma WonKeepsRecent(s: Stretch, id: Id, now: nat, from: nat)
    requires RecentIsHeld(s, from) && id !in s.inFlight && from <= now
    ensures RecentIsHeld(
              s.(inFlight := s.inFlight[id := now], acquired := s.acquired + 1, recent := s.recent + {id}), from)
  {
    assert |s.recent + {id}| == |s.recent| + 1;
  }

  lemma FreeKeepsRecent(s: Stretch, id: Id, from: nat)
    requires RecentIsHeld(s, from) && id in s.inFlight
    ensures RecentIsHeld(
              s.(inFlight := s.inFlight - {id}, freed := s.freed + 1, recent := s.recent - {id}), from)
  {
    assert |s.recent - {id}| >= |s.recent| - 1;
  }

  lemma StepKeepsRecent(s: Stretch, max: nat, timeout: nat, call: Call, from: nat)
    requires RecentIsHeld(s, from) && (!call.Free? ==> from <= call.now < from + timeout)
    ensures RecentIsHeld(StretchStep(s, max, timeout, call), from)
  {
    match call
    case AcquireAt(id, now) =>
      SweepKeepsRecent(s, timeout, now, from);
      var swept := s.(inFlight := Sweep(s.inFlight, now, timeout));
      if id !in swept.inFlight { WonKeepsRecent(swept, id, now, from); }
    case SweepAt(now) => SweepKeepsRecent(s, timeout, now, from);
    case Free(id) => if id in s.inFlight { FreeKeepsRecent(s, id, from); }
  }

  /** Rate bound: in any interval shorter than the timeout, the successful acquires number at most
      the capacity plus the slots freed in it. */
  lemma AcquiresAreBounded(inFlight: InFlight, max: nat, timeout: nat, calls: seq<Call>, from: nat)
    requires |inFlight| <= max && ShorterThan(calls, from, timeout)
    ensures var s := RunStretch(inFlight, max, timeout, calls); s.acquired <= max + s.freed
  {
    var s := RunStretch(inFlight, max, timeout, calls);
    StretchKeepsRecent(inFlight, max, timeout, calls, from);
    CapacityIsNeverExceeded(inFlight, max, timeout, calls);
    SubsetIsSmaller(s.recent, s.inFlight.Keys);
    assert |s.inFlight| == |s.inFlight.Keys|;
  }
}

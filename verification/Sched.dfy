/** The round-robin scheduler: the queue logic as functions on values, what it keeps in every
    run, and the scheduler object proved to follow the functions. */
module Sched {
  import opened Wrappers

  const MAX_TASKS: nat := 24

  type TaskId = nat

  datatype TaskState = Ready | Sleeping(target: nat) | Dead

  /** Task states, ready queue (front first, duplicates allowed), sleepers with their wake-up
      ticks, running task. */
  datatype State = State(tasks: seq<TaskState>, ready: seq<TaskId>, sleepers: seq<(TaskId, nat)>, current: TaskId)

  // ---- operations ----

  const INITIAL: State := State([Ready], [0], [], 0)

  function Spawn(s: State): State {
    if |s.tasks| >= MAX_TASKS then s
    else s.(tasks := s.tasks + [Ready], ready := s.ready + [|s.tasks|])
  }

  function SleepUntil(s: State, target: nat): State
    requires s.current < |s.tasks|
  {
    s.(tasks := s.tasks[s.current := Sleeping(target)], sleepers := s.sleepers + [(s.current, target)])
  }

  /** Vec::swap_remove: the last entry takes the place of the removed one. */
  function SwapRemove<T>(v: seq<T>, i: nat): (r: seq<T>)
    requires i < |v|
    ensures |r| == |v| - 1
    ensures multiset(r) == multiset(v) - multiset{v[i]}
  {
    assert v == v[..|v| - 1] + [v[|v| - 1]];
    if i == |v| - 1 then v[..i]
    else
      assert v[..|v| - 1] == v[..i] + [v[i]] + v[i + 1..|v| - 1];
      assert v[..|v| - 1][i := v[|v| - 1]] == v[..i] + [v[|v| - 1]] + v[i + 1..|v| - 1];
      v[..|v| - 1][i := v[|v| - 1]]
  }

  /** The sleeper at index `i` leaves the list; its task becomes ready if it still sleeps for
      this very tick. */
  function WakeOne(s: State, i: nat): (r: State)
    requires i < |s.sleepers| && s.sleepers[i].0 < |s.tasks|
  {
    var (id, target) := s.sleepers[i];
    var s1 := s.(sleepers := SwapRemove(s.sleepers, i));
    if s.tasks[id] == Sleeping(target) then s1.(tasks := s.tasks[id := Ready], ready := s.ready + [id]) else s1
  }

  predicate WellFormed(s: State) {
    && s.current < |s.tasks|
    && (forall i :: 0 <= i < |s.ready| ==> s.ready[i] < |s.tasks|)
    && (forall e :: e in s.sleepers ==> e.0 < |s.tasks|)
  }

  /** The wake-up loop from index `i` on. */
  function WakeFrom(s: State, i: nat, now: nat): (r: State)
    requires WellFormed(s) && i <= |s.sleepers|
    ensures WellFormed(r)
    decreases |s.sleepers| - i
  {
    if i == |s.sleepers| then s
    else if s.sleepers[i].1 <= now then
      WakeOneWellFormed(s, i);
      WakeFrom(WakeOne(s, i), i, now)
    else WakeFrom(s, i + 1, now)
  }

  lemma WakeOneWellFormed(s: State, i: nat)
    requires WellFormed(s) && i < |s.sleepers|
    ensures WellFormed(WakeOne(s, i)) && |WakeOne(s, i).sleepers| == |s.sleepers| - 1
  {
    forall e | e in SwapRemove(s.sleepers, i)
      ensures e in s.sleepers
    {
      assert e in multiset(SwapRemove(s.sleepers, i));
      assert e in multiset(s.sleepers);
    }
  }

  /** A queued task that can take over from `cur`. */
  predicate Eligible(tasks: seq<TaskState>, cur: TaskId, id: TaskId) {
    id < |tasks| && id != cur && tasks[id] == Ready
  }

  /** How many entries are popped until an eligible one comes out; all of them if none does. */
  function PopCount(tasks: seq<TaskState>, cur: TaskId, ready: seq<TaskId>): (n: nat)
    ensures n <= |ready|
    decreases |ready|
  {
    if ready == [] then 0
    else if Eligible(tasks, cur, ready[0]) then 1
    else 1 + PopCount(tasks, cur, ready[1..])
  }

  predicate AnyEligible(tasks: seq<TaskState>, cur: TaskId, ready: seq<TaskId>) {
    exists i :: 0 <= i < |ready| && Eligible(tasks, cur, ready[i])
  }

  /** Pop until an eligible task comes out and make it the running one. */
  function Dispatch(s: State): State {
    var n := PopCount(s.tasks, s.current, s.ready);
    s.(ready := s.ready[n..],
       current := if AnyEligible(s.tasks, s.current, s.ready) then s.ready[n - 1] else s.current)
  }

  /** The timer tick. */
  function Schedule(s: State, now: nat): (r: State)
    requires WellFormed(s)
  {
    var w := WakeFrom(s, 0, now);
    Dispatch(if w.tasks[w.current] == Ready then w.(ready := w.ready + [w.current]) else w)
  }

  function Terminate(s: State): State
    requires s.current < |s.tasks|
  {
    Dispatch(s.(tasks := s.tasks[s.current := Dead]))
  }

  // ---- the invariant ----

  /** Nothing is forgotten: a ready task that is not running is queued, a sleeping task is
      listed with the tick it sleeps for. */
  ghost predicate Inv(s: State) {
    && WellFormed(s)
    && (forall id :: 0 <= id < |s.tasks| && s.tasks[id] == Ready && id != s.current ==> id in s.ready)
    && (forall id :: 0 <= id < |s.tasks| && s.tasks[id].Sleeping? ==> (id, s.tasks[id].target) in s.sleepers)
  }

  lemma InitialInv()
    ensures Inv(INITIAL)
  {
  }

  lemma SpawnKeeps(s: State)
    requires Inv(s)
    ensures Inv(Spawn(s))
  {
  }

  lemma SleepKeeps(s: State, target: nat)
    requires Inv(s)
    ensures Inv(SleepUntil(s, target))
  {
    var r := SleepUntil(s, target);
    assert r.sleepers[|s.sleepers|] == (s.current, target);
    forall id | 0 <= id < |r.tasks| && r.tasks[id].Sleeping?
      ensures (id, r.tasks[id].target) in r.sleepers
    {
      if id != s.current {
        assert (id, s.tasks[id].target) in s.sleepers;
      }
    }
  }

  lemma WakeOneKeeps(s: State, i: nat)
    requires Inv(s) && i < |s.sleepers|
    ensures Inv(WakeOne(s, i))
  {
    WakeOneWellFormed(s, i);
    var r := WakeOne(s, i);
    var id := s.sleepers[i].0;
    forall k | 0 <= k < |r.tasks| && r.tasks[k].Sleeping?
      ensures (k, r.tasks[k].target) in r.sleepers
    {
      var e := (k, s.tasks[k].target);
      assert e in s.sleepers && e in multiset(s.sleepers);
      assert e != s.sleepers[i];
      assert e in multiset(r.sleepers);
    }
    forall k | 0 <= k < |r.tasks| && r.tasks[k] == Ready && k != r.current
      ensures k in r.ready
    {
      if k != id || s.tasks[k] == Ready {
        assert k in s.ready;
      } else {
        assert r.ready[|s.ready|] == k;
      }
    }
  }

  /** What the wake-up loop does, for every task and every list entry: exactly the tasks whose
      tick has come wake, no one else changes, and exactly the entries still to come stay. */
  lemma {:induction false} WakeExactly(s: State, i: nat, now: nat)
    requires Inv(s) && i <= |s.sleepers|
    requires forall k :: 0 <= k < i ==> s.sleepers[k].1 > now
    ensures var r := WakeFrom(s, i, now);
      && Inv(r) && |r.tasks| == |s.tasks| && r.current == s.current
      && (forall id :: 0 <= id < |s.tasks| ==>
            r.tasks[id] == if s.tasks[id].Sleeping? && s.tasks[id].target <= now then Ready else s.tasks[id])
      && (forall e :: e in r.sleepers <==> e in s.sleepers && e.1 > now)
      && s.ready <= r.ready
    decreases |s.sleepers| - i
  {
    if i == |s.sleepers| {
      forall id | 0 <= id < |s.tasks| && s.tasks[id].Sleeping?
        ensures s.tasks[id].target > now
      {
        assert (id, s.tasks[id].target) in s.sleepers;
      }
    } else if s.sleepers[i].1 <= now {
      WakeOneKeeps(s, i);
      WakeOneWellFormed(s, i);
      var w := WakeOne(s, i);
      SwapRemoveEntries(s.sleepers, i, now);
      WakeExactly(w, i, now);
    } else {
      WakeExactly(s, i + 1, now);
    }
  }

  lemma SwapRemoveEntries(v: seq<(TaskId, nat)>, i: nat, now: nat)
    requires i < |v| && v[i].1 <= now
    ensures forall k :: 0 <= k < i ==> SwapRemove(v, i)[k] == v[k]
    ensures forall e: (TaskId, nat) :: e.1 > now ==> (e in SwapRemove(v, i) <==> e in v)
  {
    var r := SwapRemove(v, i);
    forall e: (TaskId, nat) | e.1 > now
      ensures e in r <==> e in v
    {
      assert e in r <==> e in multiset(r);
      assert e in v <==> e in multiset(v);
    }
  }

  // ---- dispatching ----

  lemma {:induction false} PopCountMeaning(tasks: seq<TaskState>, cur: TaskId, ready: seq<TaskId>)
    ensures var n := PopCount(tasks, cur, ready);
      && (forall i :: 0 <= i < n - 1 ==> !Eligible(tasks, cur, ready[i]))
      && (AnyEligible(tasks, cur, ready) ==> 0 < n && Eligible(tasks, cur, ready[n - 1]))
      && (!AnyEligible(tasks, cur, ready) ==> n == |ready|)
      && (ready != [] ==> 0 < n)
    decreases |ready|
  {
    if ready != [] {
      PopCountMeaning(tasks, cur, ready[1..]);
      if Eligible(tasks, cur, ready[0]) {
        assert AnyEligible(tasks, cur, ready);
      } else if AnyEligible(tasks, cur, ready) {
        var i :| 0 <= i < |ready| && Eligible(tasks, cur, ready[i]);
        assert ready[1..][i - 1] == ready[i];
      }
      forall i | 0 <= i < PopCount(tasks, cur, ready) - 1
        ensures !Eligible(tasks, cur, ready[i])
      {
        if i > 0 {
          assert ready[i] == ready[1..][i - 1];
        }
      }
    }
  }

  /** Dispatching drops only entries nobody waits behind: if the running task, when ready, has
      been queued again, nothing ready is lost. The task switches if and only if another task is
      ready, and then to a ready one. */
  lemma DispatchKeeps(s: State)
    requires WellFormed(s)
    requires forall id :: 0 <= id < |s.tasks| && s.tasks[id] == Ready ==> id in s.ready || id == s.current
    requires s.tasks[s.current] == Ready ==> s.ready != [] && s.ready[|s.ready| - 1] == s.current
    requires forall id :: 0 <= id < |s.tasks| && s.tasks[id].Sleeping? ==> (id, s.tasks[id].target) in s.sleepers
    ensures Inv(Dispatch(s))
    ensures Dispatch(s).current != s.current <==>
            exists id :: 0 <= id < |s.tasks| && id != s.current && s.tasks[id] == Ready
    ensures Dispatch(s).current != s.current ==> s.tasks[Dispatch(s).current] == Ready
  {
    PopCountMeaning(s.tasks, s.current, s.ready);
    var n := PopCount(s.tasks, s.current, s.ready);
    var r := Dispatch(s);
    forall id | 0 <= id < |s.tasks| && id != s.current && s.tasks[id] == Ready
      ensures AnyEligible(s.tasks, s.current, s.ready)
    {
      var k :| 0 <= k < |s.ready| && s.ready[k] == id;
      assert Eligible(s.tasks, s.current, s.ready[k]);
    }
    forall id | 0 <= id < |r.tasks| && r.tasks[id] == Ready && id != r.current
      ensures id in r.ready
    {
      var k := if id == s.current then |s.ready| - 1 else QueuedAt(s.ready, id);
      assert s.ready[k] == id;
      assert r.ready[k - n] == id;
    }
  }

  ghost function QueuedAt(ready: seq<TaskId>, id: TaskId): (k: nat)
    requires id in ready
    ensures k < |ready| && ready[k] == id
  {
    var k :| 0 <= k < |ready| && ready[k] == id;
    k
  }

  /** The queue a tick dispatches from. */
  function Queued(s: State, now: nat): (w: State)
    requires WellFormed(s)
    ensures WellFormed(w)
  {
    var w := WakeFrom(s, 0, now);
    if w.tasks[w.current] == Ready then w.(ready := w.ready + [w.current]) else w
  }

  lemma ScheduleIsDispatch(s: State, now: nat)
    requires Inv(s)
    ensures Schedule(s, now) == Dispatch(Queued(s, now))
    ensures s.ready <= Queued(s, now).ready && Queued(s, now).current == s.current
    ensures Inv(Schedule(s, now))
    ensures Schedule(s, now).tasks == Queued(s, now).tasks
  {
    WakeExactly(s, 0, now);
    var w := WakeFrom(s, 0, now);
    var q := Queued(s, now);
    assert w.ready <= q.ready;
    DispatchKeeps(q);
  }

  /** Sleepers wake neither early nor late: after a tick a task is ready instead of asleep
      exactly when its target has come, and every other task is as before. */
  lemma ScheduleWakesExactly(s: State, now: nat)
    requires Inv(s)
    ensures var r := Schedule(s, now);
      && |r.tasks| == |s.tasks|
      && (forall id :: 0 <= id < |s.tasks| ==>
            r.tasks[id] == if s.tasks[id].Sleeping? && s.tasks[id].target <= now then Ready else s.tasks[id])
      && (forall id :: 0 <= id < |r.tasks| && r.tasks[id].Sleeping? ==> r.tasks[id].target > now)
      && (forall e :: e in r.sleepers ==> e.1 > now)
  {
    WakeExactly(s, 0, now);
    ScheduleIsDispatch(s, now);
  }

  /** A tick switches tasks if and only if, after the wake-ups, some other task is ready. */
  lemma ScheduleSwitchesIff(s: State, now: nat)
    requires Inv(s)
    ensures var r := Schedule(s, now);
      && (r.current != s.current <==> exists id :: 0 <= id < |r.tasks| && id != s.current && r.tasks[id] == Ready)
      && (r.current != s.current ==> r.tasks[r.current] == Ready)
  {
    WakeExactly(s, 0, now);
    ScheduleIsDispatch(s, now);
    DispatchKeeps(Queued(s, now));
  }

  /** Terminating leaves the task dead and finds one to run if and only if some other task is ready. */
  lemma TerminateKeeps(s: State)
    requires Inv(s)
    ensures Inv(Terminate(s)) && |Terminate(s).tasks| == |s.tasks| && Terminate(s).tasks[s.current] == Dead
    ensures forall id :: 0 <= id < |s.tasks| && id != s.current ==> Terminate(s).tasks[id] == s.tasks[id]
    ensures Terminate(s).current != s.current <==>
            exists id :: 0 <= id < |s.tasks| && id != s.current && s.tasks[id] == Ready
    ensures Terminate(s).current != s.current ==> Terminate(s).tasks[Terminate(s).current] == Ready
  {
    DispatchKeeps(s.(tasks := s.tasks[s.current := Dead]));
  }

  /** The task that exits is dead; nobody else's state changes, and nobody is queued or listed. */
  lemma TerminateKills(s: State)
    requires s.current < |s.tasks|
    ensures var r := Terminate(s);
      && |r.tasks| == |s.tasks| && r.tasks[s.current] == Dead
      && (forall id :: 0 <= id < |s.tasks| && id != s.current ==> r.tasks[id] == s.tasks[id])
      && r.sleepers == s.sleepers && multiset(r.ready) <= multiset(s.ready)
  {
    var n := PopCount(s.tasks[s.current := Dead], s.current, s.ready);
    assert s.ready == s.ready[..n] + s.ready[n..];
  }

  /** A new task is ready, not running, and waits behind everyone queued before it. */
  lemma SpawnAdds(s: State)
    requires Inv(s) && |s.tasks| < MAX_TASKS
    ensures var r, id := Spawn(s), |s.tasks|;
      && |r.tasks| == id + 1 && r.tasks[id] == Ready && r.current == s.current && r.sleepers == s.sleepers
      && (forall k :: 0 <= k < id ==> r.tasks[k] == s.tasks[k])
      && |r.ready| == |s.ready| + 1 && r.ready[|s.ready|] == id && forall k :: 0 <= k < |s.ready| ==> r.ready[k] != id
    ensures WaitsAt(Spawn(s), |s.tasks|, |s.ready|)
  {
    assert Spawn(s).ready[|s.ready|] == |s.tasks|;
  }

  // ---- runs ----

  datatype Event = Tick(now: nat) | SpawnTask | Sleep(target: nat) | Exit

  function Step(s: State, e: Event): (r: State)
    requires WellFormed(s)
  {
    match e
    case Tick(now) => Schedule(s, now)
    case SpawnTask => Spawn(s)
    case Sleep(target) => SleepUntil(s, target)
    case Exit => Terminate(s)
  }

  lemma StepKeeps(s: State, e: Event)
    requires Inv(s)
    ensures Inv(Step(s, e))
  {
    match e {
      case Tick(now) => ScheduleIsDispatch(s, now);
      case SpawnTask => SpawnKeeps(s);
      case Sleep(target) => SleepKeeps(s, target);
      case Exit => TerminateKeeps(s);
    }
  }

  ghost function Run(s: State, es: seq<Event>): (r: State)
    requires Inv(s)
    ensures Inv(r)
    decreases |es|
  {
    if es == [] then s
    else
      StepKeeps(s, es[0]);
      Run(Step(s, es[0]), es[1..])
  }

  /** No run from boot ever loses a ready or sleeping task. */
  lemma ReachableInv(es: seq<Event>)
    ensures Inv(INITIAL) && Inv(Run(INITIAL, es))
  {
    InitialInv();
  }

  // ---- bounded waiting ----

  /** Calls that pop the ready queue. */
  function Dispatches(es: seq<Event>): nat {
    if es == [] then 0 else (if es[0].Tick? || es[0].Exit? then 1 else 0) + Dispatches(es[1..])
  }

  /** `id` is ready, not running, and queued at index `k` or earlier. */
  ghost predicate WaitsAt(s: State, id: TaskId, k: int) {
    id < |s.tasks| && s.tasks[id] == Ready && id != s.current
    && exists i :: 0 <= i <= k && i < |s.ready| && s.ready[i] == id
  }

  lemma DispatchAdvances(s: State, id: TaskId, k: nat)
    requires WellFormed(s) && WaitsAt(s, id, k)
    ensures Dispatch(s).current == id || WaitsAt(Dispatch(s), id, k - 1)
  {
    PopCountMeaning(s.tasks, s.current, s.ready);
    var n := PopCount(s.tasks, s.current, s.ready);
    var i :| 0 <= i <= k && i < |s.ready| && s.ready[i] == id;
    assert Eligible(s.tasks, s.current, s.ready[i]);
    if Dispatch(s).current != id {
      assert n <= i;
      assert Dispatch(s).ready[i - n] == id;
    }
  }

  /** One event either runs the waiting task or keeps it waiting, one index closer to the front
      if the event pops the queue. */
  lemma StepAdvances(s: State, e: Event, id: TaskId, k: nat)
    requires Inv(s) && WaitsAt(s, id, k)
    ensures Step(s, e).current == id || WaitsAt(Step(s, e), id, if e.Tick? || e.Exit? then k - 1 else k)
  {
    var i :| 0 <= i <= k && i < |s.ready| && s.ready[i] == id;
    match e {
      case Tick(now) =>
        WakeExactly(s, 0, now);
        ScheduleIsDispatch(s, now);
        assert Queued(s, now).ready[i] == id;
        DispatchAdvances(Queued(s, now), id, k);
      case SpawnTask =>
        assert Spawn(s).ready[i] == id;
      case Sleep(target) =>
        assert SleepUntil(s, target).ready[i] == id;
      case Exit =>
        DispatchAdvances(s.(tasks := s.tasks[s.current := Dead]), id, k);
    }
  }

  /** The task runs at some point of the run. */
  ghost predicate RunsWithin(s: State, es: seq<Event>, id: TaskId)
    requires Inv(s)
    decreases |es|
  {
    s.current == id || (es != [] && (StepKeeps(s, es[0]); RunsWithin(Step(s, es[0]), es[1..], id)))
  }

  /** Waiting is bounded: a ready task queued at index `k` runs before the queue has been popped
      more than `k + 1` times, whatever else happens. */
  lemma {:induction false} BoundedWait(s: State, es: seq<Event>, id: TaskId, k: int)
    requires Inv(s) && (s.current == id || WaitsAt(s, id, k)) && Dispatches(es) > k
    ensures RunsWithin(s, es, id)
    decreases |es|
  {
    if s.current != id {
      StepKeeps(s, es[0]);
      StepAdvances(s, es[0], id, k);
      BoundedWait(Step(s, es[0]), es[1..], id, if es[0].Tick? || es[0].Exit? then k - 1 else k);
    }
  }

  /** Every ready task other than the running one is waiting at some index, so it will run. */
  lemma EveryReadyTaskRuns(s: State, es: seq<Event>, id: TaskId)
    requires Inv(s) && id < |s.tasks| && s.tasks[id] == Ready && Dispatches(es) >= |s.ready|
    ensures RunsWithin(s, es, id)
  {
    if id != s.current {
      var i := QueuedAt(s.ready, id);
      assert WaitsAt(s, id, |s.ready| - 1);
      BoundedWait(s, es, id, |s.ready| - 1);
    }
  }

  /** A spawned task runs once the queue has been popped as often as it had entries, and once more. */
  lemma SpawnedRuns(s: State, es: seq<Event>)
    requires Inv(s) && |s.tasks| < MAX_TASKS && Dispatches(es) > |s.ready|
    ensures Inv(Spawn(s)) && RunsWithin(Spawn(s), es, |s.tasks|)
  {
    SpawnKeeps(s);
    SpawnAdds(s);
    BoundedWait(Spawn(s), es, |s.tasks|, |s.ready|);
  }

  // ---- tasks that are dead or asleep ----

  /** Dispatching changes no task's state, and runs the task it ran or a ready one. */
  lemma DispatchRuns(s: State)
    requires WellFormed(s)
    ensures var r := Dispatch(s);
      r.tasks == s.tasks && (r.current == s.current || (r.current < |s.tasks| && s.tasks[r.current] == Ready))
  {
    PopCountMeaning(s.tasks, s.current, s.ready);
  }

  /** What one event leaves of the state of a task that is not running. */
  lemma OtherTask(s: State, e: Event, id: TaskId)
    requires Inv(s) && id < |s.tasks| && id != s.current
    ensures id < |Step(s, e).tasks|
    ensures Step(s, e).tasks[id] ==
            if e.Tick? && s.tasks[id].Sleeping? && s.tasks[id].target <= e.now then Ready else s.tasks[id]
    ensures s.tasks[id] == Dead ==> Step(s, e).current != id
  {
    match e {
      case Tick(now) =>
        ScheduleWakesExactly(s, now);
        ScheduleIsDispatch(s, now);
        DispatchRuns(Queued(s, now));
      case SpawnTask =>
      case Sleep(target) =>
      case Exit =>
        DispatchRuns(s.(tasks := s.tasks[s.current := Dead]));
        TerminateKills(s);
    }
  }

  /** A dead task that is not running stays dead and never runs again, whatever happens. */
  lemma {:induction false} DeadStaysDead(s: State, es: seq<Event>, id: TaskId)
    requires Inv(s) && id < |s.tasks| && s.tasks[id] == Dead && id != s.current
    ensures var r := Run(s, es); id < |r.tasks| && r.tasks[id] == Dead && r.current != id
    decreases |es|
  {
    if es != [] {
      StepKeeps(s, es[0]);
      OtherTask(s, es[0], id);
      DeadStaysDead(Step(s, es[0]), es[1..], id);
    }
  }

  /** So a task that exits is gone for good, if another one is ready to run. */
  lemma ExitIsForGood(s: State, es: seq<Event>)
    requires Inv(s) && exists id :: 0 <= id < |s.tasks| && id != s.current && s.tasks[id] == Ready
    ensures Inv(Terminate(s))
    ensures var r := Run(Terminate(s), es);
            s.current < |r.tasks| && r.tasks[s.current] == Dead && r.current != s.current
  {
    TerminateKeeps(s);
    TerminateKills(s);
    DeadStaysDead(Terminate(s), es, s.current);
  }

  /** Going to sleep: the running task sleeps for that tick, everyone else is as before. */
  lemma SleepSleeps(s: State, target: nat)
    requires Inv(s)
    ensures var r := SleepUntil(s, target);
      && r.tasks[s.current] == Sleeping(target) && r.current == s.current && r.ready == s.ready
      && |r.tasks| == |s.tasks| && forall id :: 0 <= id < |s.tasks| && id != s.current ==> r.tasks[id] == s.tasks[id]
  {
  }

  /** As long as it runs on with nothing else to run, the task neither exits nor goes to sleep anew. */
  ghost predicate Rests(s: State, es: seq<Event>, id: TaskId)
    requires Inv(s)
    decreases |es|
  {
    if es == [] then true
    else
      StepKeeps(s, es[0]);
      (s.current == id ==> !es[0].Sleep? && !es[0].Exit?) && Rests(Step(s, es[0]), es[1..], id)
  }

  /** No tick of the run has come to `target`. */
  predicate Before(es: seq<Event>, target: nat) {
    forall i :: 0 <= i < |es| && es[i].Tick? ==> es[i].now < target
  }

  /** A sleeping task sleeps through every run before its tick. */
  lemma {:induction false} SleepLasts(s: State, es: seq<Event>, id: TaskId, target: nat)
    requires Inv(s) && id < |s.tasks| && s.tasks[id] == Sleeping(target) && Rests(s, es, id) && Before(es, target)
    ensures var r := Run(s, es); id < |r.tasks| && r.tasks[id] == Sleeping(target)
    decreases |es|
  {
    if es != [] {
      StepKeeps(s, es[0]);
      assert es[0].Tick? ==> es[0].now < target;
      if id != s.current {
        OtherTask(s, es[0], id);
      } else if es[0].Tick? {
        ScheduleWakesExactly(s, es[0].now);
      }
      forall i | 0 <= i < |es[1..]| && es[1..][i].Tick?
        ensures es[1..][i].now < target
      {
        assert es[i + 1] == es[1..][i];
      }
      SleepLasts(Step(s, es[0]), es[1..], id, target);
    }
  }

  /** And it is ready again with the first tick that has come to its target, not before. */
  lemma SleepEnds(s: State, es: seq<Event>, id: TaskId, target: nat, now: nat)
    requires Inv(s) && id < |s.tasks| && s.tasks[id] == Sleeping(target) && Rests(s, es, id) && Before(es, target)
    ensures id < |Schedule(Run(s, es), now).tasks|
    ensures Schedule(Run(s, es), now).tasks[id] == if now >= target then Ready else Sleeping(target)
  {
    SleepLasts(s, es, id, target);
    ScheduleWakesExactly(Run(s, es), now);
  }

  // ---- the kernel task ----

  /** Task 0 neither sleeps nor exits. */
  ghost predicate KernelStaysReady(s: State, es: seq<Event>)
    requires Inv(s)
    decreases |es|
  {
    if es == [] then true
    else
      StepKeeps(s, es[0]);
      (s.current == 0 ==> !es[0].Sleep? && !es[0].Exit?) && KernelStaysReady(Step(s, es[0]), es[1..])
  }

  /** Then task 0 is ready in every reachable state, every exit finds a task to run, and after
      every tick the running task is a ready one. */
  lemma {:induction false} KernelAlwaysReady(s: State, es: seq<Event>)
    requires Inv(s) && s.tasks[0] == Ready && KernelStaysReady(s, es)
    ensures |Run(s, es).tasks| > 0 && Run(s, es).tasks[0] == Ready
    decreases |es|
  {
    if es != [] {
      StepKeeps(s, es[0]);
      KernelStep(s, es[0]);
      KernelAlwaysReady(Step(s, es[0]), es[1..]);
    }
  }

  lemma KernelStep(s: State, e: Event)
    requires Inv(s) && s.tasks[0] == Ready && (s.current == 0 ==> !e.Sleep? && !e.Exit?)
    ensures |Step(s, e).tasks| > 0 && Step(s, e).tasks[0] == Ready
    ensures e.Exit? ==> Step(s, e).current != s.current
    ensures e.Tick? ==> Step(s, e).tasks[Step(s, e).current] == Ready
  {
    StepKeeps(s, e);
    match e {
      case Tick(now) =>
        ScheduleWakesExactly(s, now);
        ScheduleSwitchesIff(s, now);
      case SpawnTask =>
      case Sleep(target) =>
      case Exit =>
        TerminateKeeps(s);
    }
  }

  // ---- the scheduler object ----

  class Scheduler {
    var tasks: seq<TaskState>
    var ready: seq<TaskId>
    var sleepers: seq<(TaskId, nat)>
    var current: TaskId
    /** Context switches so far. */
    var switches: nat

    function Abs(): State
      reads this
    {
      State(tasks, ready, sleepers, current)
    }

    constructor Init()
      ensures Abs() == INITIAL && switches == 0
    {
      tasks, ready, sleepers, current, switches := [Ready], [0], [], 0, 0;
    }

    method SpawnTask() returns (id: Option<TaskId>)
      modifies this
      ensures Abs() == Spawn(old(Abs()))
      ensures id == if |old(tasks)| >= MAX_TASKS then None else Some(|old(tasks)|)
    {
      if |tasks| >= MAX_TASKS {
        return None;
      }
      id := Some(|tasks|);
      ready := ready + [|tasks|];
      tasks := tasks + [Ready];
    }

    method Sleep(target: nat)
      requires current < |tasks|
      modifies this
      ensures Abs() == SleepUntil(old(Abs()), target)
    {
      tasks := tasks[current := Sleeping(target)];
      sleepers := sleepers + [(current, target)];
    }

    /** The pop loop: front entries that are stale or name the running task are dropped. */
    method PopNext() returns (next: Option<TaskId>)
      requires WellFormed(Abs())
      modifies this`ready
      ensures ready == old(ready)[PopCount(tasks, current, old(ready))..]
      ensures next.Some? <==> AnyEligible(tasks, current, old(ready))
      ensures next.Some? ==> next.value == old(ready)[PopCount(tasks, current, old(ready)) - 1]
    {
      ghost var all := ready;
      ghost var popped := 0;
      while ready != []
        invariant popped <= |all| && ready == all[popped..]
        invariant PopCount(tasks, current, all) == popped + PopCount(tasks, current, ready)
        invariant AnyEligible(tasks, current, all) <==> AnyEligible(tasks, current, ready)
        decreases |ready|
      {
        var id := ready[0];
        ghost var before := ready;
        ready := ready[1..];
        popped := popped + 1;
        if id == current || tasks[id] != Ready {
          EligibleInTail(tasks, current, before);
          continue;
        }
        assert Eligible(tasks, current, before[0]);
        return Some(id);
      }
      return None;
    }

    /** The wake-up loop. */
    method WakeSleepers(now: nat)
      requires WellFormed(Abs())
      modifies this`tasks, this`ready, this`sleepers
      ensures Abs() == WakeFrom(old(Abs()), 0, now)
    {
      var i := 0;
      while i < |sleepers|
        modifies this`tasks, this`ready, this`sleepers
        invariant i <= |sleepers| && WellFormed(Abs())
        invariant WakeFrom(Abs(), i, now) == WakeFrom(old(Abs()), 0, now)
        decreases |sleepers| - i
      {
        if sleepers[i].1 <= now {
          var (id, target) := sleepers[i];
          WakeOneWellFormed(Abs(), i);
          ghost var s := Abs();
          assert sleepers[i] in sleepers;
          sleepers := SwapRemove(sleepers, i);
          if tasks[id] == Sleeping(target) {
            tasks := tasks[id := Ready];
            ready := ready + [id];
          }
          assert Abs() == WakeOne(s, i);
        } else {
          i := i + 1;
        }
      }
    }

    method Tick(now: nat)
      requires WellFormed(Abs())
      modifies this
      ensures Abs() == Schedule(old(Abs()), now)
      ensures switches == old(switches) + if current != old(current) then 1 else 0
    {
      hide WakeFrom, PopCount, AnyEligible, Eligible;
      WakeSleepers(now);
      var cur := current;
      if tasks[cur] == Ready {
        ready := ready + [cur];
      }
      PopCountMeaning(tasks, cur, ready);
      var next := PopNext();
      if next.Some? {
        current := next.value;
        switches := switches + 1;
      }
    }

    /** Returns false when no task is left to run; the kernel then halts. */
    method Exit() returns (found: bool)
      requires WellFormed(Abs())
      modifies this
      ensures Abs() == Terminate(old(Abs())) && tasks == old(tasks)[old(current) := Dead]
      ensures found <==> current != old(current)
      ensures switches == old(switches) + if found then 1 else 0
    {
      tasks := tasks[current := Dead];
      PopCountMeaning(tasks, current, ready);
      var next := PopNext();
      found := next.Some?;
      if found {
        current := next.value;
        switches := switches + 1;
      }
    }
  }

  lemma EligibleInTail(tasks: seq<TaskState>, cur: TaskId, ready: seq<TaskId>)
    requires ready != [] && !Eligible(tasks, cur, ready[0])
    ensures AnyEligible(tasks, cur, ready) <==> AnyEligible(tasks, cur, ready[1..])
  {
    if AnyEligible(tasks, cur, ready) {
      var i :| 0 <= i < |ready| && Eligible(tasks, cur, ready[i]);
      assert ready[1..][i - 1] == ready[i];
    }
    if AnyEligible(tasks, cur, ready[1..]) {
      var i :| 0 <= i < |ready[1..]| && Eligible(tasks, cur, ready[1..][i]);
      assert Eligible(tasks, cur, ready[i + 1]);
    }
  }
}

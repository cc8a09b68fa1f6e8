/**
 * groom/groom/dispatch.py and dispatch_ledger.py: one queue's slots, under every interleaving of drains, process exits
 * and stops.
 *
 * A thread is a program counter over the atomic steps of its function: each ledger statement, each semaphore call,
 * each launch and each kill is one step. Two drains can hold the same pending item.
 */
module Dispatch {
  import opened Collections
  import opened Wrappers

  type Item = string
  type Pid = nat
  type Thread = nat

  datatype Status = Pending | Running | Finished | Failed | Cancelled

  datatype Row = Row(status: Status, pid: Option<Pid>)

  predicate Terminal(row: Row) {
    !row.status.Pending? && !row.status.Running?
  }

  /** `dispatch_finish`: flip a row to a terminal status, only if it is not terminal already. */
  predicate FinishWins(rows: map<Item, Row>, item: Item) {
    item in rows && !Terminal(rows[item])
  }

  function Finish(rows: map<Item, Row>, item: Item, status: Status): map<Item, Row> {
    if FinishWins(rows, item) then rows[item := rows[item].(status := status)] else rows
  }

  /** `dispatch_start`: the update names the item alone, so it flips a row whatever its status. */
  function Start(rows: map<Item, Row>, item: Item, pid: Pid): map<Item, Row> {
    if item in rows then rows[item := Row(Running, Some(pid))] else rows
  }

  /** The thread waiting on one process: it tries to finish the row, and releases the slot if that won. */
  datatype Waiter = Unowned | Waiting | Won | Over

  /** `freed` is history: a finish that won was this process's own, or a stop's that killed it. */
  datatype Proc = Proc(item: Item, alive: bool, waiter: Waiter, freed: bool)

  /** `_drain` after its listing: `todo` are the rows still to try. */
  datatype Drain =
    | Trying(todo: seq<Item>)
    | Acquired(item: Item, todo: seq<Item>)
    | Launched(item: Item, pid: Pid, todo: seq<Item>)
    | Recorded(item: Item, pid: Pid, todo: seq<Item>)
    | Unlaunched(item: Item, todo: seq<Item>)

  datatype Stop = Read(item: Item, pid: Pid) | Killed(item: Item, pid: Pid) | StopWon

  /** `free` is the semaphore's value once it exists. */
  datatype Sys = Sys(
    concurrency: nat, free: Option<int>, rows: map<Item, Row>, procs: map<Pid, Proc>,
    drains: map<Thread, Drain>, stops: map<Thread, Stop>, acquired: nat, released: nat)
  {
    function Created(): Option<int> {
      if free.Some? then free
      else Some(if concurrency >= |RunningItems(rows)| then concurrency - |RunningItems(rows)| else 0)
    }
  }

  function RunningItems(rows: map<Item, Row>): set<Item> {
    set item | item in rows && rows[item].status.Running?
  }

  datatype Step =
    | Enqueue(item: Item)
    | CancelPending(item: Item)
    | DrainList(t: Thread, todo: seq<Item>)
    | DrainAcquire(t: Thread)
    | DrainLaunch(t: Thread, pid: Pid)
    | DrainLaunchFails(t: Thread)
    | DrainFail(t: Thread)
    | DrainRecord(t: Thread)
    | DrainOwn(t: Thread)
    | Exit(pid: Pid)
    | WaiterFinish(pid: Pid)
    | WaiterRelease(pid: Pid)
    | StopRead(t: Thread, item: Item)
    | StopKill(t: Thread)
    | StopFinish(t: Thread)
    | StopRelease(t: Thread)

  predicate Enabled(s: Sys, step: Step) {
    match step
    case Enqueue(item) => item !in s.rows
    case CancelPending(item) => item in s.rows && s.rows[item].status.Pending?
    case DrainList(t, todo) =>
      t !in s.drains && forall i :: 0 <= i < |todo| ==> todo[i] in s.rows && s.rows[todo[i]].status.Pending?
    case DrainAcquire(t) => t in s.drains && s.drains[t].Trying? && s.free.Some?
    case DrainLaunch(t, pid) => t in s.drains && s.drains[t].Acquired? && pid !in s.procs
    case DrainLaunchFails(t) => t in s.drains && s.drains[t].Acquired? && s.free.Some?
    case DrainFail(t) => t in s.drains && s.drains[t].Unlaunched?
    case DrainRecord(t) => t in s.drains && s.drains[t].Launched?
    case DrainOwn(t) => t in s.drains && s.drains[t].Recorded? && s.drains[t].pid in s.procs
    case Exit(pid) => pid in s.procs
    case WaiterFinish(pid) => pid in s.procs && !s.procs[pid].alive && s.procs[pid].waiter.Waiting?
    case WaiterRelease(pid) => pid in s.procs && s.procs[pid].waiter.Won? && s.free.Some?
    case StopRead(t, item) =>
      t !in s.stops && item in s.rows && s.rows[item].status.Running? && s.rows[item].pid.Some?
    case StopKill(t) => t in s.stops && s.stops[t].Read? && s.stops[t].pid in s.procs
    case StopFinish(t) => t in s.stops && s.stops[t].Killed? && s.stops[t].pid in s.procs
    case StopRelease(t) => t in s.stops && s.stops[t].StopWon?
  }

  function Next(s: Sys, step: Step): Sys
    requires Enabled(s, step)
  {
    match step
    case Enqueue(item) => s.(rows := s.rows[item := Row(Pending, None)])
    case CancelPending(item) => s.(rows := s.rows[item := s.rows[item].(status := Cancelled)])
    case DrainList(t, todo) => s.(free := s.Created(), drains := s.drains[t := Trying(todo)])
    case DrainAcquire(t) =>
      var todo := s.drains[t].todo;
      if todo == [] || s.free.value <= 0 then s.(drains := s.drains - {t})
      else s.(free := Some(s.free.value - 1), acquired := s.acquired + 1, drains := s.drains[t := Acquired(todo[0], todo[1..])])
    case DrainLaunch(t, pid) =>
      var d := s.drains[t];
      s.(procs := s.procs[pid := Proc(d.item, true, Unowned, false)], drains := s.drains[t := Launched(d.item, pid, d.todo)])
    case DrainLaunchFails(t) =>
      var d := s.drains[t];
      s.(free := Some(s.free.value + 1), released := s.released + 1, drains := s.drains[t := Unlaunched(d.item, d.todo)])
    case DrainFail(t) =>
      var d := s.drains[t];
      s.(rows := Finish(s.rows, d.item, Failed), drains := s.drains[t := Trying(d.todo)])
    case DrainRecord(t) =>
      var d := s.drains[t];
      s.(rows := Start(s.rows, d.item, d.pid), drains := s.drains[t := Recorded(d.item, d.pid, d.todo)])
    case DrainOwn(t) =>
      var d := s.drains[t];
      s.(procs := s.procs[d.pid := s.procs[d.pid].(waiter := Waiting)], drains := s.drains[t := Trying(d.todo)])
    case Exit(pid) => s.(procs := s.procs[pid := s.procs[pid].(alive := false)])
    case WaiterFinish(pid) =>
      var p := s.procs[pid];
      if FinishWins(s.rows, p.item) then
        s.(rows := Finish(s.rows, p.item, Finished), procs := s.procs[pid := p.(waiter := Won, freed := true)])
      else s.(procs := s.procs[pid := p.(waiter := Over)])
    case WaiterRelease(pid) =>
      s.(free := Some(s.free.value + 1), released := s.released + 1, procs := s.procs[pid := s.procs[pid].(waiter := Over)])
    case StopRead(t, item) => s.(stops := s.stops[t := Read(item, s.rows[item].pid.value)])
    case StopKill(t) =>
      var stop := s.stops[t];
      s.(procs := s.procs[stop.pid := s.procs[stop.pid].(alive := false)], stops := s.stops[t := Killed(stop.item, stop.pid)])
    case StopFinish(t) =>
      var stop := s.stops[t];
      if FinishWins(s.rows, stop.item) then
        s.(rows := Finish(s.rows, stop.item, Cancelled), procs := s.procs[stop.pid := s.procs[stop.pid].(freed := true)],
           stops := s.stops[t := StopWon])
      else s.(stops := s.stops - {t})
    case StopRelease(t) =>
      s.(free := Some(s.Created().value + 1), released := s.released + 1, stops := s.stops - {t})
  }

  // ---- who holds a slot ----

  function HoldingDrains(s: Sys): set<Thread> {
    set t | t in s.drains && s.drains[t].Acquired?
  }

  function UnfreedProcs(s: Sys): set<Pid> {
    set pid | pid in s.procs && !s.procs[pid].freed
  }

  function WinningWaiters(s: Sys): set<Pid> {
    set pid | pid in s.procs && s.procs[pid].waiter.Won?
  }

  function WinningStops(s: Sys): set<Thread> {
    set t | t in s.stops && s.stops[t].StopWon?
  }

  function Holders(s: Sys): nat {
    |HoldingDrains(s)| + |UnfreedProcs(s)| + |WinningWaiters(s)| + |WinningStops(s)|
  }

  function LiveProcs(s: Sys): set<Pid> {
    set pid | pid in s.procs && s.procs[pid].alive
  }

  // ---- the invariant ----

  /** Every slot acquired and not released is held by a drain, a process not freed, or a winner about to release. */
  ghost predicate Accounted(s: Sys) {
    s.acquired - s.released == Holders(s)
  }

  ghost predicate SlotOk(s: Sys) {
    && (s.free.Some? ==> s.free.value == s.concurrency - (s.acquired - s.released) && s.free.value >= 0)
    && (s.free.None? ==> s.drains == map[] && s.procs == map[] && s.stops == map[] && s.acquired == s.released)
  }

  /** A running row names a process of its own item that still holds its slot. */
  ghost predicate RowsOk(s: Sys) {
    forall item :: item in s.rows && s.rows[item].status.Running? ==>
      && s.rows[item].pid.Some? && s.rows[item].pid.value in s.procs
      && s.procs[s.rows[item].pid.value].item == item && !s.procs[s.rows[item].pid.value].freed
  }

  ghost predicate ProcOk(s: Sys, pid: Pid)
    requires pid in s.procs
  {
    && s.procs[pid].item in s.rows
    && (s.procs[pid].alive ==> !s.procs[pid].freed)
    && (s.procs[pid].waiter.Won? ==> s.procs[pid].freed)
  }

  ghost predicate ProcsOk(s: Sys) {
    forall pid :: pid in s.procs ==> ProcOk(s, pid)
  }

  predicate Launching(d: Drain) {
    d.Launched? || d.Recorded?
  }

  ghost predicate DrainOk(s: Sys, d: Drain) {
    && (forall item :: item in d.todo ==> item in s.rows)
    && (!d.Trying? ==> d.item in s.rows)
    && (Launching(d) ==> d.pid in s.procs && s.procs[d.pid].item == d.item && s.procs[d.pid].waiter.Unowned?)
    && (d.Launched? ==> Unknown(s, d.pid))
  }

  ghost predicate DistinctLaunches(s: Sys) {
    forall t, u :: t in s.drains && u in s.drains && t != u && Launching(s.drains[t]) && Launching(s.drains[u]) ==>
      s.drains[t].pid != s.drains[u].pid
  }

  ghost predicate DrainsOk(s: Sys) {
    (forall t :: t in s.drains ==> DrainOk(s, s.drains[t])) && DistinctLaunches(s)
  }

  /** No row and no stop names the process yet. */
  ghost predicate Unknown(s: Sys, pid: Pid) {
    && pid in s.procs && !s.procs[pid].freed
    && (forall item :: item in s.rows && s.rows[item].status.Running? ==> s.rows[item].pid != Some(pid))
    && (forall t :: t in s.stops && !s.stops[t].StopWon? ==> s.stops[t].pid != pid)
  }

  /** A process no thread waits on yet is still in the hands of the drain that launched it. */
  ghost predicate LaunchesOk(s: Sys) {
    forall pid :: pid in s.procs && s.procs[pid].waiter.Unowned? ==> exists t :: HeldBy(s, pid, t)
  }

  ghost predicate HeldBy(s: Sys, pid: Pid, t: Thread) {
    t in s.drains && Launching(s.drains[t]) && s.drains[t].pid == pid
  }

  ghost predicate StopsOk(s: Sys) {
    forall t :: t in s.stops ==> StopOk(s, s.stops[t])
  }

  ghost predicate Wired(s: Sys) {
    SlotOk(s) && RowsOk(s) && ProcsOk(s) && DrainsOk(s) && StopsOk(s) && LaunchesOk(s)
  }

  ghost predicate StaleWaiter(s: Sys, item: Item, pid: Pid) {
    && pid in s.procs && s.procs[pid].item == item && s.procs[pid].freed
    && (s.procs[pid].waiter.Unowned? || s.procs[pid].waiter.Waiting?)
  }

  ghost predicate StaleStop(s: Sys, item: Item, t: Thread) {
    && t in s.stops && !s.stops[t].StopWon? && s.stops[t].item == item
    && s.stops[t].pid in s.procs && s.procs[s.stops[t].pid].freed
  }

  /** A thread that may still finish `item` on behalf of a process whose slot was already given back. */
  ghost predicate StaleFinisher(s: Sys, item: Item) {
    (exists pid :: StaleWaiter(s, item, pid)) || (exists t :: StaleStop(s, item, t))
  }

  ghost predicate NoStaleFinishers(s: Sys) {
    forall item :: item in s.rows && !Terminal(s.rows[item]) ==> !StaleFinisher(s, item)
  }

  ghost predicate Inv(s: Sys) {
    Wired(s) && Accounted(s) && NoStaleFinishers(s)
  }

  /** The guard `dispatch_start` lacks: the row it flips is not terminal, or no stale finisher is left for it. */
  ghost predicate HarmlessStart(s: Sys, step: Step) {
    step.DrainRecord? && Enabled(s, step) ==>
      (var item := s.drains[step.t].item; item in s.rows && Terminal(s.rows[item]) ==> !StaleFinisher(s, item))
  }

  // ---- what holds in every such state ----

  /** Live processes never outnumber the slots out, which never outnumber the queue's concurrency. */
  lemma SlotsBoundProcesses(s: Sys)
    requires Wired(s) && Accounted(s)
    ensures s.released <= s.acquired
    ensures |LiveProcs(s)| <= s.acquired - s.released <= s.concurrency
  {
    assert LiveProcs(s) <= UnfreedProcs(s);
    SubsetIsNoLarger(LiveProcs(s), UnfreedProcs(s));
    if s.free.None? {
      assert LiveProcs(s) == {};
    }
  }

  // ---- every step keeps the wiring ----

  lemma StepKeepsSlot(s: Sys, step: Step)
    requires Wired(s) && Enabled(s, step)
    ensures SlotOk(Next(s, step))
  {
    hide ProcsOk, DrainsOk, StopsOk, LaunchesOk;
    if s.free.None? {
      assert RunningItems(s.rows) == {};
    }
  }

  lemma StepKeepsRows(s: Sys, step: Step)
    requires Wired(s) && Enabled(s, step)
    ensures RowsOk(Next(s, step))
  {
    hide SlotOk, ProcsOk, LaunchesOk;
    var s' := Next(s, step);
    forall item | item in s'.rows && s'.rows[item].status.Running?
      ensures && s'.rows[item].pid.Some? && s'.rows[item].pid.value in s'.procs
              && s'.procs[s'.rows[item].pid.value].item == item && !s'.procs[s'.rows[item].pid.value].freed
    {
      if step.DrainRecord? && s.drains[step.t].item == item {
        assert Unknown(s, s.drains[step.t].pid);
      } else {
        assert item in s.rows && s.rows[item].status.Running?;
      }
    }
  }

  lemma LaunchedProcIsOk(s: Sys, t: Thread, pid: Pid)
    requires Wired(s) && Enabled(s, DrainLaunch(t, pid))
    ensures ProcOk(Next(s, DrainLaunch(t, pid)), pid)
  {
    hide SlotOk, RowsOk, StopsOk, LaunchesOk, Unknown;
    assert DrainOk(s, s.drains[t]);
  }

  lemma OtherProcStaysOk(s: Sys, step: Step, pid: Pid)
    requires RowsAreThere(s, step) && StopsOk(s) && pid in s.procs && ProcOk(s, pid)
    ensures pid in Next(s, step).procs && ProcOk(Next(s, step), pid)
  {
  }

  ghost predicate RowsAreThere(s: Sys, step: Step) {
    Enabled(s, step) && s.rows.Keys <= Next(s, step).rows.Keys && (step.DrainLaunch? ==> step.pid !in s.procs)
  }

  lemma StepKeepsProcs(s: Sys, step: Step)
    requires Wired(s) && Enabled(s, step)
    ensures ProcsOk(Next(s, step))
  {
    hide SlotOk, RowsOk, DrainsOk, LaunchesOk;
    RowsAreKept(s, step);
    forall pid | pid in Next(s, step).procs ensures ProcOk(Next(s, step), pid) {
      if pid in s.procs {
        assert ProcOk(s, pid);
        OtherProcStaysOk(s, step, pid);
      } else {
        assert step == DrainLaunch(step.t, pid);
        LaunchedProcIsOk(s, step.t, pid);
      }
    }
  }

  /** A stop that has not won names a process of its item, dead once it was killed. */
  ghost predicate StopOk(s: Sys, stop: Stop) {
    !stop.StopWon? ==>
      && stop.pid in s.procs && s.procs[stop.pid].item == stop.item
      && (stop.Killed? ==> !s.procs[stop.pid].alive)
  }

  /** A process stays, with its item, and does not come back to life. */
  lemma ProcsStay(s: Sys, step: Step, pid: Pid)
    requires Enabled(s, step) && pid in s.procs
    ensures var s' := Next(s, step);
      pid in s'.procs && s'.procs[pid].item == s.procs[pid].item && (s'.procs[pid].alive ==> s.procs[pid].alive)
  {
  }

  lemma OtherStopStaysOk(s: Sys, step: Step, t: Thread)
    requires Enabled(s, step) && t in s.stops && StopOk(s, s.stops[t])
    ensures StopOk(Next(s, step), s.stops[t])
  {
    if !s.stops[t].StopWon? {
      ProcsStay(s, step, s.stops[t].pid);
    }
    hide Next, Enabled;
  }

  lemma MovedStopIsOk(s: Sys, step: Step, t: Thread)
    requires RowsOk(s) && Enabled(s, step) && (t in s.stops ==> StopOk(s, s.stops[t]))
    requires t in Next(s, step).stops && (t !in s.stops || Next(s, step).stops[t] != s.stops[t])
    ensures StopOk(Next(s, step), Next(s, step).stops[t])
  {
  }

  lemma StepKeepsStops(s: Sys, step: Step)
    requires Wired(s) && Enabled(s, step)
    ensures StopsOk(Next(s, step))
  {
    hide SlotOk, RowsOk, ProcsOk, DrainsOk, LaunchesOk, Next, Enabled;
    var s' := Next(s, step);
    forall t | t in s'.stops ensures StopOk(s', s'.stops[t]) {
      if t in s.stops {
        assert StopOk(s, s.stops[t]);
      }
      if t in s.stops && s'.stops[t] == s.stops[t] {
        OtherStopStaysOk(s, step, t);
      } else {
        MovedStopIsOk(s, step, t);
      }
    }
  }

  lemma StepKeepsUnknown(s: Sys, step: Step, pid: Pid)
    requires Wired(s) && Enabled(s, step) && Unknown(s, pid) && s.procs[pid].waiter.Unowned?
    requires step.DrainRecord? ==> s.drains[step.t].pid != pid
    ensures Unknown(Next(s, step), pid)
  {
    hide SlotOk, ProcsOk, DrainsOk, LaunchesOk;
  }

  lemma RowsAreKept(s: Sys, step: Step)
    requires Wired(s) && Enabled(s, step)
    ensures s.rows.Keys <= Next(s, step).rows.Keys
  {
    hide SlotOk, RowsOk, ProcsOk, StopsOk, DistinctLaunches, LaunchesOk;
  }

  /** A process some drain has launched and not yet told its waiter of stays as it is while that drain does not move. */
  lemma LaunchedProcIsKept(s: Sys, step: Step, t: Thread)
    requires Wired(s) && Enabled(s, step) && t in s.drains && Launching(s.drains[t])
    requires t in Next(s, step).drains && Next(s, step).drains[t] == s.drains[t]
    ensures var pid, after := s.drains[t].pid, Next(s, step);
      pid in after.procs && after.procs[pid].item == s.drains[t].item && after.procs[pid].waiter.Unowned?
  {
    hide SlotOk, RowsOk, ProcsOk, StopsOk, Unknown, LaunchesOk;
    assert DrainOk(s, s.drains[t]);
  }

  lemma StepKeepsOtherDrain(s: Sys, step: Step, t: Thread)
    requires Wired(s) && Enabled(s, step)
    requires t in s.drains && t in Next(s, step).drains && Next(s, step).drains[t] == s.drains[t]
    ensures DrainOk(Next(s, step), s.drains[t])
  {
    assert DrainOk(s, s.drains[t]);
    RowsAreKept(s, step);
    if Launching(s.drains[t]) {
      LaunchedProcIsKept(s, step, t);
    }
    if s.drains[t].Launched? {
      assert step.DrainRecord? ==> s.drains[step.t].pid != s.drains[t].pid by {
        hide SlotOk, RowsOk, ProcsOk, StopsOk, Unknown, DrainOk;
      }
      StepKeepsUnknown(s, step, s.drains[t].pid);
    }
    hide Wired, Next, Enabled, Unknown;
  }

  lemma NewLaunchIsOk(s: Sys, t: Thread, pid: Pid)
    requires Wired(s) && Enabled(s, DrainLaunch(t, pid))
    ensures var s' := Next(s, DrainLaunch(t, pid)); DrainOk(s', s'.drains[t])
  {
    hide SlotOk, LaunchesOk, DistinctLaunches, ProcsOk;
    assert DrainOk(s, s.drains[t]);
    assert forall u :: u in s.stops ==> StopOk(s, s.stops[u]);
  }

  lemma StepKeepsOwnDrain(s: Sys, step: Step, t: Thread)
    requires Wired(s) && Enabled(s, step)
    requires t in Next(s, step).drains && (t !in s.drains || Next(s, step).drains[t] != s.drains[t])
    ensures DrainOk(Next(s, step), Next(s, step).drains[t])
  {
    if step.DrainLaunch? {
      NewLaunchIsOk(s, t, step.pid);
    } else {
      hide SlotOk, RowsOk, ProcsOk, StopsOk, LaunchesOk, DistinctLaunches, Unknown;
      if t in s.drains {
        assert DrainOk(s, s.drains[t]);
      }
    }
  }

  lemma StepKeepsDrains(s: Sys, step: Step)
    requires Wired(s) && Enabled(s, step)
    ensures DrainsOk(Next(s, step))
  {
    hide DrainOk, SlotOk, RowsOk, ProcsOk, StopsOk;
    var s' := Next(s, step);
    forall t | t in s'.drains ensures DrainOk(s', s'.drains[t]) {
      if t in s.drains && s'.drains[t] == s.drains[t] {
        StepKeepsOtherDrain(s, step, t);
      } else {
        StepKeepsOwnDrain(s, step, t);
      }
    }
    forall t | t in s.drains && Launching(s.drains[t]) ensures s.drains[t].pid in s.procs {
      LaunchedPidIsKnown(s, t);
    }
  }

  lemma LaunchedPidIsKnown(s: Sys, t: Thread)
    requires Wired(s) && t in s.drains && Launching(s.drains[t])
    ensures s.drains[t].pid in s.procs
  {
    assert DrainOk(s, s.drains[t]);
  }

  lemma StepKeepsLaunches(s: Sys, step: Step)
    requires Wired(s) && Enabled(s, step)
    ensures LaunchesOk(Next(s, step))
  {
    hide SlotOk, RowsOk, ProcsOk, DrainsOk, StopsOk;
    var s' := Next(s, step);
    forall pid | pid in s'.procs && s'.procs[pid].waiter.Unowned? ensures exists t :: HeldBy(s', pid, t) {
      if step.DrainLaunch? && step.pid == pid {
        assert HeldBy(s', pid, step.t);
      } else {
        assert pid in s.procs && s.procs[pid].waiter.Unowned?;
        var t :| HeldBy(s, pid, t);
        assert HeldBy(s', pid, t);
      }
    }
  }

  lemma StepKeepsWiring(s: Sys, step: Step)
    requires Wired(s) && Enabled(s, step)
    ensures Wired(Next(s, step))
  {
    StepKeepsSlot(s, step);
    StepKeepsRows(s, step);
    StepKeepsProcs(s, step);
    StepKeepsStops(s, step);
    StepKeepsDrains(s, step);
    StepKeepsLaunches(s, step);
  }

  // ---- accounting ----

  /** The finish wins on behalf of a process whose slot was already given back. */
  predicate FreesTwice(s: Sys, step: Step)
    requires Enabled(s, step)
  {
    match step
    case WaiterFinish(pid) => s.procs[pid].freed && FinishWins(s.rows, s.procs[pid].item)
    case StopFinish(t) => s.procs[s.stops[t].pid].freed && FinishWins(s.rows, s.stops[t].item)
    case _ => false
  }

  /** What a step does to the four kinds of holders. */
  lemma StepMovesDrains(s: Sys, step: Step)
    requires Wired(s) && Enabled(s, step)
    ensures var s' := Next(s, step);
      HoldingDrains(s') ==
        if step.DrainAcquire? && s.drains[step.t].todo != [] && s.free.value > 0 then HoldingDrains(s) + {step.t}
        else if step.DrainLaunch? || step.DrainLaunchFails? then HoldingDrains(s) - {step.t}
        else HoldingDrains(s)
  {
    hide Wired;
  }

  lemma StepMovesProcs(s: Sys, step: Step)
    requires Wired(s) && Enabled(s, step)
    ensures var s' := Next(s, step);
      UnfreedProcs(s') ==
        if step.DrainLaunch? then UnfreedProcs(s) + {step.pid}
        else if step.WaiterFinish? && FinishWins(s.rows, s.procs[step.pid].item) then UnfreedProcs(s) - {step.pid}
        else if step.StopFinish? && FinishWins(s.rows, s.stops[step.t].item) then UnfreedProcs(s) - {s.stops[step.t].pid}
        else UnfreedProcs(s)
  {
    hide Wired;
  }

  lemma StepMovesWinners(s: Sys, step: Step)
    requires Wired(s) && Enabled(s, step)
    ensures var s' := Next(s, step);
      && WinningWaiters(s') ==
        (if step.WaiterFinish? && FinishWins(s.rows, s.procs[step.pid].item) then WinningWaiters(s) + {step.pid}
         else if step.WaiterRelease? then WinningWaiters(s) - {step.pid}
         else WinningWaiters(s))
      && WinningStops(s') ==
        (if step.StopFinish? && FinishWins(s.rows, s.stops[step.t].item) then WinningStops(s) + {step.t}
         else if step.StopRelease? then WinningStops(s) - {step.t}
         else WinningStops(s))
  {
    hide SlotOk, RowsOk, ProcsOk, StopsOk, Unknown, LaunchesOk;
    if step.DrainOwn? {
      assert DrainOk(s, s.drains[step.t]);
    }
  }

  /** The drain takes a slot. */
  predicate TakesSlot(s: Sys, step: Step)
    requires Enabled(s, step)
  {
    step.DrainAcquire? && s.drains[step.t].todo != [] && s.free.value > 0
  }

  /** The finish flips its row. */
  predicate Wins(s: Sys, step: Step)
    requires Enabled(s, step)
  {
    match step
    case WaiterFinish(pid) => FinishWins(s.rows, s.procs[pid].item)
    case StopFinish(t) => FinishWins(s.rows, s.stops[t].item)
    case _ => false
  }

  /** Counted: slots acquired and not released, and each kind of holder. */
  lemma StepCountsSlots(s: Sys, step: Step)
    requires Enabled(s, step)
    ensures var s' := Next(s, step);
      s'.acquired - s'.released - (s.acquired - s.released)
      == if TakesSlot(s, step) then 1 else if step.DrainLaunchFails? || step.WaiterRelease? || step.StopRelease? then -1 else 0
  {
  }

  lemma StepCountsDrains(s: Sys, step: Step)
    requires Wired(s) && Enabled(s, step)
    ensures |HoldingDrains(Next(s, step))| - |HoldingDrains(s)|
         == if TakesSlot(s, step) then 1 else if step.DrainLaunch? || step.DrainLaunchFails? then -1 else 0
  {
    StepMovesDrains(s, step);
    HolderMembership(s, step);
    hide HoldingDrains, Next, Wired;
  }

  /** The process a winning finish frees, if it is not free already. */
  function Finishing(s: Sys, step: Step): Pid
    requires Enabled(s, step) && Wins(s, step)
  {
    if step.WaiterFinish? then step.pid else s.stops[step.t].pid
  }

  lemma WinMovesProcs(s: Sys, step: Step)
    requires Wired(s) && Enabled(s, step) && Wins(s, step)
    ensures UnfreedProcs(Next(s, step)) == UnfreedProcs(s) - {Finishing(s, step)}
    ensures Finishing(s, step) in UnfreedProcs(s) <==> !FreesTwice(s, step)
  {
    StepMovesProcs(s, step);
    HolderMembership(s, step);
    hide UnfreedProcs, Next, Wired, FinishWins;
  }

  lemma OtherMovesProcs(s: Sys, step: Step)
    requires Wired(s) && Enabled(s, step) && !Wins(s, step)
    ensures !FreesTwice(s, step)
    ensures UnfreedProcs(Next(s, step)) == if step.DrainLaunch? then UnfreedProcs(s) + {step.pid} else UnfreedProcs(s)
    ensures step.DrainLaunch? ==> step.pid !in UnfreedProcs(s)
  {
    StepMovesProcs(s, step);
    HolderMembership(s, step);
    hide UnfreedProcs, Next, Wired, FinishWins;
  }

  lemma StepCountsProcs(s: Sys, step: Step)
    requires Wired(s) && Enabled(s, step)
    ensures |UnfreedProcs(Next(s, step))| - |UnfreedProcs(s)|
         == if step.DrainLaunch? then 1 else if Wins(s, step) && !FreesTwice(s, step) then -1 else 0
  {
    hide UnfreedProcs, Next, Wired, FreesTwice, FinishWins, Finishing;
    if Wins(s, step) {
      WinMovesProcs(s, step);
      OneLess(UnfreedProcs(s), Finishing(s, step));
    } else {
      OtherMovesProcs(s, step);
      if step.DrainLaunch? {
        OneMore(UnfreedProcs(s), step.pid);
      }
    }
  }

  lemma StepCountsWinners(s: Sys, step: Step)
    requires Wired(s) && Enabled(s, step)
    ensures var s' := Next(s, step);
      |WinningWaiters(s')| + |WinningStops(s')| - (|WinningWaiters(s)| + |WinningStops(s)|)
      == if Wins(s, step) then 1 else if step.WaiterRelease? || step.StopRelease? then -1 else 0
  {
    StepMovesWinners(s, step);
    HolderMembership(s, step);
    hide WinningWaiters, WinningStops, Next, Wired, FinishWins;
  }

  /** Every step keeps the account, except a finish that frees twice, which breaks it. */
  lemma StepAccountsExactlyWhen(s: Sys, step: Step)
    requires Wired(s) && Accounted(s) && Enabled(s, step)
    ensures Accounted(Next(s, step)) <==> !FreesTwice(s, step)
  {
    StepCountsSlots(s, step);
    StepCountsDrains(s, step);
    StepCountsProcs(s, step);
    StepCountsWinners(s, step);
    hide Wired, Enabled, HoldingDrains, UnfreedProcs, WinningWaiters, WinningStops, Next, FinishWins;
  }

  lemma HolderMembership(s: Sys, step: Step)
    requires Enabled(s, step)
    ensures step.DrainAcquire? ==> step.t !in HoldingDrains(s)
    ensures step.DrainLaunch? || step.DrainLaunchFails? ==> step.t in HoldingDrains(s)
    ensures step.DrainLaunch? ==> step.pid !in UnfreedProcs(s)
    ensures step.WaiterFinish? ==> (step.pid in UnfreedProcs(s) <==> !s.procs[step.pid].freed) && step.pid !in WinningWaiters(s)
    ensures step.WaiterRelease? ==> step.pid in WinningWaiters(s)
    ensures step.StopFinish? ==>
      (s.stops[step.t].pid in UnfreedProcs(s) <==> !s.procs[s.stops[step.t].pid].freed) && step.t !in WinningStops(s)
    ensures step.StopRelease? ==> step.t in WinningStops(s)
  {
  }

  // ---- stale finishers ----

  lemma NoStaleFinisherFreesTwice(s: Sys, step: Step)
    requires Wired(s) && NoStaleFinishers(s) && Enabled(s, step)
    ensures !FreesTwice(s, step)
  {
    hide SlotOk, RowsOk, ProcsOk, DrainsOk, LaunchesOk;
    if step.WaiterFinish? && FinishWins(s.rows, s.procs[step.pid].item) {
      assert !StaleFinisher(s, s.procs[step.pid].item);
      assert !StaleWaiter(s, s.procs[step.pid].item, step.pid);
    }
    if step.StopFinish? && FinishWins(s.rows, s.stops[step.t].item) {
      assert !StaleFinisher(s, s.stops[step.t].item);
      assert !StaleStop(s, s.stops[step.t].item, step.t);
    }
  }

  /** A waiter or stop that a step makes stale was made so by a finish that won, so its row is terminal. */
  lemma NewStaleWaiterIsTerminal(s: Sys, step: Step, item: Item, pid: Pid)
    requires Wired(s) && Enabled(s, step)
    requires StaleWaiter(Next(s, step), item, pid) && !StaleWaiter(s, item, pid)
    ensures item in Next(s, step).rows && Terminal(Next(s, step).rows[item])
  {
    hide SlotOk, RowsOk, ProcsOk, DrainsOk, Unknown, LaunchesOk;
    if step.DrainOwn? {
      LaunchedIsUnowned(s, step.t);
    } else if step.StopFinish? {
      assert StopOk(s, s.stops[step.t]);
    }
  }

  lemma LaunchedIsUnowned(s: Sys, t: Thread)
    requires DrainsOk(s) && t in s.drains && Launching(s.drains[t])
    ensures s.drains[t].pid in s.procs && s.procs[s.drains[t].pid].waiter.Unowned?
  {
    assert DrainOk(s, s.drains[t]);
  }

  lemma NewStaleStopIsTerminal(s: Sys, step: Step, item: Item, t: Thread)
    requires Wired(s) && Enabled(s, step)
    requires StaleStop(Next(s, step), item, t) && !StaleStop(s, item, t)
    ensures item in Next(s, step).rows && Terminal(Next(s, step).rows[item])
  {
    hide SlotOk, DrainsOk, LaunchesOk;
  }

  /** A row becomes open again only by a start, or is new. */
  lemma ReopenedRows(s: Sys, step: Step, item: Item)
    requires Enabled(s, step)
    requires item in Next(s, step).rows && !Terminal(Next(s, step).rows[item])
    ensures || (item in s.rows && !Terminal(s.rows[item]))
            || (step.Enqueue? && step.item == item)
            || (step.DrainRecord? && s.drains[step.t].item == item)
  {
  }

  lemma StaleFinishersAreOfRows(s: Sys, item: Item)
    requires Wired(s) && StaleFinisher(s, item)
    ensures item in s.rows
  {
    hide SlotOk, RowsOk, DrainsOk, LaunchesOk;
  }

  lemma StepKeepsNoStaleFinishers(s: Sys, step: Step)
    requires Wired(s) && NoStaleFinishers(s) && Enabled(s, step) && HarmlessStart(s, step)
    ensures NoStaleFinishers(Next(s, step))
  {
    hide Wired, Next, Terminal;
    var s' := Next(s, step);
    forall item | item in s'.rows && !Terminal(s'.rows[item]) ensures !StaleFinisher(s', item) {
      ReopenedRows(s, step, item);
      if StaleFinisher(s, item) {
        StaleFinishersAreOfRows(s, item);
      }
      forall pid ensures !StaleWaiter(s', item, pid) {
        if StaleWaiter(s', item, pid) && !StaleWaiter(s, item, pid) {
          NewStaleWaiterIsTerminal(s, step, item, pid);
        }
      }
      forall t ensures !StaleStop(s', item, t) {
        if StaleStop(s', item, t) && !StaleStop(s, item, t) {
          NewStaleStopIsTerminal(s, step, item, t);
        }
      }
    }
  }

  // ---- whole runs ----

  lemma StepKeepsInv(s: Sys, step: Step)
    requires Inv(s) && Enabled(s, step) && HarmlessStart(s, step)
    ensures Inv(Next(s, step))
  {
    hide Wired, Accounted, NoStaleFinishers, HarmlessStart, Next;
    StepKeepsWiring(s, step);
    NoStaleFinisherFreesTwice(s, step);
    StepAccountsExactlyWhen(s, step);
    StepKeepsNoStaleFinishers(s, step);
  }

  ghost predicate Guarded(s: Sys, steps: seq<Step>)
    decreases |steps|
  {
    steps == [] || (Enabled(s, steps[0]) && HarmlessStart(s, steps[0]) && Guarded(Next(s, steps[0]), steps[1..]))
  }

  predicate Possible(s: Sys, steps: seq<Step>)
    decreases |steps|
  {
    steps == [] || (Enabled(s, steps[0]) && Possible(Next(s, steps[0]), steps[1..]))
  }

  function RunSteps(s: Sys, steps: seq<Step>): Sys
    requires Possible(s, steps)
    decreases |steps|
  {
    if steps == [] then s else RunSteps(Next(s, steps[0]), steps[1..])
  }

  /** A groom lifetime begins with no running row, no process and no semaphore. */
  ghost predicate Fresh(s: Sys) {
    && s.free.None? && s.procs == map[] && s.drains == map[] && s.stops == map[] && s.acquired == 0 && s.released == 0
    && forall item :: item in s.rows ==> !s.rows[item].status.Running?
  }

  lemma FreshSatisfiesInv(s: Sys)
    requires Fresh(s)
    ensures Inv(s)
  {
    assert HoldingDrains(s) == {} && UnfreedProcs(s) == {} && WinningWaiters(s) == {} && WinningStops(s) == {};
  }

  lemma {:induction false} GuardedRunsKeepInv(s: Sys, steps: seq<Step>)
    requires Inv(s) && Guarded(s, steps)
    ensures Possible(s, steps) && Inv(RunSteps(s, steps))
    decreases |steps|
  {
    hide Inv, Next, HarmlessStart;
    if steps != [] {
      StepKeepsInv(s, steps[0]);
      GuardedRunsKeepInv(Next(s, steps[0]), steps[1..]);
    }
  }

  /**
   * In a lifetime that starts with no running row, under every interleaving of enqueues, drains, exits and stops in
   * which no start reopens a row a stale finisher can still finish, live processes are at most the slots out, those
   * are at most the concurrency, and releases never exceed acquisitions.
   */
  lemma ConcurrencyIsRespected(s: Sys, steps: seq<Step>)
    requires Fresh(s) && Guarded(s, steps)
    ensures Possible(s, steps)
    ensures var end := RunSteps(s, steps);
      end.released <= end.acquired && |LiveProcs(end)| <= end.acquired - end.released <= end.concurrency
  {
    FreshSatisfiesInv(s);
    GuardedRunsKeepInv(s, steps);
    SlotsBoundProcesses(RunSteps(s, steps));
  }

  predicate OnlyOpenStarts(s: Sys, steps: seq<Step>)
    decreases |steps|
  {
    steps == [] ||
    (&& Enabled(s, steps[0])
     && (steps[0].DrainRecord? ==>
           var item := s.drains[steps[0].t].item; item in s.rows ==> !Terminal(s.rows[item]))
     && OnlyOpenStarts(Next(s, steps[0]), steps[1..]))
  }

  /** A `dispatch_start` that flipped only rows not yet terminal would meet the guard. */
  lemma {:induction false} OpenStartsAreGuarded(s: Sys, steps: seq<Step>)
    requires OnlyOpenStarts(s, steps)
    ensures Guarded(s, steps)
    decreases |steps|
  {
    if steps != [] {
      OpenStartsAreGuarded(Next(s, steps[0]), steps[1..]);
    }
  }

  // ---- the guard is exact ----

  lemma HarmfulStartBreaksInv(s: Sys, step: Step)
    requires Wired(s) && Enabled(s, step) && !HarmlessStart(s, step)
    ensures !NoStaleFinishers(Next(s, step))
  {
    hide SlotOk, RowsOk, ProcsOk, DrainsOk;
    var s', item := Next(s, step), s.drains[step.t].item;
    if pid :| StaleWaiter(s, item, pid) {
      assert StaleWaiter(s', item, pid);
    } else {
      var u :| StaleStop(s, item, u);
      assert StaleStop(s', item, u);
    }
    assert StaleFinisher(s', item) && item in s'.rows && !Terminal(s'.rows[item]);
  }

  /** Among the possible steps it is exactly the harmful starts that break the invariant. */
  lemma StepKeepsInvExactlyWhen(s: Sys, step: Step)
    requires Inv(s) && Enabled(s, step)
    ensures Inv(Next(s, step)) <==> HarmlessStart(s, step)
  {
    if HarmlessStart(s, step) {
      StepKeepsInv(s, step);
    } else {
      HarmfulStartBreaksInv(s, step);
    }
  }

  predicate NoStarts(steps: seq<Step>) {
    forall i :: 0 <= i < |steps| ==> !steps[i].DrainRecord?
  }

  /** Without another start, at most one step and then a finish that frees a slot twice. */
  ghost predicate CanFreeTwice(s: Sys) {
    exists more, step :: FreesTwiceAfter(s, more, step)
  }

  ghost predicate FreesTwiceAfter(s: Sys, more: seq<Step>, step: Step) {
    && |more| <= 1 && NoStarts(more) && Possible(s, more)
    && Enabled(RunSteps(s, more), step) && FreesTwice(RunSteps(s, more), step)
  }

  lemma StaleWaiterFreesTwice(s: Sys, item: Item, pid: Pid)
    requires Wired(s) && StaleWaiter(s, item, pid) && FinishWins(s.rows, item)
    ensures CanFreeTwice(s)
  {
    hide SlotOk, RowsOk, StopsOk;
    if s.procs[pid].waiter.Waiting? {
      assert FreesTwiceAfter(s, [], WaiterFinish(pid));
    } else {
      var t :| HeldBy(s, pid, t);
      assert DrainOk(s, s.drains[t]);
      assert Enabled(s, DrainOwn(t));
      OneStep(s, DrainOwn(t));
      assert FreesTwiceAfter(s, [DrainOwn(t)], WaiterFinish(pid));
    }
  }

  lemma StaleStopFreesTwice(s: Sys, item: Item, t: Thread)
    requires StaleStop(s, item, t) && FinishWins(s.rows, item)
    ensures CanFreeTwice(s)
  {
    if s.stops[t].Killed? {
      assert FreesTwiceAfter(s, [], StopFinish(t));
    } else {
      OneStep(s, StopKill(t));
      assert FreesTwiceAfter(s, [StopKill(t)], StopFinish(t));
    }
  }

  lemma OneStep(s: Sys, step: Step)
    requires Enabled(s, step)
    ensures Possible(s, [step]) && RunSteps(s, [step]) == Next(s, step)
  {
    assert [step][1..] == [];
  }

  /** After every harmful start a stale thread is one step at most from freeing a slot twice. */
  lemma HarmfulStartsCanFreeTwice(s: Sys, step: Step)
    requires Wired(s) && Enabled(s, step) && !HarmlessStart(s, step)
    ensures CanFreeTwice(Next(s, step))
  {
    var s', item := Next(s, step), s.drains[step.t].item;
    StepKeepsWiring(s, step);
    hide Wired, CanFreeTwice;
    if pid :| StaleWaiter(s, item, pid) {
      assert StaleWaiter(s', item, pid);
      StaleWaiterFreesTwice(s', item, pid);
    } else {
      var u :| StaleStop(s, item, u);
      assert StaleStop(s', item, u);
      StaleStopFreesTwice(s', item, u);
    }
  }

  /** No such run starts in a state that satisfies the invariant. */
  lemma InvCannotFreeTwice(s: Sys)
    requires Inv(s)
    ensures !CanFreeTwice(s)
  {
    hide Inv;
    forall more, step ensures !FreesTwiceAfter(s, more, step) {
      if FreesTwiceAfter(s, more, step) {
        InvFreesTwiceNever(s, more, step);
      }
    }
  }

  lemma InvFreesTwiceNever(s: Sys, more: seq<Step>, step: Step)
    requires Inv(s)
    ensures !FreesTwiceAfter(s, more, step)
  {
    if FreesTwiceAfter(s, more, step) {
      hide Inv, FreesTwice, Next;
      if more == [] {
        InvNeverFreesTwice(s, step);
      } else {
        assert more == [more[0]];
        OneStep(s, more[0]);
        StepKeepsInv(s, more[0]);
        InvNeverFreesTwice(Next(s, more[0]), step);
      }
    }
  }

  lemma InvNeverFreesTwice(s: Sys, step: Step)
    requires Inv(s) && Enabled(s, step)
    ensures !FreesTwice(s, step)
  {
    NoStaleFinisherFreesTwice(s, step);
  }

  /**
   * Over any possible run the guard is exact: every start is harmless if and only if at no moment of the run a stale
   * thread is ready, or one step from ready, to free a slot twice.
   */
  lemma {:induction false} GuardedExactlyWhen(s: Sys, steps: seq<Step>)
    requires Inv(s) && Possible(s, steps)
    ensures Guarded(s, steps) <==> NeverFreesTwice(s, steps)
    decreases |steps|
  {
    hide Inv, Next, HarmlessStart, CanFreeTwice, Enabled;
    InvCannotFreeTwice(s);
    if steps != [] {
      StepKeepsInvExactlyWhen(s, steps[0]);
      if HarmlessStart(s, steps[0]) {
        GuardedExactlyWhen(Next(s, steps[0]), steps[1..]);
      } else {
        InvIsWired(s);
        HarmfulStartsCanFreeTwice(s, steps[0]);
      }
    }
  }

  lemma InvIsWired(s: Sys)
    requires Inv(s)
    ensures Wired(s)
  {
  }

  ghost predicate NeverFreesTwice(s: Sys, steps: seq<Step>)
    requires Possible(s, steps)
    decreases |steps|
  {
    !CanFreeTwice(s) && (steps != [] ==> NeverFreesTwice(Next(s, steps[0]), steps[1..]))
  }

  // ---- a stop before the semaphore exists ----

  /** Slots that are free or hold a running row. */
  function Slots(s: Sys): int {
    s.Created().value + |RunningItems(s.rows)|
  }

  /**
   * A stop that cancels a running row leaves every slot free or holding a running row, if and only if the semaphore was
   * there before it: made after the finish, it does not count the row, and the release is one too many.
   */
  lemma StopKeepsSlotsExactlyWhen(s: Sys, t: Thread)
    requires Enabled(s, StopFinish(t)) && s.stops[t].item in s.rows && s.rows[s.stops[t].item].status.Running?
    requires |RunningItems(s.rows)| <= s.concurrency && Slots(s) == s.concurrency
    ensures var won := Next(s, StopFinish(t));
      && Enabled(won, StopRelease(t))
      && (Slots(Next(won, StopRelease(t))) == s.concurrency <==> s.free.Some?)
  {
    var won := Next(s, StopFinish(t));
    assert RunningItems(won.rows) == RunningItems(s.rows) - {s.stops[t].item};
  }

  // ---- what goes wrong without the hypotheses ----

  /** One step in front of a run. */
  lemma Unroll(s: Sys, steps: seq<Step>, mid: Sys, end: Sys)
    requires steps != [] && Enabled(s, steps[0]) && Next(s, steps[0]) == mid
    requires Possible(mid, steps[1..]) && RunSteps(mid, steps[1..]) == end
    ensures Possible(s, steps) && RunSteps(s, steps) == end
  {
  }

  /** Two drains hold item "x"; the first has launched process 11, the second process 12, and neither has told the ledger. */
  function TwiceLaunched(): Sys {
    Sys(2, Some(0), map["x" := Row(Pending, None)],
        map[11 := Proc("x", true, Unowned, false), 12 := Proc("x", true, Unowned, false)],
        map[1 := Launched("x", 11, []), 2 := Launched("x", 12, [])], map[], 2, 0)
  }

  function ListSteps(): seq<Step> {
    [DrainList(1, ["x"]), DrainList(2, ["x"]), DrainAcquire(1)]
  }

  function LaunchSteps(): seq<Step> {
    [DrainAcquire(2), DrainLaunch(1, 11), DrainLaunch(2, 12)]
  }

  function OneItemQueue(): Sys {
    Sys(2, None, map["x" := Row(Pending, None)], map[], map[], map[], 0, 0)
  }

  function BothListed(): Sys {
    OneItemQueue().(free := Some(1), acquired := 1, drains := map[1 := Acquired("x", []), 2 := Trying(["x"])])
  }

  lemma ListsTwice()
    ensures Fresh(OneItemQueue())
    ensures Possible(OneItemQueue(), ListSteps()) && RunSteps(OneItemQueue(), ListSteps()) == BothListed()
  {
    hide Possible, RunSteps;
    var s0, steps := OneItemQueue(), ListSteps();
    assert RunningItems(s0.rows) == {};
    assert ["x"][1..] == [];
    var s1 := s0.(free := Some(2), drains := map[1 := Trying(["x"])]);
    var s2 := s1.(drains := map[1 := Trying(["x"]), 2 := Trying(["x"])]);
    Stops(BothListed(), steps[3..]);
    Unroll(s2, steps[2..], BothListed(), BothListed());
    Unroll(s1, steps[1..], s2, BothListed());
    Unroll(s0, steps, s1, BothListed());
  }

  lemma LaunchesTwice()
    ensures Possible(BothListed(), LaunchSteps()) && RunSteps(BothListed(), LaunchSteps()) == TwiceLaunched()
  {
    hide Possible, RunSteps;
    var s0, steps := BothListed(), LaunchSteps();
    assert ["x"][1..] == [];
    var s1 := s0.(free := Some(0), acquired := 2, drains := map[1 := Acquired("x", []), 2 := Acquired("x", [])]);
    var s2 := s1.(procs := map[11 := Proc("x", true, Unowned, false)], drains := map[1 := Launched("x", 11, []), 2 := Acquired("x", [])]);
    Stops(TwiceLaunched(), steps[3..]);
    Unroll(s2, steps[2..], TwiceLaunched(), TwiceLaunched());
    Unroll(s1, steps[1..], s2, TwiceLaunched());
    Unroll(s0, steps, s1, TwiceLaunched());
  }

  lemma Stops(s: Sys, steps: seq<Step>)
    requires steps == []
    ensures Possible(s, steps) && RunSteps(s, steps) == s
  {
  }

  function Procs(first: Proc): map<Pid, Proc> {
    map[11 := first, 12 := Proc("x", true, Unowned, false)]
  }

  function StopSteps(): seq<Step> {
    [DrainRecord(1), DrainOwn(1), StopRead(7, "x"), StopKill(7)]
  }

  function ReopenSteps(): seq<Step> {
    [StopFinish(7), StopRelease(7), DrainRecord(2)]
  }

  function LateFinishSteps(): seq<Step> {
    [WaiterFinish(11), WaiterRelease(11)]
  }

  /** The stop has killed process 11 and not yet told the ledger. */
  function Killing(): Sys {
    Sys(2, Some(0), map["x" := Row(Running, Some(11))], Procs(Proc("x", false, Waiting, false)),
        map[1 := Trying([]), 2 := Launched("x", 12, [])], map[7 := Killed("x", 11)], 2, 0)
  }

  /** The stop has cancelled the row and given back a slot, and the second drain has reopened the row. */
  function Reopened(): Sys {
    Sys(2, Some(1), map["x" := Row(Running, Some(12))], Procs(Proc("x", false, Waiting, true)),
        map[1 := Trying([]), 2 := Recorded("x", 12, [])], map[], 2, 1)
  }

  function FreedTwice(): Sys {
    Reopened().(free := Some(2), rows := map["x" := Row(Finished, Some(12))], procs := Procs(Proc("x", false, Over, true)), released := 2)
  }

  /** The first process runs and has its waiter; the second is launched. */
  function FirstRunning(): Sys {
    Sys(2, Some(0), map["x" := Row(Running, Some(11))], Procs(Proc("x", true, Waiting, false)),
        map[1 := Trying([]), 2 := Launched("x", 12, [])], map[], 2, 0)
  }

  lemma StartsTheFirst()
    ensures var steps := [DrainRecord(1), DrainOwn(1)];
      Possible(TwiceLaunched(), steps) && RunSteps(TwiceLaunched(), steps) == FirstRunning()
  {
    hide Possible, RunSteps;
    var s0, steps := TwiceLaunched(), [DrainRecord(1), DrainOwn(1)];
    var s1 := s0.(rows := map["x" := Row(Running, Some(11))], drains := map[1 := Recorded("x", 11, []), 2 := Launched("x", 12, [])]);
    Stops(FirstRunning(), steps[2..]);
    Unroll(s1, steps[1..], FirstRunning(), FirstRunning());
    Unroll(s0, steps, s1, FirstRunning());
  }

  lemma KillsTheFirst()
    ensures var steps := [StopRead(7, "x"), StopKill(7)];
      Possible(FirstRunning(), steps) && RunSteps(FirstRunning(), steps) == Killing()
  {
    hide Possible, RunSteps;
    var s0, steps := FirstRunning(), [StopRead(7, "x"), StopKill(7)];
    var s1 := s0.(stops := map[7 := Read("x", 11)]);
    Stops(Killing(), steps[2..]);
    Unroll(s1, steps[1..], Killing(), Killing());
    Unroll(s0, steps, s1, Killing());
  }

  lemma StopsTheFirst()
    ensures Possible(TwiceLaunched(), StopSteps()) && RunSteps(TwiceLaunched(), StopSteps()) == Killing()
  {
    StartsTheFirst();
    KillsTheFirst();
    hide Possible, RunSteps, Next, Enabled, TwiceLaunched, FirstRunning, Killing;
    var first, last := [DrainRecord(1), DrainOwn(1)], [StopRead(7, "x"), StopKill(7)];
    RunThenRun(TwiceLaunched(), first, last);
    assert StopSteps() == first + last;
  }

  /** The stop's finish has won and its slot is still to be given back. */
  function Cancelling(): Sys {
    Sys(2, Some(0), map["x" := Row(Cancelled, Some(11))], Procs(Proc("x", false, Waiting, true)),
        map[1 := Trying([]), 2 := Launched("x", 12, [])], map[7 := StopWon], 2, 0)
  }

  lemma TheStopWins()
    ensures Enabled(Killing(), StopFinish(7)) && Next(Killing(), StopFinish(7)) == Cancelling()
  {
  }

  lemma ReopensTheRow()
    ensures Possible(Killing(), ReopenSteps()) && RunSteps(Killing(), ReopenSteps()) == Reopened()
  {
    hide Possible, RunSteps;
    TheStopWins();
    var s1, steps := Cancelling(), ReopenSteps();
    var s2 := s1.(free := Some(1), released := 1, stops := map[]);
    Stops(Reopened(), steps[3..]);
    Unroll(s2, steps[2..], Reopened(), Reopened());
    Unroll(s1, steps[1..], s2, Reopened());
    hide Next, Enabled;
    Unroll(Killing(), steps, s1, Reopened());
  }

  lemma FinishesLate()
    ensures Possible(Reopened(), LateFinishSteps()) && RunSteps(Reopened(), LateFinishSteps()) == FreedTwice()
  {
    hide Possible, RunSteps;
    var s0, steps := Reopened(), LateFinishSteps();
    var s1 := s0.(rows := map["x" := Row(Finished, Some(12))], procs := Procs(Proc("x", false, Won, true)));
    Stops(FreedTwice(), steps[2..]);
    Unroll(s1, steps[1..], FreedTwice(), FreedTwice());
    Unroll(s0, steps, s1, FreedTwice());
  }

  lemma {:induction false} RunThenRun(s: Sys, a: seq<Step>, b: seq<Step>)
    requires Possible(s, a) && Possible(RunSteps(s, a), b)
    ensures Possible(s, a + b) && RunSteps(s, a + b) == RunSteps(RunSteps(s, a), b)
    decreases |a|
  {
    hide Next;
    if a == [] {
      assert a + b == b;
    } else {
      assert (a + b)[1..] == a[1..] + b && (a + b)[0] == a[0];
      RunThenRun(Next(s, a[0]), a[1..], b);
    }
  }

  /**
   * Two drains launch one item, a stop cancels it between their two records, and the second record reopens the row: the
   * killed process's waiter then finishes it too, and both slots are free while the second process still runs.
   */
  lemma AStopBetweenTwoStartsFreesTwice()
    ensures Fresh(OneItemQueue())
    ensures var steps := ListSteps() + (LaunchSteps() + (StopSteps() + (ReopenSteps() + LateFinishSteps())));
      Possible(OneItemQueue(), steps) && RunSteps(OneItemQueue(), steps) == FreedTwice()
    ensures 12 in LiveProcs(FreedTwice()) && FreedTwice().acquired - FreedTwice().released == 0
  {
    hide Possible, RunSteps, TwiceLaunched, BothListed, Killing, ListSteps, LaunchSteps, StopSteps, ReopenSteps, LateFinishSteps, OneItemQueue, Fresh;
    ListsTwice();
    LaunchesTwice();
    StopsTheFirst();
    ReopensTheRow();
    FinishesLate();
    RunThenRun(Killing(), ReopenSteps(), LateFinishSteps());
    RunThenRun(TwiceLaunched(), StopSteps(), ReopenSteps() + LateFinishSteps());
    RunThenRun(BothListed(), LaunchSteps(), StopSteps() + (ReopenSteps() + LateFinishSteps()));
    RunThenRun(OneItemQueue(), ListSteps(), LaunchSteps() + (StopSteps() + (ReopenSteps() + LateFinishSteps())));
  }

  /** A process left over from an earlier lifetime, stopped before this one has made its semaphore. */
  function Orphaned(): Sys {
    Sys(1, None, map["x" := Row(Running, Some(11))], map[11 := Proc("x", true, Over, false)], map[], map[], 0, 0)
  }

  function OrphanKilled(): Sys {
    Orphaned().(procs := map[11 := Proc("x", false, Over, false)], stops := map[7 := Killed("x", 11)])
  }

  function OrphanCancelled(): Sys {
    OrphanKilled().(
      rows := map["x" := Row(Cancelled, Some(11))], procs := map[11 := Proc("x", false, Over, true)], stops := map[7 := StopWon])
  }

  lemma StopsTheOrphan()
    ensures Possible(Orphaned(), [StopRead(7, "x"), StopKill(7)])
    ensures RunSteps(Orphaned(), [StopRead(7, "x"), StopKill(7)]) == OrphanKilled()
  {
    hide Possible, RunSteps;
    var steps := [StopRead(7, "x"), StopKill(7)];
    var read := Orphaned().(stops := map[7 := Read("x", 11)]);
    Stops(OrphanKilled(), steps[2..]);
    Unroll(read, steps[1..], OrphanKilled(), OrphanKilled());
    Unroll(Orphaned(), steps, read, OrphanKilled());
  }

  lemma ReleasesForTheOrphan()
    ensures Possible(OrphanKilled(), [StopFinish(7), StopRelease(7)])
    ensures RunSteps(OrphanKilled(), [StopFinish(7), StopRelease(7)]).free == Some(2)
  {
    hide Possible, RunSteps;
    var steps := [StopFinish(7), StopRelease(7)];
    var released := OrphanCancelled().(free := Some(2), released := 1, stops := map[]);
    assert RunningItems(OrphanCancelled().rows) == {};
    Stops(released, steps[2..]);
    Unroll(OrphanCancelled(), steps[1..], released, released);
    Unroll(OrphanKilled(), steps, OrphanCancelled(), released);
  }

  /** The semaphore is made without the stopped orphan and then released for it: one slot more than the concurrency. */
  lemma StoppingAnOrphanMakesASlot()
    ensures var steps := [StopRead(7, "x"), StopKill(7)] + [StopFinish(7), StopRelease(7)];
      Possible(Orphaned(), steps) && RunSteps(Orphaned(), steps).free == Some(Orphaned().concurrency + 1)
  {
    hide Possible, RunSteps, OrphanKilled;
    StopsTheOrphan();
    ReleasesForTheOrphan();
    RunThenRun(Orphaned(), [StopRead(7, "x"), StopKill(7)], [StopFinish(7), StopRelease(7)]);
  }
}

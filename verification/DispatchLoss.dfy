/**
 * groom/groom/dispatch.py, the slots a queue never gets back: a waiter whose finish loses does not release, although no
 * other finish was its process's own.
 */
module DispatchLoss {
  import opened Collections
  import opened Wrappers
  import opened Dispatch

  /** No drain, no stop, no live process, and no waiter with anything left to do. */
  predicate Quiet(s: Sys) {
    && s.drains == map[] && s.stops == map[]
    && forall pid :: pid in s.procs ==> !s.procs[pid].alive && !s.procs[pid].waiter.Waiting? && !s.procs[pid].waiter.Won?
  }

  /** No process whose waiter is over is named by a running row. */
  ghost predicate OverOk(s: Sys) {
    forall pid :: pid in s.procs && s.procs[pid].waiter.Over? ==> NotRunning(s, pid)
  }

  ghost predicate NotRunning(s: Sys, pid: Pid) {
    forall item :: item in s.rows && s.rows[item].status.Running? ==> s.rows[item].pid != Some(pid)
  }

  /** The process's slot was never given back, and no thread is left that could. */
  ghost predicate Lost(s: Sys, pid: Pid) {
    && pid in s.procs && s.procs[pid].waiter.Over? && !s.procs[pid].freed
    && NotRunning(s, pid)
    && forall t :: t in s.stops && !s.stops[t].StopWon? ==> s.stops[t].pid != pid
  }

  // ---- a process whose waiter is over ----

  lemma OverStaysNotRunning(s: Sys, step: Step, pid: Pid)
    requires Wired(s) && Enabled(s, step) && pid in s.procs && s.procs[pid].waiter.Over? && NotRunning(s, pid)
    ensures pid in Next(s, step).procs && Next(s, step).procs[pid].waiter.Over? && NotRunning(Next(s, step), pid)
  {
    hide SlotOk, RowsOk, ProcsOk, LaunchesOk, DistinctLaunches, Unknown;
    if step.DrainRecord? || step.DrainOwn? {
      assert DrainOk(s, s.drains[step.t]);
    }
  }

  lemma WaiterEndsNotRunning(s: Sys, step: Step, pid: Pid)
    requires Wired(s) && Enabled(s, step) && pid in s.procs && !s.procs[pid].waiter.Over?
    requires Next(s, step).procs[pid].waiter.Over?
    ensures NotRunning(Next(s, step), pid)
  {
    hide SlotOk, ProcsOk, StopsOk, DrainsOk, LaunchesOk;
    assert step == WaiterFinish(pid) || step == WaiterRelease(pid);
    if step.WaiterRelease? {
      WinnersAreFreed(s, pid);
    }
  }

  lemma WinnersAreFreed(s: Sys, pid: Pid)
    requires Wired(s) && pid in s.procs && s.procs[pid].waiter.Won?
    ensures s.procs[pid].freed
  {
    assert ProcOk(s, pid);
  }

  lemma OverWasThere(s: Sys, step: Step, pid: Pid)
    requires Enabled(s, step) && pid in Next(s, step).procs && Next(s, step).procs[pid].waiter.Over?
    ensures pid in s.procs
  {
  }

  lemma StepKeepsOver(s: Sys, step: Step)
    requires Wired(s) && OverOk(s) && Enabled(s, step)
    ensures OverOk(Next(s, step))
  {
    hide Wired, NotRunning, Enabled;
    forall pid | pid in Next(s, step).procs && Next(s, step).procs[pid].waiter.Over? ensures NotRunning(Next(s, step), pid) {
      OverWasThere(s, step, pid);
      if s.procs[pid].waiter.Over? {
        OverStaysNotRunning(s, step, pid);
      } else {
        WaiterEndsNotRunning(s, step, pid);
      }
    }
  }

  /** No step gives a lost slot back. */
  lemma LostStaysLost(s: Sys, step: Step, pid: Pid)
    requires Wired(s) && Enabled(s, step) && Lost(s, pid)
    ensures Lost(Next(s, step), pid)
  {
    OverStaysNotRunning(s, step, pid);
    hide Wired;
  }

  // ---- a quiet queue ----

  /** In a quiet queue every slot is free exactly when every process's slot was given back. */
  lemma QuietQueueIsWholeExactlyWhen(s: Sys)
    requires Wired(s) && Accounted(s) && s.free.Some? && Quiet(s)
    ensures s.free.value == s.concurrency - |UnfreedProcs(s)|
    ensures s.free.value == s.concurrency <==> forall pid :: pid in s.procs && s.procs[pid].waiter.Over? ==> s.procs[pid].freed
  {
    hide RowsOk, ProcsOk, DrainsOk, StopsOk;
    assert HoldingDrains(s) == {} && WinningWaiters(s) == {} && WinningStops(s) == {};
    forall pid | pid in s.procs ensures s.procs[pid].waiter.Over? {
      QuietIsOver(s, pid);
    }
    assert UnfreedProcs(s) == {} <==> forall pid :: pid in s.procs && s.procs[pid].waiter.Over? ==> s.procs[pid].freed by {
      assert forall pid :: pid in s.procs && !s.procs[pid].freed ==> pid in UnfreedProcs(s);
    }
    assert |UnfreedProcs(s)| == 0 <==> UnfreedProcs(s) == {};
  }

  lemma QuietIsOver(s: Sys, pid: Pid)
    requires Wired(s) && Quiet(s) && pid in s.procs
    ensures s.procs[pid].waiter.Over?
  {
    assert forall t :: !HeldBy(s, pid, t);
  }

  lemma {:induction false} LostStaysLostOverRuns(s: Sys, steps: seq<Step>, pid: Pid)
    requires Inv(s) && Guarded(s, steps) && Lost(s, pid)
    ensures Possible(s, steps) && Lost(RunSteps(s, steps), pid)
    decreases |steps|
  {
    hide Inv, Next, HarmlessStart, Lost;
    if steps != [] {
      StepKeepsInv(s, steps[0]);
      InvIsWired(s);
      LostStaysLost(s, steps[0], pid);
      LostStaysLostOverRuns(Next(s, steps[0]), steps[1..], pid);
    }
  }

  lemma StepKeepsConcurrency(s: Sys, step: Step)
    requires Enabled(s, step)
    ensures Next(s, step).concurrency == s.concurrency && (s.free.Some? ==> Next(s, step).free.Some?)
  {
  }

  lemma {:induction false} RunKeepsSemaphore(s: Sys, steps: seq<Step>)
    requires Possible(s, steps)
    ensures RunSteps(s, steps).concurrency == s.concurrency && (s.free.Some? ==> RunSteps(s, steps).free.Some?)
    decreases |steps|
  {
    hide Next, Enabled;
    if steps != [] {
      StepKeepsConcurrency(s, steps[0]);
      RunKeepsSemaphore(Next(s, steps[0]), steps[1..]);
    }
  }

  lemma {:induction false} RunKeepsOver(s: Sys, steps: seq<Step>)
    requires Inv(s) && OverOk(s) && Guarded(s, steps)
    ensures Possible(s, steps) && OverOk(RunSteps(s, steps)) && Inv(RunSteps(s, steps))
    decreases |steps|
  {
    hide Inv, Next, HarmlessStart, OverOk;
    if steps != [] {
      StepKeepsInv(s, steps[0]);
      InvIsWired(s);
      StepKeepsOver(s, steps[0]);
      RunKeepsOver(Next(s, steps[0]), steps[1..]);
    }
  }

  /**
   * A slot missing from a quiet queue is missing for good: whatever guarded run follows, never are more slots free than
   * in the quiet moment.
   */
  lemma SlotsAreLostForGood(s: Sys, steps: seq<Step>, more: seq<Step>)
    requires Fresh(s) && Guarded(s, steps) && Possible(s, steps)
    requires var quiet := RunSteps(s, steps); Quiet(quiet) && quiet.free.Some? && Guarded(quiet, more)
    ensures var quiet := RunSteps(s, steps);
      && Possible(quiet, more)
      && var end := RunSteps(quiet, more); end.free.Some? && end.free.value <= quiet.free.value
  {
    var quiet := RunSteps(s, steps);
    FreshSatisfiesInv(s);
    assert OverOk(s);
    RunKeepsOver(s, steps);
    RunKeepsOver(quiet, more);
    RunKeepsSemaphore(quiet, more);
    QuietSlotsBoundLaterOnes(quiet, more);
  }

  lemma QuietSlotsBoundLaterOnes(quiet: Sys, more: seq<Step>)
    requires Inv(quiet) && OverOk(quiet) && Quiet(quiet) && quiet.free.Some? && Guarded(quiet, more) && Possible(quiet, more)
    requires var end := RunSteps(quiet, more); Inv(end) && end.free.Some? && end.concurrency == quiet.concurrency
    ensures RunSteps(quiet, more).free.value <= quiet.free.value
  {
    var end := RunSteps(quiet, more);
    QuietQueueIsWholeExactlyWhen(quiet);
    forall pid | pid in UnfreedProcs(quiet) ensures pid in UnfreedProcs(end) {
      QuietIsOver(quiet, pid);
      LostStaysLostOverRuns(quiet, more, pid);
    }
    SubsetIsNoLarger(UnfreedProcs(quiet), UnfreedProcs(end));
    hide RowsOk, ProcsOk, DrainsOk, StopsOk, LaunchesOk, NoStaleFinishers;
  }

  // ---- two drains that launch one item ----

  function RecordSteps(): seq<Step> {
    [DrainRecord(1), DrainRecord(2)]
  }

  function OwnSteps(): seq<Step> {
    [DrainOwn(1), DrainOwn(2)]
  }

  function EndSteps(): seq<Step> {
    [DrainAcquire(1), DrainAcquire(2)]
  }

  function FinishSteps(): seq<Step> {
    [WaiterFinish(11), WaiterFinish(12), WaiterRelease(11)]
  }

  function ExitSteps(): seq<Step> {
    [Exit(11), Exit(12)]
  }

  function TwoProcs(first: Proc, second: Proc): map<Pid, Proc> {
    map[11 := first, 12 := second]
  }

  /** Both processes run and have their waiter, and the row names the second. */
  function BothRunning(): Sys {
    var proc := Proc("x", true, Waiting, false);
    Sys(2, Some(0), map["x" := Row(Running, Some(12))], TwoProcs(proc, proc), map[], map[], 2, 0)
  }

  /** Both have exited; the first waiter won the row and released, the second lost it. */
  function OneSlotShort(): Sys {
    Sys(2, Some(1), map["x" := Row(Finished, Some(12))],
        TwoProcs(Proc("x", false, Over, true), Proc("x", false, Over, false)), map[], map[], 2, 1)
  }

  lemma UnrollGuarded(s: Sys, steps: seq<Step>, mid: Sys, end: Sys)
    requires steps != [] && Enabled(s, steps[0]) && HarmlessStart(s, steps[0]) && Next(s, steps[0]) == mid
    requires Guarded(mid, steps[1..]) && Possible(mid, steps[1..]) && RunSteps(mid, steps[1..]) == end
    ensures Guarded(s, steps) && Possible(s, steps) && RunSteps(s, steps) == end
  {
  }

  /** The ledger names the second process, and neither has its waiter yet. */
  function BothRecorded(): Sys {
    TwiceLaunched().(
      rows := map["x" := Row(Running, Some(12))], drains := map[1 := Recorded("x", 11, []), 2 := Recorded("x", 12, [])])
  }

  lemma BothRecord()
    ensures Guarded(TwiceLaunched(), RecordSteps()) && Possible(TwiceLaunched(), RecordSteps())
    ensures RunSteps(TwiceLaunched(), RecordSteps()) == BothRecorded()
  {
    hide Possible, RunSteps, Guarded;
    var s0, steps, end := TwiceLaunched(), RecordSteps(), BothRecorded();
    var s1 := s0.(rows := map["x" := Row(Running, Some(11))], drains := map[1 := Recorded("x", 11, []), 2 := Launched("x", 12, [])]);
    Rests(end, steps[2..]);
    UnrollGuarded(s1, steps[1..], end, end);
    UnrollGuarded(s0, steps, s1, end);
  }

  /** Both have their waiter, and their drains have nothing left to try. */
  function BothOwned(): Sys {
    BothRunning().(drains := map[1 := Trying([]), 2 := Trying([])])
  }

  lemma BothOwn()
    ensures Possible(BothRecorded(), OwnSteps()) && RunSteps(BothRecorded(), OwnSteps()) == BothOwned()
  {
    hide Possible, RunSteps;
    var s0, steps, end := BothRecorded(), OwnSteps(), BothOwned();
    var s1 := s0.(procs := TwoProcs(Proc("x", true, Waiting, false), Proc("x", true, Unowned, false)),
                  drains := map[1 := Trying([]), 2 := Recorded("x", 12, [])]);
    Stops(end, steps[2..]);
    Unroll(s1, steps[1..], end, end);
    Unroll(s0, steps, s1, end);
  }

  lemma BothEnd()
    ensures Possible(BothOwned(), EndSteps()) && RunSteps(BothOwned(), EndSteps()) == BothRunning()
  {
    hide Possible, RunSteps;
    var s0, steps, end := BothOwned(), EndSteps(), BothRunning();
    var s1 := s0.(drains := map[2 := Trying([])]);
    Stops(end, steps[2..]);
    Unroll(s1, steps[1..], end, end);
    Unroll(s0, steps, s1, end);
  }

  function BothExited(): Sys {
    var proc := Proc("x", false, Waiting, false);
    BothRunning().(procs := TwoProcs(proc, proc))
  }

  lemma BothExit()
    ensures Possible(BothRunning(), ExitSteps()) && RunSteps(BothRunning(), ExitSteps()) == BothExited()
  {
    hide Possible, RunSteps;
    var s0, steps, end := BothRunning(), ExitSteps(), BothExited();
    var s1 := s0.(procs := TwoProcs(Proc("x", false, Waiting, false), Proc("x", true, Waiting, false)));
    Stops(end, steps[2..]);
    Unroll(s1, steps[1..], end, end);
    Unroll(s0, steps, s1, end);
  }

  lemma BothFinish()
    ensures Possible(BothExited(), FinishSteps()) && RunSteps(BothExited(), FinishSteps()) == OneSlotShort()
  {
    hide Possible, RunSteps;
    var s0, steps, end := BothExited(), FinishSteps(), OneSlotShort();
    var finished := map["x" := Row(Finished, Some(12))];
    var s1 := s0.(rows := finished, procs := TwoProcs(Proc("x", false, Won, true), Proc("x", false, Waiting, false)));
    var s2 := s1.(procs := TwoProcs(Proc("x", false, Won, true), Proc("x", false, Over, false)));
    Stops(end, steps[3..]);
    Unroll(s2, steps[2..], end, end);
    Unroll(s1, steps[1..], s2, end);
    Unroll(s0, steps, s1, end);
  }

  lemma Rests(s: Sys, steps: seq<Step>)
    requires steps == []
    ensures Guarded(s, steps) && Possible(s, steps) && RunSteps(s, steps) == s
  {
  }

  lemma {:induction false} NoStartsAreGuarded(s: Sys, steps: seq<Step>)
    requires Possible(s, steps) && NoStarts(steps)
    ensures Guarded(s, steps)
    decreases |steps|
  {
    hide Next, Enabled;
    if steps != [] {
      assert !steps[0].DrainRecord?;
      assert forall i :: 0 <= i < |steps[1..]| ==> steps[1..][i] == steps[i + 1];
      NoStartsAreGuarded(Next(s, steps[0]), steps[1..]);
    }
  }

  lemma {:induction false} GuardedThenGuarded(s: Sys, a: seq<Step>, b: seq<Step>)
    requires Guarded(s, a) && Possible(s, a) && Guarded(RunSteps(s, a), b)
    ensures Guarded(s, a + b)
    decreases |a|
  {
    hide Next, Enabled, HarmlessStart;
    if a == [] {
      assert a + b == b;
    } else {
      assert (a + b)[1..] == a[1..] + b && (a + b)[0] == a[0];
      GuardedThenGuarded(Next(s, a[0]), a[1..], b);
    }
  }

  /** The whole run is guarded: neither start reopens a row. */
  function DoubleLaunchSteps(): seq<Step> {
    ListSteps() + (LaunchSteps() + (RecordSteps() + (OwnSteps() + (EndSteps() + (ExitSteps() + FinishSteps())))))
  }

  lemma ListsTwiceGuarded()
    ensures Fresh(OneItemQueue()) && Guarded(OneItemQueue(), ListSteps()) && Possible(OneItemQueue(), ListSteps())
    ensures RunSteps(OneItemQueue(), ListSteps()) == BothListed()
  {
    ListsTwice();
    hide Possible, OneItemQueue, BothListed, RunSteps, Guarded;
    NoStartsAreGuarded(OneItemQueue(), ListSteps());
  }

  lemma LaunchesTwiceGuarded()
    ensures Guarded(BothListed(), LaunchSteps()) && Possible(BothListed(), LaunchSteps())
    ensures RunSteps(BothListed(), LaunchSteps()) == TwiceLaunched()
  {
    LaunchesTwice();
    hide Possible, TwiceLaunched, BothListed, RunSteps, Guarded;
    NoStartsAreGuarded(BothListed(), LaunchSteps());
  }

  lemma OwnsAndFinishesGuarded()
    ensures Guarded(BothRecorded(), OwnSteps()) && Possible(BothRecorded(), OwnSteps())
    ensures RunSteps(BothRecorded(), OwnSteps()) == BothOwned()
    ensures Guarded(BothOwned(), EndSteps()) && Possible(BothOwned(), EndSteps())
    ensures RunSteps(BothOwned(), EndSteps()) == BothRunning()
    ensures Guarded(BothRunning(), ExitSteps()) && Possible(BothRunning(), ExitSteps())
    ensures RunSteps(BothRunning(), ExitSteps()) == BothExited()
    ensures Guarded(BothExited(), FinishSteps()) && Possible(BothExited(), FinishSteps())
    ensures RunSteps(BothExited(), FinishSteps()) == OneSlotShort()
  {
    BothOwn();
    BothEnd();
    BothExit();
    BothFinish();
    hide Possible, BothRecorded, BothOwned, BothRunning, BothExited, OneSlotShort, RunSteps, Guarded;
    NoStartsAreGuarded(BothRecorded(), OwnSteps());
    NoStartsAreGuarded(BothOwned(), EndSteps());
    NoStartsAreGuarded(BothRunning(), ExitSteps());
    NoStartsAreGuarded(BothExited(), FinishSteps());
  }

  lemma OneSlotShortIsQuiet()
    ensures Quiet(OneSlotShort()) && OneSlotShort().free == Some(OneSlotShort().concurrency - 1)
  {
  }

  lemma Joined(s: Sys, a: seq<Step>, mid: Sys, b: seq<Step>, end: Sys)
    requires Guarded(s, a) && Possible(s, a) && RunSteps(s, a) == mid
    requires Guarded(mid, b) && Possible(mid, b) && RunSteps(mid, b) == end
    ensures Guarded(s, a + b) && Possible(s, a + b) && RunSteps(s, a + b) == end
  {
    RunThenRun(s, a, b);
    GuardedThenGuarded(s, a, b);
  }

  /** Two drains launch one item; both processes exit, one finish loses, and the quiet queue is a slot short. */
  lemma ADoubleLaunchLosesASlot()
    ensures Fresh(OneItemQueue()) && Guarded(OneItemQueue(), DoubleLaunchSteps()) && Possible(OneItemQueue(), DoubleLaunchSteps())
    ensures RunSteps(OneItemQueue(), DoubleLaunchSteps()) == OneSlotShort()
    ensures Quiet(OneSlotShort()) && OneSlotShort().free == Some(OneSlotShort().concurrency - 1)
  {
    hide Guarded, Possible, RunSteps, TwiceLaunched, BothListed, BothRunning, BothExited, BothOwned, BothRecorded, OneSlotShort, OneItemQueue;
    hide ListSteps, LaunchSteps, RecordSteps, OwnSteps, EndSteps, ExitSteps, FinishSteps, Fresh, Quiet;
    ListsTwiceGuarded();
    LaunchesTwiceGuarded();
    BothRecord();
    OwnsAndFinishesGuarded();
    OneSlotShortIsQuiet();
    var end := OneSlotShort();
    var last := EndSteps() + (ExitSteps() + FinishSteps());
    Joined(BothRunning(), ExitSteps(), BothExited(), FinishSteps(), end);
    Joined(BothOwned(), EndSteps(), BothRunning(), ExitSteps() + FinishSteps(), end);
    Joined(BothRecorded(), OwnSteps(), BothOwned(), last, end);
    Joined(TwiceLaunched(), RecordSteps(), BothRecorded(), OwnSteps() + last, end);
    Joined(BothListed(), LaunchSteps(), TwiceLaunched(), RecordSteps() + (OwnSteps() + last), end);
    Joined(OneItemQueue(), ListSteps(), BothListed(), LaunchSteps() + (RecordSteps() + (OwnSteps() + last)), end);
  }
}

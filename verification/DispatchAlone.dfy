/**
 * groom/groom/dispatch.py: a drain, an exit or a stop by itself, step by step, is what `DispatchQueue` says of it as a whole;
 * so what is proved of every interleaving and what is proved of whole calls speak of one dispatcher.
 */
module DispatchAlone {
  import opened Wrappers
  import opened Dispatch
  import opened DispatchQueue

  /** The semaphore is made with a slot for each row that is not running yet, and with none if more run than there are slots. */
  lemma SemaphoreIsMadeFor(s: Sys)
    requires s.free.None?
    ensures s.Created().Some? && s.Created().value >= 0
    ensures s.Created().value > 0 ==> s.Created().value + |RunningItems(s.rows)| == s.concurrency
    ensures s.Created().value == 0 <==> |RunningItems(s.rows)| >= s.concurrency
  {
  }

  // ---- a drain ----

  /** The processes a drain would start are new and all different. */
  predicate FreshPids(s: Sys, todo: seq<Item>, launch: Launcher) {
    && (forall i :: 0 <= i < |todo| && launch(todo[i]).Some? ==> launch(todo[i]).value !in s.procs)
    && forall i, j :: 0 <= i < j < |todo| && launch(todo[i]).Some? && launch(todo[j]).Some? ==>
         launch(todo[i]).value != launch(todo[j]).value
  }

  function ItemSteps(t: Thread, item: Item, launch: Launcher): seq<Step> {
    match launch(item)
    case None => [DrainAcquire(t), DrainLaunchFails(t), DrainFail(t)]
    case Some(pid) => [DrainAcquire(t), DrainLaunch(t, pid), DrainRecord(t), DrainOwn(t)]
  }

  function DrainSteps(free: nat, t: Thread, todo: seq<Item>, launch: Launcher): seq<Step>
    decreases |todo|
  {
    if todo == [] || free == 0 then [DrainAcquire(t)]
    else ItemSteps(t, todo[0], launch) + DrainSteps(free - Taken(todo[0], launch), t, todo[1..], launch)
  }

  ghost predicate IsDraining(s: Sys, t: Thread, todo: seq<Item>) {
    t in s.drains && s.drains[t] == Trying(todo) && s.free.Some? && s.free.value >= 0
  }

  /** What one item's turn leaves. */
  ghost predicate TriedItem(s: Sys, s': Sys, t: Thread, todo: seq<Item>, launch: Launcher)
    requires todo != [] && s.free.Some?
  {
    && s'.rows == Tried(s.rows, todo[0], launch)
    && s'.free == Some(s.free.value - Taken(todo[0], launch))
    && s'.drains == s.drains[t := Trying(todo[1..])] && s'.stops == s.stops && s'.concurrency == s.concurrency
    && s'.procs.Keys == s.procs.Keys + (if launch(todo[0]).Some? then {launch(todo[0]).value} else {})
  }

  lemma FailingItem(s: Sys, t: Thread, todo: seq<Item>, launch: Launcher)
    requires IsDraining(s, t, todo) && todo != [] && s.free.value > 0 && launch(todo[0]).None?
    ensures var steps := ItemSteps(t, todo[0], launch); Possible(s, steps) && TriedItem(s, RunSteps(s, steps), t, todo, launch)
  {
    hide Possible, RunSteps;
    var steps, n := ItemSteps(t, todo[0], launch), s.free.value;
    var s1 := s.(free := Some(n - 1), acquired := s.acquired + 1, drains := s.drains[t := Acquired(todo[0], todo[1..])]);
    var s2 := s1.(free := Some(n), released := s.released + 1, drains := s.drains[t := Unlaunched(todo[0], todo[1..])]);
    var s3 := s2.(rows := Finish(s.rows, todo[0], Failed), drains := s.drains[t := Trying(todo[1..])]);
    Stops(s3, steps[3..]);
    Unroll(s2, steps[2..], s3, s3);
    Unroll(s1, steps[1..], s2, s3);
    Unroll(s, steps, s1, s3);
  }

  /** A slot taken and the process started, and neither told. */
  function LaunchedNow(s: Sys, t: Thread, item: Item, pid: Pid, rest: seq<Item>): Sys
    requires s.free.Some?
  {
    s.(free := Some(s.free.value - 1), acquired := s.acquired + 1,
       procs := s.procs[pid := Proc(item, true, Unowned, false)], drains := s.drains[t := Launched(item, pid, rest)])
  }

  lemma AcquiresAndLaunches(s: Sys, t: Thread, item: Item, pid: Pid, rest: seq<Item>)
    requires IsDraining(s, t, [item] + rest) && s.free.value > 0 && pid !in s.procs
    ensures var steps := [DrainAcquire(t), DrainLaunch(t, pid)];
      Possible(s, steps) && RunSteps(s, steps) == LaunchedNow(s, t, item, pid, rest)
  {
    hide Possible, RunSteps;
    var steps, end := [DrainAcquire(t), DrainLaunch(t, pid)], LaunchedNow(s, t, item, pid, rest);
    assert ([item] + rest)[1..] == rest;
    var s1 := s.(free := Some(s.free.value - 1), acquired := s.acquired + 1, drains := s.drains[t := Acquired(item, rest)]);
    Stops(end, steps[2..]);
    Unroll(s1, steps[1..], end, end);
    Unroll(s, steps, s1, end);
  }

  lemma RecordsAndOwns(s: Sys, t: Thread, item: Item, pid: Pid, rest: seq<Item>)
    requires t in s.drains && s.drains[t] == Launched(item, pid, rest) && pid in s.procs
    ensures var steps, end := [DrainRecord(t), DrainOwn(t)],
        s.(rows := Start(s.rows, item, pid), procs := s.procs[pid := s.procs[pid].(waiter := Waiting)],
           drains := s.drains[t := Trying(rest)]);
      Possible(s, steps) && RunSteps(s, steps) == end
  {
    hide Possible, RunSteps;
    var steps := [DrainRecord(t), DrainOwn(t)];
    var s1 := s.(rows := Start(s.rows, item, pid), drains := s.drains[t := Recorded(item, pid, rest)]);
    var end := s1.(procs := s.procs[pid := s.procs[pid].(waiter := Waiting)], drains := s.drains[t := Trying(rest)]);
    Stops(end, steps[2..]);
    Unroll(s1, steps[1..], end, end);
    Unroll(s, steps, s1, end);
  }

  lemma LaunchedItem(s: Sys, t: Thread, todo: seq<Item>, launch: Launcher)
    requires IsDraining(s, t, todo) && todo != [] && s.free.value > 0
    requires launch(todo[0]).Some? && launch(todo[0]).value !in s.procs
    ensures var steps := ItemSteps(t, todo[0], launch); Possible(s, steps) && TriedItem(s, RunSteps(s, steps), t, todo, launch)
  {
    hide Possible, RunSteps, Next, Enabled, Start;
    var item, rest, pid := todo[0], todo[1..], launch(todo[0]).value;
    assert todo == [item] + rest;
    var first, last := [DrainAcquire(t), DrainLaunch(t, pid)], [DrainRecord(t), DrainOwn(t)];
    AcquiresAndLaunches(s, t, item, pid, rest);
    var mid := LaunchedNow(s, t, item, pid, rest);
    RecordsAndOwns(mid, t, item, pid, rest);
    RunThenRun(s, first, last);
    assert ItemSteps(t, item, launch) == first + last;
  }

  /** What a whole drain leaves. */
  ghost predicate IsDrained(s: Sys, s': Sys, t: Thread, todo: seq<Item>, launch: Launcher)
    requires s.free.Some? && s.free.value >= 0
  {
    var drained := DrainSpec(s.free.value, s.rows, todo, launch);
    s'.rows == drained.rows && s'.free == Some(drained.free as int) && s'.drains == s.drains - {t} && s'.stops == s.stops
  }

  lemma DrainStops(s: Sys, t: Thread, todo: seq<Item>, launch: Launcher)
    requires IsDraining(s, t, todo) && (todo == [] || s.free.value == 0)
    ensures var steps := DrainSteps(s.free.value, t, todo, launch);
      Possible(s, steps) && IsDrained(s, RunSteps(s, steps), t, todo, launch)
  {
    hide Possible, RunSteps;
    var steps, end := DrainSteps(s.free.value, t, todo, launch), s.(drains := s.drains - {t});
    Stops(end, steps[1..]);
    Unroll(s, steps, end, end);
  }

  /** A drain that no other step comes between leaves the slots and the rows the loop is proved to leave. */
  lemma {:induction false} DrainIsDrainSpec(s: Sys, t: Thread, todo: seq<Item>, launch: Launcher)
    requires IsDraining(s, t, todo) && FreshPids(s, todo, launch)
    ensures var steps := DrainSteps(s.free.value, t, todo, launch);
      Possible(s, steps) && IsDrained(s, RunSteps(s, steps), t, todo, launch)
    decreases |todo|
  {
    if todo == [] || s.free.value == 0 {
      DrainStops(s, t, todo, launch);
    } else {
      var first, rest := ItemSteps(t, todo[0], launch), todo[1..];
      if launch(todo[0]).Some? {
        LaunchedItem(s, t, todo, launch);
      } else {
        FailingItem(s, t, todo, launch);
      }
      hide Possible, RunSteps, ItemSteps, Tried, FreshPids;
      var mid := RunSteps(s, first);
      FreshPidsOfTheRest(s, mid, t, todo, launch);
      DrainIsDrainSpec(mid, t, rest, launch);
      var more := DrainSteps(mid.free.value, t, rest, launch);
      RunThenRun(s, first, more);
      assert mid.drains - {t} == s.drains - {t};
    }
  }

  lemma FreshPidsOfTheRest(s: Sys, mid: Sys, t: Thread, todo: seq<Item>, launch: Launcher)
    requires todo != [] && s.free.Some? && FreshPids(s, todo, launch) && TriedItem(s, mid, t, todo, launch)
    ensures FreshPids(mid, todo[1..], launch)
  {
    hide Tried;
    forall i | 0 <= i < |todo[1..]| && launch(todo[1..][i]).Some? ensures launch(todo[1..][i]).value !in mid.procs {
      assert todo[1..][i] == todo[i + 1];
    }
  }

  // ---- an exit and a stop ----

  function ExitSteps(s: Sys, pid: Pid): seq<Step>
    requires pid in s.procs
  {
    [Exit(pid), WaiterFinish(pid)] + if FinishWins(s.rows, s.procs[pid].item) then [WaiterRelease(pid)] else []
  }

  lemma LosingExit(s: Sys, pid: Pid)
    requires pid in s.procs && s.procs[pid].waiter.Waiting? && !FinishWins(s.rows, s.procs[pid].item)
    ensures var steps := ExitSteps(s, pid);
      Possible(s, steps) && RunSteps(s, steps).rows == s.rows && RunSteps(s, steps).free == s.free
  {
    hide Possible, RunSteps;
    var steps, p := ExitSteps(s, pid), s.procs[pid];
    var s1 := s.(procs := s.procs[pid := p.(alive := false)]);
    var s2 := s1.(procs := s.procs[pid := p.(alive := false, waiter := Over)]);
    Stops(s2, steps[2..]);
    Unroll(s1, steps[1..], s2, s2);
    Unroll(s, steps, s1, s2);
  }

  lemma WinningExit(s: Sys, pid: Pid)
    requires pid in s.procs && s.procs[pid].waiter.Waiting? && s.free.Some? && FinishWins(s.rows, s.procs[pid].item)
    ensures var steps := ExitSteps(s, pid);
      && Possible(s, steps)
      && RunSteps(s, steps).rows == Finish(s.rows, s.procs[pid].item, Finished)
      && RunSteps(s, steps).free == Some(s.free.value + 1)
  {
    hide Possible, RunSteps, Finish;
    var steps, p := ExitSteps(s, pid), s.procs[pid];
    var over := p.(alive := false, waiter := Over, freed := true);
    var s1 := s.(procs := s.procs[pid := p.(alive := false)]);
    var s2 := s1.(rows := Finish(s.rows, p.item, Finished), procs := s.procs[pid := over.(waiter := Won)]);
    var s3 := s2.(free := Some(s.free.value + 1), released := s.released + 1, procs := s.procs[pid := over]);
    Stops(s3, steps[3..]);
    Unroll(s2, steps[2..], s3, s3);
    Unroll(s1, steps[1..], s2, s3);
    Unroll(s, steps, s1, s3);
  }

  /** An exit by itself finishes the process's row and gives its slot back, or does neither if the row is finished already. */
  lemma ExitIsExited(s: Sys, pid: Pid)
    requires pid in s.procs && s.procs[pid].waiter.Waiting? && s.free.Some?
    ensures var steps, item := ExitSteps(s, pid), s.procs[pid].item;
      && Possible(s, steps)
      && var end := RunSteps(s, steps);
         if FinishWins(s.rows, item) then end.rows == Finish(s.rows, item, Finished) && end.free == Some(s.free.value + 1)
         else end.rows == s.rows && end.free == s.free
  {
    if FinishWins(s.rows, s.procs[pid].item) {
      WinningExit(s, pid);
    } else {
      LosingExit(s, pid);
    }
    hide Possible, RunSteps, ExitSteps, Finish;
  }

  /** The process killed, and the ledger not yet told. */
  function KilledNow(s: Sys, t: Thread, item: Item, pid: Pid): Sys
    requires pid in s.procs
  {
    s.(procs := s.procs[pid := s.procs[pid].(alive := false)], stops := s.stops[t := Killed(item, pid)])
  }

  lemma ReadsAndKills(s: Sys, t: Thread, item: Item, pid: Pid)
    requires Enabled(s, StopRead(t, item)) && s.rows[item].pid == Some(pid) && pid in s.procs
    ensures var steps := [StopRead(t, item), StopKill(t)];
      Possible(s, steps) && RunSteps(s, steps) == KilledNow(s, t, item, pid)
  {
    hide Possible, RunSteps;
    var steps, end := [StopRead(t, item), StopKill(t)], KilledNow(s, t, item, pid);
    var s1 := s.(stops := s.stops[t := Read(item, pid)]);
    Stops(end, steps[2..]);
    Unroll(s1, steps[1..], end, end);
    Unroll(s, steps, s1, end);
  }

  lemma FinishesAndReleases(s: Sys, t: Thread, item: Item, pid: Pid)
    requires t in s.stops && s.stops[t] == Killed(item, pid) && pid in s.procs && FinishWins(s.rows, item)
    ensures var steps, rows := [StopFinish(t), StopRelease(t)], Finish(s.rows, item, Cancelled);
      && Possible(s, steps)
      && RunSteps(s, steps) == s.(
           rows := rows, procs := s.procs[pid := s.procs[pid].(freed := true)], stops := s.stops - {t},
           free := Some(s.(rows := rows).Created().value + 1), released := s.released + 1)
  {
    hide Possible, RunSteps;
    var steps, rows := [StopFinish(t), StopRelease(t)], Finish(s.rows, item, Cancelled);
    var s1 := s.(rows := rows, procs := s.procs[pid := s.procs[pid].(freed := true)], stops := s.stops[t := StopWon]);
    assert s1.Created() == s.(rows := rows).Created() && s1.stops - {t} == s.stops - {t};
    var end := s1.(free := Some(s1.Created().value + 1), released := s.released + 1, stops := s.stops - {t});
    Stops(end, steps[2..]);
    Unroll(s1, steps[1..], end, end);
    Unroll(s, steps, s1, end);
  }

  /** A stop by itself cancels a running row, kills its process and gives a slot back, on a semaphore made then if need be. */
  lemma StopIsStopItem(s: Sys, t: Thread, item: Item, pid: Pid)
    requires Enabled(s, StopRead(t, item)) && s.rows[item].pid == Some(pid) && pid in s.procs
    ensures var steps := [StopRead(t, item), StopKill(t), StopFinish(t), StopRelease(t)];
      && Possible(s, steps)
      && var end, rows := RunSteps(s, steps), Finish(s.rows, item, Cancelled);
      && end.rows == rows && end.free == Some(s.(rows := rows).Created().value + 1)
      && pid in end.procs && !end.procs[pid].alive && end.stops == s.stops
  {
    ReadsAndKills(s, t, item, pid);
    var mid := KilledNow(s, t, item, pid);
    FinishesAndReleases(mid, t, item, pid);
    assert t !in s.stops && mid.stops - {t} == s.stops;
    hide Possible, RunSteps, Next, Enabled, Finish;
    var first, last := [StopRead(t, item), StopKill(t)], [StopFinish(t), StopRelease(t)];
    RunThenRun(s, first, last);
    assert first + last == [StopRead(t, item), StopKill(t), StopFinish(t), StopRelease(t)];
  }
}

/**
 * groom/groom/dispatch.py, one thread at a time: what a drain launches, and that after every call each slot of the
 * queue is free or holds a running row. `Dispatch` has the interleavings.
 */
module DispatchQueue {
  import opened Wrappers
  import opened Dispatch

  type Launcher = Item -> Option<Pid>

  /** What a drain leaves: the free slots and the rows. */
  datatype Drained = Drained(free: nat, rows: map<Item, Row>)

  function Tried(rows: map<Item, Row>, item: Item, launch: Launcher): map<Item, Row> {
    match launch(item)
    case None => Finish(rows, item, Failed)
    case Some(pid) => Start(rows, item, pid)
  }

  function Taken(item: Item, launch: Launcher): nat {
    if launch(item).Some? then 1 else 0
  }

  /** `_drain`: launch pending rows in order while a slot is free; one that cannot be launched is failed. */
  function DrainSpec(free: nat, rows: map<Item, Row>, pending: seq<Item>, launch: Launcher): Drained
    decreases |pending|
  {
    if pending == [] || free == 0 then Drained(free, rows)
    else DrainSpec(free - Taken(pending[0], launch), Tried(rows, pending[0], launch), pending[1..], launch)
  }

  /** How many of the pending rows a drain gets to. */
  function TriedCount(free: nat, pending: seq<Item>, launch: Launcher): (n: nat)
    ensures n <= |pending|
    decreases |pending|
  {
    if pending == [] || free == 0 then 0 else 1 + TriedCount(free - Taken(pending[0], launch), pending[1..], launch)
  }

  /** Distinct rows still pending, in the order the ledger lists them. */
  predicate AllPending(rows: map<Item, Row>, pending: seq<Item>) {
    && (forall i :: 0 <= i < |pending| ==> pending[i] in rows && rows[pending[i]].status.Pending?)
    && forall i, j :: 0 <= i < j < |pending| ==> pending[i] != pending[j]
  }

  lemma TriedRunning(rows: map<Item, Row>, item: Item, launch: Launcher)
    requires item in rows && rows[item].status.Pending?
    ensures |RunningItems(Tried(rows, item, launch))| == |RunningItems(rows)| + Taken(item, launch)
    ensures Tried(rows, item, launch).Keys == rows.Keys
  {
    var after := Tried(rows, item, launch);
    if launch(item).Some? {
      assert RunningItems(after) == RunningItems(rows) + {item};
    } else {
      assert RunningItems(after) == RunningItems(rows);
    }
  }

  lemma TriedKeepsPending(rows: map<Item, Row>, pending: seq<Item>, launch: Launcher)
    requires AllPending(rows, pending) && pending != []
    ensures AllPending(Tried(rows, pending[0], launch), pending[1..])
  {
    var after := Tried(rows, pending[0], launch);
    forall i | 0 <= i < |pending[1..]|
      ensures pending[1..][i] in after && after[pending[1..][i]].status.Pending?
    {
      assert pending[1..][i] == pending[i + 1];
    }
  }

  /** A drain spends one slot for each row it sets running, and stops early only when the slots are used up. */
  lemma {:induction false} DrainConservesSlots(free: nat, rows: map<Item, Row>, pending: seq<Item>, launch: Launcher)
    requires AllPending(rows, pending)
    ensures var after := DrainSpec(free, rows, pending, launch);
      && after.free + |RunningItems(after.rows)| == free + |RunningItems(rows)|
      && after.rows.Keys == rows.Keys
      && (TriedCount(free, pending, launch) < |pending| ==> after.free == 0)
    decreases |pending|
  {
    hide Tried, RunningItems;
    if pending != [] && free > 0 {
      TriedRunning(rows, pending[0], launch);
      TriedKeepsPending(rows, pending, launch);
      DrainConservesSlots(free - Taken(pending[0], launch), Tried(rows, pending[0], launch), pending[1..], launch);
    }
  }

  lemma {:induction false} DrainLeavesOthersAlone(free: nat, rows: map<Item, Row>, pending: seq<Item>, launch: Launcher, item: Item)
    requires item in rows && item !in pending
    ensures var after := DrainSpec(free, rows, pending, launch).rows; item in after && after[item] == rows[item]
    decreases |pending|
  {
    if pending != [] && free > 0 {
      assert pending[0] in pending;
      assert item !in pending[1..];
      DrainLeavesOthersAlone(free - Taken(pending[0], launch), Tried(rows, pending[0], launch), pending[1..], launch, item);
    }
  }

  /** Rows are taken in order: the first `TriedCount` are launched or failed, the others stay pending. */
  lemma {:induction false} DrainTakesInOrder(free: nat, rows: map<Item, Row>, pending: seq<Item>, launch: Launcher, i: nat)
    requires AllPending(rows, pending) && i < |pending|
    ensures var after := DrainSpec(free, rows, pending, launch).rows;
      && pending[i] in after
      && after[pending[i]] ==
           if i >= TriedCount(free, pending, launch) then rows[pending[i]]
           else Tried(rows, pending[i], launch)[pending[i]]
    decreases |pending|
  {
    if free > 0 {
      var rows', rest := Tried(rows, pending[0], launch), pending[1..];
      var free' := free - Taken(pending[0], launch);
      TriedKeepsPending(rows, pending, launch);
      if i == 0 {
        assert pending[0] !in rest;
        DrainLeavesOthersAlone(free', rows', rest, launch, pending[0]);
      } else {
        DrainTakesInOrder(free', rows', rest, launch, i - 1);
      }
    }
  }

  /** One queue driven by one thread: its semaphore and its ledger rows, oldest first. */
  class Queue {
    const concurrency: nat
    var free: Option<nat>
    var rows: map<Item, Row>
    var order: seq<Item>

    /** Once the semaphore exists, every slot is free or holds a running row. */
    ghost predicate Valid()
      reads this
    {
      Sized() && Slots() == concurrency
    }

    /** The ledger lists its rows, and a semaphore still to be made has room for those that run. */
    ghost predicate Sized()
      reads this
    {
      Listed(rows, order) && (free.None? ==> |RunningItems(rows)| <= concurrency)
    }

    /** Slots that are free or hold a running row, or would be once the semaphore is made. */
    ghost function Slots(): nat
      reads this
    {
      if free.Some? then free.value + |RunningItems(rows)| else concurrency
    }

    /** The slots a drain finds free. */
    ghost function FreeSlots(): nat
      requires Sized()
      reads this
    {
      if free.Some? then free.value else concurrency - |RunningItems(rows)|
    }

    /** No slot is free, or nothing is left to launch. */
    ghost predicate Full()
      reads this
    {
      free == Some(0) || (free.Some? && forall item :: item in rows ==> !rows[item].status.Pending?)
    }

    constructor (concurrency: nat)
      ensures Valid() && this.concurrency == concurrency && free == None && rows == map[]
    {
      this.concurrency, free, rows, order := concurrency, None, map[], [];
      new;
      assert RunningItems(rows) == {};
    }

    /** `_slot`: the semaphore, made at its first use from the rows already running. */
    method Slot()
      requires Sized()
      modifies this`free
      ensures Sized() && free == Some(old(FreeSlots())) && Slots() == old(Slots())
    {
      if free.None? {
        var occupied := |RunningItems(rows)|;
        free := Some(if concurrency >= occupied then concurrency - occupied else 0);
      }
    }

    /** `_drain`: no slot is made or lost, and afterwards none is free or no row is pending. */
    method DrainQueue(launch: Launcher)
      requires Sized()
      modifies this`free, this`rows
      ensures Sized() && Full() && Slots() == old(Slots())
      ensures Drained(free.value, rows) == DrainSpec(old(FreeSlots()), old(rows), PendingOf(old(rows), order), launch)
    {
      hide Tried, RunningItems, PendingOf;
      var pending := PendingOf(rows, order);
      PendingIsAllPending(rows, order);
      Slot();
      ghost var start, before := free.value, rows;
      var i := 0;
      while i < |pending| && free.value > 0
        invariant 0 <= i <= |pending| && free.Some?
        invariant DrainSpec(free.value, rows, pending[i..], launch) == DrainSpec(start, before, pending, launch)
        decreases |pending| - i
      {
        assert pending[i..][1..] == pending[i + 1..];
        var proc := launch(pending[i]);
        rows := Tried(rows, pending[i], launch);
        if proc.Some? {
          free := Some(free.value - 1);
        }
        i := i + 1;
      }
      ghost var after := DrainSpec(start, before, pending, launch);
      assert after == Drained(free.value, rows);
      hide DrainSpec;
      DrainConservesSlots(start, before, pending, launch);
      NothingPendingIsLeft(start, before, order, launch);
      assert after.free == free.value && after.rows == rows;
      assert Full();
    }

    /** A slot given back, then a drain. */
    method ReleaseSlot(launch: Launcher)
      requires Sized() && free.Some?
      modifies this`free, this`rows
      ensures Sized() && Full() && Slots() == old(Slots()) + 1
      ensures Drained(free.value, rows) == DrainSpec(old(free.value) + 1, old(rows), PendingOf(old(rows), order), launch)
    {
      hide RunningItems, PendingOf, DrainSpec, Listed;
      free := Some(free.value + 1);
      DrainQueue(launch);
    }

    /**
     * `_own` when its process exits: it finishes its row and frees its slot, and the queue drains if it is still
     * configured; or a stop was there first, and it does nothing.
     */
    method Exited(item: Item, status: Status, configured: bool, launch: Launcher) returns (won: bool)
      requires Valid() && free.Some? && item in rows && !rows[item].status.Pending?
      requires !status.Pending? && !status.Running?
      modifies this`free, this`rows
      ensures won == old(rows[item].status.Running?) && Valid()
      ensures !won ==> free == old(free) && rows == old(rows)
      ensures won && configured ==> Full()
      ensures won && configured ==>
        Drained(free.value, rows)
        == DrainSpec(old(free.value) + 1, Finish(old(rows), item, status), PendingOf(Finish(old(rows), item, status), order), launch)
      ensures won && !configured ==> free == Some(old(free.value) + 1) && rows == Finish(old(rows), item, status)
    {
      won := FinishWins(rows, item);
      if won {
        FinishStopsRunning(rows, item, status);
        hide RunningItems, PendingOf, DrainSpec, Finish;
        rows := Finish(rows, item, status);
        if configured {
          ReleaseSlot(launch);
        } else {
          free := Some(free.value + 1);
        }
      }
    }

    /** The released half of a stop: a slot given back on a semaphore made only now if there was none, then a drain. */
    method ReleaseStopped(launch: Launcher)
      requires Sized()
      modifies this`free, this`rows
      ensures Sized() && Full() && Slots() == old(Slots()) + 1
      ensures Drained(free.value, rows) == DrainSpec(old(FreeSlots()) + 1, old(rows), PendingOf(old(rows), order), launch)
    {
      hide RunningItems, PendingOf, DrainSpec, Listed;
      Slot();
      ReleaseSlot(launch);
    }

    /**
     * `stop`: a row that does not run is left alone; one that does is cancelled, and a slot released if its queue is
     * still configured. That keeps the slots exactly when the semaphore to release on was there, or neither it nor the
     * queue's configuration is.
     */
    method StopItem(item: Item, configured: bool, launch: Launcher) returns (won: bool)
      requires Valid()
      modifies this`free, this`rows
      ensures won <==> old(item in rows && rows[item].status.Running?)
      ensures !won ==> free == old(free) && rows == old(rows)
      ensures won ==> Sized() && (Valid() <==> (configured <==> old(free).Some?))
      ensures won && configured ==> Full() && Slots() == concurrency + (if old(free).None? then 1 else 0)
      ensures won && configured ==>
        Drained(free.value, rows)
        == DrainSpec(
             old(FreeSlots()) + (if old(free).None? then 2 else 1), Finish(old(rows), item, Cancelled),
             PendingOf(Finish(old(rows), item, Cancelled), order), launch)
      ensures won && !configured ==> Slots() == concurrency - (if old(free).Some? then 1 else 0)
      ensures won && !configured ==> free == old(free) && rows == Finish(old(rows), item, Cancelled)
    {
      if item !in rows || !rows[item].status.Running? {
        return false;
      }
      won := FinishWins(rows, item);
      FinishStopsRunning(rows, item, Cancelled);
      hide RunningItems, PendingOf, DrainSpec, Finish, FinishWins;
      rows := Finish(rows, item, Cancelled);
      if configured {
        ReleaseStopped(launch);
      }
    }

    /** `enqueue`: the new row is pending, behind the others, then whatever fits is launched. */
    method EnqueueItem(item: Item, launch: Launcher)
      requires Valid() && item !in rows
      modifies this
      ensures Valid() && Full() && order == old(order) + [item]
      ensures var queued := old(rows)[item := Row(Pending, None)];
        Drained(free.value, rows) == DrainSpec(old(FreeSlots()), queued, PendingOf(queued, order), launch)
    {
      ghost var running := RunningItems(rows);
      rows := rows[item := Row(Pending, None)];
      order := order + [item];
      assert RunningItems(rows) == running;
      hide RunningItems, PendingOf, DrainSpec;
      DrainQueue(launch);
    }
  }

  lemma FinishStopsRunning(rows: map<Item, Row>, item: Item, status: Status)
    requires item in rows && rows[item].status.Running? && !status.Running? && !status.Pending?
    ensures FinishWins(rows, item) && Finish(rows, item, status).Keys == rows.Keys
    ensures |RunningItems(Finish(rows, item, status))| == |RunningItems(rows)| - 1
  {
    assert RunningItems(Finish(rows, item, status)) == RunningItems(rows) - {item};
  }

  /** The ledger lists every row once. */
  ghost predicate Listed(rows: map<Item, Row>, order: seq<Item>) {
    && (forall item :: item in rows <==> item in order)
    && forall i, j :: 0 <= i < j < |order| ==> order[i] != order[j]
  }

  /** `dispatch_pending_for_queue`: the pending rows, oldest first. */
  function PendingOf(rows: map<Item, Row>, order: seq<Item>): seq<Item> {
    if order == [] then []
    else if order[0] in rows && rows[order[0]].status.Pending? then [order[0]] + PendingOf(rows, order[1..])
    else PendingOf(rows, order[1..])
  }

  lemma {:induction false} PendingIsAllPending(rows: map<Item, Row>, order: seq<Item>)
    requires forall i, j :: 0 <= i < j < |order| ==> order[i] != order[j]
    ensures AllPending(rows, PendingOf(rows, order))
    ensures forall item :: item in PendingOf(rows, order) <==> item in order && item in rows && rows[item].status.Pending?
  {
    if order != [] {
      PendingIsAllPending(rows, order[1..]);
      assert order[0] !in order[1..];
      assert order == [order[0]] + order[1..];
    }
  }

  /** A drain with slots left over has left no row pending. */
  lemma NothingPendingIsLeft(free: nat, rows: map<Item, Row>, order: seq<Item>, launch: Launcher)
    requires Listed(rows, order)
    ensures var after := DrainSpec(free, rows, PendingOf(rows, order), launch);
      after.free == 0 || forall item :: item in after.rows ==> !after.rows[item].status.Pending?
  {
    hide Tried;
    var pending := PendingOf(rows, order);
    PendingIsAllPending(rows, order);
    DrainConservesSlots(free, rows, pending, launch);
    var after := DrainSpec(free, rows, pending, launch);
    if after.free > 0 {
      forall item | item in after.rows ensures !after.rows[item].status.Pending? {
        if item in pending {
          var i :| 0 <= i < |pending| && pending[i] == item;
          DrainTakesInOrder(free, rows, pending, launch, i);
          TriedIsNotPending(rows, item, launch);
        } else {
          DrainLeavesOthersAlone(free, rows, pending, launch, item);
        }
      }
    }
  }

  lemma TriedIsNotPending(rows: map<Item, Row>, item: Item, launch: Launcher)
    requires item in rows && rows[item].status.Pending?
    ensures !Tried(rows, item, launch)[item].status.Pending?
  {
  }
}

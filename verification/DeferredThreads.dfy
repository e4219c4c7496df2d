/**
  `queueDefferedWork`, `waitDefferedWork` and the worker of `defferedWorkRoutine` as code over the slot array.
  Each statement on shared state is matched by its step of DeferredWork, kept in the ghost field `engine`.
*/
module DeferredThreads {
  import opened Units
  import opened DeferredWork

  lemma FirstFreeIs(busy: seq<bool>, i: nat)
    requires i < |busy| && !busy[i] && forall j :: 0 <= j < i ==> busy[j]
    ensures FirstFree(busy) == i
  {
  }

  class DefferedWorkQueue {
    const mDeffOngoingJobs: array<bool>
    var mCmdQueue: seq<Work>
    var commands: nat
    var running: Option<Work>
    var serial: nat
    ghost var engine: Engine
    ghost var history: seq<Action>  // the steps taken so far

    ghost predicate Valid()
      reads this, mDeffOngoingJobs
    {
      && mDeffOngoingJobs[..] == engine.busy && mCmdQueue == engine.queue && commands == engine.commands
      && running == engine.running && serial == |engine.slotOf|
      && engine == Run(history, |history|)
      && Shape(engine) && forall slot :: SlotInv(engine, slot)
    }

    /** The items queued so far, by whether their channel is usable. */
    ghost function Items(): seq<bool>
      reads this
    {
      Sent(history, |history|)
    }

    constructor ()
      ensures Valid() && fresh(mDeffOngoingJobs) && engine == Idle()
    {
      mDeffOngoingJobs := new bool[MAX_ONGOING_JOBS](_ => false);
      mCmdQueue, commands, running, serial := [], 0, None, 0;
      engine, history := Idle(), [];
      new;
      forall slot ensures SlotInv(engine, slot) {
        RunKeepsShape([], 0, slot);
      }
      RunKeepsShape([], 0, 0);
    }

    ghost method Advance(a: Action)
      requires engine == Run(history, |history|) && Shape(engine) && forall slot :: SlotInv(engine, slot)
      modifies this`engine, this`history
      ensures engine == Next(old(engine), a) == Run(history, |history|)
      ensures Shape(engine) && forall slot :: SlotInv(engine, slot)
      ensures Items() == old(Items()) + if Queues(old(engine), a) then [a.usable] else []
    {
      hide Next, Run, Shape, SlotInv, Sent, Queues;
      SentOneMore(history, a);
      RunExtends(history, a, |history|);
      history := history + [a];
      assert engine.running.Some? ==> SlotInv(engine, engine.running.value.slot);
      ShapeStep(engine, a);
      forall slot ensures SlotInv(Next(engine, a), slot) {
        SlotStep(engine, a, slot);
      }
      engine := Next(engine, a);
    }

    /** The worker's dequeue; behind a command there is always an item. */
    method TakeNext()
      requires Valid() && running == None && commands > 0
      modifies this
      ensures Valid() && engine == Next(old(engine), Take)
      ensures running == Some(old(mCmdQueue)[0]) && mCmdQueue == old(mCmdQueue)[1..]
      ensures commands == old(commands) - 1 && Items() == old(Items())
    {
      commands := commands - 1;
      running := Some(mCmdQueue[0]);
      mCmdQueue := mCmdQueue[1..];
      Advance(Take);
    }

    lemma RunningSlot()
      requires Valid() && running.Some?
      ensures running.value.slot < MAX_ONGOING_JOBS
    {
      hide Run;
      assert SlotInv(engine, running.value.slot);
    }

    /** The worker's end of an item: clear its slot under the lock, or drop it when its channel is null. */
    method EndItem()
      requires Valid() && running.Some? && engine.queuer == Free
      modifies this, mDeffOngoingJobs
      ensures Valid() && running == None
      ensures engine == Next(old(engine), if old(running).value.usable then Finish else Leak)
      ensures mDeffOngoingJobs[..] == if old(running).value.usable then
                                        old(mDeffOngoingJobs[..])[old(running).value.slot := false]
                                      else old(mDeffOngoingJobs[..])
      ensures mCmdQueue == old(mCmdQueue) && commands == old(commands) && Items() == old(Items())
    {
      RunningSlot();
      assert |engine.busy| == MAX_ONGOING_JOBS;
      hide Run, SlotInv, Shape;
      var dw := running.value;
      if dw.usable {
        mDeffOngoingJobs[dw.slot] := false;
        running := None;
        Advance(Finish);
      } else {
        running := None;
        Advance(Leak);
      }
    }

    /** What the worker can do while somebody else holds `mDeffLock`: take items, drop unusable ones. */
    method WorkerGoesOn()
      requires Valid()
      modifies this
      ensures Valid() && engine.queuer == old(engine.queuer) && engine.slotOf == old(engine.slotOf)
      ensures engine.busy == old(engine.busy) && Items() == old(Items())
    {
      hide Run, SlotInv, Shape, Sent;
      var n: nat := *;
      while n != 0
        invariant Valid() && engine.queuer == old(engine.queuer) && engine.slotOf == old(engine.slotOf)
        invariant engine.busy == old(engine.busy) && Items() == old(Items())
      {
        var choice: nat := *;
        if choice == 0 && running == None && commands > 0 {
          TakeNext();
        } else if choice == 1 && running.Some? && !running.value.usable {
          running := None;
          Advance(Leak);
        }
        n := n - 1;
      }
    }

    /**
      `queueDefferedWork`: -1 when all 25 slots are taken, otherwise the first free slot, now marked, and one more item,
      with the channel it was given.
    */
    method QueueDefferedWork(usable: bool) returns (id: int)
      requires Valid() && engine.queuer == Free
      modifies this, mDeffOngoingJobs
      ensures Valid() && engine.queuer == Free
      ensures id == -1 <==> forall slot :: 0 <= slot < 25 ==> old(mDeffOngoingJobs[slot])
      ensures id == -1 ==> engine == old(engine)
      ensures id != -1 ==>
                && 0 <= id < 25 && !old(mDeffOngoingJobs[id]) && Items() == old(Items()) + [usable]
                && (forall slot :: 0 <= slot < id ==> old(mDeffOngoingJobs[slot]))
                && engine.busy == old(engine.busy)[id := true]
                && engine.slotOf == old(engine.slotOf) + [id]
    {
      hide Run, SlotInv, InSlot, FirstFree, Sent;
      for i := 0 to MAX_ONGOING_JOBS
        invariant Valid() && engine == old(engine)
        invariant mDeffOngoingJobs[..] == old(mDeffOngoingJobs[..])
        invariant forall j :: 0 <= j < i ==> mDeffOngoingJobs[j]
      {
        if !mDeffOngoingJobs[i] {
          FirstFreeIs(engine.busy, i) by {
            assert engine.busy[i] == mDeffOngoingJobs[i];
            assert forall j :: 0 <= j < i ==> engine.busy[j] == mDeffOngoingJobs[j];
          }
          mCmdQueue := mCmdQueue + [Work(i, serial, usable)];
          serial := serial + 1;
          Advance(Enqueue(usable));
          WorkerGoesOn();
          mDeffOngoingJobs[i] := true;
          Advance(Mark);
          WorkerGoesOn();
          commands := commands + 1;
          Advance(Send);
          return i;
        }
      }
      return -1;
    }

    /** The worker and the other callers, any number of times, while this thread does not hold `mDeffLock`. */
    method Others()
      requires Valid() && engine.queuer == Free
      modifies this, mDeffOngoingJobs
      ensures Valid() && engine.queuer == Free && old(engine.slotOf) <= engine.slotOf
    {
      hide Run, SlotInv, Shape;
      var n: nat := *;
      while n != 0
        invariant Valid() && engine.queuer == Free && old(engine.slotOf) <= engine.slotOf
      {
        var choice: nat, usable: bool := *, *;
        if choice == 0 && running == None && commands > 0 {
          TakeNext();
        } else if choice == 1 && running.Some? {
          EndItem();
        } else if choice == 2 {
          var _ := QueueDefferedWork(usable);
        }
        n := n - 1;
      }
    }

    /**
      `waitDefferedWork`, given up after so many returns of `mDeffCond.wait`: when it returns on an id that was
      handed out, the item that got the id has finished.
    */
    method WaitDefferedWork(jobId: int, wakeups: nat, ghost serial: nat) returns (done: bool, jobId': int)
      requires Valid() && engine.queuer == Free
      requires serial < |engine.slotOf| && (0 <= jobId < MAX_ONGOING_JOBS ==> engine.slotOf[serial] == jobId)
      modifies this, mDeffOngoingJobs
      ensures Valid() && engine.queuer == Free
      ensures jobId < 0 || jobId >= 25 ==> done && jobId' == jobId && engine == old(engine)
      ensures 0 <= jobId < 25 && done ==> jobId' == 25 && serial in engine.finished
      ensures !done ==> jobId' == jobId && mDeffOngoingJobs[jobId]
    {
      if MAX_ONGOING_JOBS <= jobId || 0 > jobId {
        return true, jobId;
      }
      var n := wakeups;
      while mDeffOngoingJobs[jobId]
        invariant Valid() && engine.queuer == Free && old(engine.slotOf) <= engine.slotOf
        decreases n
      {
        if n == 0 {
          return false, jobId;
        }
        Others();
        n := n - 1;
      }
      assert !engine.busy[jobId] && engine.slotOf[serial] == old(engine.slotOf)[serial];
      WaitReturnsOnlyAfterFinish(history, |history|, serial);
      return true, MAX_ONGOING_JOBS;
    }
  }
}

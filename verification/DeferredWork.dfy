/**
  The deferred-work engine of QCamera2HWI.cpp: 25 slots, a FIFO of work items, a command semaphore and one
  worker.  `queueDefferedWork` holds `mDeffLock` over its three steps, but the worker dequeues without it.
*/
module DeferredWork {
  import opened Units

  const MAX_ONGOING_JOBS: nat := 25

  /** A work item: its slot (the id handed out), a serial number, and whether its command and channel are usable. */
  datatype Work = Work(slot: nat, serial: nat, usable: bool)

  /** Where the thread inside `queueDefferedWork` is; Free when nobody holds the lock there. */
  datatype Queuer = Free | Enqueued(slot: nat) | Marked(slot: nat)

  /** `slotOf`, `finished` and `leaked` are history; a leaked item was dropped with its slot still marked. */
  datatype Engine = Engine(busy: seq<bool>, queue: seq<Work>, commands: nat, running: Option<Work>, queuer: Queuer,
                           slotOf: seq<nat>, finished: set<nat>, leaked: seq<Work>)

  datatype Action =
    | Enqueue(usable: bool)  // lock, find the first free slot, mCmdQueue.enqueue
    | Mark                   // mDeffOngoingJobs[i] = true
    | Send                   // sendCmd(DO_NEXT_JOB), unlock, return i
    | Take                   // worker: semaphore, getCmd, mCmdQueue.dequeue
    | Finish                 // worker: the work done, under the lock: clear the slot, delete, signal
    | Leak                   // worker: null channel or unknown command, `break` without clearing the slot

  function Clear(n: nat): (busy: seq<bool>)
    ensures |busy| == n && forall i :: 0 <= i < n ==> !busy[i]
  {
    if n == 0 then [] else Clear(n - 1) + [false]
  }

  function Idle(): Engine {
    Engine(Clear(MAX_ONGOING_JOBS), [], 0, None, Free, [], {}, [])
  }

  function FirstFree(busy: seq<bool>): (i: nat)
    ensures i <= |busy| && (i < |busy| ==> !busy[i])
    ensures forall j :: 0 <= j < i ==> busy[j]
  {
    if busy == [] || !busy[0] then 0 else 1 + FirstFree(busy[1..])
  }

  function Next(s: Engine, a: Action): Engine {
    match a
    case Enqueue(usable) =>
      var i := FirstFree(s.busy);
      if s.queuer != Free || i == |s.busy| then s
      else s.(queue := s.queue + [Work(i, |s.slotOf|, usable)], queuer := Enqueued(i), slotOf := s.slotOf + [i])
    case Mark =>
      if !s.queuer.Enqueued? || s.queuer.slot >= |s.busy| then s
      else s.(busy := s.busy[s.queuer.slot := true], queuer := Marked(s.queuer.slot))
    case Send =>
      if !s.queuer.Marked? then s else s.(commands := s.commands + 1, queuer := Free)
    case Take =>
      if s.running.Some? || s.commands == 0 then s
      else if s.queue == [] then s.(commands := s.commands - 1)
      else s.(commands := s.commands - 1, running := Some(s.queue[0]), queue := s.queue[1..])
    case Finish =>
      if s.running.None? || !s.running.value.usable || s.queuer != Free || s.running.value.slot >= |s.busy| then s
      else s.(busy := s.busy[s.running.value.slot := false], running := None,
              finished := s.finished + {s.running.value.serial})
    case Leak =>
      if s.running.None? || s.running.value.usable then s
      else s.(running := None, leaked := s.leaked + [s.running.value])
  }

  function Run(acts: seq<Action>, n: nat): Engine
    requires n <= |acts|
  {
    if n == 0 then Idle() else Next(Run(acts, n - 1), acts[n - 1])
  }

  lemma {:induction false} RunExtends(acts: seq<Action>, a: Action, n: nat)
    requires n <= |acts|
    ensures Run(acts + [a], n) == Run(acts, n)
    ensures n == |acts| ==> Run(acts + [a], n + 1) == Next(Run(acts, n), a)
  {
    hide Next;
    if n != 0 {
      RunExtends(acts, a, n - 1);
    }
  }

  // ----- One item per marked slot -----

  function InSlot(items: seq<Work>, slot: nat): nat {
    if items == [] then 0 else (if items[0].slot == slot then 1 else 0) + InSlot(items[1..], slot)
  }

  /** How many unfinished items carry a slot: queued, running or leaked. */
  function Carriers(s: Engine, slot: nat): nat {
    InSlot(s.queue, slot) + (if s.running.Some? && s.running.value.slot == slot then 1 else 0)
    + InSlot(s.leaked, slot)
  }

  /** The slot is taken: marked, or about to be by the thread that holds the lock. */
  predicate Held(s: Engine, slot: nat) {
    (slot < |s.busy| && s.busy[slot]) || s.queuer == Enqueued(slot)
  }

  predicate SlotInv(s: Engine, slot: nat) {
    Carriers(s, slot) == if Held(s, slot) then 1 else 0
  }

  /**
    One command per queued item, the one being queued excepted, which is still the last; an unmarked slot is the
    one being queued.
  */
  predicate Shape(s: Engine) {
    && |s.busy| == MAX_ONGOING_JOBS
    && |s.queue| == s.commands + (if s.queuer == Free then 0 else 1)
    && (s.queuer != Free ==> s.queue[|s.queue| - 1].slot == s.queuer.slot < MAX_ONGOING_JOBS)
    && (s.queuer.Enqueued? ==> !s.busy[s.queuer.slot])
    && (s.queuer.Marked? ==> s.busy[s.queuer.slot])
  }

  lemma {:induction false} InSlotAppend(items: seq<Work>, w: Work, slot: nat)
    ensures InSlot(items + [w], slot) == InSlot(items, slot) + if w.slot == slot then 1 else 0
  {
    if items == [] {
      assert [] + [w] == [w];
    } else {
      InSlotAppend(items[1..], w, slot);
      assert (items + [w])[1..] == items[1..] + [w];
    }
  }

  lemma ShapeStep(s: Engine, a: Action)
    requires Shape(s)
    requires a.Finish? && s.running.Some? ==> SlotInv(s, s.running.value.slot)
    ensures Shape(Next(s, a))
  {
  }

  lemma SlotStep(s: Engine, a: Action, slot: nat)
    requires Shape(s) && SlotInv(s, slot)
    ensures SlotInv(Next(s, a), slot)
  {
    match a {
      case Enqueue(usable) => InSlotAppend(s.queue, Work(FirstFree(s.busy), |s.slotOf|, usable), slot);
      case Leak => if s.running.Some? { InSlotAppend(s.leaked, s.running.value, slot); }
      case _ =>
    }
  }

  lemma {:induction false} RunKeepsShape(acts: seq<Action>, n: nat, slot: nat)
    requires n <= |acts|
    ensures Shape(Run(acts, n)) && SlotInv(Run(acts, n), slot)
    decreases n
  {
    if n != 0 {
      var s, a := Run(acts, n - 1), acts[n - 1];
      RunKeepsShape(acts, n - 1, slot);
      if s.running.Some? {
        RunKeepsShape(acts, n - 1, s.running.value.slot);
      }
      hide Shape, SlotInv;
      ShapeStep(s, a);
      SlotStep(s, a, slot);
    }
  }

  /**
    In every interleaving, while nobody is inside `queueDefferedWork`, a slot is marked exactly when one
    unfinished item carries it, so ids are never shared; the worker always finds an item behind its command.
  */
  lemma SlotsMatchItems(acts: seq<Action>, n: nat, slot: nat)
    requires n <= |acts| && slot < 25 && Run(acts, n).queuer == Free
    ensures var s := Run(acts, n);
            && |s.busy| == 25
            && (s.busy[slot] <==> Carriers(s, slot) == 1)
            && (!s.busy[slot] <==> Carriers(s, slot) == 0)
            && s.commands == |s.queue|
  {
    RunKeepsShape(acts, n, slot);
  }

  // ----- At most 25 unfinished items -----

  function SumInSlots(items: seq<Work>, k: nat): nat {
    if k == 0 then 0 else SumInSlots(items, k - 1) + InSlot(items, k - 1)
  }

  function SumCarriers(s: Engine, k: nat): nat {
    if k == 0 then 0 else SumCarriers(s, k - 1) + Carriers(s, k - 1)
  }

  predicate SlotsBelow(items: seq<Work>, k: nat) {
    forall i :: 0 <= i < |items| ==> items[i].slot < k
  }

  lemma {:induction false} SumOfTail(items: seq<Work>, k: nat)
    requires items != []
    ensures SumInSlots(items, k) == SumInSlots(items[1..], k) + if items[0].slot < k then 1 else 0
  {
    if k != 0 {
      SumOfTail(items, k - 1);
    }
  }

  lemma {:induction false} SumIsLength(items: seq<Work>, k: nat)
    requires SlotsBelow(items, k)
    ensures SumInSlots(items, k) == |items|
  {
    if items == [] {
      SumOfNothing(k);
    } else {
      SumIsLength(items[1..], k);
      SumOfTail(items, k);
    }
  }

  lemma {:induction false} SumOfNothing(k: nat)
    ensures SumInSlots([], k) == 0
  {
    if k != 0 {
      SumOfNothing(k - 1);
    }
  }

  lemma {:induction false} SumSplits(s: Engine, k: nat)
    ensures SumCarriers(s, k) == SumInSlots(s.queue, k) + SumInSlots(s.leaked, k)
                               + if s.running.Some? && s.running.value.slot < k then 1 else 0
  {
    if k != 0 {
      SumSplits(s, k - 1);
    }
  }

  lemma {:induction false} SumBounded(acts: seq<Action>, n: nat, k: nat)
    requires n <= |acts|
    ensures SumCarriers(Run(acts, n), k) <= k
  {
    if k != 0 {
      SumBounded(acts, n, k - 1);
      RunKeepsShape(acts, n, k - 1);
    }
  }

  predicate AllSlotsBelow(s: Engine) {
    && SlotsBelow(s.queue, MAX_ONGOING_JOBS) && SlotsBelow(s.leaked, MAX_ONGOING_JOBS)
    && (s.running.Some? ==> s.running.value.slot < MAX_ONGOING_JOBS)
    && forall i :: 0 <= i < |s.slotOf| ==> s.slotOf[i] < MAX_ONGOING_JOBS
  }

  lemma SlotsBelowStep(s: Engine, a: Action)
    requires |s.busy| == MAX_ONGOING_JOBS && AllSlotsBelow(s)
    ensures AllSlotsBelow(Next(s, a))
  {
  }

  lemma RunUnfolds(acts: seq<Action>, n: nat)
    requires 0 < n <= |acts|
    ensures Run(acts, n) == Next(Run(acts, n - 1), acts[n - 1])
  {
  }

  lemma {:induction false} RunSlotsBelow(acts: seq<Action>, n: nat)
    requires n <= |acts|
    ensures AllSlotsBelow(Run(acts, n))
  {
    if n != 0 {
      RunSlotsBelow(acts, n - 1);
      RunKeepsShape(acts, n - 1, 0);
      var s := Run(acts, n - 1);
      assert |s.busy| == MAX_ONGOING_JOBS;
      hide *;
      RunUnfolds(acts, n);
      SlotsBelowStep(s, acts[n - 1]);
    }
  }

  lemma AtMostTwentyFive(acts: seq<Action>, n: nat)
    requires n <= |acts|
    ensures var s := Run(acts, n);
            |s.queue| + |s.leaked| + (if s.running.Some? then 1 else 0) <= 25
  {
    var s := Run(acts, n);
    RunSlotsBelow(acts, n);
    SumBounded(acts, n, MAX_ONGOING_JOBS);
    SumSplits(s, MAX_ONGOING_JOBS);
    SumIsLength(s.queue, MAX_ONGOING_JOBS);
    SumIsLength(s.leaked, MAX_ONGOING_JOBS);
  }

  // ----- The items of a run -----

  /** The step queues an item: nobody else is queueing one, and a slot is free. */
  predicate Queues(s: Engine, a: Action): (b: bool)
    ensures b ==> a.Enqueue?
  {
    a.Enqueue? && s.queuer == Free && exists i :: 0 <= i < |s.busy| && !s.busy[i]
  }

  /** Whether the channel of each item queued so far is usable, in the order of queueing. */
  function Sent(acts: seq<Action>, n: nat): seq<bool>
    requires n <= |acts|
  {
    if n == 0 then []
    else if Queues(Run(acts, n - 1), acts[n - 1]) then Sent(acts, n - 1) + [acts[n - 1].usable]
    else Sent(acts, n - 1)
  }

  /** The item is one of those, with the channel it was queued with. */
  predicate FromSent(w: Work, sent: seq<bool>) {
    w.serial < |sent| && w.usable == sent[w.serial]
  }

  /**
    The worker takes items first in, first out; each keeps its channel; what it finished had a usable one, and what it
    dropped had none.
  */
  ghost predicate Faithful(s: Engine, sent: seq<bool>) {
    && |s.slotOf| == |sent| && |s.queue| <= |sent|
    && (forall i :: 0 <= i < |s.queue| ==>
          FromSent(s.queue[i], sent) && s.queue[i].serial == |sent| - |s.queue| + i)
    && (s.running.Some? ==> FromSent(s.running.value, sent) && s.running.value.serial == |sent| - |s.queue| - 1)
    && (forall serial <- s.finished :: serial < |sent| && sent[serial])
    && (forall i :: 0 <= i < |s.leaked| ==> FromSent(s.leaked[i], sent) && !s.leaked[i].usable)
  }

  lemma FaithfulStep(s: Engine, a: Action, sent: seq<bool>)
    requires Shape(s) && Faithful(s, sent)
    ensures Faithful(Next(s, a), if Queues(s, a) then sent + [a.usable] else sent)
  {
  }

  lemma IdleIsFaithful()
    ensures Faithful(Idle(), [])
  {
  }

  lemma {:induction false} RunIsFaithful(acts: seq<Action>, n: nat)
    requires n <= |acts|
    ensures Faithful(Run(acts, n), Sent(acts, n))
  {
    hide Faithful, Shape, Next, Queues;
    if n != 0 {
      RunIsFaithful(acts, n - 1);
      RunKeepsShape(acts, n - 1, 0);
      RunUnfolds(acts, n);
      FaithfulStep(Run(acts, n - 1), acts[n - 1], Sent(acts, n - 1));
    } else {
      IdleIsFaithful();
    }
  }

  lemma {:induction false} SentExtends(acts: seq<Action>, a: Action, n: nat)
    requires n <= |acts|
    ensures Sent(acts + [a], n) == Sent(acts, n)
  {
    hide Next, Queues;
    if n != 0 {
      SentExtends(acts, a, n - 1);
      RunExtends(acts, a, n - 1);
      assert (acts + [a])[n - 1] == acts[n - 1];
    }
  }

  lemma SentOneMore(acts: seq<Action>, a: Action)
    ensures var (n, more) := (|acts|, acts + [a]);
            Sent(more, n + 1) == Sent(acts, n) + if Queues(Run(acts, n), a) then [a.usable] else []
  {
    hide Next, Queues;
    RunExtends(acts, a, |acts|);
    SentExtends(acts, a, |acts|);
    assert (acts + [a])[|acts|] == a;
  }

  // ----- Waiting -----

  predicate Has(items: seq<Work>, slot: nat, serial: nat) {
    exists i :: 0 <= i < |items| && items[i].slot == slot && items[i].serial == serial
  }

  /** The item with this serial is still queued, running or leaked, under the slot it was given. */
  predicate Unfinished(s: Engine, serial: nat)
    requires serial < |s.slotOf|
  {
    || Has(s.queue, s.slotOf[serial], serial)
    || Has(s.leaked, s.slotOf[serial], serial)
    || (s.running.Some? && s.running.value.slot == s.slotOf[serial] && s.running.value.serial == serial)
  }

  predicate JobInv(s: Engine, serial: nat)
    requires serial < |s.slotOf|
  {
    serial in s.finished || Unfinished(s, serial)
  }

  /** `waitDefferedWork(job_id)` returns in this state: it needs the lock, and the slot unmarked or no slot at all. */
  predicate WaitReturns(s: Engine, jobId: int) {
    jobId < 0 || jobId >= MAX_ONGOING_JOBS || (s.queuer == Free && jobId < |s.busy| && !s.busy[jobId])
  }

  lemma HasGoesOn(s: Engine, a: Action, serial: nat)
    requires serial < |s.slotOf| && JobInv(s, serial)
    ensures |s.slotOf| <= |Next(s, a).slotOf| && JobInv(Next(s, a), serial)
  {
    var s', slot := Next(s, a), s.slotOf[serial];
    if Has(s.queue, slot, serial) {
      var i :| 0 <= i < |s.queue| && s.queue[i].slot == slot && s.queue[i].serial == serial;
      if a.Take? && s.running.None? && s.commands != 0 {
        assert i == 0 || s'.queue[i - 1] == s.queue[i];
      } else {
        assert s'.queue[i] == s.queue[i];
      }
    } else if Has(s.leaked, slot, serial) {
      var i :| 0 <= i < |s.leaked| && s.leaked[i].slot == slot && s.leaked[i].serial == serial;
      assert s'.leaked[i] == s.leaked[i];
    } else if s.running.Some? && a.Leak? && !s.running.value.usable {
      assert s'.leaked[|s.leaked|] == s.running.value;
    }
  }

  lemma {:induction false} RunKeepsJobInv(acts: seq<Action>, n: nat, serial: nat)
    requires n <= |acts| && serial < |Run(acts, n).slotOf|
    ensures JobInv(Run(acts, n), serial)
  {
    if n != 0 {
      var s, a := Run(acts, n - 1), acts[n - 1];
      if serial < |s.slotOf| {
        RunKeepsJobInv(acts, n - 1, serial);
        hide JobInv;
        HasGoesOn(s, a, serial);
      } else {
        var s' := Run(acts, n);
        assert s'.queue[|s.queue|] == Work(s'.slotOf[serial], serial, a.usable);
      }
    }
  }

  lemma {:induction false} HasCounts(items: seq<Work>, slot: nat, serial: nat)
    requires Has(items, slot, serial)
    ensures InSlot(items, slot) >= 1
  {
    var i :| 0 <= i < |items| && items[i].slot == slot && items[i].serial == serial;
    if i != 0 {
      assert items[1..][i - 1] == items[i];
      HasCounts(items[1..], slot, serial);
    }
  }

  /**
    A wait on the id an item was given returns only when that item has finished, even if the slot has been
    handed out again since; a leaked item's waiter never returns.
  */
  lemma WaitReturnsOnlyAfterFinish(acts: seq<Action>, n: nat, serial: nat)
    requires n <= |acts| && serial < |Run(acts, n).slotOf|
    requires WaitReturns(Run(acts, n), Run(acts, n).slotOf[serial])
    ensures Run(acts, n).slotOf[serial] < 25
    ensures serial in Run(acts, n).finished && !Unfinished(Run(acts, n), serial)
  {
    var s := Run(acts, n);
    var slot := s.slotOf[serial];
    RunSlotsBelow(acts, n);
    RunKeepsShape(acts, n, slot);
    RunKeepsJobInv(acts, n, serial);
    if Unfinished(s, serial) {
      if Has(s.queue, slot, serial) {
        HasCounts(s.queue, slot, serial);
      } else if Has(s.leaked, slot, serial) {
        HasCounts(s.leaked, slot, serial);
      }
    }
  }

  lemma LeakStays(s: Engine, a: Action, slot: nat, serial: nat)
    requires Has(s.leaked, slot, serial)
    ensures Has(Next(s, a).leaked, slot, serial)
  {
    var i :| 0 <= i < |s.leaked| && s.leaked[i].slot == slot && s.leaked[i].serial == serial;
    assert Next(s, a).leaked[i] == s.leaked[i];
  }

  lemma {:induction false} LeakLasts(acts: seq<Action>, n: nat, m: nat, slot: nat, serial: nat)
    requires n <= m <= |acts| && Has(Run(acts, n).leaked, slot, serial)
    ensures Has(Run(acts, m).leaked, slot, serial)
    decreases m - n
  {
    if n < m {
      LeakLasts(acts, n, m - 1, slot, serial);
      hide Has, Next;
      LeakStays(Run(acts, m - 1), acts[m - 1], slot, serial);
    }
  }

  /** Once an item with a null channel has been dropped, a wait on its slot never returns again, in any run. */
  lemma LeakedSlotNeverReturns(acts: seq<Action>, n: nat, m: nat, slot: nat, serial: nat)
    requires n <= m <= |acts| && Has(Run(acts, n).leaked, slot, serial)
    ensures slot < 25 && !WaitReturns(Run(acts, m), slot)
  {
    LeakLasts(acts, n, m, slot, serial);
    var s := Run(acts, m);
    RunSlotsBelow(acts, m);
    RunKeepsShape(acts, m, slot);
    HasCounts(s.leaked, slot, serial);
    var i :| 0 <= i < |s.leaked| && s.leaked[i].slot == slot && s.leaked[i].serial == serial;
  }

  /** The shortest run with such an item. */
  lemma LeakingRun() returns (acts: seq<Action>)
    ensures Has(Run(acts, |acts|).leaked, 0, 0)
  {
    acts := [Enqueue(false), Mark, Send, Take, Leak];
    var s0 := Idle();
    assert FirstFree(s0.busy) == 0;
    var s1 := Next(s0, Enqueue(false));
    var s4 := Next(Next(Next(s1, Mark), Send), Take);
    assert s4.running == Some(Work(0, 0, false));
    var s5 := Next(s4, Leak);
    assert s5.leaked[0] == Work(0, 0, false);
    hide Next, FirstFree, Idle;
    assert Run(acts, 0) == s0;
    RunUnfolds(acts, 1);
    RunUnfolds(acts, 2);
    RunUnfolds(acts, 3);
    RunUnfolds(acts, 4);
    RunUnfolds(acts, 5);
  }
}

/**
  QCameraCbNotifier of QCamera2HWICallbacks.cpp: callers enqueue callbacks and commands, one thread delivers and
  releases.  START, STOP and EXIT go to the head of the command queue.  `Next` is one atomic step.
*/
module CbNotifier {
  import opened Units
  import opened CameraQueue

  /** A queued callback: a serial number, and whether it is a QCAMERA_DATA_SNAPSHOT_CALLBACK. */
  datatype Callback = Callback(serial: nat, snapshot: bool)

  datatype Cmd = StartCmd | StopCmd | DoNextCmd | ExitCmd

  /** The counters of the running session, and two of its history: deliveries and SNAPSHOT_DONE events. */
  datatype Session = Session(snapshotActive: bool, longShot: bool, expected: nat, received: nat,
                             delivered: nat, doneCount: nat)

  datatype Notifier = Notifier(commands: seq<Cmd>, dataQ: Queue<Callback>, running: bool, hand: Option<Callback>,
                               session: Session, next: nat, accepted: set<nat>, released: multiset<nat>)

  datatype Action =
    | Notify(snapshot: bool, nodeMalloc: bool, cmdQueued: bool)  // notifyCallback, past its check of mActive
    | SendPriority(cmd: Cmd)                                     // startSnapshots, stopSnapshots, exit
    | TakeCommand(expected: nat, longShot: bool)                 // the thread; both are read only by START
    | Process(enabled: bool, dataCbSet: bool)                    // the thread: deliver or reject, then release

  /** The counters are 32 bits wide. */
  const WIDTH: nat := 0x1_0000_0000

  const CLOSED := Session(false, false, 0, 0, 0, 0)
  const LAUNCHED := Notifier([], Fresh(), true, None, CLOSED, 0, {}, multiset{})

  function Serials(items: seq<Callback>): multiset<nat> {
    if items == [] then multiset{}
    else Serials(items[..|items| - 1]) + multiset{items[|items| - 1].serial}
  }

  /** One snapshot callback reaches its delivery point. */
  function DeliverSnapshot(c: Session): Session {
    if !c.snapshotActive || c.longShot then c
    else
      var received := (c.received + 1) % WIDTH;
      c.(received := received, delivered := c.delivered + 1,
         doneCount := if c.expected > 0 && c.expected == received then c.doneCount + 1 else c.doneCount)
  }

  function Next(s: Notifier, a: Action): Notifier {
    match a
    case Notify(snapshot, nodeMalloc, cmdQueued) =>
      if !nodeMalloc || !s.dataQ.active then s.(next := s.next + 1)
      else s.(dataQ := Enqueue(s.dataQ, Callback(s.next, snapshot), true), next := s.next + 1,
              accepted := s.accepted + {s.next},
              commands := if cmdQueued then s.commands + [DoNextCmd] else s.commands)
    case SendPriority(cmd) =>
      if cmd == DoNextCmd then s else s.(commands := [cmd] + s.commands)
    case TakeCommand(expected, longShot) =>
      if !s.running || s.hand.Some? || s.commands == [] then s
      else Execute(s.(commands := s.commands[1..]), s.commands[0], expected, longShot)
    case Process(enabled, dataCbSet) =>
      if s.hand.None? then s
      else s.(hand := None, released := s.released + multiset{s.hand.value.serial},
              session := if enabled && s.hand.value.snapshot && dataCbSet then DeliverSnapshot(s.session)
                         else s.session)
  }

  /** `matchSnapshotNotifications`. */
  predicate IsSnapshot(cb: Callback) {
    cb.snapshot
  }

  /** The switch of `cbNotifyRoutine`, up to the dequeue of DO_NEXT_JOB. */
  function Execute(s: Notifier, cmd: Cmd, expected: nat, longShot: bool): Notifier {
    match cmd
    case StartCmd => s.(session := Session(true, longShot, expected % WIDTH, 0, 0, 0))
    case StopCmd =>
      s.(dataQ := FlushNodes(s.dataQ, IsSnapshot),
         released := s.released + Serials(FlushedNodes(s.dataQ, IsSnapshot)),
         session := s.session.(snapshotActive := false, expected := 0, received := 0))
    case DoNextCmd => s.(hand := Front(s.dataQ, true), dataQ := Dequeue(s.dataQ, true))
    case ExitCmd =>
      if !s.dataQ.active then s.(running := false)
      else s.(running := false, released := s.released + Serials(s.dataQ.items), dataQ := Queue([], false))
  }

  function Run(acts: seq<Action>, n: nat): Notifier
    requires n <= |acts|
  {
    if n == 0 then LAUNCHED else Next(Run(acts, n - 1), acts[n - 1])
  }

  lemma {:induction false} RunExtends(acts: seq<Action>, a: Action, n: nat)
    requires n <= |acts|
    ensures Run(acts + [a], n) == Run(acts, n)
    ensures n == |acts| ==> Run(acts + [a], n + 1) == Next(Run(acts, n), a)
  {
    hide Next;
    if n != 0 {
      RunExtends(acts, a, n - 1);
    }
  }

  // ----- Every callback is released exactly once -----

  function InQueue(items: seq<Callback>, serial: nat): nat {
    if items == [] then 0
    else InQueue(items[..|items| - 1], serial) + if items[|items| - 1].serial == serial then 1 else 0
  }

  function Times(s: Notifier, serial: nat): nat {
    InQueue(s.dataQ.items, serial) + (if s.hand.Some? && s.hand.value.serial == serial then 1 else 0)
    + s.released[serial]
  }

  predicate Placed(s: Notifier, serial: nat) {
    Times(s, serial) == if serial in s.accepted then 1 else 0
  }

  predicate Shape(s: Notifier) {
    && (forall serial <- s.accepted :: serial < s.next)
    && (s.dataQ.active <==> s.running)
    && (!s.running ==> s.dataQ.items == [] && s.hand.None?)
  }

  lemma InQueueAppend(items: seq<Callback>, cb: Callback, serial: nat)
    ensures InQueue(items + [cb], serial) == InQueue(items, serial) + if cb.serial == serial then 1 else 0
  {
  }

  lemma {:induction false} InQueueTail(items: seq<Callback>, serial: nat)
    requires items != []
    ensures InQueue(items, serial) == InQueue(items[1..], serial) + if items[0].serial == serial then 1 else 0
  {
    var front := items[..|items| - 1];
    if front != [] {
      InQueueTail(front, serial);
      assert front[1..] == items[1..][..|items| - 2];
    }
  }

  lemma {:induction false} SerialsCount(items: seq<Callback>, serial: nat)
    ensures Serials(items)[serial] == InQueue(items, serial)
  {
    if items != [] {
      SerialsCount(items[..|items| - 1], serial);
    }
  }

  lemma {:induction false} FlushSplits(items: seq<Callback>, serial: nat)
    ensures InQueue(items, serial) == InQueue(Filter(items, IsSnapshot), serial)
                                    + InQueue(Kept(items, IsSnapshot), serial)
  {
    if items != [] {
      var front, last := items[..|items| - 1], items[|items| - 1];
      FlushSplits(front, serial);
      InQueueAppend(Filter(front, IsSnapshot), last, serial);
      InQueueAppend(Kept(front, IsSnapshot), last, serial);
    }
  }

  lemma ExecutePlaces(s: Notifier, cmd: Cmd, expected: nat, longShot: bool, serial: nat)
    requires Shape(s) && Placed(s, serial) && s.running && s.hand.None?
    ensures Placed(Execute(s, cmd, expected, longShot), serial)
  {
    match cmd {
      case StopCmd =>
        FlushSplits(s.dataQ.items, serial);
        SerialsCount(Filter(s.dataQ.items, IsSnapshot), serial);
      case DoNextCmd => if s.dataQ.items != [] { InQueueTail(s.dataQ.items, serial); }
      case ExitCmd => SerialsCount(s.dataQ.items, serial);
      case StartCmd =>
    }
    hide InQueue, Serials, Filter, Kept;
  }

  lemma PlacedStep(s: Notifier, a: Action, serial: nat)
    requires Shape(s) && Placed(s, serial)
    ensures Placed(Next(s, a), serial)
  {
    if a.TakeCommand? && s.running && s.hand.None? && s.commands != [] {
      ExecutePlaces(s.(commands := s.commands[1..]), s.commands[0], a.expected, a.longShot, serial);
    } else {
      if a.Notify? {
        InQueueAppend(s.dataQ.items, Callback(s.next, a.snapshot), serial);
      }
      hide InQueue, Serials, Filter, Execute;
    }
  }

  lemma ShapeStep(s: Notifier, a: Action)
    requires Shape(s)
    ensures Shape(Next(s, a))
  {
  }

  lemma {:induction false} RunPlaces(acts: seq<Action>, n: nat, serial: nat)
    requires n <= |acts|
    ensures Shape(Run(acts, n)) && Placed(Run(acts, n), serial)
  {
    if n != 0 {
      RunPlaces(acts, n - 1, serial);
      hide Shape, Placed;
      ShapeStep(Run(acts, n - 1), acts[n - 1]);
      PlacedStep(Run(acts, n - 1), acts[n - 1], serial);
    }
  }

  /**
    In every interleaving each accepted callback is released at most once, by delivery, rejection, STOP or EXIT;
    once the thread has left its loop, exactly once.
  */
  lemma ReleasedExactlyOnce(acts: seq<Action>, n: nat, serial: nat)
    requires n <= |acts|
    ensures var s := Run(acts, n);
            && s.released[serial] <= (if serial in s.accepted then 1 else 0)
            && (!s.running ==> s.released[serial] == if serial in s.accepted then 1 else 0)
  {
    RunPlaces(acts, n, serial);
  }

  lemma {:induction false} SerialsAreCounted(items: seq<Callback>, f: Callback -> bool, serial: nat)
    ensures Serials(Filter(items, f))[serial] == |Filter(items, (cb: Callback) => f(cb) && cb.serial == serial)|
  {
    if items != [] {
      SerialsAreCounted(items[..|items| - 1], f, serial);
    }
  }

  /**
    STOP releases exactly the queued snapshots, each as often as it is queued, and keeps exactly the other callbacks, in
    their order.
  */
  lemma StopReleasesSnapshots(s: Notifier, expected: nat, longShot: bool, serial: nat)
    requires s.running && s.hand.None? && s.commands != [] && s.commands[0] == StopCmd && s.dataQ.active
    ensures var s' := Next(s, TakeCommand(expected, longShot));
            && s'.dataQ == Queue(Filter(s.dataQ.items, (cb: Callback) => !cb.snapshot), true)
            && (forall cb :: cb in s'.dataQ.items <==> cb in s.dataQ.items && !cb.snapshot)
            && s'.released[serial] == s.released[serial]
                 + |Filter(s.dataQ.items, (cb: Callback) => cb.snapshot && cb.serial == serial)|
            && !s'.session.snapshotActive && s'.session.expected == 0 && s'.session.received == 0
  {
    var items := s.dataQ.items;
    KeptIs(items, IsSnapshot, (cb: Callback) => !cb.snapshot);
    FilterInOrder(items, (cb: Callback) => !cb.snapshot);
    SerialsAreCounted(items, IsSnapshot, serial);
    var f: Callback -> bool := IsSnapshot;
    FilterSame(items, (cb: Callback) => f(cb) && cb.serial == serial,
               (cb: Callback) => cb.snapshot && cb.serial == serial);
    hide Filter, Serials, Kept;
  }

  // ----- SNAPSHOT_DONE -----

  /** How often a counter of WIDTH values starting at 0 has hit `expected` after `delivered` increments. */
  function HitsAfter(delivered: nat, expected: nat): nat
    requires 0 < expected < WIDTH
  {
    if delivered < expected then 0 else 1 + (delivered - expected) / WIDTH
  }

  predicate Counting(c: Session) {
    c.snapshotActive ==>
      && c.expected < WIDTH && c.received == c.delivered % WIDTH
      && c.doneCount == if c.longShot || c.expected == 0 then 0 else HitsAfter(c.delivered, c.expected)
  }

  lemma HitsStep(delivered: nat, expected: nat)
    requires 0 < expected < WIDTH
    ensures HitsAfter(delivered + 1, expected)
         == HitsAfter(delivered, expected) + if (delivered + 1) % WIDTH == expected then 1 else 0
  {
  }

  lemma DeliverKeepsCounting(c: Session)
    requires Counting(c)
    ensures Counting(DeliverSnapshot(c))
  {
    if c.snapshotActive && !c.longShot {
      assert (c.received + 1) % WIDTH == (c.delivered + 1) % WIDTH;
      if c.expected != 0 {
        HitsStep(c.delivered, c.expected);
      }
    }
  }

  lemma CountingStep(s: Notifier, a: Action)
    requires Counting(s.session)
    ensures Counting(Next(s, a).session)
  {
    DeliverKeepsCounting(s.session);
    hide Serials, Filter;
  }

  lemma {:induction false} RunKeepsCounting(acts: seq<Action>, n: nat)
    requires n <= |acts|
    ensures Counting(Run(acts, n).session)
  {
    if n != 0 {
      RunKeepsCounting(acts, n - 1);
      hide Counting, Next;
      CountingStep(Run(acts, n - 1), acts[n - 1]);
    }
  }

  /**
    In a session with N > 0 snapshots expected and long shot off, SNAPSHOT_DONE has been raised once exactly when
    at least N, and fewer than N + 2^32, snapshots have been delivered since START; with fewer than N, never.
  */
  lemma SnapshotDoneOnce(acts: seq<Action>, n: nat)
    requires n <= |acts|
    ensures var c := Run(acts, n).session;
            c.snapshotActive && !c.longShot && c.expected > 0 ==>
              && (c.doneCount == 0 <==> c.delivered < c.expected)
              && (c.doneCount == 1 <==> c.expected <= c.delivered < c.expected + 0x1_0000_0000)
    ensures var c := Run(acts, n).session;
            c.snapshotActive && (c.longShot || c.expected == 0) ==> c.doneCount == 0
  {
    RunKeepsCounting(acts, n);
  }

  predicate Starts(s: Notifier, a: Action) {
    a.TakeCommand? && s.running && s.hand == None && s.commands != [] && s.commands[0] == StartCmd
  }

  predicate Stops(s: Notifier, a: Action) {
    a.TakeCommand? && s.running && s.hand == None && s.commands != [] && s.commands[0] == StopCmd
  }

  /** A step that hands a snapshot of the running session, not in long shot, to the application. */
  predicate Delivers(s: Notifier, a: Action) {
    && a.Process? && a.enabled && a.dataCbSet && s.hand.Some? && s.hand.value.snapshot
    && s.session.snapshotActive && !s.session.longShot
  }

  /** How many of those the run has made since its last START. */
  function Delivered(acts: seq<Action>, n: nat): nat
    requires n <= |acts|
  {
    if n == 0 || Starts(Run(acts, n - 1), acts[n - 1]) then 0
    else Delivered(acts, n - 1) + if Delivers(Run(acts, n - 1), acts[n - 1]) then 1 else 0
  }

  /** The number of snapshots the parent expected at the last START, on 32 bits; none after a STOP. */
  function Awaited(acts: seq<Action>, n: nat): nat
    requires n <= |acts|
  {
    if n == 0 || Stops(Run(acts, n - 1), acts[n - 1]) then 0
    else if Starts(Run(acts, n - 1), acts[n - 1]) then acts[n - 1].expected % 0x1_0000_0000
    else Awaited(acts, n - 1)
  }

  lemma SessionStep(s: Notifier, a: Action)
    ensures Next(s, a).session.delivered
         == if Starts(s, a) then 0 else s.session.delivered + if Delivers(s, a) then 1 else 0
    ensures Next(s, a).session.expected
         == if Stops(s, a) then 0 else if Starts(s, a) then a.expected % 0x1_0000_0000 else s.session.expected
  {
    hide Serials, Filter;
  }

  /** The session counts what the run did. */
  lemma {:induction false} SessionIsTheRuns(acts: seq<Action>, n: nat)
    requires n <= |acts|
    ensures Run(acts, n).session.delivered == Delivered(acts, n)
    ensures Run(acts, n).session.expected == Awaited(acts, n)
  {
    hide Next, Starts, Stops, Delivers;
    if n != 0 {
      SessionIsTheRuns(acts, n - 1);
      SessionStep(Run(acts, n - 1), acts[n - 1]);
    }
  }

  lemma NthDelivery(c: Session)
    requires Counting(c) && c.snapshotActive && c.doneCount == 0 && DeliverSnapshot(c).doneCount == 1
    ensures DeliverSnapshot(c).delivered == c.expected == c.delivered + 1
  {
  }

  lemma DoneOnlyByDelivery(s: Notifier, a: Action)
    requires s.session.doneCount == 0 && Next(s, a).session.doneCount == 1
    ensures a.Process? && s.hand.Some? && s.hand.value.snapshot && Next(s, a).session == DeliverSnapshot(s.session)
  {
  }

  /** It is raised by the delivery that makes the count N: not before, and not by anything else. */
  lemma DoneIsRaisedByTheNth(acts: seq<Action>, n: nat, a: Action)
    requires n <= |acts|
    requires var c := Run(acts, n).session; c.snapshotActive && c.doneCount == 0
    requires Next(Run(acts, n), a).session.doneCount == 1
    ensures var c := Run(acts, n).session;
            && Next(Run(acts, n), a).session.delivered == c.expected == c.delivered + 1
            && a.Process? && Run(acts, n).hand.Some? && Run(acts, n).hand.value.snapshot
  {
    RunKeepsCounting(acts, n);
    var s := Run(acts, n);
    hide *;
    DoneOnlyByDelivery(s, a);
    NthDelivery(s.session);
  }

  // ----- The wrap of the counter -----

  function After(acts: seq<Action>): Notifier {
    Run(acts, |acts|)
  }

  lemma AfterOneMore(acts: seq<Action>, a: Action)
    ensures After(acts + [a]) == Next(After(acts), a)
  {
    RunExtends(acts, a, |acts|);
  }

  /** At rest in a session that expects one snapshot and has delivered k. */
  predicate AfterDeliveries(s: Notifier, k: nat) {
    && s.running && s.hand.None? && s.commands == [] && s.dataQ == Queue([], true)
    && s.session.snapshotActive && !s.session.longShot && s.session.expected == 1 && s.session.delivered == k
  }

  lemma OneDelivery(s: Notifier, k: nat)
    requires AfterDeliveries(s, k)
    ensures AfterDeliveries(Next(Next(Next(s, Notify(true, true, true)), TakeCommand(0, false)), Process(true, true)),
                            k + 1)
  {
    var cb := Callback(s.next, true);
    var s1 := Next(s, Notify(true, true, true));
    assert s1.commands == [DoNextCmd] && s1.dataQ == Queue([cb], true);
    var s2 := Next(s1, TakeCommand(0, false));
    assert s2 == s1.(commands := [], hand := Some(cb), dataQ := Queue([], true));
    hide Serials, Filter;
  }

  lemma SessionStarts()
    ensures AfterDeliveries(Next(Next(LAUNCHED, SendPriority(StartCmd)), TakeCommand(1, false)), 0)
  {
    assert Next(LAUNCHED, SendPriority(StartCmd)).commands == [StartCmd];
  }

  lemma StartingRun() returns (acts: seq<Action>)
    ensures AfterDeliveries(After(acts), 0)
  {
    SessionStarts();
    hide Next, AfterDeliveries;
    acts := [SendPriority(StartCmd), TakeCommand(1, false)];
    assert Run(acts, 0) == LAUNCHED && Run(acts, 1) == Next(LAUNCHED, SendPriority(StartCmd));
  }

  lemma DeliveringRun(before: seq<Action>, k: nat) returns (acts: seq<Action>)
    requires AfterDeliveries(After(before), k)
    ensures AfterDeliveries(After(acts), k + 1)
  {
    OneDelivery(After(before), k);
    hide *;
    AfterOneMore(before, Notify(true, true, true));
    var more := before + [Notify(true, true, true)];
    AfterOneMore(more, TakeCommand(0, false));
    var most := more + [TakeCommand(0, false)];
    AfterOneMore(most, Process(true, true));
    acts := most + [Process(true, true)];
  }

  lemma {:induction false} DeliveriesRun(k: nat) returns (acts: seq<Action>)
    ensures AfterDeliveries(After(acts), k)
  {
    hide AfterDeliveries, After;
    if k == 0 {
      acts := StartingRun();
    } else {
      acts := DeliveriesRun(k - 1);
      acts := DeliveringRun(acts, k - 1);
    }
  }

  /** A run of one session that raises SNAPSHOT_DONE a second time, at the delivery behind the wrap. */
  lemma SnapshotDoneTwice() returns (acts: seq<Action>)
    ensures var c := After(acts).session;
            c.snapshotActive && c.expected == 1 && c.delivered == 0x1_0000_0001 && c.doneCount == 2
  {
    acts := DeliveriesRun(WIDTH + 1);
    RunKeepsCounting(acts, |acts|);
    hide Run;
    assert HitsAfter(WIDTH + 1, 1) == 2;
  }
}

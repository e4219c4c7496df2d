/**
  `notifyCallback`, `sendDataNotify` with the error tails of its callers, and `cbNotifyRoutine` as code; between two
  steps of the thread, callers may enqueue callbacks and commands.  Each statement on shared state is matched by its
  step of CbNotifier in the ghost `machine`, and the code's own records of releases are tied to the machine's.
*/
module NotifierThread {
  import opened Units
  import opened CameraQueue
  import opened CbNotifier

  lemma {:induction false} InQueueSplit(a: seq<Callback>, b: seq<Callback>, serial: nat)
    ensures InQueue(a + b, serial) == InQueue(a, serial) + InQueue(b, serial)
  {
    if b == [] {
      assert a + b == a;
    } else {
      InQueueSplit(a, b[..|b| - 1], serial);
      assert (a + b)[..|a + b| - 1] == a + b[..|b| - 1];
    }
  }

  /** The releases of the machine are those of the thread, `byThread`, and of the queue, `byQueue`. */
  ghost predicate Recorded(released: multiset<nat>, byThread: seq<nat>, byQueue: seq<Callback>) {
    forall s: nat :: released[s] == multiset(byThread)[s] + InQueue(byQueue, s)
  }

  lemma ThreadRecords(released: multiset<nat>, byThread: seq<nat>, byQueue: seq<Callback>, serial: nat)
    requires Recorded(released, byThread, byQueue)
    ensures Recorded(released + multiset{serial}, byThread + [serial], byQueue)
  {
    hide InQueue;
  }

  lemma QueueRecords(released: multiset<nat>, byThread: seq<nat>, byQueue: seq<Callback>, flushed: seq<Callback>)
    requires Recorded(released, byThread, byQueue)
    ensures Recorded(released + Serials(flushed), byThread, byQueue + flushed)
  {
    forall s: nat ensures (released + Serials(flushed))[s] == multiset(byThread)[s] + InQueue(byQueue + flushed, s) {
      SerialsCount(flushed, s);
      InQueueSplit(byQueue, flushed, s);
    }
  }

  // ----- Who else releases the data -----

  /**
    A callback as its sender knows it: sent by `notifyCallback` alone, or with data to release by `sendDataNotify`,
    whose argument struct is allocated or not, whose callback is taken by the queue or not, and whose command is
    allocated or not.  `again` tells that the caller of `sendDataNotify` releases the data on an error.
  */
  datatype Sending = Direct | Data(argMalloc: bool, taken: bool, cmdMalloc: bool, again: bool)

  /** The allocations on the way of a callback: argument struct, queue node, command, command node. */
  datatype Answers = Answers(argMalloc: bool, nodeMalloc: bool, cmdMalloc: bool, cmdNode: bool)

  /**
    What `processJpegEvt` finds: whether the application wants the picture, the encode failed, more captures have to
    come first, the encoder wrote into memory of the application, and whether `mGetMemory` succeeds otherwise.
  */
  datatype JpegEvent = JpegEvent(enabled: bool, failed: bool, moreCaptures: bool, memOpt: bool, memOk: bool)

  /** `sendDataNotify` returns NO_ERROR. */
  predicate Succeeds(d: Sending)
    requires d.Data?
  {
    d.argMalloc && d.taken && d.cmdMalloc
  }

  function BySender(d: Sending): nat {
    if d.Data? && d.argMalloc && !Succeeds(d) then 1 else 0
  }

  function ByCaller(d: Sending): nat {
    if d.Data? && d.again && !Succeeds(d) then 1 else 0
  }

  /** The data of every sending, and what sender and caller released of it. */
  ghost predicate Accounts(sent: seq<Sending>, accepted: set<nat>, bySender: seq<nat>, byCaller: seq<nat>) {
    forall s: nat ::
      && multiset(bySender)[s] == (if s < |sent| then BySender(sent[s]) else 0)
      && multiset(byCaller)[s] == (if s < |sent| then ByCaller(sent[s]) else 0)
      && (s < |sent| && sent[s].Data? ==> (s in accepted <==> sent[s].argMalloc && sent[s].taken))
  }

  lemma OneMoreSending(sent: seq<Sending>, d: Sending, accepted: set<nat>, taken: bool,
                       bySender: seq<nat>, byCaller: seq<nat>)
    requires Accounts(sent, accepted, bySender, byCaller) && |sent| !in accepted
    requires d.Data? ==> !d.again && taken == (d.argMalloc && d.taken)
    ensures Accounts(sent + [d], if taken then accepted + {|sent|} else accepted,
                     if BySender(d) == 1 then bySender + [|sent|] else bySender, byCaller)
  {
    var n: nat := |sent|;
    assert multiset(bySender + [n]) == multiset(bySender) + multiset{n};
  }

  lemma CallerReleases(sent: seq<Sending>, accepted: set<nat>, bySender: seq<nat>, byCaller: seq<nat>, s: nat)
    requires Accounts(sent, accepted, bySender, byCaller) && s < |sent| && sent[s].Data? && !sent[s].again
    ensures Accounts(sent[s := sent[s].(again := true)], accepted, bySender,
                     if Succeeds(sent[s]) then byCaller else byCaller + [s])
  {
    assert multiset(byCaller + [s]) == multiset(byCaller) + multiset{s};
  }

  lemma AccountsAt(sent: seq<Sending>, accepted: set<nat>, bySender: seq<nat>, byCaller: seq<nat>, s: nat)
    requires Accounts(sent, accepted, bySender, byCaller) && s < |sent| && sent[s].Data?
    ensures multiset(bySender)[s] == BySender(sent[s]) && multiset(byCaller)[s] == ByCaller(sent[s])
    ensures s in accepted <==> sent[s].argMalloc && sent[s].taken
  {
  }

  /**
    How often its data are released in all: once without an error; otherwise by the caller if it does so, by the
    sender if it has its argument struct, and by the notifier if the queue took the callback all the same.
  */
  function Expected(d: Sending): nat
    requires d.Data?
  {
    if Succeeds(d) then 1
    else (if d.again then 1 else 0) + (if d.argMalloc then 1 else 0) + (if d.argMalloc && d.taken then 1 else 0)
  }

  /** Its data are released once: nothing goes wrong, or exactly one of sender and caller does it on an error. */
  predicate OneRelease(d: Sending)
    requires d.Data?
  {
    Succeeds(d) || if d.argMalloc then !d.taken && !d.again else d.again
  }

  // ----- Single steps, written out -----

  lemma NotifyIs(s: Notifier, snapshot: bool, nodeMalloc: bool, cmdQueued: bool)
    ensures Next(s, Notify(snapshot, nodeMalloc, cmdQueued))
         == if !nodeMalloc || !s.dataQ.active then s.(next := s.next + 1)
            else s.(dataQ := Queue(s.dataQ.items + [Callback(s.next, snapshot)], true), next := s.next + 1,
                    accepted := s.accepted + {s.next},
                    commands := if cmdQueued then s.commands + [DoNextCmd] else s.commands)
  {
  }

  lemma ProcessIs(s: Notifier, enabled: bool, dataCbSet: bool)
    requires s.hand.Some?
    ensures Next(s, Process(enabled, dataCbSet))
         == s.(hand := None, released := s.released + multiset{s.hand.value.serial},
               session := if enabled && s.hand.value.snapshot && dataCbSet then DeliverSnapshot(s.session)
                          else s.session)
  {
  }

  lemma TakeIs(s: Notifier, expected: nat, longShot: bool)
    requires s.running && s.hand.None? && s.commands != []
    ensures Next(s, TakeCommand(expected, longShot))
         == Execute(s.(commands := s.commands[1..]), s.commands[0], expected, longShot)
  {
  }

  lemma ExitIs(s: Notifier, byThread: seq<nat>, byQueue: seq<Callback>)
    requires s.running && s.hand.None? && s.commands != [] && s.commands[0] == ExitCmd
    requires Recorded(s.released, byThread, byQueue) && s.dataQ.active
    ensures var s' := Next(s, TakeCommand(0, false));
            && s' == s.(commands := s.commands[1..], running := false, dataQ := Queue([], false),
                        released := s'.released)
            && Recorded(s'.released, byThread, byQueue + s.dataQ.items)
  {
    TakeIs(s, 0, false);
    QueueRecords(s.released, byThread, byQueue, s.dataQ.items);
    hide Serials, Recorded;
  }

  lemma StopIs(s: Notifier, byThread: seq<nat>, byQueue: seq<Callback>)
    requires s.running && s.hand.None? && s.commands != [] && s.commands[0] == StopCmd
    requires Recorded(s.released, byThread, byQueue) && s.dataQ.active
    ensures var s' := Next(s, TakeCommand(0, false));
            && s' == s.(commands := s.commands[1..], dataQ := Queue(Kept(s.dataQ.items, IsSnapshot), true),
                        released := s'.released,
                        session := s.session.(snapshotActive := false, expected := 0, received := 0))
            && Recorded(s'.released, byThread, byQueue + Filter(s.dataQ.items, IsSnapshot))
  {
    TakeIs(s, 0, false);
    QueueRecords(s.released, byThread, byQueue, Filter(s.dataQ.items, IsSnapshot));
    hide Serials, Recorded, Filter;
  }

  lemma SnapshotsAre(items: seq<Callback>)
    ensures Filter(items, IsSnapshot) == Filter(items, (cb: Callback) => cb.snapshot)
    ensures Kept(items, IsSnapshot) == Filter(items, (cb: Callback) => !cb.snapshot)
  {
    FilterSame(items, IsSnapshot, (cb: Callback) => cb.snapshot);
    KeptIs(items, IsSnapshot, (cb: Callback) => !cb.snapshot);
  }

  /** What the callers leave as it is. */
  predicate SameForThread(s: Notifier, s': Notifier) {
    s'.running == s.running && s'.hand == s.hand && s'.session == s.session
    && (s.commands != [] ==> s'.commands != [])
  }

  class QCameraCbNotifier {
    const mDataQ: QCameraQueue<Callback>
    var commands: seq<Cmd>
    var running: bool
    var serial: nat               // callbacks are numbered
    var released: seq<nat>        // those whose `release_cb` the thread has run
    var selfReleased: seq<nat>    // those whose data sendDataNotify has released itself
    var callerReleased: seq<nat>  // those whose data its caller has released
    ghost var machine: Notifier
    ghost var history: seq<Action>  // the steps taken since the launch
    ghost var sent: seq<Sending>

    /** The queue, the commands and the thread are those of the machine. */
    ghost predicate Matched()
      reads this, mDataQ
    {
      && mDataQ.Valid() && machine == Run(history, |history|)
      && machine.commands == commands && machine.dataQ == mDataQ.View() && machine.running == running
      && machine.next == serial && Recorded(machine.released, released, mDataQ.released)
    }

    ghost predicate Valid()
      reads this, mDataQ
    {
      Matched() && |sent| == serial && Accounts(sent, machine.accepted, selfReleased, callerReleased)
    }

    /** How often the callback's data have been released, by the thread, the queue, the sender or its caller. */
    ghost function Releases(s: nat): nat
      reads this, mDataQ
    {
      multiset(released)[s] + InQueue(mDataQ.released, s) + multiset(selfReleased)[s] + multiset(callerReleased)[s]
    }

    constructor ()
      ensures Valid() && machine == LAUNCHED && fresh(mDataQ) && sent == []
    {
      mDataQ := new QCameraQueue();
      commands, running, serial, released, selfReleased, callerReleased := [], true, 0, [], [], [];
      machine, history, sent := LAUNCHED, [], [];
    }

    ghost method Advance(a: Action)
      requires machine == Run(history, |history|)
      modifies `machine, `history
      ensures machine == Next(old(machine), a) == Run(history, |history|) && history == old(history) + [a]
    {
      RunExtends(history, a, |history|);
      history := history + [a];
      machine := Next(machine, a);
    }

    /** `sendCmd`: it reports only the failure of its own `malloc`, not that of the queue's. */
    method SendCmd(cmd: Cmd, priority: bool, cmdMalloc: bool, nodeMalloc: bool) returns (rc: Status)
      modifies `commands
      ensures rc == if cmdMalloc then NoError else NoMemory
      ensures commands == if !cmdMalloc || !nodeMalloc then old(commands)
                          else if priority then [cmd] + old(commands) else old(commands) + [cmd]
    {
      if !cmdMalloc {
        return NoMemory;
      }
      if nodeMalloc {
        commands := if priority then [cmd] + commands else commands + [cmd];
      }
      rc := NoError;
    }

    /** The enqueue of a fresh callback, and the command that follows it. */
    method EnqueueCallback(snapshot: bool, nodeMalloc: bool, cmdMalloc: bool, cmdNode: bool) returns (rc: Status)
      requires Matched()
      modifies `commands, `serial, `machine, `history, mDataQ
      ensures Matched() && serial == old(serial) + 1
      ensures history == old(history) + [Notify(snapshot, nodeMalloc, cmdMalloc && cmdNode)]
      ensures machine == Next(old(machine), Notify(snapshot, nodeMalloc, cmdMalloc && cmdNode))
      ensures rc == if !nodeMalloc || !old(mDataQ.active) then UnknownError
                    else if cmdMalloc then NoError else NoMemory
      ensures mDataQ.items == old(mDataQ.items) + if nodeMalloc && old(mDataQ.active)
                                                  then [Callback(old(serial), snapshot)] else []
    {
      NotifyIs(machine, snapshot, nodeMalloc, cmdMalloc && cmdNode);
      hide Run, Next, Recorded;
      var queued := mDataQ.Put(Callback(serial, snapshot), false, nodeMalloc);
      if queued {
        rc := SendCmd(DoNextCmd, false, cmdMalloc, cmdNode);
      } else {
        rc := UnknownError;
      }
      serial := serial + 1;
      Advance(Notify(snapshot, nodeMalloc, cmdMalloc && cmdNode));
    }

    /**
      `notifyCallback` behind its check of `mActive`.  The callback is accepted exactly when the queue takes it; an
      error with the callback accepted all the same comes exactly from the failed `malloc` of a command.
    */
    method NotifyCallback(snapshot: bool, nodeMalloc: bool, cmdMalloc: bool, cmdNode: bool) returns (rc: Status)
      requires Matched()
      modifies `commands, `serial, `machine, `history, mDataQ
      ensures Matched() && SameForThread(old(machine), machine) && serial == old(serial) + 1
      ensures history == old(history) + [Notify(snapshot, nodeMalloc, cmdMalloc && cmdNode)]
      ensures old(serial) !in old(machine).accepted
      ensures machine.accepted == if nodeMalloc && old(mDataQ.active) then old(machine).accepted + {old(serial)}
                                  else old(machine).accepted
      ensures rc == NoError <==> nodeMalloc && old(mDataQ.active) && cmdMalloc
      ensures rc != NoError && old(serial) in machine.accepted <==> nodeMalloc && old(mDataQ.active) && !cmdMalloc
      ensures mDataQ.items == old(mDataQ.items) + if nodeMalloc && old(mDataQ.active)
                                                  then [Callback(old(serial), snapshot)] else []
    {
      NotifyIs(machine, snapshot, nodeMalloc, cmdMalloc && cmdNode);
      RunPlaces(history, |history|, serial);
      assert serial !in machine.accepted;
      hide Run, Next, Recorded, Placed, Shape;
      rc := EnqueueCallback(snapshot, nodeMalloc, cmdMalloc, cmdNode);
    }

    /** A callback whose sender keeps nothing to release, `sendEvtNotify` among others. */
    method NotifyDirectly(snapshot: bool, a: Answers)
      requires Valid()
      modifies `commands, `serial, `selfReleased, `callerReleased, `machine, `history, `sent, mDataQ
      ensures Valid() && SameForThread(old(machine), machine) && sent == old(sent) + [Direct]
      ensures selfReleased == old(selfReleased) && callerReleased == old(callerReleased)
    {
      hide Run, Recorded, Accounts;
      ghost var taken := a.nodeMalloc && mDataQ.active;
      var _ := NotifyCallback(snapshot, a.nodeMalloc, a.cmdMalloc, a.cmdNode);
      OneMoreSending(sent, Direct, old(machine).accepted, taken, selfReleased, callerReleased);
      sent := sent + [Direct];
    }

    /** A number for data whose argument struct could not be allocated: nothing is sent. */
    method NumberOnly()
      requires Matched()
      modifies `serial, `machine, `history
      ensures Matched() && SameForThread(old(machine), machine) && serial == old(serial) + 1
      ensures machine.accepted == old(machine).accepted && old(serial) !in machine.accepted
    {
      NotifyIs(machine, true, false, false);
      RunPlaces(history, |history|, serial);
      assert serial !in machine.accepted;
      hide Run, Next, Recorded, Placed, Shape;
      serial := serial + 1;
      Advance(Notify(true, false, false));
    }

    /** `sendDataNotify` with its argument struct in hand. */
    method SendArgument(a: Answers) returns (rc: Status)
      requires Valid() && a.argMalloc
      modifies `commands, `serial, `selfReleased, `callerReleased, `machine, `history, `sent, mDataQ
      ensures Valid() && SameForThread(old(machine), machine) && callerReleased == old(callerReleased)
      ensures sent == old(sent) + [Data(true, a.nodeMalloc && old(mDataQ.active), a.cmdMalloc, false)]
      ensures rc == if a.nodeMalloc && old(mDataQ.active) && a.cmdMalloc then NoError else UnknownError
      ensures old(serial) in machine.accepted <==> a.nodeMalloc && old(mDataQ.active)
      ensures selfReleased == if rc == NoError then old(selfReleased) else old(selfReleased) + [old(serial)]
    {
      hide Run, Recorded, Accounts;
      ghost var d := Data(true, a.nodeMalloc && mDataQ.active, a.cmdMalloc, false);
      var cb := serial;
      rc := NotifyCallback(true, a.nodeMalloc, a.cmdMalloc, a.cmdNode);
      OneMoreSending(sent, d, old(machine).accepted, d.taken, selfReleased, callerReleased);
      if rc != NoError {
        selfReleased := selfReleased + [cb];
        rc := UnknownError;
      }
      sent := sent + [d];
    }

    /**
      `sendDataNotify`.  Without its argument struct it releases nothing; on an error of `notifyCallback` it releases
      the data itself, accepted or not.
    */
    method SendDataNotify(a: Answers) returns (rc: Status)
      requires Valid()
      modifies `commands, `serial, `selfReleased, `callerReleased, `machine, `history, `sent, mDataQ
      ensures Valid() && SameForThread(old(machine), machine) && callerReleased == old(callerReleased)
      ensures var d := Data(a.argMalloc, a.nodeMalloc && old(mDataQ.active), a.cmdMalloc, false);
              && sent == old(sent) + [d]
              && rc == if !a.argMalloc then NoMemory else if Succeeds(d) then NoError else UnknownError
      ensures old(serial) in machine.accepted <==> a.argMalloc && a.nodeMalloc && old(mDataQ.active)
      ensures selfReleased == if rc == UnknownError then old(selfReleased) + [old(serial)] else old(selfReleased)
    {
      hide Run, Recorded, Accounts;
      if !a.argMalloc {
        ghost var d := Data(false, a.nodeMalloc && mDataQ.active, a.cmdMalloc, false);
        NumberOnly();
        OneMoreSending(sent, d, machine.accepted, false, selfReleased, callerReleased);
        sent := sent + [d];
        return NoMemory;
      }
      rc := SendArgument(a);
    }

    /** On an error of `sendDataNotify` its caller releases the data. */
    method CallerRelease(data: nat)
      requires Valid() && data < |sent| && sent[data].Data? && !sent[data].again && !Succeeds(sent[data])
      modifies `callerReleased, `sent
      ensures Valid() && sent == old(sent)[data := old(sent)[data].(again := true)]
      ensures callerReleased == old(callerReleased) + [data]
    {
      CallerReleases(sent, machine.accepted, selfReleased, callerReleased, data);
      hide Run, Recorded, Accounts;
      callerReleased := callerReleased + [data];
      sent := sent[data := sent[data].(again := true)];
    }

    /**
      `processJpegEvt` from the test of the callback to its error tail.  `own` counts the releases of a `jpeg_mem`
      that is not sent; once it is sent, all its releases are in the accounts.
    */
    method SendJpeg(event: JpegEvent, a: Answers, evt: Answers) returns (rc: Status, own: nat)
      requires Valid()
      modifies `commands, `serial, `selfReleased, `callerReleased, `machine, `history, `sent, mDataQ
      ensures Valid() && SameForThread(old(machine), machine)
      ensures own == if event.enabled && !event.failed && event.moreCaptures then 1 else 0
      ensures var d := Data(a.argMalloc, a.nodeMalloc && old(mDataQ.active), a.cmdMalloc, false);
              if !event.enabled || (!event.failed && event.moreCaptures) then
                rc == NoError && sent == old(sent) && callerReleased == old(callerReleased)
              else if event.failed || (!event.memOpt && !event.memOk) then
                && rc == (if event.failed then FailedTransaction else NoMemory)
                && sent == old(sent) + [Direct] && callerReleased == old(callerReleased)
              else if Succeeds(d) then
                rc == NoError && sent == old(sent) + [d] && callerReleased == old(callerReleased)
              else
                && rc == (if a.argMalloc then UnknownError else NoMemory)
                && sent == old(sent) + [d.(again := true), Direct]
                && callerReleased == old(callerReleased) + [old(serial)]
    {
      hide Run, Recorded, Accounts;
      own := 0;
      var data := serial;
      var held := false;
      if !event.enabled {
        return NoError, own;
      }
      if event.failed {
        rc := FailedTransaction;
      } else if event.moreCaptures {
        return NoError, 1;
      } else if !event.memOpt && !event.memOk {
        rc := NoMemory;
      } else {
        held := true;
        rc := SendDataNotify(a);
      }
      if rc != NoError {
        NotifyDirectly(false, evt);
        if held {
          CallerRelease(data);
          assert sent[..data] == old(sent);
        }
      }
    }

    /** The end of `processRawImageImpl` and what DO_NEXT_JOB does on its error; `zsl` sends the frame itself. */
    method SendRaw(zsl: bool, a: Answers, evt: Answers) returns (rc: Status)
      requires Valid()
      modifies `commands, `serial, `selfReleased, `callerReleased, `machine, `history, `sent, mDataQ
      ensures Valid() && SameForThread(old(machine), machine)
      ensures var d := Data(a.argMalloc, a.nodeMalloc && old(mDataQ.active), a.cmdMalloc, false);
              && rc == (if !a.argMalloc then NoMemory else if Succeeds(d) then NoError else UnknownError)
              && sent == (old(sent) + if Succeeds(d) then [d] else [d.(again := zsl), Direct])
              && callerReleased == old(callerReleased) + if zsl && !Succeeds(d) then [old(serial)] else []
    {
      hide Run, Recorded, Accounts;
      var data := serial;
      rc := SendDataNotify(a);
      if rc != NoError {
        if zsl {
          CallerRelease(data);
        }
        NotifyDirectly(false, evt);
      }
    }

    /** The callback of `dataSaveRoutine`, which does not look at the result. */
    method SendSaved(memOk: bool, a: Answers) returns (rc: Status)
      requires Valid()
      modifies `commands, `serial, `selfReleased, `callerReleased, `machine, `history, `sent, mDataQ
      ensures Valid() && SameForThread(old(machine), machine) && callerReleased == old(callerReleased)
      ensures var d := Data(a.argMalloc, a.nodeMalloc && old(mDataQ.active), a.cmdMalloc, false);
              && sent == (if memOk then old(sent) + [d] else old(sent))
              && (rc == NoError <==> memOk && Succeeds(d))
    {
      hide Run, Recorded, Accounts;
      if !memOk {
        return NoMemory;
      }
      rc := SendDataNotify(a);
    }

    /** `startSnapshots`, `stopSnapshots` and `exit`. */
    method SendPriority(cmd: Cmd, cmdMalloc: bool, cmdNode: bool)
      requires Valid() && cmd != DoNextCmd
      modifies `commands, `machine, `history
      ensures Valid() && SameForThread(old(machine), machine)
      ensures cmdMalloc && cmdNode ==> commands == [cmd] + old(commands)
    {
      hide Run, Recorded, Accounts;
      var rc := SendCmd(cmd, true, cmdMalloc, cmdNode);
      if cmdMalloc && cmdNode {
        Advance(CbNotifier.SendPriority(cmd));
      }
    }

    /** One call of a sender of data. */
    method SendSome(event: JpegEvent, a: Answers, evt: Answers)
      requires Valid()
      modifies `commands, `serial, `selfReleased, `callerReleased, `machine, `history, `sent, mDataQ
      ensures Valid() && SameForThread(old(machine), machine)
    {
      hide Run, Next, Recorded, Accounts, Succeeds;
      var choice: nat, flag: bool := *, *;
      if choice == 0 {
        var _, _ := SendJpeg(event, a, evt);
      } else if choice == 1 {
        var _ := SendRaw(flag, a, evt);
      } else {
        var _ := SendSaved(flag, a);
      }
    }

    /** The callers' side, any number of times. */
    method Interfere()
      requires Valid()
      modifies `commands, `serial, `selfReleased, `callerReleased, `machine, `history, `sent, mDataQ
      ensures Valid() && SameForThread(old(machine), machine)
    {
      hide Run, Next, Recorded, Accounts;
      var n: nat := *;
      while n != 0
        invariant Valid() && SameForThread(old(machine), machine)
      {
        var choice: nat, snapshot, event: JpegEvent, a: Answers, evt: Answers := *, *, *, *, *;
        if choice == 0 {
          NotifyDirectly(snapshot, a);
        } else if choice == 1 {
          SendSome(event, a, evt);
        } else {
          var cmd: Cmd := *;
          if cmd != DoNextCmd {
            SendPriority(cmd, a.cmdMalloc, a.cmdNode);
          }
        }
        n := n - 1;
      }
    }

    /** The QCAMERA_DATA_SNAPSHOT_CALLBACK case, with the thread's local counters. */
    static method DeliverLocally(dataCbSet: bool, c: Session) returns (c': Session)
      ensures c' == if dataCbSet then DeliverSnapshot(c) else c
    {
      c' := c;
      if c.snapshotActive && dataCbSet {
        if !c.longShot {
          c' := c'.(received := (c'.received + 1) % WIDTH, delivered := c'.delivered + 1);
          if c'.expected > 0 && c'.expected == c'.received {
            c' := c'.(doneCount := c'.doneCount + 1);
          }
        }
      }
    }

    /** The command and the dequeue of DO_NEXT_JOB. */
    method TakeCallback() returns (cb: Option<Callback>)
      requires Valid() && running && machine.hand == None && commands != [] && commands[0] == DoNextCmd
      modifies `commands, `machine, `history, mDataQ
      ensures Valid() && running && machine.hand == cb && machine.session == old(machine).session
      ensures cb == None <==> !old(mDataQ.active) || old(mDataQ.items) == []
      ensures cb == None ==> mDataQ.items == old(mDataQ.items)
      ensures cb != None ==> cb.value == old(mDataQ.items)[0] && mDataQ.items == old(mDataQ.items)[1..]
    {
      TakeIs(machine, 0, false);
      hide Run, Next, Recorded, Accounts;
      commands := commands[1..];
      cb := mDataQ.Take(true);
      Advance(TakeCommand(0, false));
    }

    /** `release_cb` and `delete` of the callback in hand. */
    method ReleaseCallback(cb: Callback, enabled: bool, dataCbSet: bool)
      requires Valid() && machine.hand == Some(cb)
      modifies `released, `machine, `history
      ensures Valid() && running == old(running) && machine.hand == None && released == old(released) + [cb.serial]
      ensures machine.session == if enabled && cb.snapshot && dataCbSet then DeliverSnapshot(old(machine).session)
                                 else old(machine).session
    {
      ProcessIs(machine, enabled, dataCbSet);
      ThreadRecords(machine.released, released, mDataQ.released, cb.serial);
      hide Run, Next, Recorded, Accounts, DeliverSnapshot;
      released := released + [cb.serial];
      Advance(Process(enabled, dataCbSet));
    }

    /** DO_NEXT_JOB: dequeue, deliver or reject, release. */
    method DoNextJob(enabled: bool, dataCbSet: bool, c: Session) returns (c': Session)
      requires Valid() && running && machine.hand == None && commands != [] && commands[0] == DoNextCmd
      requires c == machine.session
      modifies this, mDataQ
      ensures Valid() && running && machine.hand == None && c' == machine.session
      ensures var items := old(mDataQ.items);
              if !old(mDataQ.active) || items == [] then c' == c && released == old(released)
              else
                && released == old(released) + [items[0].serial]
                && c' == if enabled && items[0].snapshot && dataCbSet then DeliverSnapshot(c) else c
    {
      hide Run, Next, Recorded, Accounts, DeliverSnapshot;
      c' := c;
      var cb := TakeCallback();
      Interfere();
      if cb.Some? {
        if enabled {
          if cb.value.snapshot {
            c' := DeliverLocally(dataCbSet, c);
          }
        }
        ReleaseCallback(cb.value, enabled, dataCbSet);
      }
    }

    /** CAMERA_CMD_TYPE_START_DATA_PROC. */
    method StartSnapshots(expected: nat, longShot: bool) returns (c: Session)
      requires Valid() && running && machine.hand == None && commands != [] && commands[0] == StartCmd
      modifies `commands, `machine, `history
      ensures Valid() && running && machine.hand == None && c == machine.session
      ensures c == Session(true, longShot, expected % 0x1_0000_0000, 0, 0, 0)
    {
      TakeIs(machine, expected, longShot);
      hide Run, Next, Recorded, Accounts;
      commands := commands[1..];
      c := Session(true, longShot, expected % WIDTH, 0, 0, 0);
      Advance(TakeCommand(expected, longShot));
    }

    /** CAMERA_CMD_TYPE_STOP_DATA_PROC. */
    method StopSnapshots(c: Session) returns (c': Session)
      requires Valid() && running && machine.hand == None && commands != [] && commands[0] == StopCmd
      requires c == machine.session
      modifies `commands, `machine, `history, mDataQ
      ensures Valid() && running && machine.hand == None && c' == machine.session && !c'.snapshotActive
      ensures mDataQ.items == Filter(old(mDataQ.items), (cb: Callback) => !cb.snapshot)
      ensures mDataQ.released == old(mDataQ.released) + Filter(old(mDataQ.items), (cb: Callback) => cb.snapshot)
      ensures c' == c.(snapshotActive := false, expected := 0, received := 0)
    {
      hide Run, Next, Recorded, Accounts, Filter;
      QueueIsOpen();
      SnapshotsAre(mDataQ.items);
      StopIs(machine, released, mDataQ.released);
      commands := commands[1..];
      mDataQ.FlushMatching(IsSnapshot);
      c' := c.(snapshotActive := false, expected := 0, received := 0);
      Advance(TakeCommand(0, false));
    }

    lemma QueueIsOpen()
      requires Valid() && running
      ensures mDataQ.active
    {
      RunPlaces(history, |history|, 0);
    }

    /** CAMERA_CMD_TYPE_EXIT. */
    method Exit()
      requires Valid() && running && machine.hand == None && commands != [] && commands[0] == ExitCmd
      modifies `commands, `running, `machine, `history, mDataQ
      ensures Valid() && !running && machine.hand == None && machine.session == old(machine).session
      ensures mDataQ.items == [] && mDataQ.released == old(mDataQ.released) + old(mDataQ.items)
    {
      hide Run, Next, Recorded, Accounts;
      QueueIsOpen();
      ExitIs(machine, released, mDataQ.released);
      commands := commands[1..];
      running := false;
      mDataQ.Flush();
      Advance(TakeCommand(0, false));
    }

    /**
      `cbNotifyRoutine` over any supply of outcomes (what the parent answers and whether messages are enabled),
      one per command taken.  If EXIT came, every accepted callback has been released by the thread or the queue
      exactly once, and data sent have been released, by whomever, as often as Expected says; that is once exactly
      for the sendings of OneRelease.  In any case a running session has raised SNAPSHOT_DONE as often as its
      deliveries call for.
    */
    method CbNotifyRoutine(outcomes: seq<(nat, bool, bool, bool)>)
      requires Valid() && machine == LAUNCHED
      modifies this, mDataQ
      ensures Valid() && Counting(machine.session)
      ensures !running ==> forall s: nat :: multiset(released)[s] + InQueue(mDataQ.released, s)
                                            == if s in machine.accepted then 1 else 0
      ensures !running ==> forall s: nat :: s < |sent| && sent[s].Data? ==>
                Releases(s) == Expected(sent[s]) && (Releases(s) == 1 <==> OneRelease(sent[s]))
    {
      hide Run, Next, Recorded, Accounts;
      var c, i := CLOSED, 0;
      while i < |outcomes| && running
        invariant 0 <= i <= |outcomes| && Valid() && machine.hand == None && c == machine.session
      {
        var (expected, longShot, enabled, dataCbSet) := outcomes[i];
        i := i + 1;
        Interfere();
        if commands != [] {
          var cmd := commands[0];
          match cmd {
            case StartCmd => c := StartSnapshots(expected, longShot);
            case StopCmd => c := StopSnapshots(c);
            case DoNextCmd => c := DoNextJob(enabled, dataCbSet, c);
            case ExitCmd => Exit();
          }
        }
      }
      Interfere();
      RunKeepsCounting(history, |history|);
      forall s: nat | !running
        ensures multiset(released)[s] + InQueue(mDataQ.released, s) == if s in machine.accepted then 1 else 0
      {
        OnceAfterExit(s);
      }
      forall s: nat | s < |sent| && sent[s].Data? && !running
        ensures Releases(s) == Expected(sent[s])
      {
        ReleasesAfterExit(s);
      }
    }

    lemma OnceAfterExit(s: nat)
      requires Valid() && !running
      ensures multiset(released)[s] + InQueue(mDataQ.released, s) == if s in machine.accepted then 1 else 0
    {
      ReleasedExactlyOnce(history, |history|, s);
      RecordedAt(machine.released, released, mDataQ.released, s);
      hide Run, Recorded, Accounts;
    }

    lemma ReleasesAfterExit(s: nat)
      requires Valid() && !running && s < |sent| && sent[s].Data?
      ensures Releases(s) == Expected(sent[s])
    {
      OnceAfterExit(s);
      AccountsAt(sent, machine.accepted, selfReleased, callerReleased, s);
      hide Run, Recorded, Accounts;
    }
  }

  /** A picture whose command could not be allocated: its memory is released three times. */
  method ThreeReleases() returns (n: QCameraCbNotifier)
    ensures fresh(n) && n.Valid() && !n.running && n.sent == [Data(true, true, false, true), Direct]
    ensures n.Releases(0) == 3
  {
    n := new QCameraCbNotifier();
    var yes := Answers(true, true, true, true);
    var _, _ := n.SendJpeg(JpegEvent(true, false, false, true, true), yes.(cmdMalloc := false), yes);
    n.SendPriority(ExitCmd, true, true);
    n.Exit();
    n.ReleasesAfterExit(0);
  }

  lemma RecordedAt(released: multiset<nat>, byThread: seq<nat>, byQueue: seq<Callback>, s: nat)
    requires Recorded(released, byThread, byQueue)
    ensures released[s] == multiset(byThread)[s] + InQueue(byQueue, s)
  {
  }
}

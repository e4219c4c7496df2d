/**
  `dataProcessRoutine` and the two entry points other threads use, as code on the queues and the job structs.
  Between any two of its atomic steps the worker lets the other threads run (`Interfere`).  Every statement that
  touches shared state is matched by the step of JpegLane it stands for, kept in the ghost field `lane`; the code's
  own record of released jobs is tied to the lane's, so the laws proved there hold of this code.
*/
module PostProcThread {
  import opened Units
  import opened CameraQueue
  import opened JpegLane
  import C = CbNotifier
  import N = NotifierThread

  /** How encodeData ends: the job started under an id, a raw image dumped and no job started, or an error. */
  datatype Encoded = Starts(jobId: JobId) | Skips | Fails

  datatype Command = StartDataProc | StopDataProc | DoNextJob(ongoingMalloc: bool, encoded: Encoded)

  /** The step a command begins with. */
  function FirstStep(command: Command): Action {
    match command
    case StartDataProc => Start
    case StopDataProc => Stop
    case DoNextJob(_, _) => Take
  }

  // ----- Job structs -----

  /** The `jobId` field of a job struct; 0 until it is recorded. */
  function IdOf(ids: map<nat, nat>, job: nat): nat {
    if job in ids then ids[job] else 0
  }

  /** The entries of the ongoing queue, as JpegLane sees them. */
  function WithIds(jobs: seq<nat>, ids: map<nat, nat>): (r: seq<Ongoing>)
    ensures |r| == |jobs|
    ensures forall i :: 0 <= i < |jobs| ==> r[i] == Ongoing(jobs[i], IdOf(ids, jobs[i]))
  {
    if jobs == [] then [] else
    var last := jobs[|jobs| - 1];
    WithIds(jobs[..|jobs| - 1], ids) + [Ongoing(last, IdOf(ids, last))]
  }

  /** `matchJobId`. */
  function MatchJobId(ids: map<nat, nat>, jobId: nat): nat -> bool {
    (job: nat) => IdOf(ids, job) == jobId
  }

  lemma {:induction false} RecordIsInPlace(jobs: seq<nat>, ids: map<nat, nat>, job: nat, id: nat)
    ensures WithIds(jobs, ids[job := id]) == RecordId(WithIds(jobs, ids), job, id)
  {
    if jobs != [] {
      RecordIsInPlace(jobs[..|jobs| - 1], ids, job, id);
      assert WithIds(jobs, ids)[..|jobs| - 1] == WithIds(jobs[..|jobs| - 1], ids);
    }
  }

  lemma {:induction false} FlushMatches(jobs: seq<nat>, ids: map<nat, nat>, id: nat)
    ensures WithIds(Kept(jobs, MatchJobId(ids, id)), ids)
         == Filter(WithIds(jobs, ids), (e: Ongoing) => !HasId(e, id))
    ensures multiset(Filter(jobs, MatchJobId(ids, id)))
         == JobsOf(Filter(WithIds(jobs, ids), (e: Ongoing) => HasId(e, id)))
  {
    if jobs != [] {
      var front := jobs[..|jobs| - 1];
      FlushMatches(front, ids, id);
      assert WithIds(jobs, ids)[..|front|] == WithIds(front, ids);
    }
  }

  lemma {:induction false} QueuedIsThere(items: seq<nat>, job: nat)
    ensures QueuedTimes(items, job) == 0 <==> job !in items
  {
    if items != [] {
      QueuedIsThere(items[..|items| - 1], job);
      assert items == items[..|items| - 1] + [items[|items| - 1]];
    }
  }

  /** Job numbers are below `serial`, and a job that was not submitted has no id. */
  ghost predicate IdsFit(s: Lane, ids: map<nat, nat>, serial: nat) {
    && (forall job <- s.accepted :: job < serial) && (forall job <- ids :: job < serial)
    && (forall job <- s.input.items :: job !in ids) && (s.pc.Taken? ==> s.pc.job !in ids)
  }

  lemma AcceptFits(s: Lane, ids: map<nat, nat>, serial: nat, inputMalloc: bool)
    requires IdsFit(s, ids, serial)
    ensures serial !in s.accepted && IdsFit(Next(s, Accept(serial, inputMalloc)), ids, serial + 1)
  {
  }

  /** The job in the encoder is an accepted one, and no longer waits in the input queue. */
  lemma RecordFits(s: Lane, ids: map<nat, nat>, serial: nat)
    requires IdsFit(s, ids, serial) && Inv(s) && s.pc.Started?
    ensures IdsFit(Next(s, Record), ids[s.pc.job := s.pc.jobId], serial)
  {
    assert Times(s, s.pc.job) == if s.pc.job in s.accepted then 1 else 0;
    QueuedIsThere(s.input.items, s.pc.job);
  }

  lemma OtherStepFits(s: Lane, ids: map<nat, nat>, serial: nat, a: Action)
    requires IdsFit(s, ids, serial) && !a.Accept?
    ensures IdsFit(Next(s, a), ids, serial)
  {
    hide Filter, JobsOf, RecordId;
  }

  // ----- The record of releases -----

  /** The releases of the lane are those of the threads and those of the two queues. */
  ghost predicate Recorded(all: multiset<nat>, byThread: seq<nat>, byInput: seq<nat>, byOngoing: seq<nat>) {
    forall job: nat :: all[job] == multiset(byThread)[job] + multiset(byInput)[job] + multiset(byOngoing)[job]
  }

  lemma ThreadRecords(all: multiset<nat>, byThread: seq<nat>, byInput: seq<nat>, byOngoing: seq<nat>, job: nat)
    requires Recorded(all, byThread, byInput, byOngoing)
    ensures Recorded(all + multiset{job}, byThread + [job], byInput, byOngoing)
  {
    assert multiset(byThread + [job]) == multiset(byThread) + multiset{job};
  }

  lemma InputRecords(all: multiset<nat>, byThread: seq<nat>, byInput: seq<nat>, byOngoing: seq<nat>, more: seq<nat>)
    requires Recorded(all, byThread, byInput, byOngoing)
    ensures Recorded(all + multiset(more), byThread, byInput + more, byOngoing)
  {
    assert multiset(byInput + more) == multiset(byInput) + multiset(more);
  }

  lemma OngoingRecords(all: multiset<nat>, byThread: seq<nat>, byInput: seq<nat>, byOngoing: seq<nat>, more: seq<nat>)
    requires Recorded(all, byThread, byInput, byOngoing)
    ensures Recorded(all + multiset(more), byThread, byInput, byOngoing + more)
  {
    assert multiset(byOngoing + more) == multiset(byOngoing) + multiset(more);
  }

  /** Every accepted job was given to releaseJpegJobData exactly once, and no other job was. */
  ghost predicate EachOnce(accepted: set<nat>, byThread: seq<nat>, byInput: seq<nat>, byOngoing: seq<nat>) {
    forall job: nat :: multiset(byThread)[job] + multiset(byInput)[job] + multiset(byOngoing)[job]
                       == if job in accepted then 1 else 0
  }

  lemma RecordedOnce(s: Lane, byThread: seq<nat>, byInput: seq<nat>, byOngoing: seq<nat>)
    requires Recorded(s.released, byThread, byInput, byOngoing)
    ensures EachOnce(s.accepted, byThread, byInput, byOngoing) <==> AllReleasedOnce(s)
  {
    if AllReleasedOnce(s) {
      forall job: nat ensures multiset(byThread)[job] + multiset(byInput)[job] + multiset(byOngoing)[job]
                              == if job in s.accepted then 1 else 0
      {
        assert s.released[job] == if job in s.accepted then 1 else 0;
      }
    }
    if EachOnce(s.accepted, byThread, byInput, byOngoing) {
      forall job: nat ensures s.released[job] == if job in s.accepted then 1 else 0 {
        assert s.released[job] == multiset(byThread)[job] + multiset(byInput)[job] + multiset(byOngoing)[job];
      }
    }
  }

  // ----- Single steps, written out -----

  lemma AcceptIs(s: Lane, job: nat, inputMalloc: bool)
    requires job !in s.accepted
    ensures Next(s, Accept(job, inputMalloc))
         == if !inputMalloc || !s.input.active then s
            else s.(input := Queue(s.input.items + [job], true), accepted := s.accepted + {job})
  {
  }

  lemma CompleteIs(s: Lane, id: JobId)
    ensures Next(s, Complete(id))
         == s.(ongoing := Filter(s.ongoing, (e: Ongoing) => !HasId(e, id)),
               released := s.released + JobsOf(Filter(s.ongoing, (e: Ongoing) => HasId(e, id))))
  {
  }

  lemma RecordIs(s: Lane)
    requires s.pc.Started?
    ensures Next(s, Record)
         == s.(ongoing := RecordId(s.ongoing, s.pc.job, s.pc.jobId), pc := Idle,
               lost := if s.pc.queued then s.lost else s.lost + multiset{s.pc.job})
  {
  }

  lemma RecordStep(s: Lane, jobs: seq<nat>, ids: map<nat, nat>, serial: nat)
    requires IdsFit(s, ids, serial) && Inv(s) && s.pc.Started? && s.ongoing == WithIds(jobs, ids)
    ensures var (s', ids') := (Next(s, Record), ids[s.pc.job := s.pc.jobId]);
            && s'.ongoing == WithIds(jobs, ids') && s'.input == s.input && s'.released == s.released
            && s'.isActive == s.isActive && IdsFit(s', ids', serial)
            && s'.pc == Idle && (s.pc.queued ==> s'.lost == s.lost)
  {
    RecordFits(s, ids, serial);
    RecordIsInPlace(jobs, ids, s.pc.job, s.pc.jobId);
    RecordIs(s);
    hide Next, Inv, RecordId, WithIds, IdsFit;
  }

  lemma ReleaseIs(s: Lane)
    ensures s.pc.Dropping? ==> Next(s, Drop) == s.(released := s.released + multiset{s.pc.job}, pc := Idle)
    ensures s.pc.AbortRelease? ==> Next(s, AbortDrop) == s.(released := s.released + multiset{s.pc.job}, pc := Aborting)
  {
  }

  lemma FlushIs(s: Lane)
    requires s.pc == Aborting && s.ongoing == []
    ensures Next(s, AbortNext)
         == if s.input.active then
              s.(released := s.released + multiset(s.input.items), input := Queue([], false), pc := Idle)
            else s.(pc := Idle)
  {
  }

  lemma CompleteStep(s: Lane, jobs: seq<nat>, ids: map<nat, nat>, serial: nat, id: JobId,
                     byThread: seq<nat>, byInput: seq<nat>, byOngoing: seq<nat>)
    requires IdsFit(s, ids, serial) && s.ongoing == WithIds(jobs, ids)
    requires Recorded(s.released, byThread, byInput, byOngoing)
    ensures var s' := Next(s, Complete(id));
            && FlushNodes(Queue(jobs, true), MatchJobId(ids, id)) == Queue(Kept(jobs, MatchJobId(ids, id)), true)
            && FlushedNodes(Queue(jobs, true), MatchJobId(ids, id)) == Filter(jobs, MatchJobId(ids, id))
            && s'.ongoing == WithIds(Kept(jobs, MatchJobId(ids, id)), ids)
            && Recorded(s'.released, byThread, byInput, byOngoing + Filter(jobs, MatchJobId(ids, id)))
            && IdsFit(s', ids, serial) && SameForWorker(s, s') && s'.input == s.input && s'.isActive == s.isActive
  {
    CompleteIs(s, id);
    OtherStepFits(s, ids, serial, Complete(id));
    FlushMatches(jobs, ids, id);
    OngoingRecords(s.released, byThread, byInput, byOngoing, Filter(jobs, MatchJobId(ids, id)));
    hide IdsFit, Recorded, Next, HasId, MatchJobId, JobsOf;
  }

  lemma DequeueStep(s: Lane, jobs: seq<nat>, ids: map<nat, nat>, serial: nat)
    requires IdsFit(s, ids, serial) && Inv(s) && s.pc.Failed? && s.ongoing == WithIds(jobs, ids)
    ensures var s' := Next(s, DequeueTail);
            && s'.ongoing == WithIds(if jobs == [] then [] else jobs[..|jobs| - 1], ids)
            && s'.pc == Dropping(s.pc.job) && (s.pc.queued ==> s'.lost == s.lost)
            && IdsFit(s', ids, serial) && s'.input == s.input && s'.isActive == s.isActive && s'.released == s.released
  {
    LostStep(s, DequeueTail);
    OtherStepFits(s, ids, serial, DequeueTail);
    hide IdsFit, Inv;
  }

  /** Flushing the structs under a recorded id keeps and releases the lane's entries with and without that id. */
  lemma FlushIsCompletion(jobs: seq<nat>, ids: map<nat, nat>, id: JobId)
    ensures WithIds(Filter(jobs, (job: nat) => !(job in ids && ids[job] == id)), ids)
         == Filter(WithIds(jobs, ids), (e: Ongoing) => e.jobId != id)
    ensures multiset(Filter(jobs, (job: nat) => job in ids && ids[job] == id))
         == JobsOf(Filter(WithIds(jobs, ids), (e: Ongoing) => e.jobId == id))
  {
    FlushMatches(jobs, ids, id);
    MatchIsById(jobs, ids, id);
    FilterSame(WithIds(jobs, ids), (e: Ongoing) => !HasId(e, id), (e: Ongoing) => e.jobId != id);
    FilterSame(WithIds(jobs, ids), (e: Ongoing) => HasId(e, id), (e: Ongoing) => e.jobId == id);
    hide Filter, Kept, WithIds, JobsOf;
  }

  lemma AbortTakeStep(s: Lane, jobs: seq<nat>, ids: map<nat, nat>, serial: nat)
    requires IdsFit(s, ids, serial) && s.pc == Aborting && s.ongoing == WithIds(jobs, ids)
    ensures s.ongoing == [] <==> jobs == []
    ensures jobs != [] ==>
              var s' := Next(s, AbortNext);
              && s' == s.(ongoing := WithIds(jobs[1..], ids), pc := AbortRelease(jobs[0]))
              && |s'.ongoing| == |s.ongoing| - 1 && IdsFit(s', ids, serial)
  {
    OtherStepFits(s, ids, serial, AbortNext);
    if jobs != [] {
      assert WithIds(jobs, ids)[1..] == WithIds(jobs[1..], ids);
    }
    hide IdsFit;
  }

  lemma MatchIsById(jobs: seq<nat>, ids: map<nat, nat>, id: JobId)
    ensures Filter(jobs, MatchJobId(ids, id)) == Filter(jobs, (job: nat) => job in ids && ids[job] == id)
    ensures Kept(jobs, MatchJobId(ids, id)) == Filter(jobs, (job: nat) => !(job in ids && ids[job] == id))
  {
    FilterSame(jobs, MatchJobId(ids, id), (job: nat) => job in ids && ids[job] == id);
    KeptIs(jobs, MatchJobId(ids, id), (job: nat) => !(job in ids && ids[job] == id));
  }

  /** What the other threads leave as it is. */
  predicate SameForWorker(s: Lane, s': Lane) {
    s'.pc == s.pc && s'.lost == s.lost && s'.input.active == s.input.active && |s'.ongoing| <= |s.ongoing|
  }

  class QCameraPostProcessor {
    const inputJpegQ: QCameraQueue<nat>
    const ongoingJpegQ: QCameraQueue<nat>
    var jobIds: map<nat, nat>  // the recorded `jobId` fields
    var isActive: bool
    var serial: nat            // allocated job structs are numbered
    var released: seq<nat>     // the jobs the threads themselves gave to releaseJpegJobData
    var doNextJobs: nat        // DO_NEXT_JOB commands sent
    ghost var lane: Lane
    ghost var history: seq<Action>  // the steps taken so far
    ghost var handled: seq<Action>  // those of them that begin a command

    ghost predicate Valid()
      reads this, inputJpegQ, ongoingJpegQ
    {
      && inputJpegQ != ongoingJpegQ && inputJpegQ.Valid() && ongoingJpegQ.Valid() && ongoingJpegQ.active
      && lane.input == inputJpegQ.View() && lane.ongoing == WithIds(ongoingJpegQ.items, jobIds)
      && lane.isActive == isActive
      && Recorded(lane.released, released, inputJpegQ.released, ongoingJpegQ.released)
      && lane == Run(history, |history|) && IdsFit(lane, jobIds, serial)
    }

    constructor ()
      ensures Valid() && lane == INIT && handled == [] && fresh(inputJpegQ) && fresh(ongoingJpegQ)
    {
      inputJpegQ := new QCameraQueue();
      ongoingJpegQ := new QCameraQueue();
      jobIds, isActive, serial, released, doNextJobs := map[], false, 0, [], 0;
      lane, history, handled := INIT, [], [];
    }

    ghost method Advance(a: Action)
      requires lane == Run(history, |history|)
      modifies `lane, `history
      ensures lane == Next(old(lane), a) == Run(history, |history|) && history == old(history) + [a]
    {
      RunExtends(history, a, |history|);
      history := history + [a];
      lane := Next(lane, a);
    }

    /** `sendCmd(CAMERA_CMD_TYPE_DO_NEXT_JOB)`. */
    method SendDoNextJob()
      requires Valid()
      modifies `doNextJobs
      ensures Valid() && doNextJobs == old(doNextJobs) + 1
    {
      hide Run, Next, IdsFit, Recorded, WithIds;
      doNextJobs := doNextJobs + 1;
    }

    /** A fresh job struct into the input queue. */
    method EnqueueJob(nodeMalloc: bool)
      requires Valid()
      modifies `lane, `history, `serial, inputJpegQ
      ensures Valid() && history == old(history) + [Accept(old(serial), nodeMalloc)]
      ensures lane == Next(old(lane), Accept(old(serial), nodeMalloc)) && old(serial) !in old(lane).accepted
      ensures SameForWorker(old(lane), lane) && isActive == old(isActive) && doNextJobs == old(doNextJobs)
      ensures inputJpegQ.items == old(inputJpegQ.items)
                                  + if nodeMalloc && old(inputJpegQ.active) then [old(serial)] else []
      ensures serial == old(serial) + 1
    {
      AcceptFits(lane, jobIds, serial, nodeMalloc);
      AcceptIs(lane, serial, nodeMalloc);
      hide Run, Next, IdsFit, Recorded, WithIds;
      var _ := inputJpegQ.Put(serial, false, nodeMalloc);
      Advance(Accept(serial, nodeMalloc));
      serial := serial + 1;
    }

    /** The JPEG branch of `processData`; a job the queue refuses is leaked, and success reported. */
    method ProcessData(inited: bool, jobMalloc: bool, nodeMalloc: bool) returns (rc: Status)
      requires Valid()
      modifies `lane, `history, `serial, `doNextJobs, inputJpegQ
      ensures Valid() && isActive == old(isActive) && SameForWorker(old(lane), lane)
      ensures rc == if !inited then UnknownError else if !jobMalloc then NoMemory else NoError
      ensures rc != NoError ==> history == old(history) && lane == old(lane)
      ensures rc == NoError ==>
                && history == old(history) + [Accept(old(serial), nodeMalloc)] && doNextJobs == old(doNextJobs) + 1
                && lane == Next(old(lane), Accept(old(serial), nodeMalloc))
                && (old(serial) in lane.accepted <==> nodeMalloc && old(lane).input.active)
                && inputJpegQ.items == old(inputJpegQ.items)
                                       + if nodeMalloc && old(inputJpegQ.active) then [old(serial)] else []
    {
      if !inited {
        return UnknownError;
      }
      if !jobMalloc {
        return NoMemory;
      }
      AcceptIs(lane, serial, nodeMalloc) by { AcceptFits(lane, jobIds, serial, nodeMalloc); }
      hide Run, Next, IdsFit, Recorded, WithIds;
      EnqueueJob(nodeMalloc);
      SendDoNextJob();
      rc := NoError;
    }

    /**
      The release in `processJpegEvt`, and in `dataSaveRoutine` with a save thread: the ongoing jobs whose recorded id
      this is are released, the others stay.
    */
    method FlushJob(jobId: JobId)
      requires Valid()
      modifies `lane, `history, ongoingJpegQ
      ensures var ids := jobIds;
              && ongoingJpegQ.released == old(ongoingJpegQ.released)
                   + Filter(old(ongoingJpegQ.items), (job: nat) => job in ids && ids[job] == jobId)
              && ongoingJpegQ.items
                 == Filter(old(ongoingJpegQ.items), (job: nat) => !(job in ids && ids[job] == jobId))
      ensures Valid() && history == old(history) + [Complete(jobId)] && lane == Next(old(lane), Complete(jobId))
      ensures SameForWorker(old(lane), lane) && isActive == old(isActive) && doNextJobs == old(doNextJobs)
    {
      CompleteStep(lane, ongoingJpegQ.items, jobIds, serial, jobId, released, inputJpegQ.released,
                   ongoingJpegQ.released);
      MatchIsById(ongoingJpegQ.items, jobIds, jobId);
      hide Run, Next, IdsFit, Recorded, WithIds, Filter, Kept, MatchJobId, FlushNodes, FlushedNodes, SameForWorker;
      ongoingJpegQ.FlushMatching(MatchJobId(jobIds, jobId));
      Advance(Complete(jobId));
    }

    /**
      `processJpegEvt` without a save thread.  The job of the event is completed and the worker woken, whatever
      becomes of the callback; the picture's memory is sent, and released again on an error.
    */
    method ProcessJpegEvt(inited: bool, jobId: JobId, notifier: N.QCameraCbNotifier, event: N.JpegEvent, a: N.Answers,
                          evt: N.Answers)
      returns (rc: Status, own: nat)
      requires Valid() && notifier.Valid() && notifier.mDataQ as object !in {inputJpegQ, ongoingJpegQ}
      modifies this, ongoingJpegQ, notifier, notifier.mDataQ
      ensures Valid() && notifier.Valid() && isActive == old(isActive)
      ensures !inited ==> rc == UnknownError && history == old(history) && notifier.sent == old(notifier.sent)
      ensures inited ==> history == old(history) + [Complete(jobId)] && doNextJobs == old(doNextJobs) + 1
      ensures var d := N.Data(a.argMalloc, a.nodeMalloc && old(notifier.mDataQ.active), a.cmdMalloc, false);
              var sends := inited && event.enabled && !event.failed && !event.moreCaptures
                           && (event.memOpt || event.memOk);
              && (inited ==> (rc == NoError <==> !event.enabled || (!event.failed && event.moreCaptures)
                                                 || (sends && N.Succeeds(d))))
              && (sends ==> notifier.sent == old(notifier.sent)
                                             + if N.Succeeds(d) then [d] else [d.(again := true), N.Direct])
              && own == if inited && event.enabled && !event.failed && event.moreCaptures then 1 else 0
    {
      if !inited {
        return UnknownError, 0;
      }
      hide Run, Next, IdsFit, Recorded, WithIds, SameForWorker, C.Run, N.Recorded, N.Accounts;
      FlushJob(jobId);
      rc, own := notifier.SendJpeg(event, a, evt);
      SendDoNextJob();
    }

    /** Any number of steps of the other threads. */
    method Interfere()
      requires Valid()
      modifies `lane, `history, `serial, `doNextJobs, inputJpegQ, ongoingJpegQ
      ensures Valid() && isActive == old(isActive) && SameForWorker(old(lane), lane)
    {
      hide Run, Next, IdsFit, Recorded, WithIds;
      var n: nat := *;
      while n != 0
        invariant Valid() && isActive == old(isActive) && SameForWorker(old(lane), lane)
      {
        if * {
          var jobId: JobId := *;
          FlushJob(jobId);
        } else {
          var jobMalloc, nodeMalloc: bool := *, *;
          var _ := ProcessData(true, jobMalloc, nodeMalloc);
        }
        n := n - 1;
      }
    }

    /** The dequeue of DO_NEXT_JOB. */
    method TakeJob() returns (job: Option<nat>)
      requires Valid() && lane.pc == Idle
      modifies `lane, `history, `handled, inputJpegQ
      ensures Valid() && lane == Next(old(lane), JpegLane.Take) && isActive == old(isActive)
      ensures lane.lost == old(lane.lost) && (job.None? ==> lane.pc == Idle)
      ensures job.Some? ==> lane.pc == if isActive then Taken(job.value) else Dropping(job.value)
      ensures job.Some? ==>
                && old(inputJpegQ.items) != [] && job.value == old(inputJpegQ.items)[0]
                && inputJpegQ.items == old(inputJpegQ.items)[1..]
      ensures job.None? ==> inputJpegQ.items == old(inputJpegQ.items) && (inputJpegQ.active ==> inputJpegQ.items == [])
      ensures handled == old(handled) + [JpegLane.Take]
    {
      OtherStepFits(lane, jobIds, serial, JpegLane.Take);
      hide Run, IdsFit, Recorded;
      job := inputJpegQ.Take(true);
      Advance(JpegLane.Take);
      handled := handled + [JpegLane.Take];
    }

    /** "add into ongoing jpeg job Q". */
    method AddToOngoing(job: nat, ongoingMalloc: bool)
      requires Valid() && lane.pc == Taken(job)
      modifies `lane, `history, ongoingJpegQ
      ensures Valid() && lane == Next(old(lane), AddOngoing(ongoingMalloc)) && isActive == old(isActive)
      ensures lane.pc == Submitting(job, ongoingMalloc) && lane.lost == old(lane.lost)
      ensures ongoingJpegQ.items == old(ongoingJpegQ.items) + if ongoingMalloc then [job] else []
    {
      OtherStepFits(lane, jobIds, serial, AddOngoing(ongoingMalloc));
      assert job !in jobIds;
      hide Run, IdsFit, Recorded;
      var _ := ongoingJpegQ.Put(job, false, ongoingMalloc);
      Advance(AddOngoing(ongoingMalloc));
      assert old(ongoingJpegQ.items) + [job] == (old(ongoingJpegQ.items) + [job])[..|old(ongoingJpegQ.items)|] + [job];
    }

    /** "remember job info": the id is written into the struct, wherever it is queued. */
    method RecordJobId(job: nat, jobId: JobId)
      requires Valid() && lane.pc.Started? && lane.pc.job == job && lane.pc.jobId == jobId
      modifies `lane, `history, `jobIds
      ensures jobIds == old(jobIds)[job := jobId]
      ensures Valid() && lane == Next(old(lane), Record) && isActive == old(isActive)
      ensures lane.pc == Idle && (old(lane.pc).queued ==> lane.lost == old(lane.lost))
    {
      RunKeepsInv(history, |history|);
      RecordStep(lane, ongoingJpegQ.items, jobIds, serial);
      hide Run, Next, Inv, RecordId, WithIds, IdsFit, Recorded;
      Advance(Record);
      jobIds := jobIds[job := jobId];
    }

    /** "dequeue the last one". */
    method DequeueLast()
      requires Valid() && lane.pc.Failed?
      modifies `lane, `history, ongoingJpegQ
      ensures var n := |old(ongoingJpegQ.items)|;
              ongoingJpegQ.items == if n == 0 then [] else old(ongoingJpegQ.items)[..n - 1]
      ensures ongoingJpegQ.released == old(ongoingJpegQ.released)
      ensures Valid() && lane == Next(old(lane), DequeueTail) && isActive == old(isActive)
      ensures lane.pc == Dropping(old(lane.pc).job) && (old(lane.pc).queued ==> lane.lost == old(lane.lost))
    {
      hide Run, Next, Inv, IdsFit, Recorded, WithIds;
      RunKeepsInv(history, |history|);
      DequeueStep(lane, ongoingJpegQ.items, jobIds, serial);
      var _ := ongoingJpegQ.Take(false);
      Advance(DequeueTail);
    }

    /** `releaseJpegJobData` and `free` of the job in hand. */
    method ReleaseJpegJobData(job: nat)
      requires Valid() && (lane.pc == Dropping(job) || lane.pc == AbortRelease(job))
      modifies `lane, `history, `released
      ensures Valid() && isActive == old(isActive)
      ensures lane == Next(old(lane), if old(lane.pc).Dropping? then Drop else AbortDrop)
      ensures released == old(released) + [job] && |lane.ongoing| == |old(lane).ongoing|
      ensures lane.lost == old(lane.lost) && lane.pc == if old(lane.pc).Dropping? then Idle else Aborting
    {
      ReleaseIs(lane);
      ThreadRecords(lane.released, released, inputJpegQ.released, ongoingJpegQ.released, job);
      OtherStepFits(lane, jobIds, serial, if lane.pc.Dropping? then Drop else AbortDrop);
      hide Run, Next, IdsFit, Recorded, WithIds;
      released := released + [job];
      Advance(if lane.pc.Dropping? then Drop else AbortDrop);
    }

    /** What follows a failed `encodeData`. */
    method EncodeFailed(job: nat)
      requires Valid() && lane.pc.Failed? && lane.pc.job == job
      modifies `lane, `history, `serial, `doNextJobs, `jobIds, `released, inputJpegQ, ongoingJpegQ
      ensures Valid() && lane.pc == Idle && isActive == old(isActive)
      ensures old(lane.pc).queued ==> lane.lost == old(lane.lost)
    {
      hide Run, Next, IdsFit, Recorded, WithIds;
      DequeueLast();
      Interfere();
      ReleaseJpegJobData(job);
    }

    /** The encode: from the enqueue on the ongoing queue to the recorded id or the release after a failure. */
    method Encode(job: nat, ongoingMalloc: bool, encoded: Encoded)
      requires Valid() && lane.pc == Taken(job)
      modifies `lane, `history, `serial, `doNextJobs, `jobIds, `released, inputJpegQ, ongoingJpegQ
      ensures Valid() && lane.pc == Idle && isActive == old(isActive)
      ensures ongoingMalloc ==> lane.lost == old(lane.lost)
    {
      hide Run, Next, IdsFit, Recorded, WithIds;
      AddToOngoing(job, ongoingMalloc);
      Interfere();
      match encoded {
        case Starts(jobId) =>
          Step(StartJob(jobId));
          Interfere();
          RecordJobId(job, jobId);
        case Skips =>
          Step(EncodeSkips);
        case Fails =>
          Step(EncodeFails);
          Interfere();
          EncodeFailed(job);
      }
    }

    /** A step of encodeData that touches none of the shared state. */
    ghost method Step(a: Action)
      requires Valid() && lane.pc.Submitting? && (a.StartJob? || a.EncodeSkips? || a.EncodeFails?)
      modifies `lane, `history
      ensures Valid() && lane == Next(old(lane), a)
      ensures var (job, queued) := (old(lane.pc).job, old(lane.pc).queued);
              && lane.pc == (if a.StartJob? then Started(job, queued, a.newId)
                             else if a.EncodeFails? then Failed(job, queued) else Idle)
              && (queued || !a.EncodeSkips? ==> lane.lost == old(lane.lost))
    {
      OtherStepFits(lane, jobIds, serial, a);
      hide Run, IdsFit, Recorded;
      Advance(a);
    }

    /** CAMERA_CMD_TYPE_DO_NEXT_JOB, JPEG part. */
    method NextJob(ongoingMalloc: bool, encoded: Encoded)
      requires Valid() && lane.pc == Idle
      modifies `lane, `history, `handled, `serial, `doNextJobs, `jobIds, `released, inputJpegQ, ongoingJpegQ
      ensures Valid() && lane.pc == Idle && isActive == old(isActive)
      ensures ongoingMalloc ==> lane.lost == old(lane.lost)
      ensures handled == old(handled) + [JpegLane.Take]
    {
      hide Run, Next, IdsFit, Recorded, WithIds;
      var job := TakeJob();
      if job.Some? {
        Interfere();
        if isActive {
          Encode(job.value, ongoingMalloc, encoded);
        } else {
          ReleaseJpegJobData(job.value);
        }
      }
    }

    /** CAMERA_CMD_TYPE_START_DATA_PROC, JPEG part. */
    method StartDataProcessing()
      requires Valid() && lane.pc == Idle
      modifies `lane, `history, `handled, `isActive, inputJpegQ
      ensures Valid() && lane.pc == Idle && lane.lost == old(lane.lost)
      ensures isActive && inputJpegQ.active && inputJpegQ.items == old(inputJpegQ.items)
      ensures handled == old(handled) + [Start]
    {
      OtherStepFits(lane, jobIds, serial, Start);
      hide Run, IdsFit, Recorded;
      isActive := true;
      inputJpegQ.Init();
      Advance(Start);
      handled := handled + [Start];
    }

    /** The dequeue of the abort loop. */
    method TakeOngoing() returns (job: Option<nat>)
      requires Valid() && lane.pc == Aborting
      modifies `lane, `history, ongoingJpegQ
      ensures Valid() && isActive == old(isActive) && lane.lost == old(lane.lost)
      ensures job.None? ==> lane == old(lane) && lane.ongoing == []
      ensures job.Some? ==> lane.pc == AbortRelease(job.value) && |lane.ongoing| == |old(lane).ongoing| - 1
      ensures job.Some? ==>
                && old(ongoingJpegQ.items) != [] && job.value == old(ongoingJpegQ.items)[0]
                && ongoingJpegQ.items == old(ongoingJpegQ.items)[1..]
    {
      hide Run, Next, IdsFit, Recorded, WithIds;
      AbortTakeStep(lane, ongoingJpegQ.items, jobIds, serial);
      job := ongoingJpegQ.Take(true);
      if job.Some? {
        Advance(AbortNext);
      }
    }

    /** The abort loop; completions may empty the queue under it. */
    method AbortOngoing()
      requires Valid() && lane.pc == Aborting
      modifies `lane, `history, `serial, `doNextJobs, `released, inputJpegQ, ongoingJpegQ
      ensures Valid() && lane.pc == Aborting && lane.lost == old(lane.lost)
      ensures lane.ongoing == [] && isActive == old(isActive)
    {
      hide Run, Next, IdsFit, Recorded, WithIds;
      var job := TakeOngoing();
      while job.Some?
        invariant Valid() && lane.lost == old(lane.lost) && isActive == old(isActive)
        invariant job.Some? ==> lane.pc == AbortRelease(job.value)
        invariant job.None? ==> lane.pc == Aborting && lane.ongoing == []
        decreases if job.Some? then |lane.ongoing| + 1 else 0
      {
        Interfere();
        ReleaseJpegJobData(job.value);
        job := TakeOngoing();
      }
    }

    /** The flush of the input queue at the end of STOP. */
    method FlushInput()
      requires Valid() && lane.pc == Aborting && lane.ongoing == [] && !isActive
      modifies `lane, `history, inputJpegQ
      ensures Valid() && Stopped(lane) && lane.lost == old(lane.lost)
      ensures old(inputJpegQ.active) ==>
                inputJpegQ.items == [] && inputJpegQ.released == old(inputJpegQ.released) + old(inputJpegQ.items)
    {
      OtherStepFits(lane, jobIds, serial, AbortNext);
      FlushIs(lane);
      InputRecords(lane.released, released, inputJpegQ.released, ongoingJpegQ.released, inputJpegQ.items);
      hide Run, Next, IdsFit, Recorded, WithIds;
      inputJpegQ.Flush();
      Advance(AbortNext);
    }

    /** The first statement of STOP. */
    method Deactivate()
      requires Valid() && lane.pc == Idle
      modifies `lane, `history, `handled, `isActive
      ensures Valid() && lane.pc == Aborting && !isActive && lane.lost == old(lane.lost)
      ensures handled == old(handled) + [Stop]
    {
      OtherStepFits(lane, jobIds, serial, Stop);
      hide Run, IdsFit, Recorded;
      isActive := false;
      Advance(Stop);
      handled := handled + [Stop];
    }

    /** CAMERA_CMD_TYPE_STOP_DATA_PROC, JPEG part: abort what is ongoing, flush what is waiting. */
    method StopDataProcessing()
      requires Valid() && lane.pc == Idle
      modifies `lane, `history, `handled, `isActive, `serial, `doNextJobs, `released, inputJpegQ, ongoingJpegQ
      ensures Valid() && Stopped(lane) && lane.lost == old(lane.lost)
      ensures handled == old(handled) + [Stop] && !isActive
    {
      hide Run, Next, IdsFit, Recorded, WithIds;
      Deactivate();
      Interfere();
      AbortOngoing();
      FlushInput();
    }

    /**
      The command loop: it begins each command with its step, in their order.  When the commands end with a STOP, every
      job the input queue accepted, from any thread and at any moment, has been given to releaseJpegJobData exactly
      once and nothing else has, if and only if no step was a losing one; a DO_NEXT_JOB whose job the ongoing queue
      takes has none.
    */
    method DataProcessRoutine(commands: seq<Command>)
      requires Valid() && lane == INIT
      modifies this, inputJpegQ, ongoingJpegQ
      ensures Valid() && |handled| == |old(handled)| + |commands|
      ensures forall k :: 0 <= k < |commands| ==> handled[|old(handled)| + k] == FirstStep(commands[k])
      ensures commands != [] && commands[|commands| - 1] == StopDataProc ==>
                (EachOnce(lane.accepted, released, inputJpegQ.released, ongoingJpegQ.released)
                 <==> NeverLoses(history, |history|))
      ensures (forall c <- commands :: c.DoNextJob? ==> c.ongoingMalloc) ==> NeverLoses(history, |history|)
    {
      hide Run, Next, IdsFit, Recorded, WithIds, EachOnce, AllReleasedOnce, NeverLoses;
      var i := 0;
      while i < |commands|
        invariant 0 <= i <= |commands| && Valid() && lane.pc == Idle && |handled| == |old(handled)| + i
        invariant forall k :: 0 <= k < i ==> handled[|old(handled)| + k] == FirstStep(commands[k])
        invariant (forall c <- commands :: c.DoNextJob? ==> c.ongoingMalloc) ==> NoneLost(lane)
        invariant i > 0 && commands[i - 1] == StopDataProc ==> Stopped(lane)
      {
        var command := commands[i];
        match command {
          case StartDataProc =>
            StartDataProcessing();
          case StopDataProc =>
            StopDataProcessing();
          case DoNextJob(ongoingMalloc, encoded) =>
            NextJob(ongoingMalloc, encoded);
        }
        Interfere();
        i := i + 1;
      }
      LostInRun(history, |history|);
      RecordedOnce(lane, released, inputJpegQ.released, ongoingJpegQ.released);
      if commands != [] && commands[|commands| - 1] == StopDataProc {
        ReleasedExactlyOnce(history, |history|);
      }
    }
  }
}

/**
  The JPEG lane of QCameraPostProc.cpp: jobs move from the input queue to the ongoing queue and are released by
  whichever thread finishes them.  `Next` is one atomic step of one thread; a step that is not possible leaves
  the state alone, so a run is any sequence of actions.
*/
module JpegLane {
  import opened Units
  import opened CameraQueue

  /** What the encoder hands out for a started job: never 0, which marks a job without an id. */
  type JobId = id: nat | id != 0 witness 1

  /** A job on the ongoing queue; its id is 0 until `encodeData` has recorded it. */
  datatype Ongoing = Ongoing(job: nat, jobId: nat)

  /** Where `dataProcessRoutine` is.  `queued` says whether the ongoing queue took the job in hand. */
  datatype Pc =
    | Idle
    | Taken(job: nat)
    | Submitting(job: nat, queued: bool)
    | Started(job: nat, queued: bool, jobId: JobId)
    | Failed(job: nat, queued: bool)
    | Dropping(job: nat)
    | Aborting
    | AbortRelease(job: nat)

  datatype Lane = Lane(input: Queue<nat>, ongoing: seq<Ongoing>, isActive: bool, pc: Pc,
                       accepted: set<nat>, released: multiset<nat>, lost: multiset<nat>)

  datatype Action =
    | Accept(newJob: nat, inputMalloc: bool)  // processData, processPPData: any producer thread
    | Complete(doneId: JobId)                  // processJpegEvt on the encoder's thread, or dataSaveRoutine
    | Start                                   // START_DATA_PROC
    | Take                                    // DO_NEXT_JOB: dequeue from the input queue
    | AddOngoing(ongoingMalloc: bool)         // enqueue on the ongoing queue
    | StartJob(newId: JobId)                   // encodeData: start_job succeeds; completions may arrive from here
    | Record                                  // encodeData: the job id is stored in the job
    | EncodeSkips                             // encodeData: a raw image is only dumped, and NO_ERROR returned
    | EncodeFails                             // encodeData: any failure
    | DequeueTail                             // "dequeue the last one"
    | Drop                                    // releaseJpegJobData and free of the job in hand
    | Stop                                    // STOP_DATA_PROC
    | AbortNext                               // one dequeue of the abort loop, or the flush behind it
    | AbortDrop                               // release of the dequeued job

  const INIT := Lane(Fresh(), [], false, Idle, {}, multiset{}, multiset{})

  predicate HasId(e: Ongoing, id: nat) {
    e.jobId == id
  }

  /** The recorded id is written through the job pointer, wherever the job is queued. */
  function RecordId(ongoing: seq<Ongoing>, job: nat, id: nat): (r: seq<Ongoing>)
    ensures |r| == |ongoing|
  {
    if ongoing == [] then [] else
    var last := ongoing[|ongoing| - 1];
    RecordId(ongoing[..|ongoing| - 1], job, id) + [if last.job == job then last.(jobId := id) else last]
  }

  function JobsOf(ongoing: seq<Ongoing>): multiset<nat> {
    if ongoing == [] then multiset{}
    else JobsOf(ongoing[..|ongoing| - 1]) + multiset{ongoing[|ongoing| - 1].job}
  }

  function Next(s: Lane, a: Action): Lane {
    match a
    case Accept(job, inputMalloc) =>
      if job in s.accepted || !inputMalloc || !s.input.active then s
      else s.(input := Enqueue(s.input, job, true), accepted := s.accepted + {job})
    case Complete(id) =>
      s.(ongoing := Filter(s.ongoing, (e: Ongoing) => !HasId(e, id)),
         released := s.released + JobsOf(Filter(s.ongoing, (e: Ongoing) => HasId(e, id))))
    case Start =>
      if s.pc != Idle then s else s.(isActive := true, input := s.input.(active := true))
    case Take =>
      if s.pc != Idle || Front(s.input, true).None? then s
      else
        var job := Front(s.input, true).value;
        s.(input := Dequeue(s.input, true), pc := if s.isActive then Taken(job) else Dropping(job))
    case AddOngoing(ongoingMalloc) =>
      if !s.pc.Taken? then s
      else s.(ongoing := if ongoingMalloc then s.ongoing + [Ongoing(s.pc.job, 0)] else s.ongoing,
              pc := Submitting(s.pc.job, ongoingMalloc))
    case StartJob(id) =>
      if !s.pc.Submitting? then s else s.(pc := Started(s.pc.job, s.pc.queued, id))
    case Record =>
      if !s.pc.Started? then s
      else s.(ongoing := RecordId(s.ongoing, s.pc.job, s.pc.jobId), pc := Idle,
              lost := if s.pc.queued then s.lost else s.lost + multiset{s.pc.job})
    case EncodeSkips =>
      if !s.pc.Submitting? then s
      else s.(pc := Idle, lost := if s.pc.queued then s.lost else s.lost + multiset{s.pc.job})
    case EncodeFails =>
      if !s.pc.Submitting? then s else s.(pc := Failed(s.pc.job, s.pc.queued))
    case DequeueTail =>
      if !s.pc.Failed? then s
      else if s.ongoing == [] then s.(pc := Dropping(s.pc.job))
      else
        var tail := s.ongoing[|s.ongoing| - 1].job;
        s.(ongoing := s.ongoing[..|s.ongoing| - 1], pc := Dropping(s.pc.job),
           lost := if tail == s.pc.job then s.lost else s.lost + multiset{tail})
    case Drop =>
      if !s.pc.Dropping? then s else s.(released := s.released + multiset{s.pc.job}, pc := Idle)
    case Stop =>
      if s.pc != Idle then s else s.(isActive := false, pc := Aborting)
    case AbortNext =>
      if s.pc != Aborting then s
      else if s.ongoing != [] then s.(ongoing := s.ongoing[1..], pc := AbortRelease(s.ongoing[0].job))
      else if s.input.active then
        s.(released := s.released + multiset(s.input.items), input := Queue([], false), pc := Idle)
      else s.(pc := Idle)
    case AbortDrop =>
      if !s.pc.AbortRelease? then s
      else s.(released := s.released + multiset{s.pc.job}, pc := Aborting)
  }

  /** The newest action is the last one. */
  function Run(acts: seq<Action>, n: nat): Lane
    requires n <= |acts|
  {
    if n == 0 then INIT else Next(Run(acts, n - 1), acts[n - 1])
  }

  lemma {:induction false} RunExtends(acts: seq<Action>, a: Action, n: nat)
    requires n <= |acts|
    ensures Run(acts + [a], n) == Run(acts, n)
    ensures n == |acts| ==> Run(acts + [a], n + 1) == Next(Run(acts, n), a)
  {
    hide Next;
    if n != 0 {
      RunExtends(acts, a, n - 1);
    }
  }

  lemma {:induction false} JobsAreCounted(ongoing: seq<Ongoing>, f: Ongoing -> bool, job: nat)
    ensures JobsOf(Filter(ongoing, f))[job] == |Filter(ongoing, (e: Ongoing) => f(e) && e.job == job)|
  {
    if ongoing != [] {
      JobsAreCounted(ongoing[..|ongoing| - 1], f, job);
    }
  }

  /**
    The completion of an id releases exactly the ongoing jobs under that id, as often as they are queued, and keeps
    exactly the others, in their order; nothing else changes.
  */
  lemma CompletionTakesItsId(s: Lane, id: JobId, job: nat)
    ensures var s' := Next(s, Complete(id));
            && s'.ongoing == Filter(s.ongoing, (e: Ongoing) => e.jobId != id)
            && (forall e :: e in s'.ongoing <==> e in s.ongoing && e.jobId != id)
            && s'.released[job] == s.released[job] + |Filter(s.ongoing, (e: Ongoing) => e.jobId == id && e.job == job)|
            && s' == s.(ongoing := s'.ongoing, released := s'.released)
  {
    var done, rest := (e: Ongoing) => HasId(e, id), (e: Ongoing) => !HasId(e, id);
    FilterSame(s.ongoing, rest, (e: Ongoing) => e.jobId != id);
    FilterInOrder(s.ongoing, rest);
    JobsAreCounted(s.ongoing, done, job);
    FilterSame(s.ongoing, (e: Ongoing) => done(e) && e.job == job, (e: Ongoing) => e.jobId == id && e.job == job);
    hide Filter, JobsOf;
  }

  // ----- Every job is in one place -----

  function QueuedTimes(items: seq<nat>, job: nat): nat {
    if items == [] then 0
    else QueuedTimes(items[..|items| - 1], job) + if items[|items| - 1] == job then 1 else 0
  }

  function OngoingTimes(ongoing: seq<Ongoing>, job: nat): nat {
    if ongoing == [] then 0
    else OngoingTimes(ongoing[..|ongoing| - 1], job) + if ongoing[|ongoing| - 1].job == job then 1 else 0
  }

  /** The job only the worker still knows. */
  function InHand(pc: Pc): Option<nat> {
    match pc
    case Taken(job) => Some(job)
    case Dropping(job) => Some(job)
    case AbortRelease(job) => Some(job)
    case Submitting(job, queued) => if queued then None else Some(job)
    case Started(job, queued, _) => if queued then None else Some(job)
    case Failed(job, queued) => if queued then None else Some(job)
    case _ => None
  }

  /** In how many places a job is: input queue, ongoing queue, worker's hand, released, or lost. */
  function Times(s: Lane, job: nat): nat {
    QueuedTimes(s.input.items, job) + OngoingTimes(s.ongoing, job)
    + (if InHand(s.pc) == Some(job) then 1 else 0) + s.released[job] + s.lost[job]
  }

  /** Each accepted job is in exactly one place, any other in none. */
  ghost predicate Accounted(s: Lane) {
    forall job :: Times(s, job) == if job in s.accepted then 1 else 0
  }

  predicate InEncoder(pc: Pc) {
    pc.Submitting? || pc.Started? || pc.Failed?
  }

  /**
    The job being encoded is the tail of the ongoing queue, without an id yet; outside a STOP an inactive lane
    has nothing ongoing; a closed input queue is empty.
  */
  predicate Shape(s: Lane) {
    && (InEncoder(s.pc) && s.pc.queued ==> s.ongoing != [] && s.ongoing[|s.ongoing| - 1] == Ongoing(s.pc.job, 0))
    && (s.pc.Taken? || InEncoder(s.pc) ==> s.isActive)
    && (s.pc.AbortRelease? || s.pc.Aborting? ==> !s.isActive)
    && (!s.isActive && !s.pc.AbortRelease? && !s.pc.Aborting? ==> s.ongoing == [])
    && (!s.input.active ==> s.input.items == [])
  }

  ghost predicate Inv(s: Lane) {
    Accounted(s) && Shape(s)
  }

  lemma {:induction false} QueuedTail(items: seq<nat>, job: nat)
    requires items != []
    ensures QueuedTimes(items, job) == QueuedTimes(items[1..], job) + if items[0] == job then 1 else 0
  {
    var front := items[..|items| - 1];
    if front != [] {
      QueuedTail(front, job);
      assert front[1..] == items[1..][..|items| - 2];
    }
  }

  lemma {:induction false} QueuedIsMultiset(items: seq<nat>, job: nat)
    ensures QueuedTimes(items, job) == multiset(items)[job]
  {
    if items != [] {
      QueuedIsMultiset(items[..|items| - 1], job);
      assert items == items[..|items| - 1] + [items[|items| - 1]];
    }
  }

  lemma OngoingAppend(s: seq<Ongoing>, e: Ongoing, job: nat)
    ensures OngoingTimes(s + [e], job) == OngoingTimes(s, job) + if e.job == job then 1 else 0
  {
  }

  lemma {:induction false} OngoingTail(s: seq<Ongoing>, job: nat)
    requires s != []
    ensures OngoingTimes(s, job) == OngoingTimes(s[1..], job) + if s[0].job == job then 1 else 0
  {
    var front := s[..|s| - 1];
    if front != [] {
      OngoingTail(front, job);
      assert front[1..] == s[1..][..|s| - 2];
    }
  }

  lemma {:induction false} OngoingPartition(s: seq<Ongoing>, id: nat, job: nat)
    ensures OngoingTimes(s, job) == OngoingTimes(Filter(s, (e: Ongoing) => HasId(e, id)), job)
                                  + OngoingTimes(Filter(s, (e: Ongoing) => !HasId(e, id)), job)
  {
    if s != [] {
      OngoingPartition(s[..|s| - 1], id, job);
      var last := s[|s| - 1];
      OngoingAppend(Filter(s[..|s| - 1], (e: Ongoing) => HasId(e, id)), last, job);
      OngoingAppend(Filter(s[..|s| - 1], (e: Ongoing) => !HasId(e, id)), last, job);
    }
  }

  lemma {:induction false} JobsAreOngoingTimes(s: seq<Ongoing>, job: nat)
    ensures JobsOf(s)[job] == OngoingTimes(s, job)
  {
    if s != [] {
      JobsAreOngoingTimes(s[..|s| - 1], job);
    }
  }

  lemma {:induction false} RecordKeepsTimes(s: seq<Ongoing>, job: nat, id: nat, other: nat)
    ensures OngoingTimes(RecordId(s, job, id), other) == OngoingTimes(s, other)
  {
    if s != [] {
      RecordKeepsTimes(s[..|s| - 1], job, id, other);
      var last := s[|s| - 1];
      OngoingAppend(RecordId(s[..|s| - 1], job, id), if last.job == job then last.(jobId := id) else last, other);
    }
  }

  predicate Accepts(s: Lane, a: Action, job: nat) {
    a.Accept? && a.newJob == job && a.inputMalloc && s.input.active && job !in s.accepted
  }

  lemma CompleteKeepsTimes(s: Lane, id: JobId, job: nat)
    ensures Times(Next(s, Complete(id)), job) == Times(s, job)
  {
    OngoingPartition(s.ongoing, id, job);
    JobsAreOngoingTimes(Filter(s.ongoing, (e: Ongoing) => HasId(e, id)), job);
    hide QueuedTimes, OngoingTimes, Filter, JobsOf;
  }

  lemma DequeueTailKeepsTimes(s: Lane, job: nat)
    requires Shape(s) && Times(s, job) <= 1
    ensures Times(Next(s, DequeueTail), job) == Times(s, job)
  {
  }

  lemma AbortNextKeepsTimes(s: Lane, job: nat)
    ensures Times(Next(s, AbortNext), job) == Times(s, job)
  {
    QueuedIsMultiset(s.input.items, job);
    if s.ongoing != [] {
      OngoingTail(s.ongoing, job);
    }
    hide OngoingTimes;
  }

  lemma EncodeKeepsTimes(s: Lane, a: Action, job: nat)
    requires a.AddOngoing? || a.StartJob? || a.EncodeSkips? || a.EncodeFails? || a.Record?
    ensures Times(Next(s, a), job) == Times(s, job)
  {
    if a.AddOngoing? && s.pc.Taken? {
      OngoingAppend(s.ongoing, Ongoing(s.pc.job, 0), job);
    } else if a.Record? && s.pc.Started? {
      RecordKeepsTimes(s.ongoing, s.pc.job, s.pc.jobId, job);
    }
    hide QueuedTimes, OngoingTimes, RecordId;
  }

  lemma AcceptAddsOne(s: Lane, a: Action, job: nat)
    requires a.Accept?
    ensures Times(Next(s, a), job) == Times(s, job) + if Accepts(s, a, job) then 1 else 0
  {
  }

  lemma TakeKeepsTimes(s: Lane, job: nat)
    ensures Times(Next(s, Take), job) == Times(s, job)
  {
    if s.input.items != [] {
      QueuedTail(s.input.items, job);
    }
    hide QueuedTimes, OngoingTimes;
  }

  /** No step but an accepting one creates or loses a job. */
  lemma TimesStep(s: Lane, a: Action, job: nat)
    requires Shape(s) && Times(s, job) <= 1
    ensures Times(Next(s, a), job) == Times(s, job) + if Accepts(s, a, job) then 1 else 0
  {
    hide Shape;
    if a.Complete? {
      CompleteKeepsTimes(s, a.doneId, job);
    } else if a.DequeueTail? {
      DequeueTailKeepsTimes(s, job);
    } else if a.AbortNext? {
      AbortNextKeepsTimes(s, job);
    } else if a.AddOngoing? || a.StartJob? || a.EncodeSkips? || a.EncodeFails? || a.Record? {
      EncodeKeepsTimes(s, a, job);
    } else if a.Accept? {
      AcceptAddsOne(s, a, job);
    } else if a.Take? {
      TakeKeepsTimes(s, job);
    } else {
      hide QueuedTimes, OngoingTimes, Filter, JobsOf, RecordId;
    }
  }

  /** A completion cannot take the job that is still being submitted: that one has no id. */
  lemma TailWithoutIdStays(s: seq<Ongoing>, id: JobId)
    requires s != [] && s[|s| - 1].jobId == 0
    ensures var kept := Filter(s, (e: Ongoing) => !HasId(e, id));
            kept != [] && kept[|kept| - 1] == s[|s| - 1]
  {
  }

  lemma CompleteKeepsShape(s: Lane, id: JobId)
    requires Shape(s)
    ensures Shape(Next(s, Complete(id)))
  {
  }

  lemma WorkerKeepsShape(s: Lane, a: Action)
    requires Shape(s)
    requires a.Take? || a.AddOngoing? || a.StartJob? || a.Record? || a.EncodeSkips? || a.EncodeFails?
    ensures Shape(Next(s, a))
  {
    hide Filter, JobsOf, RecordId;
  }

  lemma ShapeStep(s: Lane, a: Action)
    requires Shape(s)
    ensures Shape(Next(s, a))
  {
    hide Shape, Next;
    if a.Complete? {
      CompleteKeepsShape(s, a.doneId);
    } else if a.Take? || a.AddOngoing? || a.StartJob? || a.Record? || a.EncodeSkips? || a.EncodeFails? {
      WorkerKeepsShape(s, a);
    } else {
      OtherKeepsShape(s, a);
    }
  }

  lemma OtherKeepsShape(s: Lane, a: Action)
    requires Shape(s)
    requires a.Accept? || a.Start? || a.DequeueTail? || a.Drop? || a.Stop? || a.AbortNext? || a.AbortDrop?
    ensures Shape(Next(s, a))
  {
    hide Filter, JobsOf, RecordId, QueuedTimes, OngoingTimes;
  }

  lemma NextKeepsInv(s: Lane, a: Action)
    requires Inv(s)
    ensures Inv(Next(s, a))
  {
    ShapeStep(s, a);
    forall job ensures Times(Next(s, a), job) == if job in Next(s, a).accepted then 1 else 0 {
      TimesStep(s, a, job);
      AcceptedStep(s, a, job);
    }
  }

  lemma AcceptedStep(s: Lane, a: Action, job: nat)
    ensures job in Next(s, a).accepted <==> job in s.accepted || Accepts(s, a, job)
  {
  }

  lemma {:induction false} RunKeepsInv(acts: seq<Action>, n: nat)
    requires n <= |acts|
    ensures Inv(Run(acts, n))
  {
    if n != 0 {
      RunKeepsInv(acts, n - 1);
      hide Inv, Next;
      NextKeepsInv(Run(acts, n - 1), acts[n - 1]);
    }
  }

  // ----- Exactly one release -----

  /** Behind a completed STOP, until the next START. */
  predicate Stopped(s: Lane) {
    s.pc == Idle && !s.isActive && !s.input.active
  }

  /** The dequeue of a failed encode takes exactly the job that failed. */
  lemma {:induction false} TailDequeueTakesTheFailedJob(acts: seq<Action>, n: nat)
    requires n <= |acts| && Run(acts, n).pc.Failed? && Run(acts, n).pc.queued
    ensures var s := Run(acts, n);
            && s.ongoing != [] && s.ongoing[|s.ongoing| - 1].job == s.pc.job
            && Next(s, DequeueTail).lost == s.lost
  {
    var s := Run(acts, n);
    RunKeepsInv(acts, n);
    InvHasShape(s);
    hide Run, Inv, Filter, JobsOf, RecordId;
  }

  predicate Refuses(a: Action) {
    a.AddOngoing? && !a.ongoingMalloc
  }

  /**
    The steps that lose a job, told by their guards: the ongoing queue has refused the job in hand, and the encode
    ends well without it being on the queue, or it fails and the tail dequeue finds some other job.
  */
  predicate Loses(s: Lane, a: Action) {
    || (a.Record? && s.pc.Started? && !s.pc.queued)
    || (a.EncodeSkips? && s.pc.Submitting? && !s.pc.queued)
    || (a.DequeueTail? && s.pc.Failed? && !s.pc.queued && s.ongoing != [])
  }

  /** No step of the run loses a job. */
  predicate NeverLoses(acts: seq<Action>, n: nat)
    requires n <= |acts|
  {
    n == 0 || (NeverLoses(acts, n - 1) && !Loses(Run(acts, n - 1), acts[n - 1]))
  }

  predicate OngoingNeverRefuses(acts: seq<Action>, n: nat)
    requires n <= |acts|
  {
    n == 0 || (OngoingNeverRefuses(acts, n - 1) && !Refuses(acts[n - 1]))
  }

  lemma InvHasShape(s: Lane)
    requires Inv(s)
    ensures Shape(s)
  {
  }

  predicate NoneLost(s: Lane) {
    s.lost == multiset{}
  }

  /** A losing step loses a job, any other none. */
  lemma LostStep(s: Lane, a: Action)
    requires Inv(s)
    ensures NoneLost(Next(s, a)) <==> NoneLost(s) && !Loses(s, a)
    ensures !Loses(s, a) ==> Next(s, a).lost == s.lost
  {
    if a.DequeueTail? && s.pc.Failed? && s.ongoing != [] {
      assert Times(s, s.pc.job) <= 1;
      assert OngoingTimes(s.ongoing, s.ongoing[|s.ongoing| - 1].job) >= 1;
    }
    hide Filter, JobsOf, RecordId, Accounted, OngoingTimes, QueuedTimes;
  }

  lemma RunUnfolds(acts: seq<Action>, n: nat)
    requires 0 < n <= |acts|
    ensures Run(acts, n) == Next(Run(acts, n - 1), acts[n - 1])
  {
  }

  lemma NeverLosesUnfolds(acts: seq<Action>, n: nat)
    requires 0 < n <= |acts|
    ensures NeverLoses(acts, n) <==> NeverLoses(acts, n - 1) && !Loses(Run(acts, n - 1), acts[n - 1])
  {
  }

  lemma LostOneMore(acts: seq<Action>, n: nat)
    requires 0 < n <= |acts| && (NoneLost(Run(acts, n - 1)) <==> NeverLoses(acts, n - 1))
    ensures NoneLost(Run(acts, n)) <==> NeverLoses(acts, n)
  {
    hide *;
    RunUnfolds(acts, n);
    NeverLosesUnfolds(acts, n);
    RunKeepsInv(acts, n - 1);
    LostStep(Run(acts, n - 1), acts[n - 1]);
  }

  lemma {:induction false} LostInRun(acts: seq<Action>, n: nat)
    requires n <= |acts|
    ensures NoneLost(Run(acts, n)) <==> NeverLoses(acts, n)
  {
    if n != 0 {
      LostInRun(acts, n - 1);
      LostOneMore(acts, n);
    }
  }

  /** Each accepted job has been released exactly once, and nothing else has been released. */
  ghost predicate AllReleasedOnce(s: Lane) {
    forall job :: s.released[job] == if job in s.accepted then 1 else 0
  }

  lemma StoppedOwesTheLost(s: Lane)
    requires Inv(s) && Stopped(s)
    ensures AllReleasedOnce(s) <==> NoneLost(s)
  {
    forall job ensures s.released[job] + s.lost[job] == if job in s.accepted then 1 else 0 {
      assert Times(s, job) == if job in s.accepted then 1 else 0;
    }
    if s.lost != multiset{} {
      var job :| job in s.lost;
      assert s.released[job] == 0;
    }
  }

  /**
    Over every interleaving, once the lane is stopped each accepted job has been released exactly once, and nothing
    else, if and only if no step was a losing one.
  */
  lemma ReleasedExactlyOnce(acts: seq<Action>, n: nat)
    requires n <= |acts| && Stopped(Run(acts, n))
    ensures AllReleasedOnce(Run(acts, n)) <==> NeverLoses(acts, n)
  {
    hide Run, Inv, Stopped, NeverLoses;
    RunKeepsInv(acts, n);
    LostInRun(acts, n);
    StoppedOwesTheLost(Run(acts, n));
  }

  predicate QueuedInEncoder(s: Lane) {
    InEncoder(s.pc) ==> s.pc.queued
  }

  lemma QueuedStep(s: Lane, a: Action)
    requires QueuedInEncoder(s) && !Refuses(a)
    ensures QueuedInEncoder(Next(s, a)) && !Loses(s, a)
  {
    hide Filter, JobsOf, RecordId;
  }

  /** An ongoing queue that never refuses a job is enough for that. */
  lemma {:induction false} WithoutRefusalNothingIsLost(acts: seq<Action>, n: nat)
    requires n <= |acts| && OngoingNeverRefuses(acts, n)
    ensures NeverLoses(acts, n) && QueuedInEncoder(Run(acts, n))
  {
    if n != 0 {
      WithoutRefusalNothingIsLost(acts, n - 1);
      var s, a := Run(acts, n - 1), acts[n - 1];
      hide QueuedInEncoder, Loses, Next;
      RunUnfolds(acts, n);
      QueuedStep(s, a);
    }
  }

  /** The shortest run that loses a job: accepted, refused by the ongoing queue, encoded, and never released. */
  lemma LosingRun() returns (acts: seq<Action>)
    ensures !NeverLoses(acts, |acts|) && Stopped(Run(acts, |acts|)) && !AllReleasedOnce(Run(acts, |acts|))
    ensures 0 in Run(acts, |acts|).accepted && Run(acts, |acts|).released == multiset{}
  {
    acts := [Start, Accept(0, true), Take, AddOngoing(false), StartJob(1), Record, Stop, AbortNext];
    var s := LosingSteps();
    assert Run(acts, 0) == INIT;
    hide Next, Run, Stopped, NeverLoses;
    RunUnfolds(acts, 1);
    RunUnfolds(acts, 2);
    RunUnfolds(acts, 3);
    RunUnfolds(acts, 4);
    RunUnfolds(acts, 5);
    RunUnfolds(acts, 6);
    RunUnfolds(acts, 7);
    RunUnfolds(acts, 8);
    LostInRun(acts, 8);
    assert s.released[0] == 0;
  }

  lemma LosingSteps() returns (s: Lane)
    ensures s == Next(Next(Next(Next(Next(Next(Next(Next(INIT, Start), Accept(0, true)), Take), AddOngoing(false)),
                                          StartJob(1)), Record), Stop), AbortNext)
    ensures s.accepted == {0} && s.released == multiset{} && s.lost == multiset{0} && Stopped(s)
  {
    TakenAfterThree();
    var s3 := Lane(Queue([], true), [], true, Taken(0), {0}, multiset{}, multiset{});
    hide Filter, JobsOf;
    assert RecordId([], 0, 1) == [];
    var s6 := Next(Next(Next(s3, AddOngoing(false)), StartJob(1)), Record);
    assert s6 == s3.(pc := Idle, lost := multiset{0});
    s := Next(Next(s6, Stop), AbortNext);
  }

  lemma TakenAfterThree()
    ensures Next(Next(Next(INIT, Start), Accept(0, true)), Take)
         == Lane(Queue([], true), [], true, Taken(0), {0}, multiset{}, multiset{})
  {
    hide Filter, JobsOf, RecordId;
    assert Next(Next(INIT, Start), Accept(0, true)).input == Queue([0], true);
  }

  /** At any moment of any run a job is released at most once, and only if it was accepted. */
  lemma NeverReleasedTwice(acts: seq<Action>, n: nat, job: nat)
    requires n <= |acts|
    ensures Run(acts, n).released[job] <= 1
    ensures Run(acts, n).released[job] == 1 ==> job in Run(acts, n).accepted
  {
    RunKeepsInv(acts, n);
    var s := Run(acts, n);
    assert Times(s, job) == if job in s.accepted then 1 else 0;
  }
}

/**
  The rendezvous of QCamera2HWI.cpp between API callers and the state machine thread: `lockAPI`, `processAPI`,
  `waitAPIResult` and `signalAPIResult`.  A step is what one thread does while it holds `m_lock`; waiting on the
  condition gives the lock up, so a call is one step up to its first sleep.  The queue is the result list.
*/
module ApiRendezvous {
  import opened Units
  import opened ApiResults

  /** A caller inside `waitAPIResult`: asleep on the condition, or woken and not yet through the lock. */
  datatype Waiter = Waiter(api: nat, awake: bool)

  /** `posted`, `delivered` and `lost` are history: `lost` counts results dropped by a failed `malloc`. */
  datatype Rendezvous = Rendezvous(waiters: map<nat, Waiter>, outstanding: multiset<nat>, queue: seq<ApiResult>,
                                   posted: seq<ApiResult>, delivered: seq<ApiResult>, lost: multiset<nat>)

  datatype Action =
    | Call(caller: nat, api: nat, accepted: bool)    // lockAPI; processAPI; pthread_cond_wait if accepted
    | Signal(result: ApiResult, mallocOk: bool)      // signalAPIResult, answering one outstanding request
    | Spurious(sleeper: nat)                         // pthread_cond_wait may return on its own
    | Resume(woken: nat)                             // back with the lock: scan, then return or sleep again

  const QUIET := Rendezvous(map[], multiset{}, [], [], [], multiset{})

  function WakeAll(waiters: map<nat, Waiter>): (woken: map<nat, Waiter>)
    ensures woken.Keys == waiters.Keys
  {
    map t | t in waiters :: waiters[t].(awake := true)
  }

  function Next(s: Rendezvous, a: Action): Rendezvous {
    match a
    case Call(t, api, accepted) =>
      if t in s.waiters || !accepted then s
      else s.(waiters := s.waiters[t := Waiter(api, false)], outstanding := s.outstanding + multiset{api})
    case Signal(r, mallocOk) =>
      if r.requestApi !in s.outstanding then s
      else
        var s' := s.(outstanding := s.outstanding - multiset{r.requestApi}, waiters := WakeAll(s.waiters));
        if mallocOk then s'.(queue := s.queue + [r], posted := s.posted + [r])
        else s'.(lost := s.lost + multiset{r.requestApi})
    case Spurious(t) =>
      if t !in s.waiters then s else s.(waiters := s.waiters[t := s.waiters[t].(awake := true)])
    case Resume(t) =>
      if t !in s.waiters || !s.waiters[t].awake then s
      else
        var k := FirstFor(s.queue, s.waiters[t].api);
        if k == |s.queue| then s.(waiters := s.waiters[t := s.waiters[t].(awake := false)])
        else s.(waiters := s.waiters - {t}, queue := Without(s.queue, k), delivered := s.delivered + [s.queue[k]])
  }

  function Run(acts: seq<Action>, n: nat): Rendezvous
    requires n <= |acts|
  {
    if n == 0 then QUIET else Next(Run(acts, n - 1), acts[n - 1])
  }

  lemma {:induction false} RunExtends(acts: seq<Action>, a: Action, n: nat)
    requires n <= |acts|
    ensures Run(acts + [a], n) == Run(acts, n)
    ensures n == |acts| ==> Run(acts + [a], n + 1) == Next(Run(acts, n), a)
  {
    hide Next;
    if n != 0 {
      RunExtends(acts, a, n - 1);
    }
  }

  // ----- The invariant -----

  function Waiting(waiters: map<nat, Waiter>, api: nat): set<nat> {
    set t | t in waiters && waiters[t].api == api
  }

  function Awake(waiters: map<nat, Waiter>, api: nat): set<nat> {
    set t | t in waiters && waiters[t].api == api && waiters[t].awake
  }

  /**
    For each API: every waiter is accounted for by an outstanding request, a queued result or a lost one; there
    are no more queued results than awake waiters; and results are delivered in the order they were posted.
  */
  predicate Balanced(s: Rendezvous, api: nat) {
    && |Waiting(s.waiters, api)| == s.outstanding[api] + |For(s.queue, api)| + s.lost[api]
    && |For(s.queue, api)| <= |Awake(s.waiters, api)|
    && For(s.posted, api) == For(s.delivered, api) + For(s.queue, api)
  }

  lemma OneMoreWaiter(w: map<nat, Waiter>, t: nat, other: nat, api: nat)
    requires t !in w
    ensures var w' := w[t := Waiter(other, false)];
            && |Waiting(w', api)| == |Waiting(w, api)| + (if other == api then 1 else 0)
            && Awake(w', api) == Awake(w, api)
  {
    var w' := w[t := Waiter(other, false)];
    assert Waiting(w', api) == Waiting(w, api) + if other == api then {t} else {};
  }

  lemma OneLessWaiter(w: map<nat, Waiter>, t: nat, api: nat)
    requires t in w && w[t].awake
    ensures var one := if w[t].api == api then 1 else 0;
            && |Waiting(w - {t}, api)| == |Waiting(w, api)| - one
            && |Awake(w - {t}, api)| == |Awake(w, api)| - one
  {
    assert Waiting(w - {t}, api) == Waiting(w, api) - {t};
    assert Awake(w - {t}, api) == Awake(w, api) - {t};
    assert w[t].api == api ==> t in Waiting(w, api) && t in Awake(w, api);
  }

  lemma CallKeepsBalance(s: Rendezvous, t: nat, other: nat, api: nat)
    requires Balanced(s, api)
    ensures Balanced(Next(s, Call(t, other, true)), api)
  {
    if t !in s.waiters {
      OneMoreWaiter(s.waiters, t, other, api);
    }
    hide For, Waiting, Awake;
  }

  lemma SignalKeepsBalance(s: Rendezvous, r: ApiResult, mallocOk: bool, api: nat)
    requires Balanced(s, api)
    ensures Balanced(Next(s, Signal(r, mallocOk)), api)
  {
    ForAppend(s.queue, r, api);
    ForAppend(s.posted, r, api);
    hide For;
    assert Waiting(WakeAll(s.waiters), api) == Waiting(s.waiters, api);
    assert Awake(WakeAll(s.waiters), api) == Waiting(s.waiters, api);
  }

  lemma SpuriousKeepsBalance(s: Rendezvous, t: nat, api: nat)
    requires Balanced(s, api)
    ensures Balanced(Next(s, Spurious(t)), api)
  {
    if t in s.waiters {
      var w' := s.waiters[t := s.waiters[t].(awake := true)];
      assert Waiting(w', api) == Waiting(s.waiters, api);
      Subset(Awake(s.waiters, api), Awake(w', api));
    }
  }

  lemma {:induction false} Subset(a: set<nat>, b: set<nat>)
    requires a <= b
    ensures |a| <= |b|
  {
    assert b == a + (b - a);
  }

  lemma SleepAgainKeepsBalance(s: Rendezvous, t: nat, api: nat)
    requires Balanced(s, api) && t in s.waiters && s.waiters[t].awake
    requires FirstFor(s.queue, s.waiters[t].api) == |s.queue|
    ensures Balanced(Next(s, Resume(t)), api)
  {
    TakeIsFifo(s.queue, s.waiters[t].api, api);
    hide For, FirstFor;
    var w' := s.waiters[t := s.waiters[t].(awake := false)];
    assert Waiting(w', api) == Waiting(s.waiters, api);
    assert s.waiters[t].api != api ==> Awake(w', api) == Awake(s.waiters, api);
  }

  lemma LeaveKeepsBalance(s: Rendezvous, t: nat, api: nat)
    requires Balanced(s, api) && t in s.waiters && s.waiters[t].awake
    requires FirstFor(s.queue, s.waiters[t].api) < |s.queue|
    ensures Balanced(Next(s, Resume(t)), api)
  {
    var mine := s.waiters[t].api;
    var k := FirstFor(s.queue, mine);
    TakeIsFifo(s.queue, mine, api);
    ForAppend(s.delivered, s.queue[k], api);
    OneLessWaiter(s.waiters, t, api);
    hide For, FirstFor, Waiting, Awake;
  }

  lemma ResumeKeepsBalance(s: Rendezvous, t: nat, api: nat)
    requires Balanced(s, api)
    ensures Balanced(Next(s, Resume(t)), api)
  {
    hide Balanced;
    if t in s.waiters && s.waiters[t].awake {
      if FirstFor(s.queue, s.waiters[t].api) == |s.queue| {
        SleepAgainKeepsBalance(s, t, api);
      } else {
        LeaveKeepsBalance(s, t, api);
      }
    }
  }

  lemma {:induction false} RunIsBalanced(acts: seq<Action>, n: nat, api: nat)
    requires n <= |acts|
    ensures Balanced(Run(acts, n), api)
  {
    if n != 0 {
      RunIsBalanced(acts, n - 1, api);
      var s := Run(acts, n - 1);
      hide Balanced;
      match acts[n - 1] {
        case Call(t, other, accepted) => if accepted { CallKeepsBalance(s, t, other, api); }
        case Signal(r, mallocOk) => SignalKeepsBalance(s, r, mallocOk, api);
        case Spurious(t) => SpuriousKeepsBalance(s, t, api);
        case Resume(t) => ResumeKeepsBalance(s, t, api);
      }
    } else {
      assert Waiting(QUIET.waiters, api) == {} && Awake(QUIET.waiters, api) == {};
    }
  }

  // ----- What it gives -----

  /**
    No lost wake-up: as long as a result of an API is queued, some caller of that API is awake, and that caller,
    when it gets the lock, returns with the oldest such result.
  */
  lemma QueuedResultHasAnAwakeCaller(acts: seq<Action>, n: nat, api: nat)
    requires n <= |acts| && For(Run(acts, n).queue, api) != []
    ensures var s := Run(acts, n);
            exists t :: t in Awake(s.waiters, api)
              && t !in Next(s, Resume(t)).waiters
              && Next(s, Resume(t)).delivered == s.delivered + [For(s.queue, api)[0]]
  {
    var s := Run(acts, n);
    RunIsBalanced(acts, n, api);
    assert |Awake(s.waiters, api)| > 0;
    var t :| t in Awake(s.waiters, api);
    TakeIsFifo(s.queue, api, api);
  }

  predicate Quiescent(s: Rendezvous) {
    s.outstanding == multiset{} && forall t :: t in s.waiters ==> !s.waiters[t].awake
  }

  /** A `malloc` fails in the answer to an accepted request. */
  predicate LosesResult(s: Rendezvous, a: Action) {
    a.Signal? && !a.mallocOk && a.result.requestApi in s.outstanding
  }

  predicate NeverLosesResult(acts: seq<Action>, n: nat)
    requires n <= |acts|
  {
    n == 0 || (NeverLosesResult(acts, n - 1) && !LosesResult(Run(acts, n - 1), acts[n - 1]))
  }

  lemma LostResultStep(s: Rendezvous, a: Action)
    ensures Next(s, a).lost == multiset{} <==> s.lost == multiset{} && !LosesResult(s, a)
  {
  }

  lemma {:induction false} LostResultInRun(acts: seq<Action>, n: nat)
    requires n <= |acts|
    ensures Run(acts, n).lost == multiset{} <==> NeverLosesResult(acts, n)
  {
    if n != 0 {
      LostResultInRun(acts, n - 1);
      LostResultStep(Run(acts, n - 1), acts[n - 1]);
    }
  }

  /**
    When every request has been answered and nobody is awake, the callers still asleep are exactly the lost
    results: none is left behind if and only if no `malloc` failed in answering a request.
  */
  lemma NobodyLeftBehind(acts: seq<Action>, n: nat)
    requires n <= |acts| && Quiescent(Run(acts, n))
    ensures var s := Run(acts, n);
            && (forall api :: |Waiting(s.waiters, api)| == s.lost[api])
            && (s.waiters == map[] <==> NeverLosesResult(acts, n))
            && s.queue == []
  {
    var s := Run(acts, n);
    LostResultInRun(acts, n);
    assert s.queue != [] ==> For(s.queue, s.queue[0].requestApi) != [];
    forall api
      ensures |Waiting(s.waiters, api)| == s.lost[api] && For(s.queue, api) == []
      ensures s.lost[api] == 0 <==> Waiting(s.waiters, api) == {}
    {
      RunIsBalanced(acts, n, api);
      assert Awake(s.waiters, api) == {};
    }
    if s.lost == multiset{} && s.waiters != map[] {
      var t :| t in s.waiters;
      assert t in Waiting(s.waiters, s.waiters[t].api);
    }
    if s.lost != multiset{} {
      var api :| api in s.lost;
      assert Waiting(s.waiters, api) != {};
    }
  }

  /** The shortest run that leaves a caller asleep: a call whose answer is lost. */
  lemma StrandingRun() returns (acts: seq<Action>)
    ensures Quiescent(Run(acts, |acts|)) && 0 in Run(acts, |acts|).waiters && !NeverLosesResult(acts, |acts|)
  {
    var call, answer := Call(0, 5, true), Signal(ApiResult(5, 0), false);
    acts := [call, answer, Resume(0)];
    var s1 := Next(QUIET, call);
    assert s1.waiters == map[0 := Waiter(5, false)] && s1.outstanding == multiset{5};
    var s2 := Next(s1, answer);
    assert s2.waiters == map[0 := Waiter(5, true)] && s2.outstanding == multiset{} && s2.lost == multiset{5};
    var s3 := Next(s2, Resume(0));
    assert s3.waiters == map[0 := Waiter(5, false)] && s3.outstanding == multiset{};
    assert Run(acts, 0) == QUIET && Run(acts, 1) == s1 && Run(acts, 2) == s2 && Run(acts, 3) == s3;
    LostResultInRun(acts, 3);
  }

  /** The results of a run that answer an outstanding request and get their list node, oldest first. */
  function Signalled(acts: seq<Action>, n: nat): seq<ApiResult>
    requires n <= |acts|
  {
    if n == 0 then []
    else
      var a := acts[n - 1];
      if a.Signal? && a.mallocOk && a.result.requestApi in Run(acts, n - 1).outstanding then
        Signalled(acts, n - 1) + [a.result]
      else Signalled(acts, n - 1)
  }

  lemma PostedStep(s: Rendezvous, a: Action)
    ensures Next(s, a).posted == s.posted + if a.Signal? && a.mallocOk && a.result.requestApi in s.outstanding
                                            then [a.result] else []
  {
  }

  lemma {:induction false} PostedAreSignalled(acts: seq<Action>, n: nat)
    requires n <= |acts|
    ensures Run(acts, n).posted == Signalled(acts, n)
  {
    hide Next;
    if n != 0 {
      PostedAreSignalled(acts, n - 1);
      PostedStep(Run(acts, n - 1), acts[n - 1]);
    }
  }

  /** Each API's callers get the results signalled for it, unchanged and in that order, each result once. */
  lemma DeliveredInOrder(acts: seq<Action>, n: nat, api: nat)
    requires n <= |acts|
    ensures For(Run(acts, n).delivered, api) + For(Run(acts, n).queue, api) == For(Signalled(acts, n), api)
  {
    RunIsBalanced(acts, n, api);
    PostedAreSignalled(acts, n);
    hide For, Run, Signalled, Waiting, Awake;
  }

  /** Requests accepted and not answered yet: those accepted, less those answered, with or without a list node. */
  function Open(acts: seq<Action>, n: nat, api: nat): int
    requires n <= |acts|
  {
    if n == 0 then 0
    else
      var s, a := Run(acts, n - 1), acts[n - 1];
      Open(acts, n - 1, api)
      + (if a.Call? && a.accepted && a.caller !in s.waiters && a.api == api then 1 else 0)
      - (if a.Signal? && a.result.requestApi == api && Open(acts, n - 1, api) > 0 then 1 else 0)
  }

  lemma OutstandingStep(s: Rendezvous, a: Action, api: nat)
    ensures Next(s, a).outstanding[api]
         == s.outstanding[api] + (if a.Call? && a.accepted && a.caller !in s.waiters && a.api == api then 1 else 0)
            - (if a.Signal? && a.result.requestApi == api && s.outstanding[api] > 0 then 1 else 0)
  {
  }

  lemma {:induction false} OutstandingAreOpen(acts: seq<Action>, n: nat, api: nat)
    requires n <= |acts|
    ensures Run(acts, n).outstanding[api] == Open(acts, n, api)
  {
    hide Next;
    if n != 0 {
      OutstandingAreOpen(acts, n - 1, api);
      OutstandingStep(Run(acts, n - 1), acts[n - 1], api);
    }
  }
}

/**
  `signalAPIResult` and `waitAPIResult` as code over the linked list.  Each holds `m_lock` except inside
  `pthread_cond_wait`, where the other threads go on.  Each statement on shared state is matched by its step of
  ApiRendezvous, kept in the ghost `machine`.
*/
module ApiThreads {
  import opened Units
  import opened ApiResults
  import opened ApiRendezvous

  class ApiCalls {
    const pending: ApiResultList
    var waiters: map<nat, Waiter>  // the threads inside pthread_cond_wait, and whether it has returned
    var outstanding: multiset<nat> // requests the state machine has accepted and not answered
    ghost var machine: Rendezvous
    ghost var history: seq<Action>  // the steps taken so far

    ghost predicate Valid()
      reads this, pending, pending.repr
    {
      && pending.Valid() && this !in pending.repr
      && machine == Run(history, |history|)
      && machine.queue == pending.results && machine.waiters == waiters && machine.outstanding == outstanding
    }

    constructor ()
      ensures Valid() && machine == QUIET && fresh(pending) && fresh(pending.repr)
    {
      pending := new ApiResultList();
      waiters, outstanding := map[], multiset{};
      machine, history := QUIET, [];
    }

    ghost method Advance(a: Action)
      requires machine == Run(history, |history|)
      modifies this`machine, this`history
      ensures machine == Next(old(machine), a) == Run(history, |history|)
    {
      RunExtends(history, a, |history|);
      history := history + [a];
      machine := Next(machine, a);
    }

    /** The caller's way to its first sleep: lockAPI, an accepted processAPI, and into the wait. */
    method CallAccepted(caller: nat, api: nat)
      requires Valid() && caller !in waiters
      modifies this
      ensures Valid() && machine == Next(old(machine), Call(caller, api, true))
      ensures waiters == old(waiters)[caller := Waiter(api, false)] && pending.repr == old(pending.repr)
    {
      hide Run, Chain, Carries, For, FirstFor;
      waiters := waiters[caller := Waiter(api, false)];
      outstanding := outstanding + multiset{api};
      Advance(Call(caller, api, true));
    }

    /** `signalAPIResult`, for a request that was accepted: append, or lose the result, and wake every waiter. */
    method SignalAPIResult(result: ApiResult, mallocOk: bool)
      requires Valid() && result.requestApi in outstanding
      modifies this, pending.repr
      ensures Valid() && machine == Next(old(machine), Signal(result, mallocOk))
      ensures pending.results == if mallocOk then old(pending.results) + [result] else old(pending.results)
      ensures outstanding == old(outstanding) - multiset{result.requestApi}
      ensures fresh(pending.repr - old(pending.repr)) && waiters.Keys == old(waiters.Keys)
      ensures forall t :: t in waiters ==> waiters[t] == old(waiters)[t].(awake := true)
    {
      hide Run, Chain, Carries, For, FirstFor;
      pending.Post(result, mallocOk);
      outstanding := outstanding - multiset{result.requestApi};
      waiters := WakeAll(waiters);
      Advance(Signal(result, mallocOk));
    }

    /** One pass of the loop of `waitAPIResult` after `pthread_cond_wait` has returned. */
    method ScanOnce(caller: nat) returns (received: Option<ApiResult>)
      requires Valid() && caller in waiters && waiters[caller].awake
      modifies this, pending.repr
      ensures Valid() && pending.repr == old(pending.repr) && machine == Next(old(machine), Resume(caller))
      ensures var mine := For(old(pending.results), old(waiters)[caller].api);
              && (received == None <==> mine == [])
              && (mine == [] ==> waiters == old(waiters)[caller := old(waiters)[caller].(awake := false)])
              && (mine != [] ==> received == Some(mine[0]) && waiters == old(waiters) - {caller}
                                 && machine.delivered == old(machine.delivered) + [mine[0]])
      ensures forall api :: For(pending.results, api)
                            == if api == old(waiters)[caller].api && received.Some? then
                                 For(old(pending.results), api)[1..]
                               else For(old(pending.results), api)
    {
      hide Run, For, FirstFor, Chain, Carries, WakeAll;
      var w := waiters[caller];
      TakeIsFifo(pending.results, w.api, w.api);
      received := pending.TakeMatching(w.api);
      forall api ensures For(pending.results, api) == if api == w.api && received.Some? then
                                                        For(old(pending.results), api)[1..]
                                                      else For(old(pending.results), api)
      {
        TakeIsFifo(old(pending.results), w.api, api);
      }
      waiters := if received.Some? then waiters - {caller} else waiters[caller := w.(awake := false)];
      Advance(Resume(caller));
    }

    /** The other threads, any number of times: calls, signals, spurious wake-ups, and scans of other waiters. */
    method Others(me: nat)
      requires Valid() && me in waiters
      modifies this, pending.repr
      ensures Valid() && fresh(pending.repr - old(pending.repr))
      ensures me in waiters && waiters[me].api == old(waiters)[me].api
    {
      hide Run, For, Next;
      var n: nat := *;
      while n != 0
        invariant Valid() && fresh(pending.repr - old(pending.repr))
        invariant me in waiters && waiters[me].api == old(waiters)[me].api
      {
        var choice: nat, caller: nat, api: nat, payload: int, mallocOk: bool := *, *, *, *, *;
        if choice == 0 && api in outstanding {
          SignalAPIResult(ApiResult(api, payload), mallocOk);
        } else if choice == 1 && caller !in waiters {
          CallAccepted(caller, api);
        } else if choice == 2 && caller != me && caller in waiters && waiters[caller].awake {
          var _ := ScanOnce(caller);
        } else if choice == 3 && caller in waiters {
          Spurious(caller);
        }
        n := n - 1;
      }
    }

    /** `pthread_cond_wait` returning on its own. */
    method Spurious(caller: nat)
      requires Valid() && caller in waiters
      modifies this
      ensures Valid() && pending.repr == old(pending.repr)
      ensures machine == Next(old(machine), ApiRendezvous.Spurious(caller))
      ensures waiters == old(waiters)[caller := old(waiters)[caller].(awake := true)]
    {
      waiters := waiters[caller := waiters[caller].(awake := true)];
      hide Run;
      Advance(ApiRendezvous.Spurious(caller));
    }

    /**
      An API call and the loop of `waitAPIResult`, given up after so many rounds.  It returns a result of its own
      API and leaves the wait; or it is still waiting, and then nobody sleeps on an undelivered result: there are
      no more queued results of the API than waiters that are awake.
    */
    method WaitAPIResult(me: nat, api: nat, rounds: nat) returns (received: Option<ApiResult>)
      requires Valid() && me !in waiters
      modifies this, pending.repr
      ensures Valid() && fresh(pending.repr - old(pending.repr))
      ensures received.Some? ==>
                && received.value.requestApi == api && me !in waiters
                && machine.delivered != [] && machine.delivered[|machine.delivered| - 1] == received.value
      ensures received == None ==> me in waiters && waiters[me].api == api
      ensures forall a :: Balanced(machine, a)
    {
      hide Run, Next, Balanced;
      CallAccepted(me, api);
      received := None;
      var n := 0;
      while received == None && n < rounds
        invariant Valid() && fresh(pending.repr - old(pending.repr))
        invariant received == None ==> me in waiters && waiters[me].api == api
        invariant received.Some? ==>
                    && received.value.requestApi == api && me !in waiters
                    && machine.delivered != [] && machine.delivered[|machine.delivered| - 1] == received.value
      {
        Others(me);
        if waiters[me].awake {
          TakeIsFifo(pending.results, api, api);
          received := ScanOnce(me);
        }
        n := n + 1;
      }
      forall a ensures Balanced(machine, a) {
        RunIsBalanced(history, |history|, a);
      }
    }
  }
}

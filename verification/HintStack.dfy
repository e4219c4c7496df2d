/**
  What the hint list means: a sequence of (id, handle) entries, newest first, together with every handle the
  perf-lock library handed out and every handle given back.  The heap list of HintList.dfy is proved to follow
  these functions; the laws here hold over every run of them.
*/
module HintStack {
  import opened Units

  /** struct hint_data. */
  datatype Hint = Hint(id: nat, handle: int)

  /** Which entry points of the perf-lock library were found when it was loaded. */
  datatype Library = Library(acq: bool, rel: bool)

  datatype Perf = Perf(entries: seq<Hint>, acquired: multiset<int>, released: multiset<int>)

  const EINVAL := 22
  const ENOMEM := 12

  /** Index of the newest entry with this id, |entries| if there is none. */
  function FirstMatch(entries: seq<Hint>, id: nat): (k: nat)
    ensures k <= |entries|
    ensures k < |entries| ==> entries[k].id == id
    ensures forall i :: 0 <= i < k ==> entries[i].id != id
  {
    if entries == [] || entries[0].id == id then 0 else 1 + FirstMatch(entries[1..], id)
  }

  /**
    `perform_hint_action`: `lock` is what `perf_lock_acq` returns and `tracked` says whether both allocations
    succeed.
  */
  function Perform(lib: Library, s: Perf, id: nat, lock: int, tracked: bool): (r: (Perf, int))
  {
    if !lib.acq then
      (s, 0)
    else if lock == -1 then
      (s, -EINVAL)
    else if !tracked then
      (s.(acquired := s.acquired + multiset{lock},
          released := if lib.rel then s.released + multiset{lock} else s.released), -ENOMEM)
    else
      (s.(entries := [Hint(id, lock)] + s.entries, acquired := s.acquired + multiset{lock}), 0)
  }

  /** `undo_hint_action`: releases and forgets the newest entry with this id. */
  function Undo(lib: Library, s: Perf, id: nat): (s': Perf)
  {
    var k := FirstMatch(s.entries, id);
    if !lib.rel || k == |s.entries| then
      s
    else
      s.(entries := Without(s.entries, k),
         released := s.released + multiset{s.entries[k].handle})
  }

  /** The result: 0 without the library or with the lock listed, -EINVAL (-22) without a lock, else -ENOMEM (-12). */
  lemma PerformResult(lib: Library, s: Perf, id: nat, lock: int, tracked: bool)
    ensures var (s', rc) := Perform(lib, s, id, lock, tracked);
            && (rc == 0 <==> !lib.acq || (lock != -1 && tracked))
            && (rc == -22 <==> lib.acq && lock == -1) && (rc == -12 <==> lib.acq && lock != -1 && !tracked)
            && s'.acquired == s.acquired + (if lib.acq && lock != -1 then multiset{lock} else multiset{})
            && s'.released == s.released + (if rc == -12 && lib.rel then multiset{lock} else multiset{})
            && s'.entries == (if lib.acq && rc == 0 then [Hint(id, lock)] else []) + s.entries
  {
  }

  datatype Op = PerformOp(id: nat, lock: int, tracked: bool) | UndoOp(id: nat)

  function Step(lib: Library, s: Perf, op: Op): Perf {
    match op
    case PerformOp(id, lock, tracked) => Perform(lib, s, id, lock, tracked).0
    case UndoOp(id) => Undo(lib, s, id)
  }

  /** The newest operation is the last one. */
  function Run(lib: Library, s: Perf, ops: seq<Op>): Perf {
    if ops == [] then s else Step(lib, Run(lib, s, ops[..|ops| - 1]), ops[|ops| - 1])
  }

  const EMPTY := Perf([], multiset{}, multiset{})

  // ----- Conservation of locks -----

  function Handles(entries: seq<Hint>): multiset<int> {
    if entries == [] then multiset{} else multiset{entries[0].handle} + Handles(entries[1..])
  }

  /** Every acquired lock is either listed or has been given back, as often as it was acquired. */
  predicate Conserved(s: Perf) {
    s.acquired == s.released + Handles(s.entries)
  }

  lemma {:induction false} HandlesWithout(entries: seq<Hint>, k: nat)
    requires k < |entries|
    ensures Handles(entries) == Handles(Without(entries, k)) + multiset{entries[k].handle}
  {
    var rest := Without(entries, k);
    if k == 0 {
      assert rest == entries[1..];
    } else {
      HandlesWithout(entries[1..], k - 1);
      assert rest[1..] == entries[1..][..k - 1] + entries[1..][k..];
    }
  }

  /** Exactly when a perform keeps the account: a lock that cannot be tracked needs a release entry point. */
  lemma PerformConserves(lib: Library, s: Perf, id: nat, lock: int, tracked: bool)
    requires Conserved(s)
    ensures Conserved(Perform(lib, s, id, lock, tracked).0) <==> !lib.acq || lock == -1 || tracked || lib.rel
  {
  }

  lemma UndoConserves(lib: Library, s: Perf, id: nat)
    requires Conserved(s)
    ensures Conserved(Undo(lib, s, id))
  {
    var k := FirstMatch(s.entries, id);
    if k < |s.entries| {
      HandlesWithout(s.entries, k);
    }
  }

  lemma {:induction false} RunConserves(lib: Library, ops: seq<Op>)
    requires lib.rel || !lib.acq
    ensures Conserved(Run(lib, EMPTY, ops))
  {
    if ops != [] {
      var before, op := ops[..|ops| - 1], ops[|ops| - 1];
      RunConserves(lib, before);
      match op {
        case PerformOp(id, lock, tracked) => PerformConserves(lib, Run(lib, EMPTY, before), id, lock, tracked);
        case UndoOp(id) => UndoConserves(lib, Run(lib, EMPTY, before), id);
      }
    }
  }

  /**
    No run loses or doubly releases a lock, if and only if locks can be released or cannot be acquired; else one
    failed allocation is enough.
  */
  lemma ConservationLaw(lib: Library)
    ensures (forall ops :: Conserved(Run(lib, EMPTY, ops))) <==> lib.rel || !lib.acq
  {
    if lib.rel || !lib.acq {
      forall ops ensures Conserved(Run(lib, EMPTY, ops)) {
        RunConserves(lib, ops);
      }
    } else {
      var op := PerformOp(0, 7, false);
      assert [op][..0] == [];
      assert Run(lib, EMPTY, [op]) == Step(lib, EMPTY, op);
      PerformConserves(lib, EMPTY, 0, 7, false);
      assert !Conserved(Run(lib, EMPTY, [op]));
    }
  }

  /** A lock is acquired that can neither be tracked nor released. */
  predicate LosesLock(lib: Library, op: Op) {
    op.PerformOp? && lib.acq && !lib.rel && op.lock != -1 && !op.tracked
  }

  /** Every lock that is listed or has been given back was acquired. */
  predicate Owed(s: Perf) {
    s.released + Handles(s.entries) <= s.acquired
  }

  lemma AddToBoth(a: multiset<int>, b: multiset<int>, c: multiset<int>)
    ensures a + c == b + c <==> a == b
    ensures a <= b ==> a + c <= b + c
  {
    if a + c == b + c {
      forall x ensures a[x] == b[x] {
        assert (a + c)[x] == (b + c)[x];
      }
    }
  }

  lemma PerformOwes(lib: Library, s: Perf, id: nat, lock: int, tracked: bool)
    requires Owed(s)
    ensures var s' := Perform(lib, s, id, lock, tracked).0;
            Owed(s') && (Conserved(s') <==> Conserved(s) && !LosesLock(lib, PerformOp(id, lock, tracked)))
  {
    var s', held := Perform(lib, s, id, lock, tracked).0, s.released + Handles(s.entries);
    AddToBoth(held, s.acquired, multiset{lock});
    if lib.acq && lock != -1 {
      if tracked || lib.rel {
        if tracked {
          assert s'.entries[1..] == s.entries;
        }
        assert s'.released + Handles(s'.entries) == held + multiset{lock};
        hide Handles;
      } else {
        assert s'.acquired[lock] > held[lock];
      }
    }
  }

  lemma UndoOwes(lib: Library, s: Perf, id: nat)
    requires Owed(s)
    ensures Owed(Undo(lib, s, id)) && (Conserved(Undo(lib, s, id)) <==> Conserved(s))
  {
    var k := FirstMatch(s.entries, id);
    if k < |s.entries| {
      HandlesWithout(s.entries, k);
    }
  }

  /** A run accounts for every lock, exactly when no operation of it loses one. */
  lemma {:induction false} RunConservesExactly(lib: Library, ops: seq<Op>)
    ensures var s := Run(lib, EMPTY, ops);
            && Owed(s)
            && (Conserved(s) <==> forall i :: 0 <= i < |ops| ==> !LosesLock(lib, ops[i]))
  {
    if ops != [] {
      var before := ops[..|ops| - 1];
      RunConservesExactly(lib, before);
      match ops[|ops| - 1] {
        case PerformOp(id, lock, tracked) => PerformOwes(lib, Run(lib, EMPTY, before), id, lock, tracked);
        case UndoOp(id) => UndoOwes(lib, Run(lib, EMPTY, before), id);
      }
      assert forall i :: 0 <= i < |before| ==> before[i] == ops[i];
    }
  }

  // ----- One independent stack per id -----

  /** The handles held under one id, newest first. */
  function StackOf(entries: seq<Hint>, id: nat): (stack: seq<int>)
  {
    if entries == [] then []
    else (if entries[0].id == id then [entries[0].handle] else []) + StackOf(entries[1..], id)
  }

  /** What one operation does to the stack of `id`, knowing nothing of the other ids. */
  function StackStep(lib: Library, stack: seq<int>, id: nat, op: Op): seq<int> {
    match op
    case PerformOp(i, lock, tracked) =>
      if i == id && lib.acq && lock != -1 && tracked then [lock] + stack else stack
    case UndoOp(i) =>
      if i == id && lib.rel && stack != [] then stack[1..] else stack
  }

  function StackRun(lib: Library, id: nat, ops: seq<Op>): seq<int> {
    if ops == [] then [] else StackStep(lib, StackRun(lib, id, ops[..|ops| - 1]), id, ops[|ops| - 1])
  }

  lemma StackSkips(entries: seq<Hint>, id: nat)
    requires entries != [] && entries[0].id != id
    ensures StackOf(entries, id) == StackOf(entries[1..], id)
  {
  }

  /** Taking out the first match of `id` pops the stack of `id` and leaves every other stack alone. */
  lemma {:induction false} RemovalPops(entries: seq<Hint>, id: nat, other: nat)
    ensures var k := FirstMatch(entries, id);
            && (k == |entries| <==> StackOf(entries, id) == [])
            && (k < |entries| ==>
                  var rest := Without(entries, k);
                  && StackOf(entries, id) == [entries[k].handle] + StackOf(rest, id)
                  && (other != id ==> StackOf(rest, other) == StackOf(entries, other)))
  {
    hide Without;
    var k := FirstMatch(entries, id);
    if k == |entries| {
      if k > 0 {
        RemovalPops(entries[1..], id, other);
      }
    } else {
      WithoutUnfolds(entries, k);
      if k > 0 {
        RemovalPops(entries[1..], id, other);
        StackSkips(entries, id);
        StackSkips(Without(entries, k), id);
        assert FirstMatch(entries[1..], id) == k - 1;
      }
    }
  }

  lemma StepOnStack(lib: Library, s: Perf, id: nat, op: Op)
    ensures StackOf(Step(lib, s, op).entries, id) == StackStep(lib, StackOf(s.entries, id), id, op)
  {
    match op {
      case PerformOp(i, lock, tracked) =>
        if lib.acq && lock != -1 && tracked {
          assert Step(lib, s, op).entries[1..] == s.entries;
        }
      case UndoOp(i) =>
        RemovalPops(s.entries, i, id);
    }
  }

  /** However operations on different ids are interleaved, each id sees its own LIFO stack. */
  lemma {:induction false} RunIsIndependentStacks(lib: Library, id: nat, ops: seq<Op>)
    ensures StackOf(Run(lib, EMPTY, ops).entries, id) == StackRun(lib, id, ops)
  {
    if ops != [] {
      var before, op := ops[..|ops| - 1], ops[|ops| - 1];
      RunIsIndependentStacks(lib, id, before);
      StepOnStack(lib, Run(lib, EMPTY, before), id, op);
    }
  }

  /** An undo releases the top of its stack, once, and nothing else. */
  lemma UndoReleasesTop(lib: Library, s: Perf, id: nat)
    requires lib.rel
    ensures var stack := StackOf(s.entries, id);
            Undo(lib, s, id).released
              == s.released + (if stack == [] then multiset{} else multiset{stack[0]})
  {
    RemovalPops(s.entries, id, id);
  }
}

/**
  Who has each ION buffer: stream memory objects, the pool they share, and runs of allocate, allocateMore,
  deallocate and pool clear (QCameraMem.cpp).
*/
module StreamMemory {
  import opened Units
  import opened MemoryPool

  const IOMMU_HEAP_MASK: int := 0x0200_0000

  // ----- Several buffers -----

  /** ION's answer to the i-th request of a call. */
  predicate Answer(ion: seq<bool>, i: nat) {
    i < |ion| && ion[i]
  }

  /** Buffers i to n - 1 of one call: the store afterwards, what was got, and whether all were. */
  function Acquire(s: Store, owner: Owner, req: Request, ion: seq<bool>, i: nat, n: int)
      : (r: (Store, seq<MemInfo>, bool))
    requires owner.streamType < |s.pools|
    ensures |r.0.pools| == |s.pools|
    ensures r.2 ==> |r.1| == if i < n then n - i else 0
    ensures !r.2 ==> i + |r.1| < n
    decreases n - i
  {
    if i >= n then (s, [], true)
    else
      var (s1, m) := GetBuffer(s, owner, req, Answer(ion, i));
      if m.None? then (s1, [], false)
      else
        var rest := Acquire(s1, owner, req, ion, i + 1, n);
        (rest.0, [m.value] + rest.1, rest.2)
  }

  /** Gives back slots k - 1 down to 0. */
  function ReleaseDown(s: Store, owner: Owner, slots: seq<MemInfo>, k: nat): (s': Store)
    requires owner.streamType < |s.pools| && k <= |slots|
    ensures |s'.pools| == |s.pools| && s'.next == s.next && s'.live <= s.live
    decreases k
  {
    if k == 0 then s else ReleaseDown(GiveBack(s, owner, slots[k - 1]), owner, slots, k - 1)
  }

  /** Gives back slots k up to the last. */
  function ReleaseUp(s: Store, owner: Owner, slots: seq<MemInfo>, k: nat): (s': Store)
    requires owner.streamType < |s.pools| && k <= |slots|
    ensures |s'.pools| == |s.pools| && s'.next == s.next && s'.live <= s.live
    decreases |slots| - k
  {
    if k == |slots| then s else ReleaseUp(GiveBack(s, owner, slots[k]), owner, slots, k + 1)
  }

  /** The slot of a buffer that went back to ION. */
  function Emptied(m: MemInfo): MemInfo {
    m.(handle := 0, size := 0)
  }

  function AllEmptied(slots: seq<MemInfo>): (r: seq<MemInfo>)
    ensures |r| == |slots|
    ensures forall k :: 0 <= k < |slots| ==> r[k] == Emptied(slots[k])
  {
    if slots == [] then [] else [Emptied(slots[0])] + AllEmptied(slots[1..])
  }

  /** What `QCameraMemory::alloc` leaves: the store, the object's counted slots, the buffers above them, the result. */
  datatype Outcome = Outcome(store: Store, slots: seq<MemInfo>, got: seq<MemInfo>, rc: Status)

  function Alloc(s: Store, owner: Owner, slots: seq<MemInfo>, count: int, req: Request, ion: seq<bool>): (r: Outcome)
    requires owner.streamType < |s.pools|
    ensures |r.store.pools| == |s.pools|
    ensures |r.got| == if r.rc.NoError? && count > 0 then count else 0
    ensures |r.slots| == |slots| && (r.rc.NoError? ==> |slots| + count <= MM_CAMERA_MAX_NUM_FRAMES)
  {
    if |slots| + count > MM_CAMERA_MAX_NUM_FRAMES then Outcome(s, slots, [], BadIndex)
    else
      var (s1, got, ok) := Acquire(s, owner, req, ion, 0, count);
      if ok then Outcome(s1, slots, got, NoError)
      else
        Outcome(ReleaseDown(s1, owner, slots + got, |slots + got|),
                if owner.pooled then slots else AllEmptied(slots), [], NoMemory)
  }

  function FreeFrom(live: set<nat>, pool: seq<MemInfo>, k: nat): (r: set<nat>)
    ensures r <= live
    decreases |pool| - k
  {
    if k >= |pool| then live else FreeFrom(live - {pool[k].handle}, pool, k + 1)
  }

  /** `clear` from stream type i on. */
  function ClearFrom(s: Store, i: nat): (s': Store)
    ensures |s'.pools| == |s.pools| && s'.next == s.next && s'.live <= s.live
    decreases |s.pools| - i
  {
    if i >= |s.pools| then s
    else ClearFrom(s.(live := FreeFrom(s.live, s.pools[i], 0), pools := s.pools[i := []]), i + 1)
  }

  // ----- The system -----

  /** Stream memory objects over one store; `slots[o]` is the first `mBufferCount` entries of object o. */
  datatype Sys = Sys(store: Store, owners: seq<Owner>, slots: seq<seq<MemInfo>>)

  datatype Action =
    | Allocate(o: nat, count: int, size: int, secure: bool, ion: seq<bool>)
    | AllocateMore(o: nat, count: int, size: int, ion: seq<bool>)
    | Deallocate(o: nat)
    | ClearPool

  predicate Shaped(sys: Sys) {
    && |sys.owners| == |sys.slots| && sys.store.next > 0
    && forall o :: 0 <= o < |sys.owners| ==> sys.owners[o].streamType < |sys.store.pools|
  }

  predicate Applies(sys: Sys, a: Action) {
    a.ClearPool? || a.o < |sys.slots|
  }

  function RequestOf(a: Action): Request
    requires a.Allocate? || a.AllocateMore?
  {
    Request(IOMMU_HEAP_MASK, a.size, a.Allocate? && a.secure)
  }

  /** `mBufferCount` after a successful call: `allocate` sets it to the count, `allocateMore` adds the count. */
  function NewCount(slots: seq<MemInfo>, a: Action): (n: nat)
    requires a.Allocate? || a.AllocateMore?
  {
    var n := if a.Allocate? then a.count else |slots| + a.count;
    if n < 0 then 0 else n
  }

  function Called(sys: Sys, a: Action): Outcome
    requires Shaped(sys) && Applies(sys, a) && (a.Allocate? || a.AllocateMore?)
  {
    Alloc(sys.store, sys.owners[a.o], sys.slots[a.o], a.count, RequestOf(a), a.ion)
  }

  function SlotsAfter(slots: seq<MemInfo>, a: Action, r: Outcome): seq<MemInfo>
    requires a.Allocate? || a.AllocateMore?
  {
    var all := r.slots + r.got;
    if r.rc.NoError? && NewCount(slots, a) <= |all| then all[..NewCount(slots, a)] else all
  }

  function Step(sys: Sys, a: Action): (sys': Sys)
    requires Shaped(sys)
    ensures |sys'.slots| == |sys.slots| && sys'.owners == sys.owners
    ensures |sys'.store.pools| == |sys.store.pools|
  {
    if !Applies(sys, a) then sys
    else match a
      case Deallocate(o) =>
        sys.(store := ReleaseUp(sys.store, sys.owners[o], sys.slots[o], 0), slots := sys.slots[o := []])
      case ClearPool => sys.(store := ClearFrom(sys.store, 0))
      case _ =>
        var r := Called(sys, a);
        sys.(store := r.store, slots := sys.slots[a.o := SlotsAfter(sys.slots[a.o], a, r)])
  }

  /**
    What a call leaves on its object.  Over 64 slots it is refused and changes nothing.  A refusal by pool and ION
    leaves the counted slots, emptied if there is no pool.  Success appends what was got and sets the count to the
    requested one for `allocate`, which asks for secure buffers if told so, and adds it for `allocateMore`.
  */
  lemma CallLeaves(sys: Sys, a: Action)
    requires Shaped(sys) && Applies(sys, a) && (a.Allocate? || a.AllocateMore?)
    ensures var req := Request(0x0200_0000, a.size, a.Allocate? && a.secure);
            var r, slots := Alloc(sys.store, sys.owners[a.o], sys.slots[a.o], a.count, req, a.ion), sys.slots[a.o];
            var n := if a.Allocate? then a.count else |slots| + a.count;
            var sys' := Step(sys, a);
            && sys'.store == r.store && sys'.slots == sys.slots[a.o := sys'.slots[a.o]]
            && (r.rc.BadIndex? <==> |slots| + a.count > 64)
            && (r.rc.BadIndex? ==> sys' == sys)
            && (r.rc.NoMemory? ==>
                  && |sys'.slots[a.o]| == |slots|
                  && forall k :: 0 <= k < |slots| ==>
                       sys'.slots[a.o][k] == if sys.owners[a.o].pooled then slots[k]
                                             else MemInfo(0, 0, slots[k].cached, slots[k].heapId, slots[k].secure))
            && (r.rc.NoError? ==>
                  && |r.got| == (if a.count > 0 then a.count else 0)
                  && sys'.slots[a.o] == if n <= 0 then [] else if n <= |slots + r.got| then (slots + r.got)[..n]
                                        else slots + r.got)
            && !r.rc.UnknownError? && !r.rc.FailedTransaction?
  {
    hide Acquire, ReleaseDown;
    var slots := sys.slots[a.o];
    assert slots + [] == slots;
  }

  // ----- Counting handles -----

  function InFirst(list: seq<MemInfo>, k: nat, x: nat): nat
    requires k <= |list|
  {
    if k == 0 then 0 else InFirst(list, k - 1, x) + if list[k - 1].handle == x then 1 else 0
  }

  function In(list: seq<MemInfo>, x: nat): nat {
    InFirst(list, |list|, x)
  }

  function InLists(lists: seq<seq<MemInfo>>, n: nat, x: nat): nat
    requires n <= |lists|
  {
    if n == 0 then 0 else InLists(lists, n - 1, x) + In(lists[n - 1], x)
  }

  /** Holders that handle x must have outside the pool: 1 if it is live, less its places in the pool. */
  function Loose(s: Store, x: nat): int {
    (if x in s.live then 1 else 0) - InLists(s.pools, |s.pools|, x)
  }

  /** A live handle is in exactly one place, slot or pool list; any other is in none. */
  predicate Accounted(sys: Sys, x: nat) {
    && (x in sys.store.live ==> x < sys.store.next)
    && Loose(sys.store, x) == InLists(sys.slots, |sys.slots|, x)
  }

  ghost predicate Conserved(sys: Sys) {
    Shaped(sys) && 0 !in sys.store.live && forall x: nat | x > 0 :: Accounted(sys, x)
  }

  lemma {:induction false} InFirstSame(a: seq<MemInfo>, b: seq<MemInfo>, k: nat, x: nat)
    requires k <= |a| && k <= |b| && forall i :: 0 <= i < k ==> a[i] == b[i]
    ensures InFirst(a, k, x) == InFirst(b, k, x)
  {
    if k > 0 { InFirstSame(a, b, k - 1, x); }
  }

  lemma {:induction false} InFirstSplit(a: seq<MemInfo>, b: seq<MemInfo>, k: nat, x: nat)
    requires k <= |b|
    ensures InFirst(a + b, |a| + k, x) == In(a, x) + InFirst(b, k, x)
  {
    if k > 0 { InFirstSplit(a, b, k - 1, x); } else { InFirstSame(a + b, a, |a|, x); }
  }

  lemma InSplit(a: seq<MemInfo>, b: seq<MemInfo>, x: nat)
    ensures In(a + b, x) == In(a, x) + In(b, x)
  {
    InFirstSplit(a, b, |b|, x);
  }

  lemma InWithout(pool: seq<MemInfo>, k: nat, x: nat)
    requires k < |pool|
    ensures In(Without(pool, k), x) == In(pool, x) - if pool[k].handle == x then 1 else 0
  {
    InSplit(pool[..k], pool[k + 1..], x);
    InSplit(pool[..k] + [pool[k]], pool[k + 1..], x);
    InSplit(pool[..k], [pool[k]], x);
    assert pool == pool[..k] + [pool[k]] + pool[k + 1..];
    assert InFirst([pool[k]], 0, x) == 0;
  }

  lemma {:induction false} InListsUpdate(lists: seq<seq<MemInfo>>, o: nat, list: seq<MemInfo>, n: nat, x: nat)
    requires o < |lists| && n <= |lists|
    ensures InLists(lists[o := list], n, x)
         == InLists(lists, n, x) + if o < n then In(list, x) - In(lists[o], x) else 0
  {
    if n > 0 { InListsUpdate(lists, o, list, n - 1, x); }
  }

  // ----- Getting and giving back -----

  function One(m: MemInfo, x: nat): nat {
    if m.handle == x then 1 else 0
  }

  lemma GetBufferLoosens(s: Store, owner: Owner, req: Request, ionOk: bool, x: nat)
    requires owner.streamType < |s.pools| && (x in s.live ==> x < s.next)
    ensures var (s', m) := GetBuffer(s, owner, req, ionOk);
            && (x in s'.live ==> x < s'.next) && s'.next >= s.next && (x in s'.live - s.live ==> x >= s.next)
            && Loose(s', x) == Loose(s, x) + if m.Some? then One(m.value, x) else 0
  {
    var t := owner.streamType;
    var k := FirstFit(s.pools[t], owner, req);
    if owner.pooled && k < |s.pools[t]| {
      InWithout(s.pools[t], k, x);
      InListsUpdate(s.pools, t, Without(s.pools[t], k), |s.pools|, x);
    }
  }

  lemma GiveBackTightens(s: Store, owner: Owner, m: MemInfo, x: nat)
    requires owner.streamType < |s.pools| && Loose(s, x) >= One(m, x)
    ensures Loose(GiveBack(s, owner, m), x) == Loose(s, x) - One(m, x)
  {
    var t := owner.streamType;
    if owner.pooled {
      InSplit(s.pools[t], [m], x);
      assert InFirst([m], 0, x) == 0;
      InListsUpdate(s.pools, t, s.pools[t] + [m], |s.pools|, x);
    }
  }

  lemma {:induction false} AcquireLoosens(s: Store, owner: Owner, req: Request, ion: seq<bool>, i: nat, n: int, x: nat)
    requires owner.streamType < |s.pools| && (x in s.live ==> x < s.next)
    ensures var (s', got, ok) := Acquire(s, owner, req, ion, i, n);
            && (x in s'.live ==> x < s'.next) && s'.next >= s.next && (x in s'.live - s.live ==> x >= s.next)
            && Loose(s', x) == Loose(s, x) + In(got, x)
    decreases n - i
  {
    if i < n {
      GetBufferLoosens(s, owner, req, Answer(ion, i), x);
      var (s1, m) := GetBuffer(s, owner, req, Answer(ion, i));
      if m.Some? {
        AcquireLoosens(s1, owner, req, ion, i + 1, n, x);
        InSplit([m.value], Acquire(s1, owner, req, ion, i + 1, n).1, x);
        assert InFirst([m.value], 0, x) == 0;
      }
    }
  }

  lemma {:induction false} ReleaseDownTightens(s: Store, owner: Owner, slots: seq<MemInfo>, k: nat, x: nat)
    requires owner.streamType < |s.pools| && k <= |slots| && Loose(s, x) >= InFirst(slots, k, x)
    ensures var s' := ReleaseDown(s, owner, slots, k);
            Loose(s', x) == Loose(s, x) - InFirst(slots, k, x)
    decreases k
  {
    if k > 0 {
      GiveBackTightens(s, owner, slots[k - 1], x);
      ReleaseDownTightens(GiveBack(s, owner, slots[k - 1]), owner, slots, k - 1, x);
    }
  }

  lemma {:induction false} InFirstGrows(list: seq<MemInfo>, j: nat, k: nat, x: nat)
    requires j <= k <= |list|
    ensures InFirst(list, j, x) <= InFirst(list, k, x)
  {
    if j < k { InFirstGrows(list, j, k - 1, x); }
  }

  lemma {:induction false} ReleaseUpTightens(s: Store, owner: Owner, slots: seq<MemInfo>, k: nat, x: nat)
    requires owner.streamType < |s.pools| && k <= |slots|
    requires Loose(s, x) >= In(slots, x) - InFirst(slots, k, x)
    ensures var s' := ReleaseUp(s, owner, slots, k);
            Loose(s', x) == Loose(s, x) - (In(slots, x) - InFirst(slots, k, x))
    decreases |slots| - k
  {
    if k < |slots| {
      InFirstGrows(slots, k + 1, |slots|, x);
      GiveBackTightens(s, owner, slots[k], x);
      ReleaseUpTightens(GiveBack(s, owner, slots[k]), owner, slots, k + 1, x);
    }
  }

  lemma {:induction false} FreeFromRemoves(live: set<nat>, pool: seq<MemInfo>, k: nat, x: nat)
    requires k <= |pool|
    ensures x in FreeFrom(live, pool, k) <==> x in live && In(pool, x) == InFirst(pool, k, x)
    decreases |pool| - k
  {
    if k < |pool| {
      FreeFromRemoves(live - {pool[k].handle}, pool, k + 1, x);
      InFirstGrows(pool, k + 1, |pool|, x);
    }
  }

  lemma {:induction false} InListsAtLeast(lists: seq<seq<MemInfo>>, o: nat, n: nat, x: nat)
    requires o < n <= |lists|
    ensures In(lists[o], x) <= InLists(lists, n, x)
  {
    if o < n - 1 { InListsAtLeast(lists, o, n - 1, x); }
  }

  lemma {:induction false} ClearFromKeepsLoose(s: Store, i: nat, x: nat)
    requires i <= |s.pools| && Loose(s, x) >= 0
    ensures var s' := ClearFrom(s, i);
            Loose(s', x) == Loose(s, x)
    decreases |s.pools| - i
  {
    if i < |s.pools| {
      FreeFromRemoves(s.live, s.pools[i], 0, x);
      InListsAtLeast(s.pools, i, |s.pools|, x);
      InListsUpdate(s.pools, i, [], |s.pools|, x);
      ClearFromKeepsLoose(s.(live := FreeFrom(s.live, s.pools[i], 0), pools := s.pools[i := []]), i + 1, x);
    }
  }

  // ----- Where buffers go -----

  /** An object that shares the pool gives its slots to its stream type's list, in order, and to no other. */
  lemma {:induction false} ReleaseUpFillsOwnList(s: Store, owner: Owner, slots: seq<MemInfo>, k: nat)
    requires owner.pooled && owner.streamType < |s.pools| && k <= |slots|
    ensures var t := owner.streamType;
            ReleaseUp(s, owner, slots, k) == s.(pools := s.pools[t := s.pools[t] + slots[k..]])
    decreases |slots| - k
  {
    var t := owner.streamType;
    if k == |slots| {
      assert s.pools[t] + slots[k..] == s.pools[t] && s.pools[t := s.pools[t]] == s.pools;
    } else {
      ReleaseUpFillsOwnList(GiveBack(s, owner, slots[k]), owner, slots, k + 1);
      assert s.pools[t] + slots[k..] == s.pools[t] + [slots[k]] + slots[k + 1..];
      assert s.pools[t := s.pools[t] + [slots[k]]][t := s.pools[t] + slots[k..]]
          == s.pools[t := s.pools[t] + slots[k..]];
    }
  }

  /** The first k slots, last one first. */
  function Backwards(slots: seq<MemInfo>, k: nat): (r: seq<MemInfo>)
    requires k <= |slots|
    ensures |r| == k && forall i :: 0 <= i < k ==> r[i] == slots[k - 1 - i]
  {
    if k == 0 then [] else [slots[k - 1]] + Backwards(slots, k - 1)
  }

  /** The error path gives them to the same list, from the last to the first. */
  lemma {:induction false} ReleaseDownFillsOwnList(s: Store, owner: Owner, slots: seq<MemInfo>, k: nat)
    requires owner.pooled && owner.streamType < |s.pools| && k <= |slots|
    ensures var t := owner.streamType;
            ReleaseDown(s, owner, slots, k) == s.(pools := s.pools[t := s.pools[t] + Backwards(slots, k)])
    decreases k
  {
    var t := owner.streamType;
    if k == 0 {
      assert s.pools[t] + Backwards(slots, k) == s.pools[t] && s.pools[t := s.pools[t]] == s.pools;
    } else {
      ReleaseDownFillsOwnList(GiveBack(s, owner, slots[k - 1]), owner, slots, k - 1);
      assert s.pools[t] + Backwards(slots, k) == s.pools[t] + [slots[k - 1]] + Backwards(slots, k - 1);
      assert s.pools[t := s.pools[t] + [slots[k - 1]]][t := s.pools[t] + Backwards(slots, k)]
          == s.pools[t := s.pools[t] + Backwards(slots, k)];
    }
  }

  /** Without a pool they go back to ION: their handles die, and nothing else changes. */
  lemma {:induction false} ReleaseUpUnpooled(s: Store, owner: Owner, slots: seq<MemInfo>, k: nat)
    requires !owner.pooled && owner.streamType < |s.pools| && k <= |slots|
    ensures var s' := ReleaseUp(s, owner, slots, k);
            && s'.pools == s.pools && s'.next == s.next
            && forall h :: h in s'.live <==> h in s.live && forall i :: k <= i < |slots| ==> slots[i].handle != h
    decreases |slots| - k
  {
    if k < |slots| {
      ReleaseUpUnpooled(GiveBack(s, owner, slots[k]), owner, slots, k + 1);
    }
  }

  /** Clearing the pool frees exactly the handles in its lists and empties them all. */
  lemma {:induction false} ClearFreesThePooled(s: Store, i: nat, x: nat)
    requires i <= |s.pools|
    ensures x in ClearFrom(s, i).live <==> x in s.live && forall t :: i <= t < |s.pools| ==> In(s.pools[t], x) == 0
    decreases |s.pools| - i
  {
    if i < |s.pools| {
      FreeFromRemoves(s.live, s.pools[i], 0, x);
      var s1 := s.(live := FreeFrom(s.live, s.pools[i], 0), pools := s.pools[i := []]);
      ClearFreesThePooled(s1, i + 1, x);
      assert forall t :: i < t < |s.pools| ==> s1.pools[t] == s.pools[t];
      assert InFirst(s.pools[i], 0, x) == 0;
      hide In;
    }
  }

  // ----- One allocation -----

  /**
    A call of `alloc` on an object whose buffers are accounted for.  Success takes exactly what it got, a count
    out of bound takes nothing, and a failure also gives back the buffers the object had before.
  */
  lemma AllocBalance(s: Store, owner: Owner, slots: seq<MemInfo>, count: int, req: Request, ion: seq<bool>, x: nat)
    requires owner.streamType < |s.pools| && (x in s.live ==> x < s.next) && Loose(s, x) >= In(slots, x)
    ensures var r := Alloc(s, owner, slots, count, req, ion);
            && (x in r.store.live ==> x < r.store.next)
            && (r.rc.NoError? ==> r.slots == slots && Loose(r.store, x) == Loose(s, x) + In(r.got, x))
            && (r.rc.BadIndex? ==> r == Outcome(s, slots, [], BadIndex))
            && (r.rc.NoMemory? ==> r.got == [] && Loose(r.store, x) == Loose(s, x) - In(slots, x))
  {
    if |slots| + count <= MM_CAMERA_MAX_NUM_FRAMES {
      AcquireLoosens(s, owner, req, ion, 0, count, x);
      var (s1, got, ok) := Acquire(s, owner, req, ion, 0, count);
      if !ok {
        InSplit(slots, got, x);
        ReleaseDownTightens(s1, owner, slots + got, |slots + got|, x);
      }
    }
  }

  lemma {:induction false} AcquireUnpooled(s: Store, owner: Owner, req: Request, ion: seq<bool>, i: nat, n: int, h: nat)
    requires owner.streamType < |s.pools| && !owner.pooled
    ensures var (s', got, ok) := Acquire(s, owner, req, ion, i, n);
            s'.pools == s.pools && s.live <= s'.live && (h in s'.live && h !in s.live ==> In(got, h) > 0)
    ensures In(Acquire(s, owner, req, ion, i, n).1, h) > 0 ==> h >= s.next
    decreases n - i
  {
    if i < n {
      var (s1, m) := GetBuffer(s, owner, req, Answer(ion, i));
      if m.Some? {
        AcquireUnpooled(s1, owner, req, ion, i + 1, n, h);
        InSplit([m.value], Acquire(s1, owner, req, ion, i + 1, n).1, h);
        assert InFirst([m.value], 0, h) == 0;
      }
    }
  }

  lemma {:induction false} ReleaseDownUnpooled(s: Store, owner: Owner, slots: seq<MemInfo>, k: nat, h: nat)
    requires owner.streamType < |s.pools| && !owner.pooled && k <= |slots|
    ensures var s' := ReleaseDown(s, owner, slots, k);
            s'.pools == s.pools && (h in s'.live <==> h in s.live && InFirst(slots, k, h) == 0)
    decreases k
  {
    if k > 0 { ReleaseDownUnpooled(GiveBack(s, owner, slots[k - 1]), owner, slots, k - 1, h); }
  }

  /**
    A first allocation that fails part way gives back exactly what it took: no handle has one holder more or
    less outside the pool, and without a pool the live buffers are the ones that were.
  */
  lemma FailedFirstAllocation(s: Store, owner: Owner, count: int, req: Request, ion: seq<bool>)
    requires owner.streamType < |s.pools| && forall h :: h in s.live ==> h < s.next
    requires forall x: nat :: Loose(s, x) >= 0
    requires Alloc(s, owner, [], count, req, ion).rc.NoMemory?
    ensures var r := Alloc(s, owner, [], count, req, ion);
            && r.slots == [] && r.got == []
            && (forall x: nat :: Loose(r.store, x) == Loose(s, x))
            && (!owner.pooled ==> r.store.live == s.live && r.store.pools == s.pools)
  {
    var r := Alloc(s, owner, [], count, req, ion);
    forall x: nat ensures Loose(r.store, x) == Loose(s, x) { AllocBalance(s, owner, [], count, req, ion, x); }
    if !owner.pooled {
      var (s1, got, ok) := Acquire(s, owner, req, ion, 0, count);
      assert [] + got == got;
      assert r.store == ReleaseDown(s1, owner, got, |got|);
      forall h: nat ensures h in r.store.live <==> h in s.live {
        AcquireUnpooled(s, owner, req, ion, 0, count, h);
        ReleaseDownUnpooled(s1, owner, got, |got|, h);
      }
      AcquireUnpooled(s, owner, req, ion, 0, count, 0);
      ReleaseDownUnpooled(s1, owner, got, |got|, 0);
      assert r.store.live == s.live;
    }
  }

  // ----- Runs -----

  /** How many pooled buffers would serve the request. */
  function FitCount(pool: seq<MemInfo>, owner: Owner, req: Request): nat {
    if pool == [] then 0
    else (if Fits(pool[0], owner, req) then 1 else 0) + FitCount(pool[1..], owner, req)
  }

  function Available(s: Store, owner: Owner, req: Request): nat
    requires owner.streamType < |s.pools|
  {
    if owner.pooled then FitCount(s.pools[owner.streamType], owner, req) else 0
  }

  /** The pool serves the first requests of a call, as many as it can, and ION says yes to every one behind. */
  ghost predicate Served(s: Store, owner: Owner, req: Request, ion: seq<bool>, i: nat, n: int)
    requires owner.streamType < |s.pools|
  {
    forall j: nat :: i + Available(s, owner, req) <= j < n ==> Answer(ion, j)
  }

  lemma {:induction false} TakingOneFit(pool: seq<MemInfo>, owner: Owner, req: Request)
    ensures var k := FirstFit(pool, owner, req);
            if k == |pool| then FitCount(pool, owner, req) == 0
            else FitCount(pool, owner, req) == FitCount(Without(pool, k), owner, req) + 1
  {
    if pool != [] {
      var k := FirstFit(pool, owner, req);
      if k == 0 {
        assert Without(pool, 0) == pool[1..];
      } else {
        TakingOneFit(pool[1..], owner, req);
        if k < |pool| {
          assert Without(pool, k) == [pool[0]] + Without(pool[1..], k - 1);
        }
      }
    }
  }

  lemma GetBufferAvailable(s: Store, owner: Owner, req: Request, ionOk: bool)
    requires owner.streamType < |s.pools|
    ensures var (s', m) := GetBuffer(s, owner, req, ionOk);
            var f := Available(s, owner, req);
            (m.Some? <==> f > 0 || ionOk) && (m.Some? ==> Available(s', owner, req) == if f > 0 then f - 1 else 0)
  {
    TakingOneFit(s.pools[owner.streamType], owner, req);
  }

  /** Whether a call gets all its buffers can be told beforehand. */
  lemma {:induction false} AcquireSucceeds(s: Store, owner: Owner, req: Request, ion: seq<bool>, i: nat, n: int)
    requires owner.streamType < |s.pools|
    ensures Acquire(s, owner, req, ion, i, n).2 <==> Served(s, owner, req, ion, i, n)
    decreases n - i
  {
    if i < n {
      var (s1, m) := GetBuffer(s, owner, req, Answer(ion, i));
      GetBufferAvailable(s, owner, req, Answer(ion, i));
      hide GetBuffer, Available;
      if m.Some? {
        AcquireSucceeds(s1, owner, req, ion, i + 1, n);
      } else {
        assert !Answer(ion, i) && Available(s, owner, req) == 0;
      }
    }
  }

  /** No entry is a buffer: all are emptied ones. */
  predicate NoBuffer(list: seq<MemInfo>) {
    forall k :: 0 <= k < |list| ==> list[k].handle == 0
  }

  /** Every entry is a buffer. */
  predicate AllBuffers(list: seq<MemInfo>) {
    forall k :: 0 <= k < |list| ==> list[k].handle > 0
  }

  /**
    The steps that keep the accounts, by what can be seen before the call.  A call over the bound does; a refused one
    unless its object shares a pool and has a buffer; a served `allocate` if the object has no slots, or asks for
    none and has no buffer; a served `allocateMore` unless a negative count cuts off a buffer.
  */
  ghost predicate Keeps(sys: Sys, a: Action)
    requires Shaped(sys)
  {
    !Applies(sys, a) || a.Deallocate? || a.ClearPool? ||
    var slots := sys.slots[a.o];
    || |slots| + a.count > 64
    || if !Served(sys.store, sys.owners[a.o], RequestOf(a), a.ion, 0, a.count) then
         !sys.owners[a.o].pooled || NoBuffer(slots)
       else if a.Allocate? then
         slots == [] || (a.count <= 0 && NoBuffer(slots))
       else
         a.count >= 0 || NoBuffer(slots[NewCount(slots, a)..])
  }

  /** The same by the result of the call: what a success cuts off holds no buffer. */
  predicate KeepsByResult(sys: Sys, a: Action)
    requires Shaped(sys)
  {
    !Applies(sys, a) || a.Deallocate? || a.ClearPool? ||
    var r, n := Called(sys, a), NewCount(sys.slots[a.o], a);
    && (r.rc.NoMemory? ==> !sys.owners[a.o].pooled || NoBuffer(sys.slots[a.o]))
    && (r.rc.NoError? && n <= |r.slots + r.got| ==> NoBuffer((r.slots + r.got)[n..]))
  }

  ghost predicate RealPools(s: Store) {
    forall t :: 0 <= t < |s.pools| ==> AllBuffers(s.pools[t])
  }

  lemma {:induction false} AcquireReal(s: Store, owner: Owner, req: Request, ion: seq<bool>, i: nat, n: int)
    requires owner.streamType < |s.pools| && s.next > 0 && RealPools(s)
    ensures AllBuffers(Acquire(s, owner, req, ion, i, n).1) && RealPools(Acquire(s, owner, req, ion, i, n).0)
    decreases n - i
  {
    if i < n {
      var (s1, m) := GetBuffer(s, owner, req, Answer(ion, i));
      if m.Some? { AcquireReal(s1, owner, req, ion, i + 1, n); }
    }
  }

  lemma ServedTellsTheResult(sys: Sys, a: Action)
    requires Shaped(sys) && Applies(sys, a) && (a.Allocate? || a.AllocateMore?)
    ensures var r, slots := Called(sys, a), sys.slots[a.o];
            && (r.rc.BadIndex? <==> |slots| + a.count > 64)
            && (!r.rc.BadIndex? ==>
                  (r.rc.NoError? <==> Served(sys.store, sys.owners[a.o], RequestOf(a), a.ion, 0, a.count)))
            && (r.rc.NoError? ==> r.slots == slots && (RealPools(sys.store) ==> AllBuffers(r.got)))
  {
    var s, owner := sys.store, sys.owners[a.o];
    AcquireSucceeds(s, owner, RequestOf(a), a.ion, 0, a.count);
    if RealPools(s) {
      AcquireReal(s, owner, RequestOf(a), a.ion, 0, a.count);
    }
    hide Served, Acquire, ReleaseDown, AllEmptied, RealPools, AllBuffers;
  }

  lemma KeepsTellsTheResult(sys: Sys, a: Action)
    requires Shaped(sys) && RealPools(sys.store)
    ensures Keeps(sys, a) <==> KeepsByResult(sys, a)
  {
    if Applies(sys, a) && (a.Allocate? || a.AllocateMore?) {
      ServedTellsTheResult(sys, a);
      var r, slots := Called(sys, a), sys.slots[a.o];
      var all, n := slots + r.got, NewCount(slots, a);
      hide Served, Called, RealPools;
      if r.rc.NoError? {
        if r.got == [] {
          assert all == slots;
        } else if a.Allocate? && slots != [] {
          assert all[n..][|slots| - 1] == r.got[a.count - 1];
        }
      }
    }
  }

  lemma {:induction false} EmptiedHoldNothing(slots: seq<MemInfo>, k: nat, x: nat)
    requires k <= |slots| && x > 0
    ensures InFirst(AllEmptied(slots), k, x) == 0
  {
    if k > 0 { EmptiedHoldNothing(slots, k - 1, x); }
  }

  /** The change one step makes to the account of handle x: an allocating step. */
  lemma AllocatingStep(sys: Sys, a: Action, x: nat)
    requires Shaped(sys) && Applies(sys, a) && (a.Allocate? || a.AllocateMore?) && Accounted(sys, x)
    ensures var r, sys', slots := Called(sys, a), Step(sys, a), sys.slots[a.o];
            && (x in sys'.store.live ==> x < sys'.store.next)
            && InLists(sys'.slots, |sys'.slots|, x)
               == InLists(sys.slots, |sys.slots|, x) - In(slots, x) + In(SlotsAfter(slots, a, r), x)
            && Loose(sys'.store, x) == InLists(sys.slots, |sys.slots|, x)
               + (if r.rc.NoError? then In(r.got, x) else 0) - (if r.rc.NoMemory? then In(slots, x) else 0)
  {
    InListsAtLeast(sys.slots, a.o, |sys.slots|, x);
    AllocBalance(sys.store, sys.owners[a.o], sys.slots[a.o], a.count, RequestOf(a), a.ion, x);
    InListsUpdate(sys.slots, a.o, SlotsAfter(sys.slots[a.o], a, Called(sys, a)), |sys.slots|, x);
  }

  /** A success that cuts off no buffer keeps what was held and what was got. */
  lemma SuccessCounts(all: seq<MemInfo>, n: nat, x: nat)
    requires x > 0 && n <= |all| && NoBuffer(all[n..])
    ensures In(all[..n], x) == In(all, x)
  {
    InSplit(all[..n], all[n..], x);
    assert all == all[..n] + all[n..];
    NoBufferHoldsNothing(all[n..], |all[n..]|, x);
  }

  /** What the counted slots hold of handle x after a kept call. */
  lemma KeptSlotsCount(sys: Sys, a: Action, x: nat)
    requires Shaped(sys) && x > 0 && KeepsByResult(sys, a)
    requires Applies(sys, a) && (a.Allocate? || a.AllocateMore?)
    ensures var r, slots := Called(sys, a), sys.slots[a.o];
            In(SlotsAfter(slots, a, r), x)
            == In(slots, x) + (if r.rc.NoError? then In(r.got, x) else 0) - (if r.rc.NoMemory? then In(slots, x) else 0)
  {
    EmptiedOnlyWithoutPool(sys, a);
    var r, slots, n := Called(sys, a), sys.slots[a.o], NewCount(sys.slots[a.o], a);
    var all := r.slots + r.got;
    hide Called, In;
    if r.rc.NoError? {
      InSplit(slots, r.got, x);
      if n <= |all| {
        SuccessCounts(all, n, x);
      }
    } else {
      assert all == r.slots;
      NothingLeft(slots, x);
    }
  }

  lemma NothingLeft(slots: seq<MemInfo>, x: nat)
    requires x > 0
    ensures In(AllEmptied(slots), x) == 0 && (NoBuffer(slots) ==> In(slots, x) == 0)
  {
    EmptiedHoldNothing(slots, |slots|, x);
    if NoBuffer(slots) {
      NoBufferHoldsNothing(slots, |slots|, x);
    }
  }

  lemma AllocatingStepAccounts(sys: Sys, a: Action, x: nat)
    requires Shaped(sys) && x > 0 && Accounted(sys, x) && KeepsByResult(sys, a)
    requires Applies(sys, a) && (a.Allocate? || a.AllocateMore?)
    ensures Accounted(Step(sys, a), x)
  {
    AllocatingStep(sys, a, x);
    KeptSlotsCount(sys, a, x);
    hide Called, Loose, InLists, In, SlotsAfter, KeepsByResult;
  }

  lemma EmptiedOnlyWithoutPool(sys: Sys, a: Action)
    requires Shaped(sys) && Applies(sys, a) && (a.Allocate? || a.AllocateMore?)
    ensures var r := Called(sys, a);
            && r.slots == (if r.rc.NoMemory? && !sys.owners[a.o].pooled then AllEmptied(sys.slots[a.o])
                           else sys.slots[a.o])
            && (!r.rc.NoError? ==> r.got == [])
  {
  }

  lemma StepAccounts(sys: Sys, a: Action, x: nat)
    requires Shaped(sys) && x > 0 && Accounted(sys, x) && KeepsByResult(sys, a)
    ensures Accounted(Step(sys, a), x)
  {
    if !Applies(sys, a) {
    } else if a.ClearPool? {
      ClearFromKeepsLoose(sys.store, 0, x);
    } else if a.Deallocate? {
      InListsAtLeast(sys.slots, a.o, |sys.slots|, x);
      ReleaseUpTightens(sys.store, sys.owners[a.o], sys.slots[a.o], 0, x);
      InListsUpdate(sys.slots, a.o, [], |sys.slots|, x);
    } else {
      AllocatingStepAccounts(sys, a, x);
    }
  }

  lemma StepShaped(sys: Sys, a: Action)
    requires Shaped(sys) && 0 !in sys.store.live
    ensures Shaped(Step(sys, a)) && 0 !in Step(sys, a).store.live
  {
    if Applies(sys, a) && (a.Allocate? || a.AllocateMore?) {
      AcquireLoosens(sys.store, sys.owners[a.o], RequestOf(a), a.ion, 0, a.count, 0);
    }
  }

  lemma {:induction false} NoBufferHoldsNothing(list: seq<MemInfo>, k: nat, x: nat)
    requires k <= |list| && x > 0 && NoBuffer(list)
    ensures InFirst(list, k, x) == 0
  {
    if k > 0 { NoBufferHoldsNothing(list, k - 1, x); }
  }

  /** A buffer in a list is counted there. */
  lemma BufferIsIn(list: seq<MemInfo>, k: nat)
    requires k < |list|
    ensures In(list, list[k].handle) > 0
  {
    InFirstGrows(list, k + 1, |list|, list[k].handle);
  }

  /** A refused call on an object with a pool and a buffer doubles that buffer. */
  lemma RefusalDoubles(sys: Sys, a: Action) returns (x: nat)
    requires Conserved(sys) && Applies(sys, a) && (a.Allocate? || a.AllocateMore?)
    requires Called(sys, a).rc.NoMemory? && sys.owners[a.o].pooled && !NoBuffer(sys.slots[a.o])
    ensures x > 0 && !Accounted(Step(sys, a), x)
  {
    EmptiedOnlyWithoutPool(sys, a);
    var slots := sys.slots[a.o];
    var k :| 0 <= k < |slots| && slots[k].handle != 0;
    x := slots[k].handle;
    AllocatingStep(sys, a, x);
    BufferIsIn(slots, k);
    assert slots + [] == slots;
    hide Called, Loose, InLists, In;
  }

  lemma CutCounts(all: seq<MemInfo>, n: nat, k: nat)
    requires n <= k < |all|
    ensures In(all[..n], all[k].handle) < In(all, all[k].handle)
  {
    InSplit(all[..n], all[n..], all[k].handle);
    assert all == all[..n] + all[n..];
    BufferIsIn(all[n..], k - n);
    hide In;
  }

  /** A served call that cuts off a buffer, the k-th, loses it. */
  lemma CutLoses(sys: Sys, a: Action, k: nat)
    requires Shaped(sys) && Applies(sys, a) && (a.Allocate? || a.AllocateMore?) && Called(sys, a).rc.NoError?
    requires var all := sys.slots[a.o] + Called(sys, a).got;
             NewCount(sys.slots[a.o], a) <= k < |all| && Accounted(sys, all[k].handle)
    ensures var x := (sys.slots[a.o] + Called(sys, a).got)[k].handle;
            !Accounted(Step(sys, a), x)
  {
    EmptiedOnlyWithoutPool(sys, a);
    var r, slots, n := Called(sys, a), sys.slots[a.o], NewCount(sys.slots[a.o], a);
    var x := (slots + r.got)[k].handle;
    AllocatingStep(sys, a, x);
    InSplit(slots, r.got, x);
    CutCounts(slots + r.got, n, k);
    hide Called, Loose, InLists, In;
  }

  lemma SomeBuffer(list: seq<MemInfo>, n: nat) returns (k: nat)
    requires n <= |list| && !NoBuffer(list[n..])
    ensures n <= k < |list| && list[k].handle > 0
  {
    var i :| 0 <= i < |list[n..]| && list[n..][i].handle != 0;
    k := n + i;
  }

  /** A step that is not of the kept kind loses or doubles a buffer of the object. */
  lemma BrokenAccount(sys: Sys, a: Action) returns (x: nat)
    requires Conserved(sys) && !KeepsByResult(sys, a)
    ensures x > 0 && !Accounted(Step(sys, a), x)
  {
    EmptiedOnlyWithoutPool(sys, a);
    hide Called, Accounted, Step, NoBuffer;
    if Called(sys, a).rc.NoMemory? {
      x := RefusalDoubles(sys, a);
    } else {
      var all, n := sys.slots[a.o] + Called(sys, a).got, NewCount(sys.slots[a.o], a);
      var k := SomeBuffer(all, n);
      x := all[k].handle;
      CutLoses(sys, a, k);
    }
  }

  lemma StepByResult(sys: Sys, a: Action)
    requires Conserved(sys)
    ensures Conserved(Step(sys, a)) <==> KeepsByResult(sys, a)
  {
    if KeepsByResult(sys, a) {
      StepShaped(sys, a);
      forall x: nat | x > 0 ensures Accounted(Step(sys, a), x) { StepAccounts(sys, a, x); }
    } else {
      var x := BrokenAccount(sys, a);
    }
  }

  /**
    A step keeps every live buffer in exactly one place if and only if it is of the kept kind.  That the pool lists
    hold buffers is kept by every step of every run.
  */
  lemma StepConserves(sys: Sys, a: Action)
    requires Conserved(sys) && RealPools(sys.store)
    ensures Conserved(Step(sys, a)) <==> Keeps(sys, a)
  {
    KeepsTellsTheResult(sys, a);
    StepByResult(sys, a);
  }

  function Run(sys: Sys, acts: seq<Action>, n: nat): (sys': Sys)
    requires n <= |acts| && Shaped(sys) && 0 !in sys.store.live
    ensures Shaped(sys') && 0 !in sys'.store.live && |sys'.slots| == |sys.slots|
  {
    if n == 0 then sys
    else
      var before := Run(sys, acts, n - 1);
      StepShaped(before, acts[n - 1]);
      Step(before, acts[n - 1])
  }

  ghost predicate AllKeep(sys: Sys, acts: seq<Action>, n: nat)
    requires n <= |acts| && Shaped(sys) && 0 !in sys.store.live
  {
    n == 0 || (AllKeep(sys, acts, n - 1) && Keeps(Run(sys, acts, n - 1), acts[n - 1]))
  }

  /** Objects without buffers over an empty pool. */
  ghost predicate Initial(sys: Sys) {
    && Shaped(sys) && sys.store.live == {}
    && (forall o :: 0 <= o < |sys.slots| ==> sys.slots[o] == [])
    && forall t :: 0 <= t < |sys.store.pools| ==> sys.store.pools[t] == []
  }

  lemma {:induction false} NothingInEmpty(lists: seq<seq<MemInfo>>, n: nat, x: nat)
    requires n <= |lists| && forall o :: 0 <= o < n ==> lists[o] == []
    ensures InLists(lists, n, x) == 0
  {
    if n > 0 { NothingInEmpty(lists, n - 1, x); }
  }

  // What no step changes: pool lists hold buffers, and so do the slots of objects that share the pool.

  predicate RealSlots(sys: Sys)
    requires |sys.owners| == |sys.slots|
  {
    forall o :: 0 <= o < |sys.slots| && sys.owners[o].pooled ==> AllBuffers(sys.slots[o])
  }

  lemma GiveBackReal(s: Store, owner: Owner, m: MemInfo)
    requires owner.streamType < |s.pools| && RealPools(s) && (owner.pooled ==> m.handle > 0)
    ensures RealPools(GiveBack(s, owner, m))
  {
  }

  lemma {:induction false} ReleaseDownReal(s: Store, owner: Owner, slots: seq<MemInfo>, k: nat)
    requires owner.streamType < |s.pools| && k <= |slots| && RealPools(s) && (owner.pooled ==> AllBuffers(slots))
    ensures RealPools(ReleaseDown(s, owner, slots, k))
    decreases k
  {
    if k > 0 {
      GiveBackReal(s, owner, slots[k - 1]);
      ReleaseDownReal(GiveBack(s, owner, slots[k - 1]), owner, slots, k - 1);
    }
  }

  lemma {:induction false} ReleaseUpReal(s: Store, owner: Owner, slots: seq<MemInfo>, k: nat)
    requires owner.streamType < |s.pools| && k <= |slots| && RealPools(s) && (owner.pooled ==> AllBuffers(slots))
    ensures RealPools(ReleaseUp(s, owner, slots, k))
    decreases |slots| - k
  {
    if k < |slots| {
      GiveBackReal(s, owner, slots[k]);
      ReleaseUpReal(GiveBack(s, owner, slots[k]), owner, slots, k + 1);
    }
  }

  lemma {:induction false} ClearFromReal(s: Store, i: nat)
    requires RealPools(s)
    ensures RealPools(ClearFrom(s, i))
    decreases |s.pools| - i
  {
    if i < |s.pools| {
      ClearFromReal(s.(live := FreeFrom(s.live, s.pools[i], 0), pools := s.pools[i := []]), i + 1);
    }
  }

  lemma AllocReal(s: Store, owner: Owner, slots: seq<MemInfo>, count: int, req: Request, ion: seq<bool>)
    requires owner.streamType < |s.pools| && s.next > 0 && RealPools(s) && (owner.pooled ==> AllBuffers(slots))
    ensures var r := Alloc(s, owner, slots, count, req, ion);
            RealPools(r.store) && (owner.pooled ==> AllBuffers(r.slots + r.got))
  {
    AcquireReal(s, owner, req, ion, 0, count);
    var (s1, got, ok) := Acquire(s, owner, req, ion, 0, count);
    ReleaseDownReal(s1, owner, slots + got, |slots + got|);
    hide RealPools, Acquire, ReleaseDown, AllEmptied;
  }

  lemma StepReal(sys: Sys, a: Action)
    requires Shaped(sys) && RealPools(sys.store) && RealSlots(sys)
    ensures RealPools(Step(sys, a).store) && RealSlots(Step(sys, a))
  {
    if a.ClearPool? {
      ClearFromReal(sys.store, 0);
    } else if Applies(sys, a) && a.Deallocate? {
      ReleaseUpReal(sys.store, sys.owners[a.o], sys.slots[a.o], 0);
    } else if Applies(sys, a) {
      AllocReal(sys.store, sys.owners[a.o], sys.slots[a.o], a.count, RequestOf(a), a.ion);
    }
    hide RealPools, Alloc, ClearFrom, ReleaseUp;
  }

  lemma {:induction false} RunReal(sys: Sys, acts: seq<Action>, n: nat)
    requires n <= |acts| && Initial(sys)
    ensures RealPools(Run(sys, acts, n).store) && RealSlots(Run(sys, acts, n))
  {
    if n > 0 {
      RunReal(sys, acts, n - 1);
      hide RealPools, RealSlots;
      StepReal(Run(sys, acts, n - 1), acts[n - 1]);
    }
  }

  lemma InitialConserved(sys: Sys)
    requires Initial(sys)
    ensures Conserved(sys)
  {
    forall x: nat ensures Accounted(sys, x) {
      NothingInEmpty(sys.slots, |sys.slots|, x);
      NothingInEmpty(sys.store.pools, |sys.store.pools|, x);
    }
  }

  /** All the states of the run up to the n-th keep every live buffer in one place. */
  ghost predicate ConservedSoFar(sys: Sys, acts: seq<Action>, n: nat)
    requires n <= |acts| && Shaped(sys) && 0 !in sys.store.live
  {
    forall m: nat :: m <= n ==> Conserved(Run(sys, acts, m))
  }

  lemma OneMoreState(sys: Sys, acts: seq<Action>, n: nat)
    requires 0 < n <= |acts| && Initial(sys) && (ConservedSoFar(sys, acts, n - 1) <==> AllKeep(sys, acts, n - 1))
    ensures ConservedSoFar(sys, acts, n) <==> AllKeep(sys, acts, n)
  {
    var before := Run(sys, acts, n - 1);
    RunReal(sys, acts, n - 1);
    if ConservedSoFar(sys, acts, n - 1) {
      StepConserves(before, acts[n - 1]);
    }
    assert Run(sys, acts, n) == Step(before, acts[n - 1]);
    hide Conserved, Run, Step, RealPools, RealSlots, Keeps;
    assert ConservedSoFar(sys, acts, n) ==> ConservedSoFar(sys, acts, n - 1);
  }

  /**
    Buffer conservation: over any run, every state so far has each live ION buffer in exactly one place if and only
    if every step was of the kept kind.
  */
  lemma {:induction false} RunConserves(sys: Sys, acts: seq<Action>, n: nat)
    requires n <= |acts| && Initial(sys)
    ensures ConservedSoFar(sys, acts, n) <==> AllKeep(sys, acts, n)
  {
    if n > 0 {
      RunConserves(sys, acts, n - 1);
      OneMoreState(sys, acts, n);
    } else {
      InitialConserved(sys);
    }
  }

  /** In one place: the counted slots of one object, or one pool list; a freed buffer is in none. */
  lemma ConservedPlaces(sys: Sys, x: nat)
    requires Conserved(sys) && x > 0
    ensures InLists(sys.slots, |sys.slots|, x) + InLists(sys.store.pools, |sys.store.pools|, x)
         == if x in sys.store.live then 1 else 0
  {
    assert Accounted(sys, x);
  }

  lemma {:induction false} ClearFromEmpties(s: Store, i: nat, t: nat)
    requires t < i <= |s.pools|
    ensures ClearFrom(s, i).pools[t] == s.pools[t]
    decreases |s.pools| - i
  {
    if i < |s.pools| {
      ClearFromEmpties(s.(live := FreeFrom(s.live, s.pools[i], 0), pools := s.pools[i := []]), i + 1, t);
    }
  }

  lemma {:induction false} ClearedPools(s: Store, i: nat, t: nat)
    requires i <= t < |s.pools|
    ensures ClearFrom(s, i).pools[t] == []
    decreases |s.pools| - i
  {
    var s1 := s.(live := FreeFrom(s.live, s.pools[i], 0), pools := s.pools[i := []]);
    if i < t { ClearedPools(s1, i + 1, t); } else { ClearFromEmpties(s1, i + 1, t); }
  }

  /** Nothing leaks: once no object holds a buffer, clearing the pool leaves no live ION buffer. */
  lemma NothingLeaks(sys: Sys)
    requires Conserved(sys) && forall o :: 0 <= o < |sys.slots| ==> sys.slots[o] == []
    ensures Step(sys, ClearPool).store.live == {}
  {
    var sys' := Step(sys, ClearPool);
    StepByResult(sys, ClearPool);
    forall t: nat | t < |sys.store.pools| ensures sys'.store.pools[t] == [] { ClearedPools(sys.store, 0, t); }
    forall x: nat | x in sys'.store.live ensures false {
      assert Accounted(sys', x);
      NothingInEmpty(sys'.slots, |sys'.slots|, x);
      NothingInEmpty(sys'.store.pools, |sys'.store.pools|, x);
    }
  }

  /** An object with one buffer, the first that ION handed out. */
  function OneBuffer(pooled: bool): Sys {
    Sys(Store({1}, 2, [[]]), [Owner(pooled, 0, false)], [[MemInfo(1, 4096, false, IOMMU_HEAP_MASK, false)]])
  }

  lemma FirstAllocateMakesOneBuffer(pooled: bool)
    ensures var sys := Sys(Store({}, 1, [[]]), [Owner(pooled, 0, false)], [[]]);
            var a := Allocate(0, 1, 4096, false, [true]);
            Initial(sys) && Keeps(sys, a) && Step(sys, a) == OneBuffer(pooled)
  {
    var sys := Sys(Store({}, 1, [[]]), [Owner(pooled, 0, false)], [[]]);
    var a := Allocate(0, 1, 4096, false, [true]);
    var s, owner, req, m := sys.store, sys.owners[0], RequestOf(a), OneBuffer(pooled).slots[0][0];
    assert FreshSize(4096, false) == 4096 && s.live + {s.next} == {1};
    assert GetBuffer(s, owner, req, true) == (OneBuffer(pooled).store, Some(m));
    assert Acquire(OneBuffer(pooled).store, owner, req, [true], 1, 1) == (OneBuffer(pooled).store, [], true);
    assert [m] + [] == [m];
    assert Called(sys, a) == Outcome(OneBuffer(pooled).store, [], [m], NoError);
    assert sys.slots[0] + [m] == [m] == [m][..1];
  }

  lemma RunOfTwo(sys: Sys, a: Action, b: Action)
    requires Shaped(sys) && 0 !in sys.store.live && Keeps(sys, a) && Shaped(Step(sys, a))
    ensures AllKeep(sys, [a, b], 1) && Run(sys, [a, b], 2) == Step(Step(sys, a), b)
  {
    assert Run(sys, [a, b], 0) == sys;
    assert Run(sys, [a, b], 1) == Step(sys, a);
  }

  /** A run whose failing allocateMore leaves the object's buffer both in its slot and in the pool. */
  lemma FailingAllocateMoreDoubles() returns (sys: Sys, acts: seq<Action>)
    ensures Initial(sys) && |acts| == 2 && AllKeep(sys, acts, 1) && acts[1].AllocateMore?
    ensures var end := Run(sys, acts, 2);
            |end.slots| == 1 && |end.slots[0]| == 1 && end.store.pools == [end.slots[0]] && end.slots[0][0].handle == 1
  {
    sys := Sys(Store({}, 1, [[]]), [Owner(true, 0, false)], [[]]);
    var a, b := Allocate(0, 1, 4096, false, [true]), AllocateMore(0, 1, 4096, []);
    acts := [a, b];
    FirstAllocateMakesOneBuffer(true);
    RunOfTwo(sys, a, b);
    var one := OneBuffer(true);
    var s, owner, m := one.store, one.owners[0], one.slots[0][0];
    assert GetBuffer(s, owner, RequestOf(b), Answer([], 0)) == (s, None);
    assert Acquire(s, owner, RequestOf(b), [], 0, 1) == (s, [], false);
    assert [m] + [] == [m];
    var s1 := GiveBack(s, owner, m);
    assert s.pools[0] + [m] == [m];
    assert s1.pools == [[m]];
    assert ReleaseDown(s, owner, [m], 1) == ReleaseDown(s1, owner, [m], 0);
  }

  /** A run whose second allocate leaves a live buffer, with handle 2, in no slot and no pool. */
  lemma SecondAllocateForgets() returns (sys: Sys, acts: seq<Action>)
    ensures Initial(sys) && |acts| == 2 && AllKeep(sys, acts, 1) && acts[0] == acts[1] && acts[1].Allocate?
    ensures var end := Run(sys, acts, 2);
            end.store.live == {1, 2} && end.slots == OneBuffer(false).slots && end.store.pools == [[]]
  {
    sys := Sys(Store({}, 1, [[]]), [Owner(false, 0, false)], [[]]);
    var a := Allocate(0, 1, 4096, false, [true]);
    acts := [a, a];
    FirstAllocateMakesOneBuffer(false);
    RunOfTwo(sys, a, a);
    var one := OneBuffer(false);
    var s, owner, req, m := one.store, one.owners[0], RequestOf(a), one.slots[0][0];
    var s2, m2 := s.(live := {1, 2}, next := 3), m.(handle := 2);
    assert FreshSize(4096, false) == 4096 && s.live + {s.next} == {1, 2};
    assert GetBuffer(s, owner, req, true) == (s2, Some(m2));
    assert Acquire(s2, owner, req, [true], 1, 1) == (s2, [], true);
    assert [m2] + [] == [m2];
    assert Called(one, a) == Outcome(s2, [m], [m2], NoError);
    assert ([m] + [m2])[..1] == [m];
  }
}

/** The code of the pool and of stream memory objects (QCameraMem.cpp), tied to MemoryPool and StreamMemory. */
module StreamObjects {
  import opened Units
  import opened MemoryPool
  import opened StreamMemory

  /** The ION driver: its live handles and a bound on those handed out. */
  class Ion {
    var live: set<nat>
    var next: nat

    ghost predicate Valid()
      reads this
    {
      forall h :: h in live ==> h < next
    }

    /**
      `allocOneBuffer`.  `ok` says whether open, ION_IOC_ALLOC and ION_IOC_SHARE all succeed; otherwise it is left
      open which one fails.  After a failed share the handle is freed again.
    */
    method AllocOneBuffer(req: Request, cached: bool, ok: bool) returns (m: Option<MemInfo>)
      requires Valid()
      modifies this
      ensures Valid() && live == if ok then old(live) + {old(next)} else old(live)
      ensures next == if ok then old(next) + 1 else old(next)
      ensures m == if ok then Some(MemInfo(old(next), FreshSize(req.size, req.secure), cached, req.heapId, req.secure))
                   else None
    {
      m := None;
      var openOk, allocOk: bool := *, *;
      if !ok && !openOk {
        return;
      }
      var len := PageAlign(U32(req.size));
      if req.secure {
        len := MegabyteAlign(len);
      }
      if !ok && !allocOk {
        return;
      }
      var handle := next;
      live := live + {handle};
      if !ok {
        live := live - {handle};
        return;
      }
      next := next + 1;
      m := Some(MemInfo(handle, len, cached, req.heapId, req.secure));
    }

    /** `deallocOneBuffer`. */
    method DeallocOneBuffer(m: MemInfo) returns (emptied: MemInfo)
      requires Valid()
      modifies this`live
      ensures Valid() && live == old(live) - {m.handle}
      ensures emptied == MemInfo(0, 0, m.cached, m.heapId, m.secure)
    {
      live := live - {m.handle};
      emptied := m.(handle := 0, size := 0);
    }
  }

  class QCameraMemoryPool {
    const ion: Ion
    const pools: array<seq<MemInfo>>

    constructor (ion: Ion)
      requires ion.Valid()
      ensures Valid() && this.ion == ion && fresh(pools)
      ensures forall t :: 0 <= t < STREAM_TYPES ==> pools[t] == []
    {
      this.ion := ion;
      this.pools := new seq<MemInfo>[STREAM_TYPES](_ => []);
    }

    ghost predicate Valid()
      reads ion
    {
      pools.Length == STREAM_TYPES && ion.Valid()
    }

    /** The list for one stream type loses its earliest fit, if there is one. */
    method FindBufferLocked(owner: Owner, req: Request) returns (m: Option<MemInfo>)
      requires Valid() && owner.streamType < STREAM_TYPES
      modifies pools
      ensures var pool := old(pools[owner.streamType]);
              var k := FirstFit(pool, owner, req);
              if k < |pool| then
                m == Some(pool[k]) && pools[..] == old(pools[..])[owner.streamType := Without(pool, k)]
              else m == None && pools[..] == old(pools[..])
    {
      m := None;
      var pool := pools[owner.streamType];
      if pool == [] {
        return;
      }
      var it := 0;
      while it < |pool|
        invariant 0 <= it <= |pool| && m == None && pools[..] == old(pools[..])
        invariant FirstFit(pool, owner, req) == it + FirstFit(pool[it..], owner, req)
      {
        if pool[it].size >= U32(req.size) && pool[it].heapId == req.heapId && pool[it].cached == owner.cached {
          m := Some(pool[it]);
          pools[owner.streamType] := pool[..it] + pool[it + 1..];
          break;
        }
        assert pool[it..][1..] == pool[it + 1..];
        it := it + 1;
      }
    }

    method AllocateBuffer(owner: Owner, req: Request, ok: bool) returns (m: Option<MemInfo>)
      requires Valid() && owner.pooled && owner.streamType < STREAM_TYPES
      modifies pools, ion
      ensures Valid()
      ensures (StoreOf(ion, this), m) == GetBuffer(old(StoreOf(ion, this)), owner, req, ok)
    {
      m := FindBufferLocked(owner, req);
      if m.None? {
        m := ion.AllocOneBuffer(req, owner.cached, ok);
      }
    }

    method ReleaseBuffer(m: MemInfo, streamType: nat)
      requires Valid() && streamType < STREAM_TYPES
      modifies pools
      ensures pools[..] == old(pools[..])[streamType := old(pools[streamType]) + [m]]
    {
      pools[streamType] := pools[streamType] + [m];
    }

    method Clear()
      requires Valid()
      modifies pools, ion
      ensures Valid()
      ensures StoreOf(ion, this) == ClearFrom(old(StoreOf(ion, this)), 0)
    {
      ghost var s := StoreOf(ion, this);
      var i := 0;
      while i < STREAM_TYPES
        invariant 0 <= i <= STREAM_TYPES && Valid() && ClearFrom(s, 0) == ClearFrom(StoreOf(ion, this), i)
      {
        ghost var before := StoreOf(ion, this);
        var pool := pools[i];
        var it := 0;
        while it < |pool|
          invariant 0 <= it <= |pool| && Valid() && pools[..] == before.pools && ion.next == before.next
          invariant FreeFrom(before.live, pool, 0) == FreeFrom(ion.live, pool, it)
        {
          var emptied := ion.DeallocOneBuffer(pool[it]);
          it := it + 1;
        }
        pools[i] := [];
        assert StoreOf(ion, this) == before.(live := FreeFrom(before.live, pool, 0), pools := before.pools[i := []]);
        i := i + 1;
      }
    }
  }

  ghost function StoreOf(ion: Ion, pool: QCameraMemoryPool): (s: Store)
    requires pool.pools.Length == STREAM_TYPES
    reads ion, pool.pools
    ensures |s.pools| == STREAM_TYPES
  {
    Store(ion.live, ion.next, pool.pools[..])
  }

  /** A stream memory object.  `home` is the HAL's pool, which the object uses if `pool` is not null. */
  class QCameraStreamMemory {
    const ion: Ion
    const pool: QCameraMemoryPool?
    ghost const home: QCameraMemoryPool
    const cached: bool
    const streamType: nat
    const infos: array<MemInfo>
    var bufferCount: int

    constructor (ion: Ion, pool: QCameraMemoryPool?, ghost home: QCameraMemoryPool, cached: bool, streamType: nat)
      requires streamType < STREAM_TYPES && home.Valid() && home.ion == ion && (pool == null || pool == home)
      ensures Valid() && fresh(infos) && Slots() == [] && AsOwner() == Owner(pool != null, streamType, cached)
      ensures this.ion == ion && this.pool == pool && this.home == home
    {
      this.ion, this.pool, this.home, this.cached, this.streamType := ion, pool, home, cached, streamType;
      infos := new MemInfo[MM_CAMERA_MAX_NUM_FRAMES](_ => MemInfo(0, 0, false, 0, false));
      bufferCount := 0;
    }

    ghost predicate Valid()
      reads this, ion, home.ion
    {
      && home.Valid() && home.ion == ion && (pool == null || pool == home) && Sized()
    }

    ghost predicate Sized()
      reads this
    {
      && infos.Length == MM_CAMERA_MAX_NUM_FRAMES && bufferCount <= MM_CAMERA_MAX_NUM_FRAMES
      && streamType < STREAM_TYPES && home.pools as object != infos
    }

    ghost function Repr(): set<object> {
      {ion, infos, home.pools}
    }

    function AsOwner(): Owner {
      Owner(pool != null, streamType, cached)
    }

    ghost function Slots(): seq<MemInfo>
      requires infos.Length == MM_CAMERA_MAX_NUM_FRAMES && bufferCount <= MM_CAMERA_MAX_NUM_FRAMES
      reads this, infos
    {
      if bufferCount < 0 then [] else infos[..bufferCount]
    }

    ghost function View(): Store
      requires home.pools.Length == STREAM_TYPES
      reads Repr()
    {
      StoreOf(ion, home)
    }

    /** One slot given back: to the pool, or to ION. */
    method Release(j: nat)
      requires Valid() && j < MM_CAMERA_MAX_NUM_FRAMES
      modifies Repr()
      ensures Valid() && View() == GiveBack(old(View()), AsOwner(), old(infos[j]))
      ensures home.pools[..] == if pool == null then old(home.pools[..])
                                else old(home.pools[..])[streamType := old(home.pools[streamType]) + [old(infos[j])]]
      ensures ion.live == if pool == null then old(ion.live) - {old(infos[j]).handle} else old(ion.live)
      ensures infos[..] == if pool == null then old(infos[..])[j := Emptied(old(infos[j]))] else old(infos[..])
    {
      if pool == null {
        var emptied := ion.DeallocOneBuffer(infos[j]);
        infos[j] := emptied;
      } else {
        pool.ReleaseBuffer(infos[j], streamType);
      }
    }

    /** `dealloc`. */
    method Dealloc()
      requires Valid()
      modifies Repr()
      ensures Valid() && View() == ReleaseUp(old(View()), AsOwner(), old(Slots()), 0)
      ensures pool != null ==>
                && ion.live == old(ion.live)
                && home.pools[..] == old(home.pools[..])[streamType := old(home.pools[streamType]) + old(Slots())]
    {
      ghost var s, slots := View(), Slots();
      if pool != null {
        ReleaseUpFillsOwnList(s, AsOwner(), slots, 0);
      }
      var i := 0;
      while i < bufferCount
        invariant 0 <= i <= |slots| && Valid()
        invariant ReleaseUp(s, AsOwner(), slots, 0) == ReleaseUp(View(), AsOwner(), slots, i)
        invariant |slots| <= infos.Length && forall k :: i <= k < |slots| ==> infos[k] == slots[k]
      {
        Release(i);
        i := i + 1;
      }
    }

    /** One buffer into slot i. */
    method AllocInto(i: nat, req: Request, ok: bool) returns (got: bool)
      requires Valid() && i < MM_CAMERA_MAX_NUM_FRAMES
      modifies Repr()
      ensures Valid()
      ensures var (s, m) := GetBuffer(old(View()), AsOwner(), req, ok);
              && View() == s && got == m.Some?
              && infos[..] == if m.Some? then old(infos[..])[i := m.value] else old(infos[..])
    {
      var m;
      if pool == null {
        m := ion.AllocOneBuffer(req, cached, ok);
      } else {
        m := pool.AllocateBuffer(AsOwner(), req, ok);
      }
      if m.Some? {
        infos[i] := m.value;
      }
      got := m.Some?;
    }

    /** The error path of `alloc`: slots i - 1 down to 0 are given back. */
    method GiveBackBelow(i: nat)
      requires Valid() && i <= MM_CAMERA_MAX_NUM_FRAMES
      modifies Repr()
      ensures Valid() && View() == ReleaseDown(old(View()), AsOwner(), old(infos[..i]), i)
      ensures infos[..i] == if pool == null then AllEmptied(old(infos[..i])) else old(infos[..i])
      ensures pool != null ==>
                && ion.live == old(ion.live)
                && home.pools[..] == old(home.pools[..])
                     [streamType := old(home.pools[streamType]) + Backwards(old(infos[..i]), i)]
    {
      ghost var s, slots := View(), infos[..i];
      if pool != null {
        ReleaseDownFillsOwnList(s, AsOwner(), slots, i);
      }
      var j := i - 1;
      while j >= 0
        invariant -1 <= j < i && Valid()
        invariant ReleaseDown(s, AsOwner(), slots, i) == ReleaseDown(View(), AsOwner(), slots, j + 1)
        invariant forall k :: 0 <= k <= j ==> infos[k] == slots[k]
        invariant forall k :: j < k < i ==> infos[k] == if pool == null then Emptied(slots[k]) else slots[k]
      {
        Release(j);
        j := j - 1;
      }
    }

    /** The loop of `alloc`: slots up to i got their buffers, and `ok` is false if the next one was refused. */
    method AcquireSlots(count: int, req: Request, answers: seq<bool>) returns (i: nat, ok: bool)
      requires Valid() && 0 <= bufferCount && bufferCount + count <= MM_CAMERA_MAX_NUM_FRAMES
      modifies Repr()
      ensures Valid() && bufferCount <= i <= MM_CAMERA_MAX_NUM_FRAMES && infos[..bufferCount] == old(Slots())
      ensures Acquire(old(View()), AsOwner(), req, answers, 0, count) == (View(), infos[bufferCount..i], ok)
    {
      hide Acquire, GetBuffer, AfterSome;
      ghost var s, slots := View(), Slots();
      i := bufferCount;
      assert infos[bufferCount..i] == [];
      NoneYet(s, req, answers, count);
      while i < bufferCount + count
        invariant bufferCount <= i && (i <= bufferCount + count || i == bufferCount) && i <= MM_CAMERA_MAX_NUM_FRAMES
        invariant Valid() && infos[..bufferCount] == slots
        invariant AfterSome(s, req, answers, count, infos[bufferCount..i], View())
      {
        ghost var got, before := infos[bufferCount..i], View();
        ok := AllocInto(i, req, i - bufferCount < |answers| && answers[i - bufferCount]);
        if !ok {
          Refused(s, req, answers, count, got, before);
          return;
        }
        assert infos[bufferCount..i + 1] == got + [infos[i]];
        OneMore(s, req, answers, count, got, before, infos[i], View());
        i := i + 1;
      }
      ok := true;
      Complete(s, req, answers, count, infos[bufferCount..i], View());
    }

    method Alloc(count: int, req: Request, answers: seq<bool>) returns (rc: Status)
      requires Valid()
      modifies this`bufferCount, Repr()
      ensures Valid() && bufferCount == if old(bufferCount) < 0 then 0 else old(bufferCount)
      ensures var r := StreamMemory.Alloc(old(View()), AsOwner(), old(Slots()), count, req, answers);
              && rc == r.rc && View() == r.store && Slots() == r.slots
              && bufferCount + |r.got| <= MM_CAMERA_MAX_NUM_FRAMES
              && infos[..bufferCount + |r.got|] == r.slots + r.got
    {
      hide Acquire, ReleaseDown, AllEmptied;
      ghost var slots := Slots();
      if bufferCount < 0 {
        bufferCount := 0;
      }
      if bufferCount + count > MM_CAMERA_MAX_NUM_FRAMES {
        return BadIndex;
      }
      var i, ok := AcquireSlots(count, req, answers);
      ghost var got := infos[bufferCount..i];
      assert infos[..i] == slots + got;
      rc := NoError;
      if !ok {
        GiveBackBelow(i);
        assert infos[..bufferCount] == infos[..i][..bufferCount];
        EmptiedPrefix(slots, got);
        rc := NoMemory;
      }
    }

    /** With `got` buffers held and the store at `s1`, the rest of the call is the rest of `Acquire`. */
    ghost predicate AfterSome(s: Store, req: Request, answers: seq<bool>, count: int, got: seq<MemInfo>, s1: Store)
      requires AsOwner().streamType < |s.pools| && AsOwner().streamType < |s1.pools|
    {
      var r := Acquire(s1, AsOwner(), req, answers, |got|, count);
      Acquire(s, AsOwner(), req, answers, 0, count) == (r.0, got + r.1, r.2)
    }

    lemma NoneYet(s: Store, req: Request, answers: seq<bool>, count: int)
      requires AsOwner().streamType < |s.pools|
      ensures AfterSome(s, req, answers, count, [], s)
    {
      var r := Acquire(s, AsOwner(), req, answers, 0, count);
      assert [] + r.1 == r.1;
    }

    lemma Refused(s: Store, req: Request, answers: seq<bool>, count: int, got: seq<MemInfo>, s1: Store)
      requires AsOwner().streamType < |s.pools| && AsOwner().streamType < |s1.pools|
      requires AfterSome(s, req, answers, count, got, s1) && |got| < count
      requires GetBuffer(s1, AsOwner(), req, Answer(answers, |got|)).1.None?
      ensures Acquire(s, AsOwner(), req, answers, 0, count)
           == (GetBuffer(s1, AsOwner(), req, Answer(answers, |got|)).0, got, false)
    {
      assert got + [] == got;
    }

    lemma Complete(s: Store, req: Request, answers: seq<bool>, count: int, got: seq<MemInfo>, s1: Store)
      requires AsOwner().streamType < |s.pools| && AsOwner().streamType < |s1.pools|
      requires AfterSome(s, req, answers, count, got, s1) && |got| >= count
      ensures Acquire(s, AsOwner(), req, answers, 0, count) == (s1, got, true)
    {
      assert got + [] == got;
    }

    lemma EmptiedPrefix(slots: seq<MemInfo>, got: seq<MemInfo>)
      ensures AllEmptied(slots + got)[..|slots|] == AllEmptied(slots) && (slots + got)[..|slots|] == slots
    {
    }

    lemma OneMore(s: Store, req: Request, answers: seq<bool>, count: int, got: seq<MemInfo>, s1: Store,
                  m: MemInfo, s2: Store)
      requires AsOwner().streamType < |s.pools| && AsOwner().streamType < |s1.pools|
      requires AsOwner().streamType < |s2.pools|
      requires AfterSome(s, req, answers, count, got, s1) && |got| < count
      requires GetBuffer(s1, AsOwner(), req, Answer(answers, |got|)) == (s2, Some(m))
      ensures AfterSome(s, req, answers, count, got + [m], s2)
    {
      var rest := Acquire(s2, AsOwner(), req, answers, |got| + 1, count);
      assert got + ([m] + rest.1) == got + [m] + rest.1;
    }

    method Allocate(count: int, size: int, secure: bool, answers: seq<bool>) returns (rc: Status)
      requires Valid()
      modifies this`bufferCount, Repr()
      ensures Valid()
      ensures var a, slots := StreamMemory.Allocate(0, count, size, secure, answers), old(Slots());
              var r := StreamMemory.Alloc(old(View()), AsOwner(), slots, count,
                                          Request(0x0200_0000, size, secure), answers);
              rc == r.rc && View() == r.store && Slots() == SlotsAfter(slots, a, r)
      ensures bufferCount == if rc == NoError then count else if old(bufferCount) < 0 then 0 else old(bufferCount)
    {
      hide StreamMemory.Alloc;
      rc := Alloc(count, Request(IOMMU_HEAP_MASK, size, secure), answers);
      if !rc.NoError? {
        return;
      }
      bufferCount := count;
    }

    method AllocateMore(count: int, size: int, answers: seq<bool>) returns (rc: Status)
      requires Valid()
      modifies this`bufferCount, Repr()
      ensures Valid()
      ensures var a, slots := StreamMemory.AllocateMore(0, count, size, answers), old(Slots());
              var r := StreamMemory.Alloc(old(View()), AsOwner(), slots, count,
                                          Request(0x0200_0000, size, false), answers);
              rc == r.rc && View() == r.store && Slots() == SlotsAfter(slots, a, r)
      ensures bufferCount == (if old(bufferCount) < 0 then 0 else old(bufferCount)) + if rc == NoError then count else 0
    {
      hide StreamMemory.Alloc;
      rc := Alloc(count, Request(IOMMU_HEAP_MASK, size, false), answers);
      if !rc.NoError? {
        return;
      }
      bufferCount := bufferCount + count;
    }

    method Deallocate()
      requires Valid()
      modifies this`bufferCount, Repr()
      ensures Valid() && Slots() == [] && bufferCount == 0
      ensures View() == ReleaseUp(old(View()), AsOwner(), old(Slots()), 0)
      ensures pool != null ==>
                && ion.live == old(ion.live)
                && home.pools[..] == old(home.pools[..])[streamType := old(home.pools[streamType]) + old(Slots())]
    {
      Dealloc();
      bufferCount := 0;
    }
  }

  /** All stream memory objects of one HAL, over its pool. */
  class QCameraBuffers {
    const ion: Ion
    const pool: QCameraMemoryPool
    const objects: seq<QCameraStreamMemory>

    constructor (ion: Ion, pool: QCameraMemoryPool, objects: seq<QCameraStreamMemory>)
      ensures this.ion == ion && this.pool == pool && this.objects == objects
    {
      this.ion, this.pool, this.objects := ion, pool, objects;
    }

    ghost function Repr(): set<object> {
      {ion, pool.pools} + (set o <- objects) + (set o <- objects :: o.infos)
    }

    /** The objects are different ones, with slots of their own, over the one pool. */
    ghost predicate Together() {
      && pool.ion == ion
      && (forall i :: 0 <= i < |objects| ==> objects[i].ion == ion && objects[i].home == pool
                                             && (objects[i].pool == null || objects[i].pool == pool))
      && forall i, j :: 0 <= i < j < |objects| ==> objects[i] != objects[j] && objects[i].infos != objects[j].infos
    }

    ghost predicate Valid()
      reads Repr()
    {
      Together() && pool.Valid() && forall i :: 0 <= i < |objects| ==> objects[i].Sized()
    }

    /** The objects, their pool and ION are the system `sys` of StreamMemory. */
    ghost predicate Shows(sys: Sys)
      requires Valid()
      reads Repr()
    {
      && |sys.owners| == |sys.slots| == |objects| && sys.store == StoreOf(ion, pool)
      && (forall o :: 0 <= o < |objects| ==> sys.owners[o] == objects[o].AsOwner())
      && forall o :: 0 <= o < |objects| ==> sys.slots[o] == objects[o].Slots()
    }

    method AllocateOn(a: Action, ghost sys: Sys)
      requires Valid() && Shaped(sys) && Shows(sys) && Applies(sys, a) && a.Allocate?
      modifies Repr()
      ensures Valid() && Shows(Step(sys, a))
    {
      hide StreamMemory.Alloc;
      var _ := objects[a.o].Allocate(a.count, a.size, a.secure, a.ion);
    }

    method AllocateMoreOn(a: Action, ghost sys: Sys)
      requires Valid() && Shaped(sys) && Shows(sys) && Applies(sys, a) && a.AllocateMore?
      modifies Repr()
      ensures Valid() && Shows(Step(sys, a))
    {
      hide StreamMemory.Alloc;
      var _ := objects[a.o].AllocateMore(a.count, a.size, a.ion);
    }

    method DeallocateOn(o: nat, ghost sys: Sys)
      requires Valid() && Shaped(sys) && Shows(sys) && o < |sys.slots|
      modifies Repr()
      ensures Valid() && Shows(Step(sys, Action.Deallocate(o)))
    {
      hide ReleaseUp;
      objects[o].Deallocate();
    }

    method ClearPools(ghost sys: Sys)
      requires Valid() && Shaped(sys) && Shows(sys)
      modifies Repr()
      ensures Valid() && Shows(Step(sys, ClearPool))
    {
      hide ClearFrom;
      pool.Clear();
    }

    /** A call on any of the objects, or on the pool, makes its step of the system. */
    method Perform(a: Action, ghost sys: Sys)
      requires Valid() && Shaped(sys) && Shows(sys) && Applies(sys, a)
      modifies Repr()
      ensures Valid() && Shows(Step(sys, a))
    {
      hide Step, Shows;
      match a {
        case ClearPool => ClearPools(sys);
        case Deallocate(o) => DeallocateOn(o, sys);
        case Allocate(_, _, _, _, _) => AllocateOn(a, sys);
        case AllocateMore(_, _, _, _) => AllocateMoreOn(a, sys);
      }
    }

    /**
      Any calls on any of the objects make the run of the system.  From objects without buffers over an empty pool,
      all the states on the way keep every live buffer in one place if and only if every call was of the kept kind.
    */
    method PerformAll(acts: seq<Action>, ghost sys: Sys)
      requires Valid() && Shaped(sys) && 0 !in sys.store.live && Shows(sys)
      requires forall a <- acts :: Applies(sys, a)
      modifies Repr()
      ensures Valid() && Shows(Run(sys, acts, |acts|))
      ensures Initial(sys) ==> (ConservedSoFar(sys, acts, |acts|) <==> AllKeep(sys, acts, |acts|))
    {
      hide Step, Shows, ConservedSoFar, AllKeep, Initial;
      var i := 0;
      while i < |acts|
        invariant 0 <= i <= |acts| && Valid() && Shows(Run(sys, acts, i))
      {
        assert Applies(sys, acts[i]);
        Perform(acts[i], Run(sys, acts, i));
        i := i + 1;
      }
      if Initial(sys) {
        RunConserves(sys, acts, |acts|);
      }
    }
  }
}

/**
  ION buffers of QCameraMem.cpp: single allocations, the recycling pool with a list for each stream type, and
  the loops that allocate and give back several buffers.  ION is the set of live handles; what it answers to
  each request is an input.
*/
module MemoryPool {
  import opened Units

  /**
    QCameraMemInfo without its descriptors; handle 0 is no buffer.  `secure` is how ION was asked for the buffer,
    which the code does not keep.
  */
  datatype MemInfo = MemInfo(handle: nat, size: nat, cached: bool, heapId: int, secure: bool)

  /** The live ION handles, a bound on those handed out so far, and the pool's lists. */
  datatype Store = Store(live: set<nat>, next: nat, pools: seq<seq<MemInfo>>)

  /** A memory object's side of a request: whether it has a pool, its stream type and its cached flag. */
  datatype Owner = Owner(pooled: bool, streamType: nat, cached: bool)
  datatype Request = Request(heapId: int, size: int, secure: bool)

  const WORD := 0x1_0000_0000
  const PAGE: nat := 4096
  const MEGABYTE: nat := 0x10_0000
  const STREAM_TYPES: nat := 11

  // ----- Sizes -----

  /** Conversion of an `int` size to 32 bits unsigned. */
  function U32(size: int): (r: nat)
    ensures r < WORD
  {
    size % WORD
  }

  /** `(len + 4095) & ~4095` on 32 bits. */
  function PageAlign(len: nat): (r: nat) {
    (len + (PAGE - 1)) % WORD / 4096 * 4096
  }

  /** `(len + (1024 * 1024 - 1)) & ~(1024 * 1024 - 1)` on 32 bits. */
  function MegabyteAlign(len: nat): (r: nat) {
    (len + (MEGABYTE - 1)) % WORD / 0x10_0000 * 0x10_0000
  }

  /** The length `allocOneBuffer` asks ION for. */
  function FreshSize(size: int, secure: bool): nat {
    var page := PageAlign(U32(size));
    if secure then MegabyteAlign(page) else page
  }

  predicate LeastMultiple(r: nat, len: nat, a: nat)
    requires a > 0
  {
    r % a == 0 && len <= r < len + a
  }

  lemma PageAlignIsLeast(len: nat)
    requires len < WORD
    ensures len <= WORD - PAGE ==> LeastMultiple(PageAlign(len), len, PAGE) && PageAlign(len) <= WORD - PAGE
    ensures len > WORD - PAGE ==> PageAlign(len) == 0
  {
  }

  lemma MegabyteAlignIsLeast(len: nat)
    requires len < WORD
    ensures len <= WORD - MEGABYTE ==> LeastMultiple(MegabyteAlign(len), len, MEGABYTE)
    ensures len > WORD - MEGABYTE ==> MegabyteAlign(len) == 0
  {
  }

  /**
    A fresh buffer has the least multiple of the page size (secure: of a megabyte, through two roundings) not
    below the request, exactly when rounding does not run over the 32-bit word; otherwise its size is 0.
  */
  lemma FreshSizeIsLeast(size: int, secure: bool)
    ensures var a, len := if secure then 0x10_0000 else 4096, size % 0x1_0000_0000;
            && (LeastMultiple(FreshSize(size, secure), len, a) <==> len <= 0x1_0000_0000 - a)
            && (len > 0x1_0000_0000 - a ==> FreshSize(size, secure) == 0)
  {
    var len := U32(size);
    PageAlignIsLeast(len);
    if secure {
      var page := PageAlign(len);
      MegabyteAlignIsLeast(page);
      hide PageAlign, MegabyteAlign;
      if len <= WORD - MEGABYTE {
        assert page <= WORD - MEGABYTE;
        BetweenMegabytes(MegabyteAlign(page), page, len);
      }
    }
  }

  /** Rounding to pages first does not skip a megabyte. */
  lemma BetweenMegabytes(r: nat, page: nat, len: nat)
    requires LeastMultiple(page, len, PAGE) && LeastMultiple(r, page, MEGABYTE)
    ensures LeastMultiple(r, len, MEGABYTE)
  {
  }

  // ----- One buffer -----

  predicate Fits(m: MemInfo, owner: Owner, req: Request) {
    m.size >= U32(req.size) && m.heapId == req.heapId && m.cached == owner.cached
  }

  /** `findBufferLocked`: where the earliest fit is, |pool| if there is none. */
  function FirstFit(pool: seq<MemInfo>, owner: Owner, req: Request): (k: nat)
    ensures k <= |pool|
    ensures k < |pool| ==> Fits(pool[k], owner, req)
    ensures forall i :: 0 <= i < k ==> !Fits(pool[i], owner, req)
  {
    if pool == [] || Fits(pool[0], owner, req) then 0 else 1 + FirstFit(pool[1..], owner, req)
  }

  /** `allocOneBuffer`: a new handle, or nothing and nothing kept. */
  function AllocOne(s: Store, owner: Owner, req: Request, ionOk: bool): (r: (Store, Option<MemInfo>))
  {
    if !ionOk then (s, None)
    else (s.(live := s.live + {s.next}, next := s.next + 1),
          Some(MemInfo(s.next, FreshSize(req.size, req.secure), owner.cached, req.heapId, req.secure)))
  }

  /** One buffer, the way `alloc` gets it: `allocateBuffer` of the pool, or `allocOneBuffer` without one. */
  function GetBuffer(s: Store, owner: Owner, req: Request, ionOk: bool): (r: (Store, Option<MemInfo>))
    requires owner.streamType < |s.pools|
    ensures |r.0.pools| == |s.pools|
  {
    var pool := s.pools[owner.streamType];
    var k := FirstFit(pool, owner, req);
    if owner.pooled && k < |pool| then
      (s.(pools := s.pools[owner.streamType := Without(pool, k)]), Some(pool[k]))
    else
      AllocOne(s, owner, req, ionOk)
  }

  /** One buffer given back: to the pool, or to ION. */
  function GiveBack(s: Store, owner: Owner, m: MemInfo): (s': Store)
    requires owner.streamType < |s.pools|
    ensures |s'.pools| == |s.pools|
  {
    if owner.pooled then s.(pools := s.pools[owner.streamType := s.pools[owner.streamType] + [m]])
    else s.(live := s.live - {m.handle})
  }

  /** A buffer is at least as big as the 32-bit size, from the same heap and as cached as asked for. */
  predicate Suits(m: MemInfo, cached: bool, heapId: int, size: int) {
    m.size >= size % 0x1_0000_0000 && m.heapId == heapId && m.cached == cached
  }

  /** Without a pool every buffer is a fresh one, of the kind asked for, or there is none and nothing changes. */
  lemma WithoutPoolFresh(s: Store, owner: Owner, req: Request, ionOk: bool)
    requires !owner.pooled && owner.streamType < |s.pools|
    ensures var (s', got) := GetBuffer(s, owner, req, ionOk);
            if ionOk then
              && s' == s.(live := s.live + {s.next}, next := s.next + 1)
              && got == Some(MemInfo(s.next, FreshSize(req.size, req.secure), owner.cached, req.heapId, req.secure))
            else s' == s && got == None
  {
  }

  /**
    A pooled object's buffer goes to the list of its own stream type, behind what is there; a request of the same type
    which it suits and nothing in front of it does gets exactly that buffer, whatever ION would answer.
  */
  lemma GivenBackIsServedAgain(s: Store, owner: Owner, m: MemInfo, req: Request, ionOk: bool)
    requires owner.pooled && owner.streamType < |s.pools| && Suits(m, owner.cached, req.heapId, req.size)
    requires forall i :: 0 <= i < |s.pools[owner.streamType]| ==>
               !Suits(s.pools[owner.streamType][i], owner.cached, req.heapId, req.size)
    ensures var back := GiveBack(s, owner, m);
            && back.pools[owner.streamType] == s.pools[owner.streamType] + [m]
            && GetBuffer(back, owner, req, ionOk) == (s, Some(m))
  {
    var pool := s.pools[owner.streamType];
    var back := GiveBack(s, owner, m);
    var k := FirstFit(pool + [m], owner, req);
    assert Fits((pool + [m])[|pool|], owner, req);
    assert forall i :: 0 <= i < |pool| ==> (pool + [m])[i] == pool[i];
    assert Without(pool + [m], k) == pool;
    assert back.pools[owner.streamType := pool] == s.pools;
  }

  /**
    Pool service: success means a buffer with the same heap id and cached flag; a fresh one only when nothing
    pooled for that stream type fits, otherwise the earliest fit, with the rest left in order; and big enough,
    always when recycled, and when fresh exactly if the rounding fits the word.
  */
  lemma PoolService(s: Store, owner: Owner, req: Request, ionOk: bool)
    requires owner.pooled && owner.streamType < |s.pools|
    ensures var (s', got) := GetBuffer(s, owner, req, ionOk);
            var pool := s.pools[owner.streamType];
            var anyFits := exists i :: 0 <= i < |pool| && Suits(pool[i], owner.cached, req.heapId, req.size);
            && (got.None? <==> !anyFits && !ionOk)
            && (got.None? ==> s' == s)
            && (got.Some? ==> got.value.heapId == req.heapId && got.value.cached == owner.cached)
            && (got.Some? && anyFits ==>
                  && s'.live == s.live && s'.next == s.next && got.value.size >= req.size % 0x1_0000_0000
                  && exists k :: 0 <= k < |pool| && got.value == pool[k]
                       && s'.pools == s.pools[owner.streamType := Without(pool, k)]
                       && forall i :: 0 <= i < k ==> !Suits(pool[i], owner.cached, req.heapId, req.size))
            && (got.Some? && !anyFits ==>
                  && s'.pools == s.pools && s'.live == s.live + {got.value.handle} && got.value.handle == s.next
                  && (got.value.size >= req.size % 0x1_0000_0000
                      <==> req.size % 0x1_0000_0000 <= 0x1_0000_0000 - if req.secure then 0x10_0000 else 4096))
  {
    assert forall i :: 0 <= i < |s.pools[owner.streamType]| ==>
      (Fits(s.pools[owner.streamType][i], owner, req)
       <==> Suits(s.pools[owner.streamType][i], owner.cached, req.heapId, req.size));
    var pool := s.pools[owner.streamType];
    var k := FirstFit(pool, owner, req);
    if k < |pool| {
      assert Fits(pool[k], owner, req);
    } else {
      FreshSizeIsLeast(req.size, req.secure);
    }
  }

  /**
    The pool does not look at the secure flag: a request gets a buffer of its own kind if and only if nothing
    pooled fits or the earliest fit happens to be of that kind.
  */
  lemma SecureIsNotMatched(s: Store, owner: Owner, req: Request, ionOk: bool)
    requires owner.pooled && owner.streamType < |s.pools|
    requires GetBuffer(s, owner, req, ionOk).1.Some?
    ensures var pool := s.pools[owner.streamType];
            GetBuffer(s, owner, req, ionOk).1.value.secure == req.secure
            <==> FirstFit(pool, owner, req) == |pool| || pool[FirstFit(pool, owner, req)].secure == req.secure
  {
  }

  /** A secure request that is served with a buffer allocated for a plain one. */
  lemma SecureRequestGetsPlainBuffer() returns (s: Store, owner: Owner, plain: Request, secure: Request)
    ensures owner.pooled && owner.streamType < |s.pools| && s.live == {} && !plain.secure && secure.secure
    ensures var (s1, m) := GetBuffer(s, owner, plain, true);
            m.Some? && !m.value.secure && GetBuffer(GiveBack(s1, owner, m.value), owner, secure, true).1 == m
  {
    s, owner := Store({}, 1, [[]]), Owner(true, 0, false);
    plain, secure := Request(0, 4096, false), Request(0, 4096, true);
    var m := MemInfo(1, 4096, false, 0, false);
    assert FreshSize(4096, false) == 4096 && s.live + {s.next} == {1};
    assert GetBuffer(s, owner, plain, true) == (Store({1}, 2, [[]]), Some(m));
    assert s.pools[0] + [m] == [m];
  }

  /**
    Of all `int` sizes only 0 itself and the small negative ones come out as buffers of size 0: the last 4095 below
    zero, or for a secure buffer the last megabyte but one.
  */
  lemma OnlySmallNegativeSizesOverflow(size: int, secure: bool)
    requires -0x8000_0000 <= size < 0x8000_0000
    ensures FreshSize(size, secure) == 0 <==> -(if secure then 0x10_0000 else 4096) < size <= 0
  {
    FreshSizeIsLeast(size, secure);
    if size < 0 {
      assert U32(size) == size + WORD;
    }
  }

  /** A request of -1 bytes gets a buffer of none. */
  lemma MinusOneGetsAnEmptyBuffer(s: Store, owner: Owner, heapId: int)
    requires !owner.pooled && owner.streamType < |s.pools|
    ensures var m := GetBuffer(s, owner, Request(heapId, -1, false), true).1;
            m.Some? && m.value.size == 0 && -1 % 0x1_0000_0000 == 0xffff_ffff
  {
    FreshSizeIsLeast(-1, false);
  }
}

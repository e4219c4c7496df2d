/**
  Preview buffers shared with a native window (QCameraGrallocMemory in QCameraMem.cpp): which side has each buffer.
  The window is only trusted to hand out handles it holds and to keep what it is given.
*/
module PreviewBuffers {
  import opened Units

  /** The handles the window holds, and the object's counted handles and flags (true is BUFFER_OWNED). */
  datatype Preview = Preview(held: set<nat>, handles: seq<nat>, owned: seq<bool>)

  predicate Matched(p: Preview) {
    |p.handles| == |p.owned|
  }

  // ----- Allocation -----

  datatype Stop = Complete | DequeueFailed | IonFailed(lost: nat)

  /** A dequeue the window may answer with this handle; None is an error, or a null handle. */
  predicate HandsOut(held: set<nat>, reply: Option<nat>) {
    reply.Some? && reply.value in held
  }

  function Reply(replies: seq<Option<nat>>, i: nat): Option<nat> {
    if i < |replies| then replies[i] else None
  }

  /** Buffers i to n - 1 dequeued one by one and imported into ION: what the window still holds, and what was got. */
  function Take(held: set<nat>, replies: seq<Option<nat>>, ion: seq<bool>, i: nat, n: nat)
      : (r: (set<nat>, seq<nat>, Stop))
    requires i <= n
    ensures |r.1| <= n - i && (r.2.Complete? <==> |r.1| == n - i)
    decreases n - i
  {
    var reply := Reply(replies, i);
    if i == n then (held, [], Complete)
    else if !HandsOut(held, reply) then (held, [], DequeueFailed)
    else if i >= |ion| || !ion[i] then (held - {reply.value}, [], IonFailed(reply.value))
    else
      var rest := Take(held - {reply.value}, replies, ion, i + 1, n);
      (rest.0, [reply.value] + rest.1, rest.2)
  }

  /** Handles 0 to k - 1 cancelled back to the window. */
  function Cancelled(held: set<nat>, handles: seq<nat>, k: nat): (r: set<nat>)
    requires k <= |handles|
    ensures forall h :: h in r <==> h in held || h in handles[..k]
  {
    if k == 0 then held
    else
      assert handles[..k] == handles[..k - 1] + [handles[k - 1]];
      Cancelled(held, handles, k - 1) + {handles[k - 1]}
  }

  /** All buffers dequeued, and the first `min` cancelled. */
  function Taken(held: set<nat>, got: seq<nat>, min: nat): Preview
    requires min <= |got|
  {
    Preview(Cancelled(held, got, min), got, seq(|got|, i requires 0 <= i => i >= min))
  }

  /** The loops of `allocate` on a window that has these buffers: the window's side, and the object's if it worked. */
  function Allocated(buffers: set<nat>, count: nat, min: nat, replies: seq<Option<nat>>, ion: seq<bool>)
      : (r: (set<nat>, Option<Preview>))
    requires min <= count
  {
    var (held, got, stop) := Take(buffers, replies, ion, 0, count);
    if stop.Complete? then (Cancelled(held, got, min), Some(Taken(held, got, min)))
    else
      (Cancelled(held, got, |got|), None)
  }

  /** A buffer is flagged as owned exactly when the window does not hold it, and the window holds no others. */
  ghost predicate Tracked(p: Preview) {
    && Matched(p)
    && (forall j, k :: 0 <= j < k < |p.handles| ==> p.handles[j] != p.handles[k])
    && (forall k :: 0 <= k < |p.handles| ==> (p.owned[k] <==> p.handles[k] !in p.held))
    && forall h :: h in p.held ==> h in p.handles
  }

  function OwnedCount(owned: seq<bool>, n: nat): nat
    requires n <= |owned|
  {
    if n == 0 then 0 else OwnedCount(owned, n - 1) + if owned[n - 1] then 1 else 0
  }

  lemma {:induction false} TakeSplits(held: set<nat>, replies: seq<Option<nat>>, ion: seq<bool>, i: nat, n: nat)
    requires i <= n
    ensures var (rest, got, stop) := Take(held, replies, ion, i, n);
            && (forall h :: h in held <==> h in rest || h in got || (stop.IonFailed? && h == stop.lost))
            && (forall k :: 0 <= k < |got| ==> got[k] !in rest)
            && (forall j, k :: 0 <= j < k < |got| ==> got[j] != got[k])
            && |held| == |rest| + |got| + (if stop.IonFailed? then 1 else 0)
            && (stop.IonFailed? ==> stop.lost !in rest && stop.lost !in got)
    decreases n - i
  {
    var reply := Reply(replies, i);
    if i < n && HandsOut(held, reply) && i < |ion| && ion[i] {
      var h := reply.value;
      TakeSplits(held - {h}, replies, ion, i + 1, n);
      var rest := Take(held - {h}, replies, ion, i + 1, n);
      assert forall g :: g in [h] + rest.1 <==> g == h || g in rest.1;
    }
  }

  lemma {:induction false} CountFrom(owned: seq<bool>, min: nat, n: nat)
    requires n <= |owned| && forall k :: 0 <= k < n ==> (owned[k] <==> k >= min)
    ensures OwnedCount(owned, n) == if n > min then n - min else 0
  {
    if n > 0 { CountFrom(owned, min, n - 1); }
  }

  predicate IonOk(ion: seq<bool>, i: nat) {
    i < |ion| && ion[i]
  }

  /** The i-th dequeue is answered with one of the buffers that was not handed out from the `from`-th on. */
  predicate NewHandle(buffers: set<nat>, replies: seq<Option<nat>>, from: nat, i: nat) {
    HandsOut(buffers, Reply(replies, i)) && forall j :: from <= j < i ==> Reply(replies, j) != Reply(replies, i)
  }

  /** The first buffer, from k on, that the window or ION refuses; n if there is none. */
  function FirstTrouble(buffers: set<nat>, replies: seq<Option<nat>>, ion: seq<bool>, k: nat, n: nat): (r: nat)
    requires k <= n
    ensures k <= r <= n && (r < n ==> !NewHandle(buffers, replies, 0, r) || !IonOk(ion, r))
    ensures forall j: nat :: k <= j < r ==> NewHandle(buffers, replies, 0, j) && IonOk(ion, j)
    decreases n - k
  {
    if k == n || !NewHandle(buffers, replies, 0, k) || !IonOk(ion, k) then k
    else FirstTrouble(buffers, replies, ion, k + 1, n)
  }

  /** How the dequeue loop ends, told from what the window and ION answer. */
  lemma {:induction false} TakeStopsAt(held: set<nat>, replies: seq<Option<nat>>, ion: seq<bool>, i: nat, n: nat,
                                       k: nat)
    requires i <= k <= n && forall j: nat :: i <= j < k ==> NewHandle(held, replies, i, j) && IonOk(ion, j)
    ensures k == n ==> Take(held, replies, ion, i, n).2 == Complete
    ensures k < n && !NewHandle(held, replies, i, k) ==> Take(held, replies, ion, i, n).2 == DequeueFailed
    ensures k < n && NewHandle(held, replies, i, k) && !IonOk(ion, k) ==>
              Take(held, replies, ion, i, n).2 == IonFailed(Reply(replies, k).value)
    decreases k - i
  {
    if i < k {
      assert NewHandle(held, replies, i, i);
      var rest, next := held - {Reply(replies, i).value}, i + 1;
      forall j: nat | next <= j < k ensures NewHandle(rest, replies, next, j) {
        assert NewHandle(held, replies, i, j);
      }
      assert NewHandle(rest, replies, next, k) <==> NewHandle(held, replies, i, k);
      hide NewHandle;
      TakeStopsAt(rest, replies, ion, next, n, k);
    }
  }

  /**
    After a successful allocation on a window with `count` buffers the flags track the window, which holds just
    the first `min` buffers.  It succeeds exactly when nobody refuses a buffer; a refused dequeue leaves every buffer
    with the window, and an ION failure keeps exactly the buffer it happened on.
  */
  lemma AllocateTracks(buffers: set<nat>, count: nat, min: nat, replies: seq<Option<nat>>, ion: seq<bool>)
    requires |buffers| == count && min <= count
    ensures var (held, p) := Allocated(buffers, count, min, replies, ion);
            var k := FirstTrouble(buffers, replies, ion, 0, count);
            && (p.Some? <==> k == count)
            && (p.Some? ==>
                  && Tracked(p.value) && p.value.held == held && |p.value.handles| == count
                  && (forall h :: h in buffers <==> h in p.value.handles)
                  && OwnedCount(p.value.owned, count) == count - min)
            && (k < count ==>
                  held == if NewHandle(buffers, replies, 0, k) then buffers - {Reply(replies, k).value} else buffers)
  {
    TakeSplits(buffers, replies, ion, 0, count);
    var k := FirstTrouble(buffers, replies, ion, 0, count);
    TakeStopsAt(buffers, replies, ion, 0, count, k);
    var (held, got, stop) := Take(buffers, replies, ion, 0, count);
    if stop.Complete? {
      assert held == {};
      AllTakenTracks(buffers, got, min);
    } else {
      assert got[..|got|] == got;
    }
  }

  lemma {:induction false} TakeGetsReplies(held: set<nat>, replies: seq<Option<nat>>, ion: seq<bool>, i: nat, n: nat,
                                           k: nat)
    requires i <= n && k < |Take(held, replies, ion, i, n).1|
    ensures Reply(replies, i + k) == Some(Take(held, replies, ion, i, n).1[k])
    decreases n - i
  {
    var h := Reply(replies, i).value;
    if k > 0 {
      TakeGetsReplies(held - {h}, replies, ion, i + 1, n, k - 1);
    }
  }

  /** The object has the buffers in the order of the window's answers, and owns them from the `min`-th on. */
  lemma AllocateKeepsOrder(buffers: set<nat>, count: nat, min: nat, replies: seq<Option<nat>>, ion: seq<bool>, k: nat)
    requires min <= count && k < count && Allocated(buffers, count, min, replies, ion).1.Some?
    ensures var p := Allocated(buffers, count, min, replies, ion).1.value;
            && |p.handles| == |p.owned| == count
            && Reply(replies, k) == Some(p.handles[k]) && (p.owned[k] <==> k >= min)
  {
    TakeGetsReplies(buffers, replies, ion, 0, count, k);
    hide Take, Cancelled;
  }

  /** The smallest allocation that an ION failure makes keep a buffer. */
  lemma IonFailureKeepsABuffer()
    ensures Allocated({1}, 1, 0, [Some(1)], [false]) == ({}, None)
  {
    var none: set<nat> := {};
    assert {1} - {1} == none;
    assert Take({1}, [Some(1)], [false], 0, 1) == (none, [], IonFailed(1));
    assert Cancelled(none, [], 0) == none;
  }

  lemma AllTakenTracks(buffers: set<nat>, got: seq<nat>, min: nat)
    requires min <= |got|
    requires forall h :: h in buffers <==> h in got
    requires forall j, k :: 0 <= j < k < |got| ==> got[j] != got[k]
    ensures var p := Taken({}, got, min);
            Tracked(p) && OwnedCount(p.owned, |got|) == |got| - min
  {
    var p := Taken({}, got, min);
    CountFrom(p.owned, min, |got|);
    assert forall k :: 0 <= k < min ==> got[..min][k] == got[k];
    assert forall h :: h in p.held ==> h in got[..min];
  }

  // ----- Display -----

  datatype Shown = Invalid | NoIndex | Index(k: nat)

  /** Where a handle is first found, |handles| if it is not. */
  function Find(handles: seq<nat>, h: nat): (k: nat)
    ensures k <= |handles| && (k < |handles| ==> handles[k] == h)
    ensures forall i :: 0 <= i < k ==> handles[i] != h
  {
    if handles == [] || handles[0] == h then 0 else 1 + Find(handles[1..], h)
  }

  predicate IsOwned(p: Preview, index: nat) {
    index < |p.owned| && p.owned[index]
  }

  function Enqueued(p: Preview, index: nat, enqueueOk: bool): Preview
    requires Matched(p) && IsOwned(p, index)
  {
    if enqueueOk then p.(held := p.held + {p.handles[index]}, owned := p.owned[index := false]) else p
  }

  /** The same for an entry above the count, whose flag is not part of the view. */
  function EnqueuedAny(p: Preview, index: nat, handle: nat, enqueueOk: bool): (q: Preview)
    requires Matched(p) && (index < |p.owned| ==> p.owned[index] && p.handles[index] == handle)
    ensures Matched(q)
  {
    if index < |p.owned| then Enqueued(p, index, enqueueOk)
    else if enqueueOk then p.(held := p.held + {handle}) else p
  }

  function Dequeued(p: Preview, reply: Option<nat>): (Preview, Shown)
    requires Matched(p)
  {
    if !HandsOut(p.held, reply) then (p, NoIndex)
    else
      var k := Find(p.handles, reply.value);
      var p1 := p.(held := p.held - {reply.value});
      if k < |p.handles| then (p1.(owned := p.owned[k := true]), Index(k)) else (p1, NoIndex)
  }

  function Display(p: Preview, index: nat, enqueueOk: bool, reply: Option<nat>): (Preview, Shown)
    requires Matched(p)
  {
    if !IsOwned(p, index) then (p, Invalid) else Dequeued(Enqueued(p, index, enqueueOk), reply)
  }

  lemma {:induction false} OwnedCountUpdate(owned: seq<bool>, k: nat, b: bool, n: nat)
    requires k < |owned| && n <= |owned|
    ensures OwnedCount(owned[k := b], n) - OwnedCount(owned, n)
         == if k < n then (if b then 1 else 0) - (if owned[k] then 1 else 0) else 0
  {
    if n > 0 { OwnedCountUpdate(owned, k, b, n - 1); }
  }

  lemma EnqueueTracks(p: Preview, index: nat, enqueueOk: bool)
    requires Tracked(p) && IsOwned(p, index)
    ensures var q := Enqueued(p, index, enqueueOk);
            && Tracked(q) && q.handles == p.handles
            && OwnedCount(q.owned, |q.owned|) == OwnedCount(p.owned, |p.owned|) - if enqueueOk then 1 else 0
  {
    OwnedCountUpdate(p.owned, index, false, |p.owned|);
  }

  lemma DequeueTracks(p: Preview, reply: Option<nat>)
    requires Tracked(p)
    ensures var (q, shown) := Dequeued(p, reply);
            && Tracked(q) && q.handles == p.handles
            && OwnedCount(q.owned, |q.owned|)
               == OwnedCount(p.owned, |p.owned|) + (if HandsOut(p.held, reply) then 1 else 0)
            && (if HandsOut(p.held, reply) then
                  shown.Index? && shown.k < |p.handles| && q.owned[shown.k] && !p.owned[shown.k]
                  && p.handles[shown.k] == reply.value
                else shown.NoIndex?)
  {
    if HandsOut(p.held, reply) {
      OwnedCountUpdate(p.owned, Find(p.handles, reply.value), true, |p.owned|);
    }
  }

  /**
    One displayBuffer call keeps the flags in step with the window; the owned count loses one for the enqueue and
    gains one for the dequeue, and the call returns a valid owned index exactly when the dequeue worked.
  */
  lemma DisplayTracks(p: Preview, index: nat, enqueueOk: bool, reply: Option<nat>)
    requires Tracked(p)
    ensures var (q, shown) := Display(p, index, enqueueOk, reply);
            && Tracked(q) && q.handles == p.handles
            && (shown.Invalid? <==> !IsOwned(p, index))
            && (shown.Invalid? ==> q == p)
            && (shown.Index? ==> IsOwned(q, shown.k) && reply == Some(p.handles[shown.k]))
            && (!shown.Invalid? ==> forall k :: 0 <= k < |p.handles| ==>
                  (q.owned[k] <==> (p.owned[k] && !(k == index && enqueueOk)) || shown == Index(k)))
            && (!shown.Invalid? ==>
                  && (shown.Index? <==> HandsOut(Enqueued(p, index, enqueueOk).held, reply))
                  && OwnedCount(q.owned, |q.owned|) == OwnedCount(p.owned, |p.owned|)
                       - (if enqueueOk then 1 else 0) + (if shown.Index? then 1 else 0))
  {
    if IsOwned(p, index) {
      EnqueueTracks(p, index, enqueueOk);
      DequeueTracks(Enqueued(p, index, enqueueOk), reply);
    }
  }

  datatype Call = Call(index: nat, enqueueOk: bool, reply: Option<nat>)

  function Displays(p: Preview, calls: seq<Call>, n: nat): (q: Preview)
    requires Matched(p) && n <= |calls|
    ensures Matched(q)
  {
    if n == 0 then p
    else Display(Displays(p, calls, n - 1), calls[n - 1].index, calls[n - 1].enqueueOk, calls[n - 1].reply).0
  }

  lemma {:induction false} DisplaysTrack(p: Preview, calls: seq<Call>, n: nat)
    requires Tracked(p) && n <= |calls|
    ensures Tracked(Displays(p, calls, n)) && Displays(p, calls, n).handles == p.handles
  {
    if n > 0 {
      DisplaysTrack(p, calls, n - 1);
      DisplayTracks(Displays(p, calls, n - 1), calls[n - 1].index, calls[n - 1].enqueueOk, calls[n - 1].reply);
    }
  }

  /**
    Preview ownership: after a successful allocation and any displayBuffer calls a buffer is flagged as owned
    exactly when the window does not hold it.
  */
  lemma OwnedMeansNotWithWindow(buffers: set<nat>, count: nat, min: nat, replies: seq<Option<nat>>, ion: seq<bool>,
                                calls: seq<Call>, k: nat)
    requires |buffers| == count && min <= count && k < count
    requires Allocated(buffers, count, min, replies, ion).1.Some?
    ensures var p := Displays(Allocated(buffers, count, min, replies, ion).1.value, calls, |calls|);
            |p.handles| == count && p.handles[k] in buffers && (p.owned[k] <==> p.handles[k] !in p.held)
  {
    hide *;
    AllocateTracks(buffers, count, min, replies, ion);
    var p := Allocated(buffers, count, min, replies, ion).1.value;
    DisplaysTrack(p, calls, |calls|);
    assert p.handles[k] in p.handles;
    TrackedAt(Displays(p, calls, |calls|), k);
  }

  lemma TrackedAt(p: Preview, k: nat)
    requires Tracked(p) && k < |p.handles|
    ensures |p.owned| == |p.handles| && (p.owned[k] <==> p.handles[k] !in p.held)
  {
  }

  // ----- Deallocation -----

  /** What the window holds after buffers 0 to n - 1 were put back; without a window nothing is. */
  function PutBack(p: Preview, hasWindow: bool, n: nat): set<nat>
    requires Matched(p) && n <= |p.handles|
  {
    if n == 0 then p.held
    else PutBack(p, hasWindow, n - 1) + if hasWindow && p.owned[n - 1] then {p.handles[n - 1]} else {}
  }

  lemma {:induction false} PutBackHolds(p: Preview, hasWindow: bool, n: nat, h: nat)
    requires Matched(p) && n <= |p.handles|
    ensures h in PutBack(p, hasWindow, n)
         <==> h in p.held || (hasWindow && exists k :: 0 <= k < n && p.owned[k] && p.handles[k] == h)
  {
    if n > 0 { PutBackHolds(p, hasWindow, n - 1, h); }
  }

  lemma {:induction false} NoneOwned(owned: seq<bool>, n: nat)
    requires n <= |owned|
    ensures OwnedCount(owned, n) == 0 <==> forall k :: 0 <= k < n ==> !owned[k]
  {
    if n > 0 { NoneOwned(owned, n - 1); }
  }

  /**
    deallocate leaves every buffer with the window if and only if there still is a window or no buffer was owned;
    with a window, it holds each buffer and nothing else.
  */
  lemma DeallocateReturnsAll(p: Preview, hasWindow: bool)
    requires Tracked(p)
    ensures var held := PutBack(p, hasWindow, |p.handles|);
            && ((forall k :: 0 <= k < |p.handles| ==> p.handles[k] in held)
                <==> hasWindow || OwnedCount(p.owned, |p.owned|) == 0)
            && (hasWindow ==> forall h :: h in held <==> h in p.handles)
  {
    var held := PutBack(p, hasWindow, |p.handles|);
    NoneOwned(p.owned, |p.owned|);
    forall h: nat ensures h in held
         <==> h in p.held || (hasWindow && exists k :: 0 <= k < |p.handles| && p.owned[k] && p.handles[k] == h)
    {
      PutBackHolds(p, hasWindow, |p.handles|, h);
    }
    assert forall k :: 0 <= k < |p.handles| ==> p.handles[k] in held || (p.owned[k] && !hasWindow);
  }

  // ----- The code -----

  /** The native window's side of the buffer queue.  Arguments named `ok` or `reply` are what it decides. */
  class Window {
    var held: set<nat>

    /** On success the window has `count` buffers of its own choice. */
    method SetBufferCount(count: int, buffers: set<nat>) returns (ok: bool)
      modifies this
      ensures ok == (|buffers| == count) && held == if ok then buffers else old(held)
    {
      ok := |buffers| == count;
      if ok {
        held := buffers;
      }
    }

    method EnqueueBuffer(h: nat, ok: bool)
      modifies this
      ensures held == if ok then old(held) + {h} else old(held)
    {
      if ok {
        held := held + {h};
      }
    }

    method DequeueBuffer(reply: Option<nat>) returns (handle: Option<nat>)
      modifies this
      ensures HandsOut(old(held), reply) ==> handle == reply && held == old(held) - {reply.value}
      ensures !HandsOut(old(held), reply) ==> handle == None && held == old(held)
    {
      handle := None;
      if HandsOut(held, reply) {
        handle := reply;
        held := held - {reply.value};
      }
    }

    method CancelBuffer(h: nat)
      modifies this
      ensures held == old(held) + {h}
    {
      held := held + {h};
    }
  }

  /** What the window answers before the first dequeue of `allocate`. */
  datatype Setup = Setup(minOk: bool, min: nat, buffers: set<nat>, geometryOk: bool, cropOk: bool, usageOk: bool)

  predicate Ready(s: Setup, count: int) {
    s.minOk && |s.buffers| == count && s.geometryOk && s.cropOk && s.usageOk
  }

  /** With `got` dequeued and `rest` left at the window, what remains of the loop is the rest of `Take`. */
  ghost predicate SoFar(buffers: set<nat>, replies: seq<Option<nat>>, ion: seq<bool>, n: nat, got: seq<nat>,
                        rest: set<nat>)
    requires |got| <= n
  {
    var r := Take(rest, replies, ion, |got|, n);
    Take(buffers, replies, ion, 0, n) == (r.0, got + r.1, r.2)
  }

  lemma SoFarSteps(buffers: set<nat>, replies: seq<Option<nat>>, ion: seq<bool>, n: nat, got: seq<nat>, rest: set<nat>)
    requires |got| < n && SoFar(buffers, replies, ion, n, got, rest)
    ensures var i, reply := |got|, Reply(replies, |got|);
            if !HandsOut(rest, reply) then Take(buffers, replies, ion, 0, n) == (rest, got, DequeueFailed)
            else if i >= |ion| || !ion[i] then
              Take(buffers, replies, ion, 0, n) == (rest - {reply.value}, got, IonFailed(reply.value))
            else SoFar(buffers, replies, ion, n, got + [reply.value], rest - {reply.value})
  {
    var reply := Reply(replies, |got|);
    assert got + [] == got;
    if HandsOut(rest, reply) {
      var more := Take(rest - {reply.value}, replies, ion, |got| + 1, n).1;
      assert got + ([reply.value] + more) == got + [reply.value] + more;
    }
  }

  lemma SoFarStarts(buffers: set<nat>, replies: seq<Option<nat>>, ion: seq<bool>, n: nat)
    ensures SoFar(buffers, replies, ion, n, [], buffers)
  {
    var all := Take(buffers, replies, ion, 0, n).1;
    assert [] + all == all;
  }

  class QCameraGrallocMemory {
    var window: Window?
    const bufferHandle: array<nat>
    const localFlag: array<bool>
    var bufferCount: int
    var minUndequeued: nat

    constructor ()
      ensures Valid() && fresh(bufferHandle) && fresh(localFlag) && bufferCount == 0 && window == null
      ensures forall k :: 0 <= k < MM_CAMERA_MAX_NUM_FRAMES ==> !localFlag[k]
    {
      window := null;
      bufferHandle := new nat[MM_CAMERA_MAX_NUM_FRAMES](_ => 0);
      localFlag := new bool[MM_CAMERA_MAX_NUM_FRAMES](_ => false);
      bufferCount, minUndequeued := 0, 0;
    }

    ghost predicate Sized() {
      bufferHandle.Length == localFlag.Length == MM_CAMERA_MAX_NUM_FRAMES
    }

    /** Any object between calls; flags above the count may be set, by an allocation that failed at ION. */
    ghost predicate Valid()
      reads this
    {
      Sized() && 0 <= bufferCount <= MM_CAMERA_MAX_NUM_FRAMES
    }

    ghost function View(held: set<nat>): (p: Preview)
      requires Valid()
      reads this, bufferHandle, localFlag
      ensures Matched(p)
    {
      Preview(held, bufferHandle[..bufferCount], localFlag[..bufferCount])
    }

    /** The search of `displayBuffer`: the first buffer with the dequeued handle becomes owned. */
    method FlagOwned(handle: nat) returns (shown: Shown)
      requires Valid()
      modifies localFlag
      ensures var k := Find(bufferHandle[..bufferCount], handle);
              && shown == (if k < bufferCount then Index(k) else NoIndex)
              && localFlag[..] == if k < bufferCount then old(localFlag[..])[k := true] else old(localFlag[..])
    {
      ghost var handles := bufferHandle[..bufferCount];
      var i := 0;
      while i < bufferCount
        invariant 0 <= i <= bufferCount && localFlag[..] == old(localFlag[..])
        invariant Find(handles, handle) == i + Find(handles[i..], handle)
      {
        if bufferHandle[i] == handle {
          localFlag[i] := true;
          return Index(i);
        }
        assert handles[i..][1..] == handles[i + 1..];
        i := i + 1;
      }
      shown := NoIndex;
    }

    /** The enqueue of `displayBuffer`, of any flagged entry. */
    method EnqueueFlagged(index: nat, enqueueOk: bool)
      requires Valid() && window != null && index < MM_CAMERA_MAX_NUM_FRAMES && localFlag[index]
      modifies window, localFlag
      ensures localFlag[..] == old(localFlag[..])[index := !enqueueOk]
      ensures window.held == if enqueueOk then old(window.held) + {bufferHandle[index]} else old(window.held)
      ensures View(window.held) == EnqueuedAny(old(View(window.held)), index, old(bufferHandle[index]), enqueueOk)
    {
      window.EnqueueBuffer(bufferHandle[index], enqueueOk);
      if enqueueOk {
        localFlag[index] := false;
      }
    }

    /**
      A flag that is not set refuses the call.  A flag above the count, left by a failed allocation, sends that lost
      buffer to the window; otherwise the call is that of `Display`.  Other flags above the count stay.
    */
    method DisplayBuffer(index: nat, enqueueOk: bool, reply: Option<nat>) returns (shown: Shown)
      requires Valid() && window != null && index < MM_CAMERA_MAX_NUM_FRAMES
      modifies window, localFlag
      ensures !old(localFlag[index]) ==>
                shown == Invalid && View(window.held) == old(View(window.held)) && localFlag[..] == old(localFlag[..])
      ensures old(localFlag[index]) ==>
                (View(window.held), shown)
                == Dequeued(EnqueuedAny(old(View(window.held)), index, old(bufferHandle[index]), enqueueOk), reply)
      ensures old(localFlag[index]) ==>
                var held := old(window.held) + if enqueueOk then {bufferHandle[index]} else {};
                window.held == if reply.Some? && reply.value in held then held - {reply.value} else held
      ensures index < bufferCount ==>
                (View(window.held), shown) == Display(old(View(window.held)), index, enqueueOk, reply)
      ensures forall k :: bufferCount <= k < MM_CAMERA_MAX_NUM_FRAMES ==>
                localFlag[k] == (old(localFlag[k]) && !(k == index && enqueueOk))
    {
      if !localFlag[index] {
        return Invalid;
      }
      EnqueueFlagged(index, enqueueOk);
      ghost var q, flags := View(window.held), localFlag[..];
      shown := NoIndex;
      var handle := window.DequeueBuffer(reply);
      if handle.Some? {
        shown := FlagOwned(handle.value);
      }
      assert (View(window.held), shown) == Dequeued(q, reply);
    }

    /** The flags below i are BUFFER_NOT_OWNED, those from i to j - 1 BUFFER_OWNED, the others as in `rest`. */
    ghost predicate FlagsOn(i: int, j: int, rest: seq<bool>)
      reads localFlag
    {
      localFlag.Length == |rest|
      && forall k :: 0 <= k < |rest| ==> localFlag[k] == if k < i then false else if k < j then true else rest[k]
    }

    /** The error loops of `allocate`: buffers 0 to cnt - 1 go back to the window. */
    method CancelBelow(cnt: nat, on: nat, ghost rest: seq<bool>)
      requires Sized() && window != null && cnt <= on <= MM_CAMERA_MAX_NUM_FRAMES && FlagsOn(0, on, rest)
      modifies window, bufferHandle, localFlag
      ensures window.held == Cancelled(old(window.held), old(bufferHandle[..cnt]), cnt) && FlagsOn(cnt, on, rest)
    {
      ghost var held, got := window.held, bufferHandle[..cnt];
      var i := 0;
      while i < cnt
        invariant 0 <= i <= cnt && FlagsOn(i, on, rest) && bufferHandle[i..cnt] == got[i..]
        invariant window.held == Cancelled(held, got, i)
      {
        assert bufferHandle[i] == bufferHandle[i..cnt][0] == got[i];
        if localFlag[i] {
          window.CancelBuffer(bufferHandle[i]);
        }
        localFlag[i] := false;
        bufferHandle[i] := 0;
        assert bufferHandle[i + 1..cnt] == got[i + 1..];
        i := i + 1;
      }
    }

    /** The dequeue loop of `allocate`. */
    method TakeBuffers(count: nat, replies: seq<Option<nat>>, ion: seq<bool>) returns (ok: bool)
      requires Sized() && window != null && count <= MM_CAMERA_MAX_NUM_FRAMES
      modifies window, bufferHandle, localFlag
      ensures var (rest, got, stop) := Take(old(window.held), replies, ion, 0, count);
              && ok == stop.Complete?
              && (if ok then
                    window.held == rest && bufferHandle[..count] == got && FlagsOn(0, count, old(localFlag[..]))
                  else && window.held == Cancelled(rest, got, |got|)
                       && FlagsOn(|got|, |got|, old(localFlag[..])[|got| := stop.IonFailed?]))
    {
      hide Take, SoFar, Cancelled;
      ghost var buffers, flags := window.held, localFlag[..];
      SoFarStarts(buffers, replies, ion, count);
      assert bufferHandle[..0] == [];
      var cnt := 0;
      while cnt < count
        invariant 0 <= cnt <= count && FlagsOn(0, cnt, flags)
        invariant SoFar(buffers, replies, ion, count, bufferHandle[..cnt], window.held)
      {
        ghost var got := bufferHandle[..cnt];
        SoFarSteps(buffers, replies, ion, count, got, window.held);
        var handle := window.DequeueBuffer(Reply(replies, cnt));
        localFlag[cnt] := handle.Some?;
        if handle.None? {
          CancelBelow(cnt, cnt, flags[cnt := false]);
          return false;
        }
        bufferHandle[cnt] := handle.value;
        assert bufferHandle[..cnt] == got;
        if cnt >= |ion| || !ion[cnt] {
          CancelBelow(cnt, cnt, flags[cnt := true]);
          return false;
        }
        assert bufferHandle[..cnt + 1] == got + [handle.value];
        cnt := cnt + 1;
      }
      ok := true;
      TakenAll(buffers, replies, ion, count, bufferHandle[..count], window.held);
    }

    lemma TakenAll(buffers: set<nat>, replies: seq<Option<nat>>, ion: seq<bool>, n: nat, got: seq<nat>, rest: set<nat>)
      requires |got| == n && SoFar(buffers, replies, ion, n, got, rest)
      ensures Take(buffers, replies, ion, 0, n) == (rest, got, Complete)
    {
      assert got + [] == got;
    }

    /** The last loop of `allocate`: the first buffers, as many as the window wants to keep, go back to it. */
    method CancelMinimum(ghost rest: seq<bool>)
      requires Valid() && window != null && minUndequeued <= bufferCount && FlagsOn(0, bufferCount, rest)
      modifies window, localFlag
      ensures window.held == Cancelled(old(window.held), bufferHandle[..bufferCount], minUndequeued)
      ensures FlagsOn(minUndequeued, bufferCount, rest)
    {
      ghost var held, got := window.held, bufferHandle[..bufferCount];
      var i := 0;
      while i < minUndequeued
        invariant 0 <= i <= minUndequeued && FlagsOn(i, bufferCount, rest)
        invariant window.held == Cancelled(held, got, i)
      {
        window.CancelBuffer(bufferHandle[i]);
        localFlag[i] := false;
        i := i + 1;
      }
    }

    /**
      When the window is ready the outcome is that of `Allocated`.  Success counts the new buffers and leaves the
      flags above them alone; a failed call leaves the count alone, and the flags above the buffer it stopped at,
      whose own flag stays set only after an ION failure.
    */
    method Allocate(count: int, setup: Setup, replies: seq<Option<nat>>, ion: seq<bool>) returns (ok: bool)
      requires Sized() && count <= MM_CAMERA_MAX_NUM_FRAMES && (Ready(setup, count) ==> setup.min <= count)
      modifies this`minUndequeued, this`bufferCount, bufferHandle, localFlag, window
      ensures window == old(window) && (ok ==> window != null && Ready(setup, count))
      ensures window == null || !Ready(setup, count) ==> localFlag[..] == old(localFlag[..])
      ensures !ok ==> bufferCount == old(bufferCount)
      ensures window != null && Ready(setup, count) ==>
                var (held, p) := Allocated(setup.buffers, count, setup.min, replies, ion);
                && window.held == held && ok == p.Some? && minUndequeued == setup.min
                && (ok ==> && bufferCount == count && Valid() && View(held) == p.value
                           && localFlag[count..] == old(localFlag[count..]))
      ensures !ok && window != null && Ready(setup, count) ==>
                var (rest, got, stop) := Take(setup.buffers, replies, ion, 0, count);
                FlagsOn(|got|, |got|, old(localFlag[..])[|got| := stop.IonFailed?])
    {
      ok := false;
      if window == null {
        return;
      }
      if !setup.minOk {
        return;
      }
      minUndequeued := setup.min;
      var counted := window.SetBufferCount(count, setup.buffers);
      if !counted || !setup.geometryOk || !setup.cropOk || !setup.usageOk {
        return;
      }
      ghost var flags := localFlag[..];
      ok := TakeBuffers(count, replies, ion);
      if !ok {
        return;
      }
      bufferCount := count;
      CancelMinimum(flags);
      assert forall k :: count <= k < MM_CAMERA_MAX_NUM_FRAMES ==> localFlag[k] == flags[k];
    }

    /** Only counted buffers go back: a flag above the count stays set, and its buffer lost. */
    method Deallocate()
      requires Valid()
      modifies this`bufferCount, localFlag, window
      ensures Valid() && window == old(window) && bufferCount == 0
      ensures forall k :: 0 <= k < MM_CAMERA_MAX_NUM_FRAMES ==>
                localFlag[k] == (k >= old(bufferCount) && old(localFlag[k]))
      ensures window != null ==> window.held == PutBack(old(View(window.held)), true, old(bufferCount))
      ensures window != null ==> forall h :: h in window.held <==>
                h in old(window.held)
                || exists k :: 0 <= k < old(bufferCount) && old(localFlag[k]) && old(bufferHandle[k]) == h
    {
      ghost var p := View(if window == null then {} else window.held);
      var cnt := 0;
      while cnt < bufferCount
        invariant 0 <= cnt <= bufferCount == old(bufferCount)
        invariant forall k :: 0 <= k < MM_CAMERA_MAX_NUM_FRAMES ==> localFlag[k] == (k >= cnt && old(localFlag[k]))
        invariant window != null ==> window.held == PutBack(p, true, cnt)
      {
        if localFlag[cnt] && window != null {
          window.CancelBuffer(bufferHandle[cnt]);
        }
        localFlag[cnt] := false;
        cnt := cnt + 1;
      }
      if window != null {
        forall h ensures h in window.held <==>
                   h in p.held || exists k :: 0 <= k < bufferCount && p.owned[k] && p.handles[k] == h
        {
          PutBackHolds(p, true, bufferCount, h);
        }
      }
      bufferCount := 0;
    }

    /**
      `getRegFlags`: 0 below the minimum of the last allocation, even a failed one, and 1 from there up to the count;
      right after a successful allocation that is 1 for the owned buffers and 0 for the others.
    */
    method GetRegFlags(regFlags: array<nat>)
      requires Valid() && regFlags.Length >= bufferCount && regFlags.Length >= minUndequeued
      requires regFlags as object != bufferHandle
      modifies regFlags
      ensures forall k :: 0 <= k < regFlags.Length ==>
                regFlags[k] == if k < minUndequeued then 0 else if k < bufferCount then 1 else old(regFlags[k])
      ensures FlagsOn(minUndequeued, bufferCount, localFlag[..]) ==>
                forall k :: 0 <= k < bufferCount ==> (regFlags[k] == 1 <==> localFlag[k])
    {
      var i := 0;
      while i < minUndequeued
        invariant 0 <= i <= minUndequeued
        invariant forall k :: 0 <= k < regFlags.Length ==> regFlags[k] == if k < i then 0 else old(regFlags[k])
      {
        regFlags[i] := 0;
        i := i + 1;
      }
      while i < bufferCount
        invariant minUndequeued <= i && (i <= bufferCount || i == minUndequeued)
        invariant forall k :: 0 <= k < regFlags.Length ==>
                    regFlags[k] == if k < minUndequeued then 0 else if k < i then 1 else old(regFlags[k])
      {
        regFlags[i] := 1;
        i := i + 1;
      }
    }
  }
}

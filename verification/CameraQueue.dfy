/**
  QCameraQueue (camera/QCamera2/util/QCameraQueue.cpp): a list under a mutex that can be taken from at either
  end, flushed, and flushed by predicate.  The functions on `Queue` are what each call does as one atomic step;
  the class runs the loops of the flushing calls on its list.
*/
module CameraQueue {
  import opened Units

  datatype Queue<T> = Queue(items: seq<T>, active: bool)

  function Fresh<T>(): Queue<T> {
    Queue([], true)
  }

  function Enqueue<T>(q: Queue<T>, x: T, nodeMalloc: bool): Queue<T> {
    if nodeMalloc && q.active then q.(items := q.items + [x]) else q
  }

  function EnqueueWithPriority<T>(q: Queue<T>, x: T, nodeMalloc: bool): Queue<T> {
    if nodeMalloc && q.active then q.(items := [x] + q.items) else q
  }

  /** What `dequeue` returns: nothing from an empty or inactive queue. */
  function Front<T>(q: Queue<T>, fromHead: bool): Option<T> {
    if !q.active || q.items == [] then None
    else if fromHead then Some(q.items[0]) else Some(q.items[|q.items| - 1])
  }

  function Dequeue<T>(q: Queue<T>, fromHead: bool): Queue<T> {
    if !q.active || q.items == [] then q
    else q.(items := if fromHead then q.items[1..] else q.items[..|q.items| - 1])
  }

  /** The items of `s` that satisfy `f`, in order. */
  function Filter<T>(s: seq<T>, f: T -> bool): (r: seq<T>)
    ensures |r| <= |s|
  {
    if s == [] then [] else
    var front := Filter(s[..|s| - 1], f);
    if f(s[|s| - 1]) then front + [s[|s| - 1]] else front
  }

  function Kept<T>(s: seq<T>, match_: T -> bool): seq<T> {
    Filter(s, x => !match_(x))
  }

  function FlushNodes<T>(q: Queue<T>, match_: T -> bool): Queue<T> {
    if q.active then q.(items := Kept(q.items, match_)) else q
  }

  /** What `flushNodes` hands to the release callback. */
  function FlushedNodes<T>(q: Queue<T>, match_: T -> bool): seq<T> {
    if q.active then Filter(q.items, match_) else []
  }

  /** Flushing by predicate loses nothing: every item is kept or released. */
  lemma {:induction false} FilterPartitions<T>(s: seq<T>, f: T -> bool)
    ensures multiset(s) == multiset(Filter(s, f)) + multiset(Kept(s, f))
  {
    if s != [] {
      var front, last := s[..|s| - 1], s[|s| - 1];
      FilterPartitions(front, f);
      assert s == front + [last];
    }
  }

  lemma {:induction false} FilterInOrder<T>(s: seq<T>, f: T -> bool)
    ensures forall x :: x in Filter(s, f) <==> x in s && f(x)
  {
    if s != [] {
      FilterInOrder(s[..|s| - 1], f);
      assert s == s[..|s| - 1] + [s[|s| - 1]];
    }
  }

  /** Flushing goes through the items in their order. */
  lemma {:induction false} FilterSplits<T>(a: seq<T>, b: seq<T>, f: T -> bool)
    ensures Filter(a + b, f) == Filter(a, f) + Filter(b, f)
  {
    if b == [] {
      assert a + b == a;
    } else {
      FilterSplits(a, b[..|b| - 1], f);
      assert (a + b)[..|a + b| - 1] == a + b[..|b| - 1];
    }
  }

  lemma {:induction false} FilterSame<T>(s: seq<T>, f: T -> bool, g: T -> bool)
    requires forall x <- s :: f(x) == g(x)
    ensures Filter(s, f) == Filter(s, g)
  {
    if s != [] {
      FilterSame(s[..|s| - 1], f, g);
    }
  }

  lemma KeptIs<T>(s: seq<T>, match_: T -> bool, g: T -> bool)
    requires forall x <- s :: g(x) == !match_(x)
    ensures Kept(s, match_) == Filter(s, g)
  {
    FilterSame(s, x => !match_(x), g);
  }

  /** What is put at one end comes back from that end and leaves the queue as it was. */
  lemma TakeUndoesPut<T>(q: Queue<T>, x: T)
    requires q.active
    ensures Front(Enqueue(q, x, true), false) == Some(x) && Dequeue(Enqueue(q, x, true), false) == q
    ensures Front(EnqueueWithPriority(q, x, true), true) == Some(x)
    ensures Dequeue(EnqueueWithPriority(q, x, true), true) == q
  {
    assert (q.items + [x])[..|q.items|] == q.items;
    assert ([x] + q.items)[1..] == q.items;
  }

  /** Everything taken from the head until the queue is empty. */
  function Drain<T>(q: Queue<T>): seq<T>
    decreases |q.items|
  {
    if Front(q, true).None? then [] else [Front(q, true).value] + Drain(Dequeue(q, true))
  }

  lemma {:induction false} DrainIsItems<T>(q: Queue<T>)
    requires q.active
    ensures Drain(q) == q.items
    decreases |q.items|
  {
    if q.items != [] {
      DrainIsItems(Dequeue(q, true));
    }
  }

  /** First in, first out; an item put with priority comes first. */
  lemma DrainsInOrder<T>(q: Queue<T>, x: T)
    requires q.active
    ensures Drain(Enqueue(q, x, true)) == Drain(q) + [x]
    ensures Drain(EnqueueWithPriority(q, x, true)) == [x] + Drain(q)
  {
    DrainIsItems(q);
    DrainIsItems(Enqueue(q, x, true));
    DrainIsItems(EnqueueWithPriority(q, x, true));
  }

  /** The queue object; `released` lists what the release callback `m_dataFn` was given. */
  class QCameraQueue<T> {
    var items: seq<T>
    var size: nat
    var active: bool
    var released: seq<T>

    ghost predicate Valid()
      reads this
    {
      size == |items|
    }

    ghost function View(): Queue<T>
      reads this
    {
      Queue(items, active)
    }

    constructor ()
      ensures Valid() && View() == Fresh() && released == []
    {
      items, size, active, released := [], 0, true, [];
    }

    method Init()
      requires Valid()
      modifies this
      ensures Valid() && View() == old(View()).(active := true) && released == old(released)
    {
      active := true;
    }

    method IsEmpty() returns (flag: bool)
      requires Valid()
      ensures flag <==> items == []
    {
      flag := true;
      if size > 0 {
        flag := false;
      }
    }

    method Put(x: T, priority: bool, nodeMalloc: bool) returns (rc: bool)
      requires Valid()
      modifies this
      ensures Valid() && released == old(released)
      ensures rc == (nodeMalloc && old(active)) && active == old(active)
      ensures items == if !rc then old(items) else if priority then [x] + old(items) else old(items) + [x]
      ensures View() == if priority then EnqueueWithPriority(old(View()), x, nodeMalloc)
                        else Enqueue(old(View()), x, nodeMalloc)
    {
      if !nodeMalloc {
        return false;
      }
      if active {
        items := if priority then [x] + items else items + [x];
        size := size + 1;
        rc := true;
      } else {
        rc := false;
      }
    }

    method Take(fromHead: bool) returns (data: Option<T>)
      requires Valid()
      modifies this
      ensures Valid() && released == old(released)
      ensures data == Front(old(View()), fromHead) && View() == Dequeue(old(View()), fromHead)
      ensures active == old(active) && (data == None <==> !active || old(items) == [])
      ensures data == None ==> items == old(items)
      ensures data != None ==>
                var n := |old(items)|;
                && data.value == old(items)[if fromHead then 0 else n - 1]
                && items == if fromHead then old(items)[1..] else old(items)[..n - 1]
    {
      data := None;
      if active {
        if items != [] {
          if fromHead {
            data, items := Some(items[0]), items[1..];
          } else {
            data, items := Some(items[|items| - 1]), items[..|items| - 1];
          }
          size := size - 1;
        }
      }
    }

    /** `flush`: releases everything from the head on and closes the queue. */
    method Flush()
      requires Valid()
      modifies this
      ensures Valid()
      ensures old(active) ==> View() == Queue([], false) && released == old(released) + old(items)
      ensures !old(active) ==> View() == old(View()) && released == old(released)
    {
      if active {
        while items != []
          invariant Valid() && active
          invariant released + items == old(released) + old(items)
          decreases |items|
        {
          var data := items[0];
          items := items[1..];
          size := size - 1;
          released := released + [data];
        }
        size := 0;
        active := false;
      }
    }

    /** `flushNodes`: walks the list once, releasing the matching items where they stand. */
    method FlushMatching(match_: T -> bool)
      requires Valid()
      modifies this
      ensures Valid() && View() == FlushNodes(old(View()), match_)
      ensures released == old(released) + FlushedNodes(old(View()), match_)
      ensures active == old(active)
      ensures active ==>
                && released == old(released) + Filter(old(items), match_)
                && items == Filter(old(items), x => !match_(x))
    {
      if active {
        ghost var all, n := items, 0;
        var pos := 0;
        while pos < |items|
          invariant Valid() && active && 0 <= pos <= |items| && 0 <= n <= |all|
          invariant items[..pos] == Kept(all[..n], match_) && items[pos..] == all[n..]
          invariant released == old(released) + Filter(all[..n], match_)
          decreases |items| - pos
        {
          var data := items[pos];
          assert all[..n + 1][..n] == all[..n] && data == all[n];
          if match_(data) {
            items := items[..pos] + items[pos + 1..];
            size := size - 1;
            released := released + [data];
          } else {
            pos := pos + 1;
          }
          n := n + 1;
        }
        assert all[..n] == all && items[..pos] == items;
      }
    }
  }
}

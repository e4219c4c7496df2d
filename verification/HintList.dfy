/**
  The sentinel-headed list of hidl/power/list.c and the two routines of hidl/power/utils.c that use it, on real
  heap nodes.  `c` names the nodes behind the sentinel in order.
*/
module HintList {
  import opened Units
  import opened HintStack

  class ListNode {
    var next: ListNode?
    var data: Hint
    var compare: bool  // whether the compare callback is set; the only one ever installed is hint_compare

    constructor (data: Hint)
      ensures next == null && this.data == data && !compare
    {
      next, this.data, compare := null, data, false;
    }
  }

  ghost function At(c: seq<ListNode>, i: nat): ListNode? {
    if i < |c| then c[i] else null
  }

  ghost predicate Chain(head: ListNode, c: seq<ListNode>)
    reads head`next, c`next
  {
    && head !in c
    && (forall i, j :: 0 <= i < j < |c| ==> c[i] != c[j])
    && head.next == At(c, 0)
    && (forall i :: 0 <= i < |c| ==> c[i].next == At(c, i + 1))
  }

  /** `add_list_node`: behind the sentinel, in front of everything else. */
  method AddListNode(head: ListNode?, data: Hint, mallocOk: bool, ghost c: seq<ListNode>)
    returns (node: ListNode?, ghost c': seq<ListNode>)
    requires head != null ==> Chain(head, c)
    modifies if head == null then {} else {head}
    ensures node == null <==> head == null || !mallocOk
    ensures node == null ==> c' == c && (head != null ==> unchanged(head))
    ensures node != null ==>
              && fresh(node) && c' == [node] + c && Chain(head, c')
              && node.data == data && node.compare == head.compare == old(head.compare)
  {
    node, c' := null, c;
    if head == null {
      return;
    }
    if !mallocOk {
      return;
    }
    node := new ListNode(data);
    node.next := head.next;
    node.compare := head.compare;
    head.next := node;
    c' := [node] + c;
  }

  /** The assignment that takes a node out. */
  method Unlink(head: ListNode, saved: ListNode, current: ListNode, ghost c: seq<ListNode>, ghost k: nat)
    requires Chain(head, c) && k < |c| && current == c[k]
    requires saved == if k == 0 then head else c[k - 1]
    modifies saved`next
    ensures Chain(head, Without(c, k))
  {
    saved.next := current.next;
  }

  /** `remove_list_node`: delinks that node only; -1 and no change when it is not there. */
  method RemoveListNode(head: ListNode?, del: ListNode?, ghost c: seq<ListNode>)
    returns (rc: int, ghost k: nat)
    requires head != null ==> Chain(head, c)
    modifies (if head == null then {} else {head})`next, c`next
    ensures head == null ==> rc == -1
    ensures head != null ==>
              && k <= |c| && (forall i :: 0 <= i < k ==> c[i] != del)
              && (k == |c| ==> rc == -1 && Chain(head, c))
              && (k < |c| ==> c[k] == del && rc == 0 && Chain(head, Without(c, k)))
  {
    rc, k := -1, 0;
    if head == null || head.next == null {
      return;
    }
    var current, saved := head.next, head;
    while current != null && current != del
      invariant 0 <= k <= |c| && current == At(c, k)
      invariant saved == if k == 0 then head else c[k - 1]
      invariant forall i :: 0 <= i < k ==> c[i] != del
      decreases |c| - k
    {
      saved := current;
      current := current.next;
      k := k + 1;
    }
    if current == null {
      return;
    }
    Unlink(head, saved, current, c, k);
    rc := 0;
  }

  /** `find_node`: the first node whose comparison matches. */
  method FindNode(head: ListNode?, id: nat, ghost c: seq<ListNode>) returns (node: ListNode?, ghost k: nat)
    requires head != null ==> Chain(head, c)
    ensures head == null ==> node == null
    ensures head != null ==>
              && k <= |c| && node == At(c, k)
              && (forall i :: 0 <= i < k ==> !(c[i].compare && c[i].data.id == id))
              && (k < |c| ==> c[k].compare && c[k].data.id == id)
  {
    node, k := null, 0;
    if head == null {
      return;
    }
    var current := head.next;
    while current != null
      invariant 0 <= k <= |c| && current == At(c, k)
      invariant forall i :: 0 <= i < k ==> !(c[i].compare && c[i].data.id == id)
      decreases |c| - k
    {
      if current.compare {
        if current.data.id == id {
          return current, k;
        }
      }
      current := current.next;
      k := k + 1;
    }
  }

  /** The nodes `c` carry the hints `entries`. */
  ghost predicate Carries(c: seq<ListNode>, entries: seq<Hint>)
    reads c`data, c`compare
  {
    |c| == |entries| && forall i :: 0 <= i < |c| ==> c[i].compare && c[i].data == entries[i]
  }

  lemma CarriesWithout(c: seq<ListNode>, entries: seq<Hint>, k: nat)
    requires Carries(c, entries) && k < |c|
    ensures Carries(Without(c, k), Without(entries, k))
  {
  }

  lemma FoundIsFirstMatch(c: seq<ListNode>, entries: seq<Hint>, id: nat, k: nat)
    requires Carries(c, entries) && k <= |c|
    requires forall i :: 0 <= i < k ==> !(c[i].compare && c[i].data.id == id)
    requires k < |c| ==> c[k].compare && c[k].data.id == id
    ensures |c| == |entries| && FirstMatch(entries, id) == k
    ensures k < |c| ==> c[k].data == entries[k] && forall i :: 0 <= i < k ==> c[i] != c[k]
  {
  }

  /** The statics of utils.c: the list head and the library's entry points. */
  class PerfHints {
    const lib: Library
    const head: ListNode
    ghost var chain: seq<ListNode>
    ghost var repr: set<object>
    ghost var view: Perf  // the listed hints, and every lock acquired and released through these routines

    ghost predicate Valid()
      reads this, repr
    {
      && {this, head} <= repr && (forall i :: 0 <= i < |chain| ==> chain[i] in repr)
      && Chain(head, chain)
      && Carries(chain, view.entries)
    }

    constructor (lib: Library)
      ensures Valid() && fresh(repr)
      ensures this.lib == lib && view == EMPTY
    {
      this.lib := lib;
      head := new ListNode(Hint(0, 0));
      chain, repr, view := [], {this, head}, EMPTY;
    }

    /** The call of `add_list_node`, with the callbacks installed before the first one. */
    method Track(newHint: Hint, nodeMalloc: bool) returns (ok: bool)
      requires Valid()
      modifies repr
      ensures Valid() && fresh(repr - old(repr)) && ok == nodeMalloc
      ensures view == if ok then old(view).(entries := [newHint] + old(view).entries) else old(view)
    {
      hide Chain;
      if !head.compare {
        head.compare := true;
      }
      var node;
      node, chain := AddListNode(head, newHint, nodeMalloc, chain);
      ok := node != null;
      if ok {
        repr := repr + {node};
        view := view.(entries := [newHint] + view.entries);
      }
    }

    /** `perform_hint_action`, with the library's answer and the two allocations as inputs. */
    method PerformHintAction(id: nat, lockHandle: int, hintMalloc: bool, nodeMalloc: bool) returns (rc: int)
      requires Valid()
      modifies repr
      ensures Valid() && fresh(repr - old(repr))
      ensures view == Perform(lib, old(view), id, lockHandle, hintMalloc && nodeMalloc).0
      ensures rc == Perform(lib, old(view), id, lockHandle, hintMalloc && nodeMalloc).1
    {
      hide Chain, Carries;
      rc := 0;
      if lib.acq {
        if lockHandle == -1 {
          return -EINVAL;
        }
        view := view.(acquired := view.acquired + multiset{lockHandle});
        if !hintMalloc {
          if lib.rel {
            view := view.(released := view.released + multiset{lockHandle});
          }
          return -ENOMEM;
        }
        var tracked := Track(Hint(id, lockHandle), nodeMalloc);
        if !tracked {
          if lib.rel {
            view := view.(released := view.released + multiset{lockHandle});
          }
          return -ENOMEM;
        }
      }
    }

    /** `undo_hint_action`. */
    method UndoHintAction(id: nat)
      requires Valid()
      modifies repr
      ensures Valid() && repr == old(repr)
      ensures view == Undo(lib, old(view), id)
    {
      hide Chain, Carries;
      if lib.rel {
        var found, k := FindNode(head, id, chain);
        FoundIsFirstMatch(chain, view.entries, id, k);
        if found != null {
          view := view.(released := view.released + multiset{found.data.handle});
          var rc, at := RemoveListNode(head, found, chain);
          CarriesWithout(chain, view.entries, k);
          chain := Without(chain, k);
          view := view.(entries := Without(view.entries, k));
        }
      }
    }
  }
}

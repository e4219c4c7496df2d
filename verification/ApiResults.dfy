/**
  The pending API results of QCamera2HWI.cpp: what posting, taking and freeing mean on the sequence of results,
  and the hand-written linked list that implements it.
*/
module ApiResults {
  import opened Units

  datatype ApiResult = ApiResult(requestApi: nat, payload: int)

  /** The results of one API, oldest first. */
  function For(results: seq<ApiResult>, api: nat): (r: seq<ApiResult>)
  {
    if results == [] then []
    else (if results[0].requestApi == api then [results[0]] else []) + For(results[1..], api)
  }

  /** Where the oldest result of `api` is, |results| if there is none. */
  function FirstFor(results: seq<ApiResult>, api: nat): (k: nat)
    ensures k <= |results|
    ensures k < |results| ==> results[k].requestApi == api
    ensures forall i :: 0 <= i < k ==> results[i].requestApi != api
  {
    if results == [] || results[0].requestApi == api then 0 else 1 + FirstFor(results[1..], api)
  }

  lemma {:induction false} ForAppend(results: seq<ApiResult>, r: ApiResult, api: nat)
    ensures For(results + [r], api) == For(results, api) + if r.requestApi == api then [r] else []
  {
    if results == [] {
      assert [] + [r] == [r];
    } else {
      ForAppend(results[1..], r, api);
      assert (results + [r])[1..] == results[1..] + [r];
    }
  }

  /** Taking the oldest result of `api` pops that API's results and keeps every other API's. */
  lemma {:induction false} TakeIsFifo(results: seq<ApiResult>, api: nat, other: nat)
    ensures var k := FirstFor(results, api);
            && (k == |results| <==> For(results, api) == [])
            && (k < |results| ==>
                  && results[k].requestApi == api
                  && For(results, api) == [results[k]] + For(Without(results, k), api)
                  && (other != api ==> For(Without(results, k), other) == For(results, other)))
  {
    if results != [] {
      var k, tail := FirstFor(results, api), results[1..];
      if k == 0 {
        assert Without(results, 0) == tail;
      } else {
        TakeIsFifo(tail, api, other);
        if k < |results| {
          assert Without(results, k)[1..] == Without(tail, k - 1);
        }
      }
    }
  }

  // ----- The linked list -----

  class ResultNode {
    var result: ApiResult
    var next: ResultNode?

    constructor (result: ApiResult)
      ensures this.result == result && next == null
    {
      this.result, next := result, null;
    }
  }

  ghost function At(c: seq<ResultNode>, i: nat): ResultNode? {
    if i < |c| then c[i] else null
  }

  /** `c` is a finite list without repetition that starts at `head`. */
  ghost predicate Chain(head: ResultNode?, c: seq<ResultNode>)
    reads c`next
  {
    && head == At(c, 0)
    && (forall i, j :: 0 <= i < j < |c| ==> c[i] != c[j])
    && (forall i :: 0 <= i < |c| ==> c[i].next == At(c, i + 1))
  }

  ghost predicate Carries(c: seq<ResultNode>, results: seq<ApiResult>)
    reads c`result
  {
    |c| == |results| && forall i :: 0 <= i < |c| ==> c[i].result == results[i]
  }

  lemma CarriesWithout(c: seq<ResultNode>, results: seq<ApiResult>, k: nat)
    requires Carries(c, results) && k < |c|
    ensures Carries(Without(c, k), Without(results, k))
  {
  }

  lemma FirstForIs(c: seq<ResultNode>, results: seq<ApiResult>, api: nat, k: nat)
    requires Carries(c, results) && k <= |c|
    requires forall i :: 0 <= i < k ==> c[i].result.requestApi != api
    requires k < |c| ==> c[k].result.requestApi == api
    ensures |c| == |results| && FirstFor(results, api) == k
    ensures k < |c| ==> c[k].result == results[k]
  {
  }

  /** Unlinking the node `current` at `k`; at the head `previous` is that node itself. */
  method Unlink(head: ResultNode, previous: ResultNode, current: ResultNode, ghost c: seq<ResultNode>, ghost k: nat)
    returns (head': ResultNode?)
    requires Chain(head, c) && k < |c| && current == c[k]
    requires previous == if k == 0 then head else c[k - 1]
    modifies previous`next
    ensures Chain(head', Without(c, k))
  {
    head' := head;
    previous.next := current.next;
    if current == head {
      head' := current.next;
    }
  }

  class ApiResultList {
    var head: ResultNode?
    ghost var nodes: seq<ResultNode>
    ghost var results: seq<ApiResult>
    ghost var repr: set<object>

    ghost predicate Valid()
      reads this, repr
    {
      && this in repr && (forall i :: 0 <= i < |nodes| ==> nodes[i] in repr)
      && Chain(head, nodes) && Carries(nodes, results)
    }

    constructor ()
      ensures Valid() && results == [] && fresh(repr)
    {
      head, nodes, results, repr := null, [], [], {this};
    }

    /** The list part of `signalAPIResult`: append at the tail, or lose the result when `malloc` fails. */
    method Post(result: ApiResult, mallocOk: bool)
      requires Valid()
      modifies repr
      ensures Valid() && fresh(repr - old(repr))
      ensures results == if mallocOk then old(results) + [result] else old(results)
    {
      if !mallocOk {
        return;
      }
      var node := new ResultNode(result);
      if head == null {
        head := node;
      } else {
        Append(head, node, nodes);
      }
      nodes, results, repr := nodes + [node], results + [result], repr + {node};
    }

    /** The walk to the tail. */
    static method Append(head: ResultNode, node: ResultNode, ghost c: seq<ResultNode>)
      requires Chain(head, c) && node !in c && node.next == null
      modifies c`next
      ensures Chain(head, c + [node])
    {
      var last := head;
      ghost var k := 0;
      while last.next != null
        invariant 0 <= k < |c| && last == c[k] && Chain(head, c) && node.next == null
        decreases |c| - k
      {
        last := last.next;
        k := k + 1;
      }
      last.next := node;
    }

    /** The scan of `waitAPIResult` after a wake-up, up to the first result of this API. */
    static method Scan(head: ResultNode?, api: nat, ghost c: seq<ResultNode>)
      returns (current: ResultNode?, previous: ResultNode?, ghost k: nat)
      requires Chain(head, c)
      ensures k <= |c| && current == At(c, k) && previous == if k == 0 then head else c[k - 1]
      ensures forall i :: 0 <= i < k ==> c[i].result.requestApi != api
      ensures k < |c| ==> c[k].result.requestApi == api
      ensures current != null ==> head != null && previous == c[if k == 0 then 0 else k - 1]
    {
      current, previous, k := head, head, 0;
      while current != null
        invariant 0 <= k <= |c| && current == At(c, k)
        invariant previous == if k == 0 then head else c[k - 1]
        invariant forall i :: 0 <= i < k ==> c[i].result.requestApi != api
        decreases |c| - k
      {
        if current.result.requestApi == api {
          break;
        }
        previous := current;
        current := current.next;
        k := k + 1;
      }
    }

    /** The scan and what it does with a match: copy, unlink, free. */
    method TakeMatching(api: nat) returns (received: Option<ApiResult>)
      requires Valid()
      modifies repr
      ensures Valid() && repr == old(repr)
      ensures var k := FirstFor(old(results), api);
              if k == |old(results)| then received == None && results == old(results)
              else received == Some(old(results)[k]) && results == Without(old(results), k)
    {
      hide Chain, Carries;
      received := None;
      var current, previous, k := Scan(head, api, nodes);
      FirstForIs(nodes, results, api, k);
      if current != null {
        received := Some(current.result);
        CarriesWithout(nodes, results, k);
        head := Unlink(head, previous, current, nodes, k);
        nodes, results := Without(nodes, k), Without(results, k);
      }
    }

    /** The cleanup of `closeCamera`: every pending result is freed, once. */
    method FreeAll() returns (ghost freed: seq<ApiResult>)
      requires Valid()
      ensures freed == results
    {
      freed := [];
      var current := head;
      while current != null
        invariant |freed| <= |nodes| && current == At(nodes, |freed|) && freed == results[..|freed|]
        decreases |nodes| - |freed|
      {
        freed := freed + [current.result];
        current := current.next;
      }
    }
  }
}

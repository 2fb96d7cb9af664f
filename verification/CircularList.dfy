/** The circular list with a tail pointer (Diana_FList_*), which carries the routes and the xrefs of the analyzer. */
module CircularList {

  datatype Verdict = GoOn | Done | Error(code: int)

  class Node {
    var next: Node?

    constructor ()
      ensures next == null
    {
      next := null;
    }
  }

  ghost predicate AreDistinct(nodes: seq<Node>) {
    forall i, j | 0 <= i < j < |nodes| :: nodes[i] != nodes[j]
  }

  /** The nodes that a traversal visits: up to the first that does not say to go on. */
  function VisitedOf(nodes: seq<Node>, verdict: Node -> Verdict): seq<Node> {
    if |nodes| == 0 then []
    else [nodes[0]] + if verdict(nodes[0]) == GoOn then VisitedOf(nodes[1..], verdict) else []
  }

  function ResultOf(nodes: seq<Node>, verdict: Node -> Verdict): Verdict {
    if |nodes| == 0 then GoOn
    else if verdict(nodes[0]) == GoOn then ResultOf(nodes[1..], verdict)
    else verdict(nodes[0])
  }

  /** The nodes are visited in order and each once. All are, unless one stops the traversal: then it is the last, and
      its verdict the result. */
  lemma {:induction false} VisitsInOrder(nodes: seq<Node>, verdict: Node -> Verdict)
    ensures var seen := VisitedOf(nodes, verdict);
            && seen <= nodes && (AreDistinct(nodes) ==> AreDistinct(seen))
            && (forall k | 0 <= k < |seen| - 1 :: verdict(seen[k]) == GoOn)
            && (if ResultOf(nodes, verdict) == GoOn
                then seen == nodes && forall k | 0 <= k < |nodes| :: verdict(nodes[k]) == GoOn
                else |seen| != 0 && verdict(seen[|seen| - 1]) == ResultOf(nodes, verdict))
    decreases |nodes|
  {
    if |nodes| != 0 {
      VisitsInOrder(nodes[1..], verdict);
      assert nodes == [nodes[0]] + nodes[1..];
    }
  }

  lemma {:induction false} StopsAt(nodes: seq<Node>, verdict: Node -> Verdict, i: nat)
    requires i < |nodes| && forall k | 0 <= k < i :: verdict(nodes[k]) == GoOn
    requires i + 1 == |nodes| || verdict(nodes[i]) != GoOn
    ensures VisitedOf(nodes, verdict) == nodes[..i + 1] && ResultOf(nodes, verdict) == verdict(nodes[i])
    decreases |nodes|
  {
    if i != 0 {
      StopsAt(nodes[1..], verdict, i - 1);
      assert nodes[..i + 1] == [nodes[0]] + nodes[1..][..i];
    }
  }

  /** What is called for each node. It may free or reuse the node it gets, and those it got before. */
  class Observer {
    ghost var visited: seq<Node>
    const verdict: Node -> Verdict

    constructor (verdict: Node -> Verdict)
      ensures visited == [] && this.verdict == verdict
    {
      this.verdict := verdict;
      visited := [];
    }

    method Observe(node: Node, ghost seen: seq<Node>) returns (v: Verdict)
      modifies this`visited, node, seen
      ensures visited == old(visited) + [node] && v == verdict(node)
    {
      modify node, seen;
      visited := visited + [node];
      v := verdict(node);
    }
  }

  class List {
    var last: Node?
    ghost var nodes: seq<Node>

    /** The tail points to the first node, every other node to the one after it. */
    ghost predicate Valid()
      reads this, nodes
    {
      && AreDistinct(nodes)
      && (nodes == [] <==> last == null)
      && (nodes != [] ==> last == nodes[|nodes| - 1] && last.next == nodes[0])
      && (forall i | 0 <= i < |nodes| - 1 :: nodes[i].next == nodes[i + 1])
    }

    /** An all-zero head is an empty list. */
    constructor ()
      ensures Valid() && nodes == []
    {
      last := null;
      nodes := [];
    }

    method InitList()
      modifies this
      ensures Valid() && nodes == []
    {
      last := null;
      nodes := [];
    }

    method PushBack(node: Node)
      requires Valid() && node !in nodes
      modifies this, node, if last == null then {} else {last}
      ensures Valid() && nodes == old(nodes) + [node]
    {
      if last != null {
        node.next := last.next;
        last.next := node;
      } else {
        node.next := node;
      }
      last := node;
      nodes := nodes + [node];
    }

    method First() returns (node: Node?)
      requires Valid()
      ensures node == if nodes == [] then null else nodes[0]
    {
      if last == null {
        return null;
      }
      return last.next;
    }

    /** Not the next pointer: there is no node after the last. */
    method Next(node: Node, ghost i: nat) returns (next: Node?)
      requires Valid() && i < |nodes| && nodes[i] == node
      ensures next == if i + 1 < |nodes| then nodes[i + 1] else null
    {
      if node == last {
        return null;
      }
      return node.next;
    }

    /** Every node is visited once and in order, even if the observer frees it. */
    method ForEach(observer: Observer) returns (v: Verdict)
      requires Valid()
      modifies observer`visited, nodes
      ensures observer.visited == old(observer.visited) + VisitedOf(old(nodes), observer.verdict)
      ensures v == match ResultOf(old(nodes), observer.verdict) case Error(code) => Error(code) case _ => GoOn
      ensures last == old(last) && nodes == old(nodes)
    {
      if last == null {
        return GoOn;
      }
      hide VisitedOf, ResultOf;
      var node: Node := last.next;
      ghost var i, before := 0, observer.visited;
      while true
        invariant 0 <= i < |nodes| && node == nodes[i]
        invariant forall k | i <= k < |nodes| - 1 :: nodes[k].next == nodes[k + 1]
        invariant observer.visited == before + nodes[..i]
        invariant forall k | 0 <= k < i :: observer.verdict(nodes[k]) == GoOn
        decreases |nodes| - i
      {
        var next, isLast := node.next, node == last;
        assert !isLast ==> i + 1 < |nodes| && next == nodes[i + 1];
        v := observer.Observe(node, nodes[..i]);
        assert before + nodes[..i] + [node] == before + nodes[..i + 1];
        if v != GoOn || isLast {
          StopsAt(nodes, observer.verdict, i);
          return if v.Error? then v else GoOn;
        }
        node := next;
        i := i + 1;
      }
    }
  }
}

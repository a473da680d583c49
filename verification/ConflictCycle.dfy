/** The first conflict cycle among candidates: a three-colour depth-first search in sorted order. */
module ConflictCycle {
  import opened Ordering

  /** Candidate identifiers, each with the identifiers it conflicts with. */
  type Graph<T> = map<T, seq<T>>

  /** References to candidates that do not exist are not edges. */
  predicate Edge<T(==)>(graph: Graph<T>, a: T, b: T) {
    a in graph && b in graph && b in graph[a]
  }

  predicate Follows<T(==)>(graph: Graph<T>, nodes: seq<T>, i: nat) {
    i + 1 < |nodes| ==> Edge(graph, nodes[i], nodes[i + 1])
  }

  ghost predicate Walk<T>(graph: Graph<T>, nodes: seq<T>) {
    forall i: nat {:trigger Follows(graph, nodes, i)} :: Follows(graph, nodes, i)
  }

  /** A walk of at least one edge that comes back to where it started. */
  ghost predicate ClosedWalk<T>(graph: Graph<T>, nodes: seq<T>) {
    |nodes| >= 2 && Walk(graph, nodes) && nodes[0] == nodes[|nodes| - 1]
  }

  predicate Distinct<T(==)>(nodes: seq<T>) {
    forall i, j :: 0 <= i < j < |nodes| ==> nodes[i] != nodes[j]
  }

  /** Equal ends and no other repetition. */
  ghost predicate SimpleCycle<T>(graph: Graph<T>, nodes: seq<T>) {
    ClosedWalk(graph, nodes) && Distinct(nodes[..|nodes| - 1])
  }

  ghost predicate Cyclic<T(!new)>(graph: Graph<T>) {
    exists nodes :: ClosedWalk(graph, nodes)
  }

  // ---------------------------------------------------------------- acyclic parts

  /** Every edge from a ranked node leads to a node of lower rank. */
  ghost predicate Ranked<T(!new)>(graph: Graph<T>, rank: map<T, nat>) {
    forall a, b {:trigger Edge(graph, a, b)} :: a in rank && Edge(graph, a, b) ==> b in rank && rank[b] < rank[a]
  }

  lemma {:induction false} WalkLowersRank<T(!new)>(graph: Graph<T>, rank: map<T, nat>, nodes: seq<T>, i: nat)
    requires Ranked(graph, rank)
    requires Walk(graph, nodes) && nodes != [] && nodes[0] in rank && i < |nodes|
    ensures nodes[i] in rank && rank[nodes[i]] + i <= rank[nodes[0]]
  {
    if i > 0 {
      WalkLowersRank(graph, rank, nodes, i - 1);
      assert Follows(graph, nodes, i - 1);
    }
  }

  /** If all nodes can be ranked that way, there is no cycle. */
  lemma {:induction false} RankedIsAcyclic<T(!new)>(graph: Graph<T>, rank: map<T, nat>)
    requires Ranked(graph, rank) && graph.Keys <= rank.Keys
    ensures !Cyclic(graph)
  {
    if Cyclic(graph) {
      var nodes :| ClosedWalk(graph, nodes);
      assert Follows(graph, nodes, 0);
      WalkLowersRank(graph, rank, nodes, |nodes| - 1);
      assert false;
    }
  }

  // ---------------------------------------------------------------- the search

  ghost predicate Unvisited<T(!new)>(graph: Graph<T>, state: map<T, int>, unvisited: set<T>) {
    forall node :: node in graph && node !in state ==> node in unvisited
  }

  /** The stack is a walk, and exactly its nodes have a recorded position. */
  ghost predicate OnStack<T(!new)>(graph: Graph<T>, stack: seq<T>, position: map<T, nat>) {
    && Walk(graph, stack)
    && (forall i :: 0 <= i < |stack| ==> stack[i] in position && position[stack[i]] == i)
    && (forall node :: node in position ==> position[node] < |stack| && stack[position[node]] == node)
  }

  /** Mark 1 is on the stack, mark 2 is finished (and ranked), absent is unvisited. */
  ghost predicate Marks<T(!new)>(state: map<T, int>, position: map<T, nat>, rank: map<T, nat>) {
    && state.Keys == position.Keys + rank.Keys
    && (forall node :: node in position ==> state[node] == 1)
    && (forall node :: node in rank ==> state[node] == 2)
  }

  /** Which of the first nodes of a list that exist are in a set. */
  ghost predicate Covered<T(!new)>(graph: Graph<T>, nodes: seq<T>, done: set<T>) {
    forall i :: 0 <= i < |nodes| && nodes[i] in graph ==> nodes[i] in done
  }

  lemma {:induction false} CoverNext<T(!new)>(graph: Graph<T>, nodes: seq<T>, i: nat, done: set<T>, now: set<T>)
    requires i < |nodes| && Covered(graph, nodes[..i], done) && done <= now
    requires nodes[i] in graph ==> nodes[i] in now
    ensures Covered(graph, nodes[..i + 1], now)
  {
    assert nodes[..i + 1] == nodes[..i] + [nodes[i]];
  }

  ghost predicate Finished<T(!new)>(graph: Graph<T>, rank: map<T, nat>, top: nat) {
    && Ranked(graph, rank)
    && rank.Keys <= graph.Keys
    && (forall node :: node in rank ==> rank[node] < top)
  }

  lemma {:induction false} EnterStack<T(!new)>(graph: Graph<T>, stack: seq<T>, position: map<T, nat>, node: T)
    requires OnStack(graph, stack, position) && node !in position
    requires stack != [] ==> Edge(graph, stack[|stack| - 1], node)
    ensures OnStack(graph, stack + [node], position[node := |stack|])
  {
    var longer := stack + [node];
    forall i: nat {:trigger Follows(graph, longer, i)} ensures Follows(graph, longer, i) {
      assert Follows(graph, stack, i);
    }
  }

  lemma {:induction false} LeaveStack<T(!new)>(graph: Graph<T>, stack: seq<T>, position: map<T, nat>)
    requires OnStack(graph, stack, position) && stack != []
    ensures OnStack(graph, stack[..|stack| - 1], position - {stack[|stack| - 1]})
  {
    var rest := stack[..|stack| - 1];
    forall i: nat {:trigger Follows(graph, rest, i)} ensures Follows(graph, rest, i) {
      assert Follows(graph, stack, i);
    }
  }

  lemma {:induction false} Finish<T(!new)>(graph: Graph<T>, rank: map<T, nat>, top: nat, node: T)
    requires Finished(graph, rank, top) && node in graph && node !in rank
    requires Covered(graph, graph[node], rank.Keys)
    ensures Finished(graph, rank[node := top], top + 1)
  {}

  lemma {:induction false} EnterMarks<T(!new)>(state: map<T, int>, position: map<T, nat>, rank: map<T, nat>, node: T,
                                               at: nat)
    requires Marks(state, position, rank) && node !in state
    ensures Marks(state[node := 1], position[node := at], rank)
  {}

  lemma {:induction false} LeaveMarks<T(!new)>(state: map<T, int>, position: map<T, nat>, rank: map<T, nat>, node: T,
                                               at: nat)
    requires Marks(state, position, rank) && node in position
    ensures node !in rank
    ensures Marks(state[node := 2], position - {node}, rank[node := at])
  {}

  /** A node met again while it is on the stack closes a simple cycle. */
  lemma {:induction false} ClosesCycle<T(!new)>(graph: Graph<T>, stack: seq<T>, position: map<T, nat>, node: T)
    requires OnStack(graph, stack, position) && node in position && Edge(graph, stack[|stack| - 1], node)
    ensures SimpleCycle(graph, stack[position[node]..] + [node])
  {
    var cycle := stack[position[node]..] + [node];
    assert cycle[..|cycle| - 1] == stack[position[node]..];
    forall i: nat {:trigger Follows(graph, cycle, i)} ensures Follows(graph, cycle, i) {
      assert Follows(graph, stack, position[node] + i);
    }
  }

  /** The variables that the recursive visit shares, and the rank of every finished node. */
  class Search<T(==, !new)> {
    const graph: Graph<T>
    var state: map<T, int>
    var stack: seq<T>
    var position: map<T, nat>
    ghost var rank: map<T, nat>
    ghost var top: nat

    constructor (graph: Graph<T>)
      ensures this.graph == graph && Valid() && stack == []
    {
      this.graph := graph;
      state, stack, position, rank, top := map[], [], map[], map[], 0;
    }

    ghost predicate Valid()
      reads this
    {
      OnStack(graph, stack, position) && Marks(state, position, rank) && Finished(graph, rank, top)
    }

    /** Either the node is finished and the stack is as before, or a simple cycle is returned. */
    method Visit(node: T, ghost unvisited: set<T>) returns (cycle: seq<T>)
      requires Valid() && Unvisited(graph, state, unvisited) && node in graph
      requires stack != [] ==> Edge(graph, stack[|stack| - 1], node)
      modifies this
      ensures cycle != [] ==> SimpleCycle(graph, cycle)
      ensures cycle == [] ==> Valid() && stack == old(stack) && node in rank && old(rank.Keys) <= rank.Keys
      ensures cycle == [] ==> Unvisited(graph, state, unvisited)
      decreases unvisited, 0
    {
      if node in state && state[node] == 1 {
        ClosesCycle(graph, stack, position, node);
        cycle := stack[position[node]..] + [node];
        return;
      }
      if node in state && state[node] == 2 {
        return [];
      }
      Enter(node);
      cycle := VisitNeighbours(node, unvisited - {node});
      if |cycle| > 0 {
        return;
      }
      Leave(node);
    }

    /** An unvisited node goes onto the stack. */
    method Enter(node: T)
      requires Valid() && node !in state
      requires stack != [] ==> Edge(graph, stack[|stack| - 1], node)
      modifies this
      ensures Valid() && rank == old(rank)
      ensures state == old(state)[node := 1] && stack == old(stack) + [node]
    {
      EnterStack(graph, stack, position, node);
      EnterMarks(state, position, rank, node, |stack|);
      state := state[node := 1];
      position := position[node := |stack|];
      stack := stack + [node];
    }

    /** The node on top of the stack, all of whose neighbours are finished, is finished. */
    method Leave(node: T)
      requires Valid() && stack != [] && stack[|stack| - 1] == node && node in graph
      requires Covered(graph, graph[node], rank.Keys)
      modifies this
      ensures Valid() && node in rank && old(rank.Keys) <= rank.Keys
      ensures state == old(state)[node := 2] && stack == old(stack)[..|old(stack)| - 1]
    {
      LeaveStack(graph, stack, position);
      LeaveMarks(state, position, rank, node, top);
      Finish(graph, rank, top, node);
      stack := stack[..|stack| - 1];
      position := position - {node};
      state := state[node := 2];
      rank, top := rank[node := top], top + 1;
    }

    /** Every existing neighbour of the node on top of the stack, in the order in which they are listed. */
    method VisitNeighbours(node: T, ghost unvisited: set<T>) returns (cycle: seq<T>)
      requires Valid() && Unvisited(graph, state, unvisited)
      requires stack != [] && stack[|stack| - 1] == node && node in graph
      modifies this
      ensures cycle != [] ==> SimpleCycle(graph, cycle)
      ensures cycle == [] ==> Valid() && stack == old(stack) && old(rank.Keys) <= rank.Keys
      ensures cycle == [] ==> Covered(graph, graph[node], rank.Keys)
      ensures cycle == [] ==> Unvisited(graph, state, unvisited)
      decreases unvisited, 1
    {
      cycle := [];
      var neighbours := graph[node];
      for i := 0 to |neighbours|
        invariant cycle == []
        invariant Valid() && Unvisited(graph, state, unvisited) && stack == old(stack) && old(rank.Keys) <= rank.Keys
        invariant Covered(graph, neighbours[..i], rank.Keys)
      {
        var next := neighbours[i];
        ghost var done := rank.Keys;
        if next in graph {
          cycle := Visit(next, unvisited);
          if |cycle| > 0 {
            return;
          }
        }
        CoverNext(graph, neighbours, i, done, rank.Keys);
      }
      assert neighbours[..|neighbours|] == neighbours;
    }
  }

  /** The nodes in sorted order, however the map enumerates them. */
  method SortedKeys<T(==, !new)>(graph: Graph<T>, less: (T, T) -> bool) returns (keys: seq<T>)
    requires Ordered(less)
    ensures forall key :: key in keys <==> key in graph
    ensures Sorted(less, keys)
  {
    var remaining := graph.Keys;
    keys := [];
    while remaining != {}
      invariant remaining <= graph.Keys
      invariant forall key :: key in keys <==> key in graph && key !in remaining
      decreases |remaining|
    {
      var key :| key in remaining;
      keys := keys + [key];
      remaining := remaining - {key};
    }
    SortSorted(less, keys);
    SortPermutes(less, keys);
    var sorted := Sort(less, keys);
    forall key ensures key in sorted <==> key in keys {
      assert key in multiset(sorted) <==> key in multiset(keys);
    }
    keys := sorted;
  }

  /** A cycle is returned exactly when the graph restricted to existing candidates has one; it is a closed
      walk along edges whose only repeated node is its end. */
  method FirstCycle<T(==, !new)>(graph: Graph<T>, less: (T, T) -> bool) returns (cycle: seq<T>)
    requires Ordered(less)
    ensures cycle != [] <==> Cyclic(graph)
    ensures cycle != [] ==> SimpleCycle(graph, cycle)
  {
    var keys := SortedKeys(graph, less);
    var search := new Search(graph);
    for i := 0 to |keys|
      invariant search.Valid() && Unvisited(graph, search.state, graph.Keys)
      invariant search.graph == graph && search.stack == []
      invariant Covered(graph, keys[..i], search.rank.Keys)
    {
      ghost var done := search.rank.Keys;
      cycle := search.Visit(keys[i], graph.Keys);
      if |cycle| > 0 {
        assert ClosedWalk(graph, cycle);
        return;
      }
      CoverNext(graph, keys, i, done, search.rank.Keys);
    }
    assert keys[..|keys|] == keys;
    RankedIsAcyclic(graph, search.rank);
    cycle := [];
  }
}

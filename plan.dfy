/**
 * The relational plan the rule runs over, as the heuristic planner holds it:
 * an arena of operator nodes addressed by index. A parent refers to its
 * inputs by index, usually through a `Vertex` (HepRelVertex) that stands for
 * "whatever operator currently fills this place".
 */
module Plan {
  import opened Rex

  /** Calcite's JoinRelType. */
  datatype JoinType = Inner | Left | Right | Full | Semi | Anti

  datatype Node =
    | Vertex(current: nat)                             // HepRelVertex wrapping the operator at `current`
    | Filter(condition: Expr, input: nat)              // LogicalFilter
    | Join(joinType: JoinType, condition: Expr, left: nat, right: nat, semiJoinDone: bool)  // LogicalJoin
    | Operator(inputs: seq<nat>)                       // any other operator (scan, project, ...)

  /** RelNode.getInputs(): a vertex has no inputs of its own. */
  function InputsOf(n: Node): seq<nat>
  {
    match n
    case Vertex(_) => []
    case Filter(_, input) => [input]
    case Join(_, _, l, r, _) => [l, r]
    case Operator(inputs) => inputs
  }

  /** Every index a node refers to: its inputs, or the operator a vertex wraps. */
  function Links(n: Node): seq<nat>
  {
    if n.Vertex? then [n.current] else InputsOf(n)
  }

  /** The node with its `i`-th input replaced by `c` (RelNode.replaceInput). */
  function WithInput(n: Node, i: nat, c: nat): (r: Node)
    requires i < |InputsOf(n)|
    ensures InputsOf(r) == InputsOf(n)[i := c]
    ensures r.Filter? == n.Filter? && r.Join? == n.Join? && r.Operator? == n.Operator?
    ensures r.Filter? ==> r.condition == n.condition
    ensures r.Join? ==> r.joinType == n.joinType && r.condition == n.condition && r.semiJoinDone == n.semiJoinDone
  {
    match n
    case Filter(cond, _) => Filter(cond, c)
    case Join(t, cond, l, r, s) => if i == 0 then Join(t, cond, c, r, s) else Join(t, cond, l, c, s)
    case Operator(inputs) => Operator(inputs[i := c])
  }

  /**
   * The arena is a well-founded graph: every reference stays inside the
   * arena and points to a node of strictly smaller rank.
   */
  ghost predicate Ranked(g: seq<Node>, rank: seq<nat>)
  {
    && |rank| == |g|
    && forall i, k :: 0 <= i < |g| && 0 <= k < |Links(g[i])| ==>
         Links(g[i])[k] < |g| && rank[Links(g[i])[k]] < rank[i]
  }

  /** Looks through one vertex, as `collectFilterCondition` does before inspecting a node. */
  function Unwrap(g: seq<Node>, i: nat): nat
    requires i < |g|
  {
    if g[i].Vertex? then g[i].current else i
  }

  /**
   * The matched (parent, join) pair: `join` is a join operator and one of
   * `parent`'s inputs is that join or a vertex wrapping it.
   */
  ghost predicate IsMatch(g: seq<Node>, rank: seq<nat>, parent: nat, join: nat)
  {
    && Ranked(g, rank)
    && parent < |g| && join < |g|
    && g[join].Join?
    && exists k :: 0 <= k < |InputsOf(g[parent])| && InputsOf(g[parent])[k] < |g| && Unwrap(g, InputsOf(g[parent])[k]) == join
  }

  /** The inputs of the operator found at `i` (after unwrapping) all rank below `i`. */
  lemma UnwrappedInputsRankBelow(g: seq<Node>, rank: seq<nat>, i: nat)
    requires Ranked(g, rank) && i < |g|
    ensures Unwrap(g, i) < |g|
    ensures forall k :: 0 <= k < |InputsOf(g[Unwrap(g, i)])| ==>
              InputsOf(g[Unwrap(g, i)])[k] < |g| && rank[InputsOf(g[Unwrap(g, i)])[k]] < rank[i]
  {
    var cur := Unwrap(g, i);
    if g[i].Vertex? {
      assert Links(g[i])[0] == cur;
      forall k | 0 <= k < |InputsOf(g[cur])|
        ensures InputsOf(g[cur])[k] < |g| && rank[InputsOf(g[cur])[k]] < rank[i]
      {
        assert !g[cur].Vertex? && Links(g[cur])[k] == InputsOf(g[cur])[k];
      }
    } else {
      forall k | 0 <= k < |InputsOf(g[i])|
        ensures InputsOf(g[i])[k] < |g| && rank[InputsOf(g[i])[k]] < rank[i]
      {
        assert Links(g[i])[k] == InputsOf(g[i])[k];
      }
    }
  }

  lemma MatchRank(g: seq<Node>, rank: seq<nat>, parent: nat, join: nat)
    requires IsMatch(g, rank, parent, join)
    ensures rank[join] < rank[parent] && |InputsOf(g[parent])| > 0
  {
    var k :| 0 <= k < |InputsOf(g[parent])| && InputsOf(g[parent])[k] < |g| && Unwrap(g, InputsOf(g[parent])[k]) == join;
    assert !g[parent].Vertex?;
    assert Links(g[parent])[k] == InputsOf(g[parent])[k];
    var v := InputsOf(g[parent])[k];
    if g[v].Vertex? {
      assert Links(g[v])[0] == join;
    }
  }

  /**
   * The filter operators met by a depth-first, pre-order walk from node `i`
   * (`collectFilterCondition`): a vertex is unwrapped once, a filter is
   * recorded before its inputs are visited, inputs are visited in order.
   */
  ghost function Collect(g: seq<Node>, rank: seq<nat>, i: nat): seq<nat>
    requires Ranked(g, rank) && i < |g|
    decreases rank[i], 1
  {
    UnwrappedInputsRankBelow(g, rank, i);
    var cur := Unwrap(g, i);
    (if g[cur].Filter? then [cur] else []) + CollectInputs(g, rank, InputsOf(g[cur]), rank[i])
  }

  /** The walks from each of `ins`, concatenated in order. */
  ghost function CollectInputs(g: seq<Node>, rank: seq<nat>, ins: seq<nat>, bound: nat): seq<nat>
    requires Ranked(g, rank)
    requires forall k :: 0 <= k < |ins| ==> ins[k] < |g| && rank[ins[k]] < bound
    decreases bound, 0, |ins|
  {
    if ins == [] then []
    else CollectInputs(g, rank, ins[..|ins| - 1], bound) + Collect(g, rank, ins[|ins| - 1])
  }

  lemma CollectInputsSnoc(g: seq<Node>, rank: seq<nat>, ins: seq<nat>, k: nat, bound: nat)
    requires Ranked(g, rank) && k < |ins|
    requires forall m :: 0 <= m < |ins| ==> ins[m] < |g| && rank[ins[m]] < bound
    ensures CollectInputs(g, rank, ins[..k + 1], bound) == CollectInputs(g, rank, ins[..k], bound) + Collect(g, rank, ins[k])
  {
    assert ins[..k + 1][..k] == ins[..k];
  }

  // One step of the walk at a node with zero, one or two inputs.

  lemma CollectNoInputs(g: seq<Node>, rank: seq<nat>, i: nat)
    requires Ranked(g, rank) && i < |g|
    requires Unwrap(g, i) < |g| && InputsOf(g[Unwrap(g, i)]) == []
    ensures Collect(g, rank, i) == if g[Unwrap(g, i)].Filter? then [Unwrap(g, i)] else []
  {
  }

  lemma CollectOneInput(g: seq<Node>, rank: seq<nat>, i: nat, a: nat)
    requires Ranked(g, rank) && i < |g|
    requires Unwrap(g, i) < |g| && InputsOf(g[Unwrap(g, i)]) == [a] && a < |g|
    ensures Collect(g, rank, i) == (if g[Unwrap(g, i)].Filter? then [Unwrap(g, i)] else []) + Collect(g, rank, a)
  {
    UnwrappedInputsRankBelow(g, rank, i);
    assert [a][..0] == [];
    assert CollectInputs(g, rank, [a], rank[i]) == Collect(g, rank, a);
  }

  lemma CollectTwoInputs(g: seq<Node>, rank: seq<nat>, i: nat, a: nat, b: nat)
    requires Ranked(g, rank) && i < |g|
    requires Unwrap(g, i) < |g| && InputsOf(g[Unwrap(g, i)]) == [a, b] && a < |g| && b < |g|
    ensures Collect(g, rank, i) ==
              (if g[Unwrap(g, i)].Filter? then [Unwrap(g, i)] else []) + Collect(g, rank, a) + Collect(g, rank, b)
  {
    UnwrappedInputsRankBelow(g, rank, i);
    assert [a, b][..1] == [a] && [a][..0] == [];
    assert CollectInputs(g, rank, [a], rank[i]) == Collect(g, rank, a);
  }

  /** The walk only ever records filter operators of the plan. */
  lemma {:induction false} CollectYieldsFilters(g: seq<Node>, rank: seq<nat>, i: nat)
    requires Ranked(g, rank) && i < |g|
    ensures forall k :: 0 <= k < |Collect(g, rank, i)| ==>
              Collect(g, rank, i)[k] < |g| && g[Collect(g, rank, i)[k]].Filter?
    decreases rank[i], 1
  {
    UnwrappedInputsRankBelow(g, rank, i);
    var cur := Unwrap(g, i);
    CollectInputsYieldFilters(g, rank, InputsOf(g[cur]), rank[i]);
  }

  lemma {:induction false} CollectInputsYieldFilters(g: seq<Node>, rank: seq<nat>, ins: seq<nat>, bound: nat)
    requires Ranked(g, rank)
    requires forall k :: 0 <= k < |ins| ==> ins[k] < |g| && rank[ins[k]] < bound
    ensures forall k :: 0 <= k < |CollectInputs(g, rank, ins, bound)| ==>
              CollectInputs(g, rank, ins, bound)[k] < |g| && g[CollectInputs(g, rank, ins, bound)[k]].Filter?
    decreases bound, 0, |ins|
  {
    if ins != [] {
      CollectInputsYieldFilters(g, rank, ins[..|ins| - 1], bound);
      CollectYieldsFilters(g, rank, ins[|ins| - 1]);
    }
  }

  /**
   * Reference definition of reachability, independent of the walk: `x` is
   * the operator found at `i` (one vertex unwrapped), or is reached from
   * one of that operator's inputs.
   */
  ghost predicate Reaches(g: seq<Node>, rank: seq<nat>, i: nat, x: nat)
    requires Ranked(g, rank) && i < |g|
    decreases rank[i]
  {
    UnwrappedInputsRankBelow(g, rank, i);
    var cur := Unwrap(g, i);
    x == cur || exists k :: 0 <= k < |InputsOf(g[cur])| && Reaches(g, rank, InputsOf(g[cur])[k], x)
  }

  /** The walks from `ins`, concatenated, record exactly what the walk from some one of them records. */
  lemma {:induction false} CollectInputsIn(g: seq<Node>, rank: seq<nat>, ins: seq<nat>, bound: nat, x: nat)
    requires Ranked(g, rank)
    requires forall k :: 0 <= k < |ins| ==> ins[k] < |g| && rank[ins[k]] < bound
    ensures x in CollectInputs(g, rank, ins, bound) <==>
              exists k :: 0 <= k < |ins| && x in Collect(g, rank, ins[k])
    decreases |ins|
  {
    if ins != [] {
      var init := ins[..|ins| - 1];
      CollectInputsIn(g, rank, init, bound, x);
      if x in Collect(g, rank, ins[|ins| - 1]) {
        assert x in CollectInputs(g, rank, ins, bound);
      }
      if exists k :: 0 <= k < |init| && x in Collect(g, rank, init[k]) {
        var k :| 0 <= k < |init| && x in Collect(g, rank, init[k]);
        assert init[k] == ins[k];
      }
      if exists k :: 0 <= k < |ins| && x in Collect(g, rank, ins[k]) {
        var k :| 0 <= k < |ins| && x in Collect(g, rank, ins[k]);
        if k < |ins| - 1 {
          assert init[k] == ins[k];
        }
      }
    }
  }

  /**
   * The walk is complete and exact: it records a node iff the node is a
   * filter reachable from `i`.
   */
  lemma {:induction false} CollectComplete(g: seq<Node>, rank: seq<nat>, i: nat, x: nat)
    requires Ranked(g, rank) && i < |g|
    ensures x in Collect(g, rank, i) <==> x < |g| && g[x].Filter? && Reaches(g, rank, i, x)
    decreases rank[i]
  {
    UnwrappedInputsRankBelow(g, rank, i);
    CollectYieldsFilters(g, rank, i);
    var cur := Unwrap(g, i);
    var ins := InputsOf(g[cur]);
    CollectInputsIn(g, rank, ins, rank[i], x);
    forall k | 0 <= k < |ins|
      ensures x in Collect(g, rank, ins[k]) <==> x < |g| && g[x].Filter? && Reaches(g, rank, ins[k], x)
    {
      CollectComplete(g, rank, ins[k], x);
    }
    if x in Collect(g, rank, i) {
      assert x < |g| && g[x].Filter? by {
        var m :| 0 <= m < |Collect(g, rank, i)| && Collect(g, rank, i)[m] == x;
      }
    }
  }

  /** The plan under optimisation: its operators, the root, and a rank proving it acyclic. */
  class PlanGraph {
    var nodes: seq<Node>
    var root: nat
    ghost var rank: seq<nat>

    ghost predicate Valid()
      reads this
    {
      Ranked(nodes, rank) && root < |nodes|
    }

    constructor (nodes: seq<Node>, root: nat, ghost rank: seq<nat>)
      requires Ranked(nodes, rank) && root < |nodes|
      ensures Valid()
      ensures this.nodes == nodes && this.root == root && this.rank == rank
    {
      this.nodes := nodes;
      this.root := root;
      this.rank := rank;
    }

    /** Registers a new operator; everything it refers to must rank below `r`. */
    method Add(n: Node, ghost r: nat) returns (id: nat)
      requires Valid()
      requires forall k :: 0 <= k < |Links(n)| ==> Links(n)[k] < |nodes| && rank[Links(n)[k]] < r
      modifies this
      ensures Valid()
      ensures id == old(|nodes|) && nodes == old(nodes) + [n]
      ensures rank == old(rank) + [r] && root == old(root)
    {
      id := |nodes|;
      nodes := nodes + [n];
      rank := rank + [r];
    }

    /** RelNode.replaceInput: writes `c` into input slot `i` of node `p`; nothing else changes. */
    method ReplaceInput(p: nat, i: nat, c: nat)
      requires Valid()
      requires p < |nodes| && i < |InputsOf(nodes[p])| && c < |nodes| && rank[c] < rank[p]
      modifies this
      ensures Valid()
      ensures nodes == old(nodes)[p := WithInput(old(nodes)[p], i, c)]
      ensures rank == old(rank) && root == old(root)
    {
      var n := WithInput(nodes[p], i, c);
      assert !nodes[p].Vertex? && !n.Vertex?;
      assert Links(n) == Links(nodes[p])[i := c];
      nodes := nodes[p := n];
    }
  }
}

/**
 * The outer-join strengthening rule (OuterJoinOptViaNullRejectionRule):
 * for a matched (parent, join) pair it finds the join's equality columns,
 * scans every filter of the whole plan for predicates that reject NULLs on
 * them, and narrows FULL to LEFT or INNER and LEFT to INNER, splicing the
 * narrowed copy of the join into the parent's first input slot.
 */
module OuterJoinRule {
  import opened Wrappers
  import opened Rex
  import opened Plan
  import opened JoinAnalysis

  /** Where `onMatch` returns, and with what. */
  datatype Outcome =
    | Memoised              // the condition's printed form was already in the memo
    | NotACall              // the condition is not a call
    | NoJoinColumns         // no left or no right join column was found
    | NoFilters             // the plan holds no filter
    | Raised                // a candidate predicate had no first operand: the rule throws
    | NotNullRejected       // neither side is null-rejected
    | NoRewrite             // the decision table leaves this join type alone
    | Rewritten(newType: JoinType)

  /** The condition of each collected filter (LogicalFilter.getChildExps() is just the condition). */
  ghost function FilterConditions(g: seq<Node>, fs: seq<nat>): seq<Expr>
    requires forall k :: 0 <= k < |fs| ==> fs[k] < |g| && g[fs[k]].Filter?
  {
    seq(|fs|, k requires 0 <= k < |fs| => g[fs[k]].condition)
  }

  /** The conditions of all filters of the plan, in the order the walk from the root meets them. */
  ghost function PlanFilterConditions(g: seq<Node>, rank: seq<nat>, root: nat): seq<Expr>
    requires Ranked(g, rank) && root < |g|
  {
    CollectYieldsFilters(g, rank, root);
    FilterConditions(g, Collect(g, rank, root))
  }

  /** What `onMatch` concludes for a join not yet memoised, in plan `g` rooted at `root`. */
  ghost function Analysis(g: seq<Node>, rank: seq<nat>, root: nat, join: Node): (r: Outcome)
    requires Ranked(g, rank) && root < |g| && join.Join?
    ensures r.Rewritten? ==> Narrower(r.newType, join.joinType)
  {
    var cond := join.condition;
    if !cond.Call? then NotACall
    else
      var cols := JoinColumns(cond);
      if cols.left == {} || cols.right == {} then NoJoinColumns
      else
        if Collect(g, rank, root) == [] then NoFilters
        else
          match NullRejectedColumns(PlanFilterConditions(g, rank, root), cols)
          case None => Raised
          case Some(nr) =>
            var l := LeftNullRejected(cols, nr);
            var r := RightNullRejected(cols, nr);
            if !l && !r then NotNullRejected
            else
              match Strengthen(join.joinType, l, r)
              case None => NoRewrite
              case Some(u) => Rewritten(u)
  }

  /**
   * A rewrite is justified by the plan: the join condition equates a column
   * pair, and some filter anywhere in the plan rejects NULLs on a join column
   * of the side the new type drops the NULL padding of.
   */
  lemma RewriteJustified(g: seq<Node>, rank: seq<nat>, root: nat, join: Node)
    requires Ranked(g, rank) && root < |g| && join.Join?
    requires Analysis(g, rank, root, join).Rewritten?
    ensures var u := Analysis(g, rank, root, join).newType;
            var cols := JoinColumns(join.condition);
            var es := Candidates(PlanFilterConditions(g, rank, root));
            && ((join.joinType == Full && (u == Left || u == Inner)) || (join.joinType == Left && u == Inner))
            && (join.joinType == Full ==>
                  exists col, e :: col in cols.left && col !in cols.right && e in es && RejectsNullOn(e, col))
            && (u == Inner ==>
                  exists col, e :: col in cols.right && col !in cols.left && e in es && RejectsNullOn(e, col))
  {
    var cols := JoinColumns(join.condition);
    var conds := PlanFilterConditions(g, rank, root);
    SideFlagsCharacterised(conds, cols);
  }

  /** With no left or no right join column, the rule never rewrites. */
  lemma NoJoinColumnsNoRewrite(g: seq<Node>, rank: seq<nat>, root: nat, join: Node)
    requires Ranked(g, rank) && root < |g| && join.Join?
    requires JoinColumns(join.condition).left == {} || JoinColumns(join.condition).right == {}
    ensures !Analysis(g, rank, root, join).Rewritten?
  {
  }

  class OuterJoinOptViaNullRejectionRule {
    /** Printed forms of the join conditions already examined (a static field in the source). */
    var visitedJoinMemo: set<string>

    constructor ()
      ensures visitedJoinMemo == {}
    {
      visitedJoinMemo := {};
    }

    method ClearMemo()
      modifies this
      ensures visitedJoinMemo == {}
    {
      visitedJoinMemo := {};
    }

    /** `collectFilterCondition`: appends to `collected` the filters met walking from `curNode`. */
    method CollectFilterCondition(plan: PlanGraph, curNode: nat, collected: seq<nat>) returns (out: seq<nat>)
      requires plan.Valid() && curNode < |plan.nodes|
      ensures out == collected + Collect(plan.nodes, plan.rank, curNode)
      decreases plan.rank[curNode]
    {
      ghost var g, rank := plan.nodes, plan.rank;
      UnwrappedInputsRankBelow(g, rank, curNode);
      var cur := curNode;
      if plan.nodes[cur].Vertex? {
        cur := plan.nodes[cur].current;
      }
      assert cur == Unwrap(g, curNode);
      out := collected;
      if plan.nodes[cur].Filter? {
        out := out + [cur];
      }
      ghost var self := if g[cur].Filter? then [cur] else [];
      ghost var bound := rank[curNode];
      var ins := InputsOf(plan.nodes[cur]);
      assert Collect(g, rank, curNode) == self + CollectInputs(g, rank, ins, bound);
      AppendAssoc(collected, self, CollectInputs(g, rank, ins, bound));
      if |ins| == 0 {
        return;
      }
      assert ins[..0] == [];
      for k := 0 to |ins|
        invariant out == collected + self + CollectInputs(g, rank, ins[..k], bound)
      {
        CollectInputsSnoc(g, rank, ins, k, bound);
        AppendAssoc(collected + self, CollectInputs(g, rank, ins[..k], bound), Collect(g, rank, ins[k]));
        out := CollectFilterCondition(plan, ins[k], out);
      }
      assert ins[..|ins|] == ins;
    }

    /**
     * The join columns of `onMatch`: `addJoinCols` on a top-level `=`, or on
     * each call among the immediate operands of a top-level AND/OR.
     */
    method ExtractJoinColumns(joinCond: Expr) returns (cols: ColumnSets)
      requires joinCond.Call?
      ensures cols == JoinColumns(joinCond)
    {
      cols := NoColumns;
      if joinCond.kind == Equals {
        assert JoinCandidates(joinCond) == [joinCond] && [joinCond][..0] == [];
        cols := AddJoinCols(joinCond, cols);
        assert cols == FoldJoinCols([joinCond]);
      }
      if joinCond.kind == And || joinCond.kind == Or {
        var ops := joinCond.operands;
        assert JoinCandidates(joinCond) == ops && ops[..0] == [];
        for i := 0 to |ops|
          invariant cols == FoldJoinCols(ops[..i])
        {
          assert ops[..i + 1][..i] == ops[..i];
          cols := AddJoinCols(ops[i], cols);
        }
        assert ops[..|ops|] == ops;
      }
      assert joinCond.kind !in {Equals, And, Or} ==> JoinCandidates(joinCond) == [];
    }

    /**
     * The classification loop of `onMatch`: `addNullRejectedJoinCols` on the
     * candidates of every collected filter in turn; `None` when it throws.
     */
    method ClassifyFilters(plan: PlanGraph, filters: seq<nat>, cols: ColumnSets) returns (r: Option<ColumnSets>)
      requires forall k :: 0 <= k < |filters| ==> filters[k] < |plan.nodes| && plan.nodes[filters[k]].Filter?
      ensures r == NullRejectedColumns(FilterConditions(plan.nodes, filters), cols)
    {
      ghost var conds := FilterConditions(plan.nodes, filters);
      var rejected := NoColumns;
      assert conds[..0] == [];
      for i := 0 to |filters|
        invariant FoldNullRejected(Candidates(conds[..i]), cols) == Some(rejected)
      {
        var es := FilterCandidates(plan.nodes[filters[i]].condition);
        ghost var done := Candidates(conds[..i]);
        assert conds[i] == plan.nodes[filters[i]].condition;
        CandidatesSnoc(conds, i);
        assert es[..0] == [] && done + es[..0] == done;
        for k := 0 to |es|
          invariant FoldNullRejected(done + es[..k], cols) == Some(rejected)
        {
          FoldNullRejectedSnoc(done, es, k, cols);
          var step := AddNullRejectedJoinCols(es[k], cols, rejected);
          if step.None? {
            CandidatesContain(conds, i, k);
            NullRejectedColumnsFails(conds, cols);
            return None;
          }
          rejected := step.value;
        }
        assert es[..|es|] == es;
      }
      assert conds[..|filters|] == conds;
      return Some(rejected);
    }

    /**
     * The body of `onMatch` after the memo check, up to the choice of the new
     * join type: it reads the plan and changes nothing.
     */
    method Analyse(plan: PlanGraph, join: nat) returns (outcome: Outcome)
      requires plan.Valid() && join < |plan.nodes| && plan.nodes[join].Join?
      ensures outcome == Analysis(plan.nodes, plan.rank, plan.root, plan.nodes[join])
    {
      ghost var g, rank, root := plan.nodes, plan.rank, plan.root;
      var j := plan.nodes[join];
      if !j.condition.Call? {
        return NotACall;
      }
      var joinCond := j.condition;

      var cols := ExtractJoinColumns(joinCond);
      if cols.left == {} || cols.right == {} {
        return NoJoinColumns;
      }

      var filters := CollectFilterCondition(plan, plan.root, []);
      assert filters == Collect(g, rank, root);
      if |filters| == 0 {
        return NoFilters;
      }

      CollectYieldsFilters(g, rank, root);
      var classified := ClassifyFilters(plan, filters, cols);
      assert classified == NullRejectedColumns(PlanFilterConditions(g, rank, root), cols);
      if classified.None? {
        return Raised;
      }
      var rejected := classified.value;
      var leftNullRejected := rejected.left != {} && rejected.left <= cols.left;
      var rightNullRejected := rejected.right != {} && rejected.right <= cols.right;
      if !leftNullRejected && !rightNullRejected {
        return NotNullRejected;
      }

      var newType := Strengthen(j.joinType, leftNullRejected, rightNullRejected);
      if newType.None? {
        return NoRewrite;
      }
      return Rewritten(newType.value);
    }

    /**
     * `onMatch` for the pair (`parent`, `join`) in `plan`: memoises the
     * condition, and when the analysis narrows the join, appends a copy of
     * it with only the type changed and writes that copy into the parent's
     * input slot 0, whichever slot the join was in.
     */
    method OnMatch(plan: PlanGraph, parent: nat, join: nat) returns (outcome: Outcome)
      requires plan.Valid() && IsMatch(plan.nodes, plan.rank, parent, join)
      modifies this, plan
      ensures plan.Valid() && plan.root == old(plan.root)
      ensures var sig := Digest(old(plan.nodes[join]).condition);
              if sig in old(visitedJoinMemo) then
                outcome == Memoised && visitedJoinMemo == old(visitedJoinMemo)
              else
                && visitedJoinMemo == old(visitedJoinMemo) + {sig}
                && outcome == Analysis(old(plan.nodes), old(plan.rank), old(plan.root), old(plan.nodes[join]))
      ensures !outcome.Rewritten? ==> plan.nodes == old(plan.nodes)
      ensures outcome.Rewritten? ==>
                var copy := old(plan.nodes[join]).(joinType := outcome.newType);
                plan.nodes == (old(plan.nodes) + [copy])[parent := WithInput(old(plan.nodes[parent]), 0, |old(plan.nodes)|)]
    {
      var j := plan.nodes[join];
      var condString := Digest(j.condition);
      if condString in visitedJoinMemo {
        return Memoised;
      }
      visitedJoinMemo := visitedJoinMemo + {condString};
      outcome := Analyse(plan, join);
      if outcome.Rewritten? {
        MatchRank(plan.nodes, plan.rank, parent, join);
        var newJoin := j.(joinType := outcome.newType);
        assert Links(newJoin) == Links(j);
        var id := plan.Add(newJoin, plan.rank[join]);
        plan.ReplaceInput(parent, 0, id);
      }
    }
  }

  lemma AppendAssoc<T>(a: seq<T>, b: seq<T>, c: seq<T>)
    ensures a + b + c == a + (b + c)
  {
  }

  lemma CandidatesSnoc(conds: seq<Expr>, i: nat)
    requires i < |conds|
    ensures Candidates(conds[..i + 1]) == Candidates(conds[..i]) + FilterCandidates(conds[i])
  {
    assert conds[..i + 1][..i] == conds[..i];
  }

  lemma FoldNullRejectedSnoc(done: seq<Expr>, es: seq<Expr>, k: nat, jc: ColumnSets)
    requires k < |es|
    ensures FoldNullRejected(done + es[..k + 1], jc) ==
              match FoldNullRejected(done + es[..k], jc)
              case None => None
              case Some(acc) => AddNullRejectedJoinCols(es[k], jc, acc)
  {
    assert (done + es[..k + 1])[..|done| + k] == done + es[..k];
  }

  /** Every candidate of the `i`-th filter condition is among the candidates of all of them. */
  lemma CandidatesContain(conds: seq<Expr>, i: nat, k: nat)
    requires i < |conds| && k < |FilterCandidates(conds[i])|
    ensures FilterCandidates(conds[i])[k] in Candidates(conds)
  {
    if i < |conds| - 1 {
      assert conds[..|conds| - 1][i] == conds[i];
      CandidatesContain(conds[..|conds| - 1], i, k);
    }
  }
}

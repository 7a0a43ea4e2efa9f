/**
 * The three rewrites the rule's own header comment describes, over tables
 * foo(a, b) and bar(c, d): in the join's output a, b, c, d are columns
 * $0, $1, $2, $3 and the join condition is `a = c`, i.e. `=($0, $2)`.
 *
 * The plan is Project <- Filter <- Join(foo, bar), every input reached
 * through a vertex, as the heuristic planner holds it.
 */
module RuleScenarios {
  import opened Wrappers
  import opened Rex
  import opened Plan
  import opened JoinAnalysis
  import opened OuterJoinRule

  const AEqualsC := Call(Equals, [InputRef(0), InputRef(2)])
  const ANotNull := Call(IsNotNull, [InputRef(0)])
  const CNotNull := Call(IsNotNull, [InputRef(2)])

  /** Project over Filter(where) over a join of type `t` on `a = c`; the join is node 5, its parent the filter at 3. */
  function FooBarPlan(t: JoinType, where: Expr): seq<Node>
  {
    [ Vertex(1), Operator([2]),                 // root vertex, projection
      Vertex(3), Filter(where, 4),              // the WHERE clause
      Vertex(5), Join(t, AEqualsC, 6, 8, false),
      Vertex(7), Operator([]),                  // scan of foo
      Vertex(9), Operator([]) ]                 // scan of bar
  }

  /** Every node ranks above the nodes after it. */
  const FooBarRank: seq<nat> := [9, 8, 7, 6, 5, 4, 3, 2, 1, 0]

  lemma FooBarPlanRanked(t: JoinType, where: Expr)
    ensures Ranked(FooBarPlan(t, where), FooBarRank)
    ensures IsMatch(FooBarPlan(t, where), FooBarRank, 3, 5)
  {
    var g := FooBarPlan(t, where);
    assert InputsOf(g[3])[0] == 4 && Unwrap(g, 4) == 5;
  }

  /** Below the join there is no filter. */
  lemma FooBarJoinUnfiltered(t: JoinType, where: Expr)
    ensures Ranked(FooBarPlan(t, where), FooBarRank)
    ensures Collect(FooBarPlan(t, where), FooBarRank, 4) == []
  {
    FooBarPlanRanked(t, where);
    var g, rank := FooBarPlan(t, where), FooBarRank;
    CollectNoInputs(g, rank, 6);
    CollectNoInputs(g, rank, 8);
    CollectTwoInputs(g, rank, 4, 6, 8);
  }

  /** The walk from the root meets exactly the one filter. */
  lemma FooBarWalk(t: JoinType, where: Expr)
    ensures Ranked(FooBarPlan(t, where), FooBarRank)
    ensures Collect(FooBarPlan(t, where), FooBarRank, 0) == [3]
  {
    FooBarJoinUnfiltered(t, where);
    var g, rank := FooBarPlan(t, where), FooBarRank;
    CollectOneInput(g, rank, 2, 4);
    CollectOneInput(g, rank, 0, 2);
  }

  /** The filter conditions of the plan are its one WHERE clause. */
  lemma FooBarFilters(t: JoinType, where: Expr)
    ensures Ranked(FooBarPlan(t, where), FooBarRank)
    ensures Collect(FooBarPlan(t, where), FooBarRank, 0) == [3]
    ensures PlanFilterConditions(FooBarPlan(t, where), FooBarRank, 0) == [where]
  {
    FooBarWalk(t, where);
    SingleFilterConditions(FooBarPlan(t, where), FooBarRank, 0, 3);
  }

  /** A plan whose walk meets one filter has that filter's condition as its only one. */
  lemma SingleFilterConditions(g: seq<Node>, rank: seq<nat>, root: nat, f: nat)
    requires Ranked(g, rank) && root < |g| && Collect(g, rank, root) == [f]
    ensures f < |g| && g[f].Filter?
    ensures PlanFilterConditions(g, rank, root) == [g[f].condition]
  {
    CollectYieldsFilters(g, rank, root);
    assert Collect(g, rank, root)[0] == f;
  }

  lemma JoinColumnsAEqualsC()
    ensures JoinColumns(AEqualsC) == ColumnSets({0}, {2})
  {
    assert JoinCandidates(AEqualsC) == [AEqualsC];
    assert [AEqualsC][..0] == [];
  }

  /** On the foo/bar plan the analysis comes down to classifying the one WHERE clause. */
  lemma FooBarAnalysis(t: JoinType, where: Expr, nr: ColumnSets)
    requires NullRejectedColumns([where], ColumnSets({0}, {2})) == Some(nr)
    ensures Ranked(FooBarPlan(t, where), FooBarRank)
    ensures var l := LeftNullRejected(ColumnSets({0}, {2}), nr);
            var r := RightNullRejected(ColumnSets({0}, {2}), nr);
            Analysis(FooBarPlan(t, where), FooBarRank, 0, FooBarPlan(t, where)[5]) ==
              if !l && !r then NotNullRejected
              else match Strengthen(t, l, r)
                   case None => NoRewrite
                   case Some(u) => Rewritten(u)
  {
    FooBarFilters(t, where);
    JoinColumnsAEqualsC();
    assert FooBarPlan(t, where)[5] == Join(t, AEqualsC, 6, 8, false);
  }

  /** 1. `foo FULL JOIN bar ON a = c WHERE a IS NOT NULL` becomes a LEFT join. */
  lemma FullToLeft()
    ensures Ranked(FooBarPlan(Full, ANotNull), FooBarRank)
    ensures Analysis(FooBarPlan(Full, ANotNull), FooBarRank, 0, FooBarPlan(Full, ANotNull)[5]) == Rewritten(Left)
  {
    assert NullRejectedColumns([ANotNull], ColumnSets({0}, {2})) == Some(ColumnSets({0}, {})) by {
      SingleCandidate(ANotNull, ColumnSets({0}, {2}));
      assert {} + {0} == {0};
    }
    FooBarAnalysis(Full, ANotNull, ColumnSets({0}, {}));
  }

  /** 2. Adding `AND c IS NOT NULL` makes it an INNER join. */
  lemma FullToInner()
    ensures Ranked(FooBarPlan(Full, Call(And, [ANotNull, CNotNull])), FooBarRank)
    ensures Analysis(FooBarPlan(Full, Call(And, [ANotNull, CNotNull])), FooBarRank, 0,
                     FooBarPlan(Full, Call(And, [ANotNull, CNotNull]))[5]) == Rewritten(Inner)
  {
    var where := Call(And, [ANotNull, CNotNull]);
    assert NullRejectedColumns([where], ColumnSets({0}, {2})) == Some(ColumnSets({0}, {2})) by {
      var jc := ColumnSets({0}, {2});
      assert Candidates([where]) == [ANotNull, CNotNull] by { assert [where][..0] == []; }
      assert FoldNullRejected([ANotNull], jc) == Some(ColumnSets({0}, {})) by {
        assert [ANotNull][..0] == [];
        assert {} + {0} == {0};
      }
      assert FoldNullRejected([ANotNull, CNotNull], jc) == AddNullRejectedJoinCols(CNotNull, jc, ColumnSets({0}, {})) by {
        assert [ANotNull, CNotNull][..1] == [ANotNull];
      }
      assert {} + {2} == {2};
    }
    FooBarAnalysis(Full, where, ColumnSets({0}, {2}));
  }

  /** 3. `foo LEFT JOIN bar ON a = c WHERE c IS NOT NULL` becomes an INNER join. */
  lemma LeftToInner()
    ensures Ranked(FooBarPlan(Left, CNotNull), FooBarRank)
    ensures Analysis(FooBarPlan(Left, CNotNull), FooBarRank, 0, FooBarPlan(Left, CNotNull)[5]) == Rewritten(Inner)
  {
    assert NullRejectedColumns([CNotNull], ColumnSets({0}, {2})) == Some(ColumnSets({}, {2})) by {
      SingleCandidate(CNotNull, ColumnSets({0}, {2}));
      assert {} + {2} == {2};
    }
    FooBarAnalysis(Left, CNotNull, ColumnSets({}, {2}));
  }

  /** A single filter condition that is not an AND/OR is classified on its own. */
  lemma SingleCandidate(e: Expr, jc: ColumnSets)
    requires !(e.Call? && (e.kind == And || e.kind == Or))
    ensures NullRejectedColumns([e], jc) == AddNullRejectedJoinCols(e, jc, NoColumns)
  {
    assert [e][..0] == [];
    assert Candidates([e]) == [e];
    assert FoldNullRejected([e], jc) == AddNullRejectedJoinCols(e, jc, NoColumns);
  }

  /** The plan after scenario 1: the LEFT copy appended as node 10 and made the filter's input. */
  lemma RewrittenFooBarMatches()
    ensures var g := FooBarPlan(Full, ANotNull);
            var copy := g[5].(joinType := Left);
            var h := (g + [copy])[3 := WithInput(g[3], 0, |g|)];
            && copy == Join(Left, AEqualsC, 6, 8, false)
            && IsMatch(h, FooBarRank + [FooBarRank[5]], 3, 10)
  {
    var g := FooBarPlan(Full, ANotNull);
    FooBarPlanRanked(Full, ANotNull);
    var h := (g + [g[5].(joinType := Left)])[3 := WithInput(g[3], 0, |g|)];
    assert h[3] == Filter(ANotNull, 10);
    assert InputsOf(h[3])[0] == 10 && Unwrap(h, 10) == 10;
  }

  /**
   * Runs the rule on scenario 1 twice: the first call rewrites the join and
   * splices the LEFT copy into the filter; the second, on the copy, finds
   * its condition memoised.
   */
  method MemoSkipsRepeat() returns (first: Outcome, second: Outcome)
    ensures first == Rewritten(Left) && second == Memoised
  {
    FooBarPlanRanked(Full, ANotNull);
    var plan := new PlanGraph(FooBarPlan(Full, ANotNull), 0, FooBarRank);
    var rule := new OuterJoinOptViaNullRejectionRule();
    FullToLeft();
    first := rule.OnMatch(plan, 3, 5);
    RewrittenFooBarMatches();
    second := rule.OnMatch(plan, 3, 10);
  }

  /**
   * Once the memo is cleared, a join with a condition seen before (`a = c`,
   * here in a second plan) is analysed again rather than skipped.
   */
  method ClearedMemoReanalyses() returns (first: Outcome, second: Outcome)
    ensures first == Rewritten(Inner) && second == Rewritten(Left)
  {
    FooBarPlanRanked(Left, CNotNull);
    var plan := new PlanGraph(FooBarPlan(Left, CNotNull), 0, FooBarRank);
    var rule := new OuterJoinOptViaNullRejectionRule();
    LeftToInner();
    first := rule.OnMatch(plan, 3, 5);
    rule.ClearMemo();
    FullToLeft();
    var other := new PlanGraph(FooBarPlan(Full, ANotNull), 0, FooBarRank);
    FooBarPlanRanked(Full, ANotNull);
    second := rule.OnMatch(other, 3, 5);
  }

  /**
   * The filter scan covers the whole plan: a filter on a branch beside the
   * join, which never sees the join's rows, still narrows the join. The
   * plan is an operator over `Filter(a IS NOT NULL)` on one scan and the
   * FULL join of two scans.
   */
  function SideBranchPlan(): seq<Node>
  {
    [ Operator([1, 3]),
      Filter(ANotNull, 2), Operator([]),
      Join(Full, AEqualsC, 4, 5, false), Operator([]), Operator([]) ]
  }

  const SideBranchRank: seq<nat> := [5, 4, 3, 2, 1, 0]

  lemma SideBranchRanked()
    ensures Ranked(SideBranchPlan(), SideBranchRank)
  {
  }

  /** The walk from the root meets the filter on the side branch, and only it. */
  lemma SideBranchWalk()
    ensures Ranked(SideBranchPlan(), SideBranchRank)
    ensures Collect(SideBranchPlan(), SideBranchRank, 0) == [1]
  {
    SideBranchRanked();
    var g, rank := SideBranchPlan(), SideBranchRank;
    CollectNoInputs(g, rank, 2);
    CollectNoInputs(g, rank, 4);
    CollectNoInputs(g, rank, 5);
    CollectOneInput(g, rank, 1, 2);
    CollectTwoInputs(g, rank, 3, 4, 5);
    CollectTwoInputs(g, rank, 0, 1, 3);
  }

  lemma SideBranchFilters()
    ensures Ranked(SideBranchPlan(), SideBranchRank)
    ensures PlanFilterConditions(SideBranchPlan(), SideBranchRank, 0) == [ANotNull]
  {
    SideBranchWalk();
    SingleFilterConditions(SideBranchPlan(), SideBranchRank, 0, 1);
  }

  /** The filter is not below the join. */
  lemma SideBranchFilterNotBelowJoin()
    ensures Ranked(SideBranchPlan(), SideBranchRank)
    ensures !Reaches(SideBranchPlan(), SideBranchRank, 3, 1)
  {
    SideBranchRanked();
    var g, rank := SideBranchPlan(), SideBranchRank;
    assert !Reaches(g, rank, 4, 1) && !Reaches(g, rank, 5, 1);
  }

  /** The join is narrowed to LEFT by a filter that never sees its rows. */
  lemma SideBranchFilterNarrowsJoin()
    ensures Ranked(SideBranchPlan(), SideBranchRank)
    ensures !Reaches(SideBranchPlan(), SideBranchRank, 3, 1)
    ensures Analysis(SideBranchPlan(), SideBranchRank, 0, SideBranchPlan()[3]) == Rewritten(Left)
  {
    SideBranchFilters();
    SideBranchFilterNotBelowJoin();
    JoinColumnsAEqualsC();
    assert SideBranchPlan()[3] == Join(Full, AEqualsC, 4, 5, false);
    assert NullRejectedColumns([ANotNull], ColumnSets({0}, {2})) == Some(ColumnSets({0}, {})) by {
      SingleCandidate(ANotNull, ColumnSets({0}, {2}));
      assert {} + {0} == {0};
    }
  }
}

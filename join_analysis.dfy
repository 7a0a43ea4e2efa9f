/**
 * The analysis half of the outer-join strengthening rule: which columns a
 * join condition equates, which of them the plan's filters reject NULLs on,
 * and the join type that the two null-rejection flags allow.
 */
module JoinAnalysis {
  import opened Wrappers
  import opened Rex
  import opened Plan

  /** A pair of column-index sets, one per join side. */
  datatype ColumnSets = ColumnSets(left: set<nat>, right: set<nat>)

  const NoColumns := ColumnSets({}, {})

  // ---------------------------------------------------------------------
  // Join columns
  // ---------------------------------------------------------------------

  /** A call with exactly two operands, both column references (the operator is not looked at). */
  predicate IsColumnPair(e: Expr)
  {
    e.Call? && |e.operands| == 2 && e.operands[0].InputRef? && e.operands[1].InputRef?
  }

  /** `addJoinCols`: a column pair adds its first column to the left set and its second to the right set. */
  function AddJoinCols(e: Expr, cols: ColumnSets): ColumnSets
  {
    if IsColumnPair(e) then
      ColumnSets(cols.left + {e.operands[0].index}, cols.right + {e.operands[1].index})
    else
      cols
  }

  /** The calls `addJoinCols` is applied to: a top-level `=` itself, or the immediate operands of a top-level AND/OR. */
  function JoinCandidates(cond: Expr): seq<Expr>
  {
    if cond.Call? && cond.kind == Equals then [cond]
    else if cond.Call? && (cond.kind == And || cond.kind == Or) then cond.operands
    else []
  }

  /** `addJoinCols` applied to `es` in order, starting from two empty sets. */
  function FoldJoinCols(es: seq<Expr>): ColumnSets
  {
    if es == [] then NoColumns else AddJoinCols(es[|es| - 1], FoldJoinCols(es[..|es| - 1]))
  }

  function JoinColumns(cond: Expr): ColumnSets
  {
    FoldJoinCols(JoinCandidates(cond))
  }

  lemma {:induction false} FoldJoinColsCharacterised(es: seq<Expr>)
    ensures FoldJoinCols(es).left == set e | e in es && IsColumnPair(e) :: e.operands[0].index
    ensures FoldJoinCols(es).right == set e | e in es && IsColumnPair(e) :: e.operands[1].index
  {
    if es != [] {
      var init, last := es[..|es| - 1], es[|es| - 1];
      FoldJoinColsCharacterised(init);
      assert es == init + [last];
      assert forall e :: e in es <==> e in init || e == last;
    }
  }

  /**
   * A column is a left (right) join column exactly when it is the first
   * (second) operand of a two-column call among the join candidates.
   */
  lemma JoinColumnsCharacterised(cond: Expr, x: nat)
    ensures x in JoinColumns(cond).left <==>
              exists e :: e in JoinCandidates(cond) && IsColumnPair(e) && e.operands[0] == InputRef(x)
    ensures x in JoinColumns(cond).right <==>
              exists e :: e in JoinCandidates(cond) && IsColumnPair(e) && e.operands[1] == InputRef(x)
  {
    FoldJoinColsCharacterised(JoinCandidates(cond));
  }

  /** Only one level of AND/OR is looked into: an equality under a nested AND contributes nothing. */
  lemma NestedConjunctionIgnored(a: nat, b: nat)
    ensures JoinColumns(Call(And, [Call(And, [Call(Equals, [InputRef(a), InputRef(b)])])])) == NoColumns
  {
    var inner := Call(And, [Call(Equals, [InputRef(a), InputRef(b)])]);
    assert JoinCandidates(Call(And, [inner])) == [inner];
    assert [inner][..0] == [];
    assert !IsColumnPair(inner);
    assert FoldJoinCols([inner]) == AddJoinCols(inner, FoldJoinCols([]));
  }

  // ---------------------------------------------------------------------
  // Null-rejected join columns
  // ---------------------------------------------------------------------

  /** `e` is a call other than IS NULL whose first operand is column `col`. */
  predicate RejectsNullOn(e: Expr, col: nat)
  {
    e.Call? && e.kind != IsNull && |e.operands| > 0 && e.operands[0] == InputRef(col)
  }

  /** `e` makes `getOperands().get(0)` throw: a call other than IS NULL with no operands. */
  predicate FailsOnFirstOperand(e: Expr)
  {
    e.Call? && e.kind != IsNull && |e.operands| == 0
  }

  /**
   * `addNullRejectedJoinCols` on one candidate, adding to `acc`; `None`
   * stands for the exception thrown when the candidate has no first operand.
   */
  function AddNullRejectedJoinCols(e: Expr, jc: ColumnSets, acc: ColumnSets): Option<ColumnSets>
  {
    if !e.Call? || e.kind == IsNull then Some(acc)
    else if |e.operands| == 0 then None
    else if !e.operands[0].InputRef? then Some(acc)
    else
      var col := e.operands[0].index;
      var l := col in jc.left;
      var r := col in jc.right;
      if l && !r then Some(ColumnSets(acc.left + {col}, acc.right))
      else if r && !l then Some(ColumnSets(acc.left, acc.right + {col}))
      else Some(acc)
  }

  /**
   * One candidate throws exactly when it has no first operand; otherwise it
   * adds to each side exactly the join columns of that side only that it
   * rejects NULLs on.
   */
  lemma AddNullRejectedJoinColsCharacterised(e: Expr, jc: ColumnSets, acc: ColumnSets)
    ensures AddNullRejectedJoinCols(e, jc, acc).None? <==> FailsOnFirstOperand(e)
    ensures AddNullRejectedJoinCols(e, jc, acc).Some? ==>
              && AddNullRejectedJoinCols(e, jc, acc).value.left ==
                   acc.left + (set c | c in jc.left && c !in jc.right && RejectsNullOn(e, c))
              && AddNullRejectedJoinCols(e, jc, acc).value.right ==
                   acc.right + (set c | c in jc.right && c !in jc.left && RejectsNullOn(e, c))
  {
  }

  /** The expressions classified for one filter condition: the operands of a top-level AND/OR, or the condition itself. */
  function FilterCandidates(cond: Expr): seq<Expr>
  {
    if cond.Call? && (cond.kind == And || cond.kind == Or) then cond.operands else [cond]
  }

  /** The candidates of every filter condition, filter by filter. */
  function Candidates(conds: seq<Expr>): seq<Expr>
  {
    if conds == [] then [] else Candidates(conds[..|conds| - 1]) + FilterCandidates(conds[|conds| - 1])
  }

  /** `addNullRejectedJoinCols` applied to `es` in order from empty sets, stopping at the first exception. */
  function FoldNullRejected(es: seq<Expr>, jc: ColumnSets): Option<ColumnSets>
  {
    if es == [] then Some(NoColumns)
    else
      match FoldNullRejected(es[..|es| - 1], jc)
      case None => None
      case Some(acc) => AddNullRejectedJoinCols(es[|es| - 1], jc, acc)
  }

  function NullRejectedColumns(conds: seq<Expr>, jc: ColumnSets): Option<ColumnSets>
  {
    FoldNullRejected(Candidates(conds), jc)
  }

  /**
   * Reference definition: a column is null-rejected on one side when it is a
   * join column of that side only and some candidate rejects NULLs on it.
   */
  function RejectedBy(es: seq<Expr>, jc: ColumnSets): ColumnSets
  {
    ColumnSets(
      set col | col in jc.left && col !in jc.right && RejectedIn(es, col),
      set col | col in jc.right && col !in jc.left && RejectedIn(es, col))
  }

  /** Some expression of `es` rejects NULLs on `col`. */
  predicate RejectedIn(es: seq<Expr>, col: nat)
  {
    exists e :: e in es && RejectsNullOn(e, col)
  }

  lemma RejectedInSnoc(init: seq<Expr>, last: Expr, col: nat)
    ensures RejectedIn(init + [last], col) <==> RejectedIn(init, col) || RejectsNullOn(last, col)
  {
    if RejectedIn(init + [last], col) {
      var e :| e in init + [last] && RejectsNullOn(e, col);
      if e != last { assert e in init; }
    }
    if RejectedIn(init, col) {
      var e :| e in init && RejectsNullOn(e, col);
      assert e in init + [last];
    }
    if RejectsNullOn(last, col) {
      assert last in init + [last];
    }
  }

  lemma {:induction false} FoldNullRejectedCharacterised(es: seq<Expr>, jc: ColumnSets)
    ensures FoldNullRejected(es, jc).None? <==> exists e :: e in es && FailsOnFirstOperand(e)
    ensures FoldNullRejected(es, jc).Some? ==> FoldNullRejected(es, jc).value == RejectedBy(es, jc)
  {
    if es != [] {
      var init, last := es[..|es| - 1], es[|es| - 1];
      FoldNullRejectedCharacterised(init, jc);
      assert es == init + [last];
      assert forall e :: e in es <==> e in init || e == last;
      if FoldNullRejected(init, jc).Some? && !FailsOnFirstOperand(last) {
        var acc := RejectedBy(init, jc);
        var want := RejectedBy(es, jc);
        assert FoldNullRejected(es, jc) == AddNullRejectedJoinCols(last, jc, acc);
        forall col | true
          ensures RejectedIn(es, col) <==> RejectedIn(init, col) || RejectsNullOn(last, col)
        {
          RejectedInSnoc(init, last, col);
        }
        if last.Call? && last.kind != IsNull && last.operands[0].InputRef? {
          var c := last.operands[0].index;
          if c in jc.left && c !in jc.right {
            assert want.left == acc.left + {c};
            assert want.right == acc.right;
          } else if c in jc.right && c !in jc.left {
            assert want.left == acc.left;
            assert want.right == acc.right + {c};
          } else {
            assert want == acc;
          }
        } else {
          assert want == acc;
        }
      }
    }
  }

  /** Each null-rejected set lies inside its join-column set, and the two are disjoint. */
  lemma NullRejectedWithinJoinColumns(conds: seq<Expr>, jc: ColumnSets)
    requires NullRejectedColumns(conds, jc).Some?
    ensures NullRejectedColumns(conds, jc).value.left <= jc.left
    ensures NullRejectedColumns(conds, jc).value.right <= jc.right
    ensures NullRejectedColumns(conds, jc).value.left !! NullRejectedColumns(conds, jc).value.right
  {
    FoldNullRejectedCharacterised(Candidates(conds), jc);
  }

  /** The classification throws exactly when some candidate is a non-IS-NULL call without operands. */
  lemma NullRejectedColumnsFails(conds: seq<Expr>, jc: ColumnSets)
    ensures NullRejectedColumns(conds, jc).None? <==> exists e :: e in Candidates(conds) && FailsOnFirstOperand(e)
  {
    FoldNullRejectedCharacterised(Candidates(conds), jc);
  }

  // ---------------------------------------------------------------------
  // Side flags and the decision table
  // ---------------------------------------------------------------------

  /** `leftNullRejected`: some null-rejected left column, all of them left join columns (containsAll). */
  predicate LeftNullRejected(jc: ColumnSets, nr: ColumnSets)
  {
    nr.left != {} && nr.left <= jc.left
  }

  predicate RightNullRejected(jc: ColumnSets, nr: ColumnSets)
  {
    nr.right != {} && nr.right <= jc.right
  }

  /**
   * The flags hold as soon as ONE column of that side (and of that side only)
   * is rejected by some candidate; no coverage of the other join columns is needed.
   */
  lemma SideFlagsCharacterised(conds: seq<Expr>, jc: ColumnSets)
    requires NullRejectedColumns(conds, jc).Some?
    ensures LeftNullRejected(jc, NullRejectedColumns(conds, jc).value) <==>
              exists col, e :: col in jc.left && col !in jc.right && e in Candidates(conds) && RejectsNullOn(e, col)
    ensures RightNullRejected(jc, NullRejectedColumns(conds, jc).value) <==>
              exists col, e :: col in jc.right && col !in jc.left && e in Candidates(conds) && RejectsNullOn(e, col)
  {
    FoldNullRejectedCharacterised(Candidates(conds), jc);
    var nr := NullRejectedColumns(conds, jc).value;
    if exists col, e :: col in jc.left && col !in jc.right && e in Candidates(conds) && RejectsNullOn(e, col) {
      var col, e :| col in jc.left && col !in jc.right && e in Candidates(conds) && RejectsNullOn(e, col);
      assert col in nr.left;
    }
    if exists col, e :: col in jc.right && col !in jc.left && e in Candidates(conds) && RejectsNullOn(e, col) {
      var col, e :| col in jc.right && col !in jc.left && e in Candidates(conds) && RejectsNullOn(e, col);
      assert col in nr.right;
    }
  }

  /** Two left join columns, a filter on only one of them: the left side still counts as null-rejected. */
  lemma PartialCoverageSuffices()
    ensures JoinColumns(TwoColumnJoin) == ColumnSets({0, 1}, {2, 3})
    ensures NullRejectedColumns([Call(IsNotNull, [InputRef(0)])], ColumnSets({0, 1}, {2, 3})) == Some(ColumnSets({0}, {}))
    ensures LeftNullRejected(ColumnSets({0, 1}, {2, 3}), ColumnSets({0}, {}))
  {
    var eq1 := Call(Equals, [InputRef(0), InputRef(2)]);
    var eq2 := Call(Equals, [InputRef(1), InputRef(3)]);
    assert JoinCandidates(TwoColumnJoin) == [eq1, eq2];
    assert [eq1, eq2][..1] == [eq1];
    assert [eq1][..0] == [];
    assert FoldJoinCols([eq1]) == AddJoinCols(eq1, NoColumns) == ColumnSets({0}, {2});
    assert FoldJoinCols([eq1, eq2]) == AddJoinCols(eq2, ColumnSets({0}, {2}));
    assert {0} + {1} == {0, 1} && {2} + {3} == {2, 3};
    var f := Call(IsNotNull, [InputRef(0)]);
    assert [f][..0] == [];
    assert Candidates([f]) == [f];
    assert FoldNullRejected([f], ColumnSets({0, 1}, {2, 3})) == AddNullRejectedJoinCols(f, ColumnSets({0, 1}, {2, 3}), NoColumns);
  }

  /** `a = c AND b = d` over columns a, b (0, 1) on the left and c, d (2, 3) on the right. */
  const TwoColumnJoin := Call(And, [Call(Equals, [InputRef(0), InputRef(2)]), Call(Equals, [InputRef(1), InputRef(3)])])

  /** The kinds of output row a join keeps: matched pairs, or a left (right) row padded with NULLs on the other side. */
  datatype RowKind = Matched | LeftOnly | RightOnly

  function Keeps(t: JoinType): set<RowKind>
  {
    match t
    case Inner => {Matched}
    case Left => {Matched, LeftOnly}
    case Right => {Matched, RightOnly}
    case Full => {Matched, LeftOnly, RightOnly}
    case Semi => {Matched}
    case Anti => {LeftOnly}
  }

  /**
   * The row kinds that survive a filter rejecting NULLs on a left (right)
   * join column: such a filter removes the rows whose left (right) side is
   * NULL padding.
   */
  function Survivors(leftRejected: bool, rightRejected: bool): set<RowKind>
  {
    {Matched} + (if leftRejected then {} else {RightOnly}) + (if rightRejected then {} else {LeftOnly})
  }

  /** `u` is a strictly narrower join than `t`: it keeps strictly fewer kinds of rows. */
  predicate Narrower(u: JoinType, t: JoinType)
  {
    Keeps(u) < Keeps(t)
  }

  /** The decision table of `onMatch`; `None` means the join is left as it is. */
  function Strengthen(t: JoinType, leftRejected: bool, rightRejected: bool): (r: Option<JoinType>)
    ensures r.Some? <==> (t == Full && leftRejected) || (t == Left && rightRejected)
    ensures r == Some(Left) <==> t == Full && leftRejected && !rightRejected
    ensures r == Some(Inner) <==> (t == Full && leftRejected && rightRejected) || (t == Left && rightRejected)
    ensures r.Some? ==> Narrower(r.value, t)
  {
    if !leftRejected && !rightRejected then None
    else if t == Full then
      if leftRejected && !rightRejected then Some(Left)
      else if leftRejected && rightRejected then Some(Inner)
      else None
    else if t == Left then
      if rightRejected then Some(Inner) else None
    else None
  }

  /** A strengthened join keeps exactly the rows the filter lets through from the original join. */
  lemma StrengthenPreservesSurvivors(t: JoinType, l: bool, r: bool)
    requires Strengthen(t, l, r).Some?
    ensures Keeps(Strengthen(t, l, r).value) * Survivors(l, r) == Keeps(t) * Survivors(l, r)
  {
  }

  /** Applying the table again with the same flags to its own result changes nothing. */
  lemma StrengthenIdempotent(t: JoinType, l: bool, r: bool)
    requires Strengthen(t, l, r).Some?
    ensures Strengthen(Strengthen(t, l, r).value, l, r).None?
  {
  }

  /** A FULL join whose right side only is null-rejected stays FULL, although RIGHT would keep the same surviving rows. */
  lemma FullWithRightOnlyUnchanged()
    ensures Strengthen(Full, false, true).None?
    ensures Keeps(Right) * Survivors(false, true) == Keeps(Full) * Survivors(false, true)
  {
  }
}

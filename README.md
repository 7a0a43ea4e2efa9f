# Outer-join strengthening and integer NULL sentinels

This project models two pieces of the OmniSci query engine and proves properties of them.

**OuterJoinOptViaNullRejectionRule** is a Calcite planner rule. It turns a FULL outer join into a LEFT or INNER join, and a LEFT join into an INNER join, when a filter in the plan rejects NULLs on a join column. The model has these parts:

- `Plan` holds the plan as an arena of operator nodes: filters, joins, heuristic-planner vertices and other operators. A ghost rank proves the plan acyclic. The `PlanGraph` class is the plan that the rule updates in place.
- `JoinAnalysis` holds the pure side of the rule:
  - the join columns (`addJoinCols`);
  - the null-rejected columns (`addNullRejectedJoinCols`);
  - the two side flags;
  - the join-type decision table.
- `OuterJoinRule` holds the `OuterJoinOptViaNullRejectionRule` class. It has:
  - its `visitedJoinMemo` memo of join conditions;
  - `ClearMemo`;
  - the recursive filter walk `CollectFilterCondition`;
  - the loops of `onMatch`;
  - `OnMatch` itself, which splices the narrowed copy of the join into slot 0 of the parent.

  Each method is proved against a ghost specification function (`Collect`, `JoinColumns`, `NullRejectedColumns`, `Analysis`).
- `RuleScenarios` replays the three rewrites from the rule's header comment on a concrete plan. It also replays the memo behaviour: a second match of the rewritten join is skipped, and after the memo is cleared a join with a condition seen before is analysed again.

**InlineNullValues** (`Shared/InlineNullValues.h`) is the table that maps a column's type, compression and compression parameter to its integer NULL sentinel. `inline_int_null_value<T>()` is not part of this model, so the sentinel of a C++ integer type stays symbolic as `NullOf(IntType(bits, signed))`. The FIXED encoding's computed value `-(1 << (p - 1))` is modelled as an integer. The type classes `is_string`, `is_integer`, `is_time` and `is_decimal` come from `sqltypes.h`, which is not part of this model. They are written out here with the members they have there.

Two things the code does that a reader might not expect:

- An AND/OR operand of the join condition adds join columns whenever it is a call with exactly two column operands, whatever its operator (lines 101-108 and 220-228). It does not have to be an equality.
- The `containsAll` test (lines 160-167) asks whether the null-rejected columns lie inside the join columns, which always holds. So one null-rejected column is enough to set a side's flag, even if the side has several join columns (`PartialCoverageSuffices`).

Quirks of the code are kept as written:

- FULL with only the right side null-rejected is not narrowed to RIGHT.
- The filter scan covers the whole plan, including filters on unrelated branches. A filter beside the join, which never sees the join's rows, still narrows it (`RuleScenarios.SideBranchFilterNarrowsJoin`).
- Operands of an OR count as null-rejecting.
- Any call other than IS NULL rejects NULLs on its first operand.
- The copy always goes into the parent's input slot 0.

## Model

| member | source | states |
|---|---|---|
| Plan.WithInput | java/calcite/src/main/java/org/apache/calcite/rel/rules/OuterJoinOptViaNullRejectionRule.java:211 | replacing input `i` changes exactly that input; the operator kind, filter condition, and join type, condition and semi-join flag are unchanged |
| Plan.CollectYieldsFilters | java/calcite/src/main/java/org/apache/calcite/rel/rules/OuterJoinOptViaNullRejectionRule.java:253-259 | the walk from a node only ever records filter operators of the plan |
| Plan.CollectInputsYieldFilters | java/calcite/src/main/java/org/apache/calcite/rel/rules/OuterJoinOptViaNullRejectionRule.java:264-266 | the walks from a node's inputs, concatenated, only record filter operators |
| Plan.MatchRank | java/calcite/src/main/java/org/apache/calcite/rel/rules/OuterJoinOptViaNullRejectionRule.java:67-68 | for a pair matched by the operand pattern (`IsMatch`: a join that is, directly or through a vertex, an input of the parent) the join lies below the parent and the parent has an input slot 0 |
| Plan.CollectInputsIn | java/calcite/src/main/java/org/apache/calcite/rel/rules/OuterJoinOptViaNullRejectionRule.java:264-266 | a node is recorded by the walks over a list of inputs iff it is recorded by the walk from one of them |
| Plan.CollectComplete | java/calcite/src/main/java/org/apache/calcite/rel/rules/OuterJoinOptViaNullRejectionRule.java:253-267 | the walk from a node records a node iff it is a filter reachable from there (`Reaches`, defined independently of the walk) |
| Plan.PlanGraph.Add | java/calcite/src/main/java/org/apache/calcite/rel/rules/OuterJoinOptViaNullRejectionRule.java:178-183 | the new operator (the join's copy) is appended under a fresh index; every existing node is unchanged and the plan stays acyclic |
| Plan.PlanGraph.ReplaceInput | java/calcite/src/main/java/org/apache/calcite/rel/rules/OuterJoinOptViaNullRejectionRule.java:211 | only the parent node changes, to the same node with input `i` redirected; the plan stays acyclic |
| JoinAnalysis.FoldJoinColsCharacterised | java/calcite/src/main/java/org/apache/calcite/rel/rules/OuterJoinOptViaNullRejectionRule.java:217-230 | after `AddJoinCols` (`addJoinCols`) over a sequence of calls, the left (right) set is exactly the first (second) operand columns of its two-column calls |
| JoinAnalysis.JoinColumnsCharacterised | java/calcite/src/main/java/org/apache/calcite/rel/rules/OuterJoinOptViaNullRejectionRule.java:94-108 | a column is a left (right) join column iff it is the first (second) operand of a two-column call among the top-level `=` or the operands of a top-level AND/OR (`JoinCandidates`) |
| JoinAnalysis.NestedConjunctionIgnored | java/calcite/src/main/java/org/apache/calcite/rel/rules/OuterJoinOptViaNullRejectionRule.java:101-108 | an equality nested two AND levels deep yields no join columns |
| JoinAnalysis.AddNullRejectedJoinColsCharacterised | java/calcite/src/main/java/org/apache/calcite/rel/rules/OuterJoinOptViaNullRejectionRule.java:232-251 | `AddNullRejectedJoinCols` (`addNullRejectedJoinCols`) throws iff the candidate is a non-IS-NULL call without operands; otherwise it adds to each side exactly the join columns of that side only on which the candidate rejects NULLs |
| JoinAnalysis.FoldNullRejectedCharacterised | java/calcite/src/main/java/org/apache/calcite/rel/rules/OuterJoinOptViaNullRejectionRule.java:232-251 | the classification (`FoldNullRejected` over the candidates `FilterCandidates` of each filter condition) throws iff some candidate is a non-IS-NULL call with no operands; otherwise a column is null-rejected on a side iff it is a join column of that side only and some candidate call (not IS NULL) has it as first operand |
| JoinAnalysis.NullRejectedWithinJoinColumns | java/calcite/src/main/java/org/apache/calcite/rel/rules/OuterJoinOptViaNullRejectionRule.java:239-249 | each null-rejected set lies within that side's join columns, and the two sets are disjoint |
| JoinAnalysis.NullRejectedColumnsFails | java/calcite/src/main/java/org/apache/calcite/rel/rules/OuterJoinOptViaNullRejectionRule.java:237-238 | the scan of all filters throws iff some candidate has no first operand to read |
| JoinAnalysis.SideFlagsCharacterised | java/calcite/src/main/java/org/apache/calcite/rel/rules/OuterJoinOptViaNullRejectionRule.java:158-167 | `LeftNullRejected` (`RightNullRejected`), the flags `leftNullRejected` (`rightNullRejected`), hold iff some candidate rejects NULLs on a column that is a join column of the left (right) side only |
| JoinAnalysis.PartialCoverageSuffices | java/calcite/src/main/java/org/apache/calcite/rel/rules/OuterJoinOptViaNullRejectionRule.java:158-163 | with join `a = c AND b = d` and the filter `a IS NOT NULL`, the left side counts as null-rejected although `b` is not covered |
| JoinAnalysis.Strengthen | java/calcite/src/main/java/org/apache/calcite/rel/rules/OuterJoinOptViaNullRejectionRule.java:172-208 | a new type exists iff (FULL and left rejected) or (LEFT and right rejected); it is LEFT iff FULL with only the left rejected, INNER iff FULL with both or LEFT with the right; the new type always keeps strictly fewer kinds of rows |
| JoinAnalysis.StrengthenPreservesSurvivors | java/calcite/src/main/java/org/apache/calcite/rel/rules/OuterJoinOptViaNullRejectionRule.java:172-208 | the narrowed join keeps the same surviving row kinds as the original, given flags that describe a filter applied to the join's output; the whole-plan filter scan does not guarantee that (`SideBranchFilterNarrowsJoin`) |
| JoinAnalysis.StrengthenIdempotent | java/calcite/src/main/java/org/apache/calcite/rel/rules/OuterJoinOptViaNullRejectionRule.java:172-208 | applying the table again to its own result, with the same flags, gives no further rewrite |
| JoinAnalysis.FullWithRightOnlyUnchanged | java/calcite/src/main/java/org/apache/calcite/rel/rules/OuterJoinOptViaNullRejectionRule.java:175-197 | FULL with only the right side rejected is left alone, although RIGHT would keep the same surviving rows |
| OuterJoinRule.Analysis | java/calcite/src/main/java/org/apache/calcite/rel/rules/OuterJoinOptViaNullRejectionRule.java:88-208 | any new join type the analysis returns is strictly narrower than the original |
| OuterJoinRule.RewriteJustified | java/calcite/src/main/java/org/apache/calcite/rel/rules/OuterJoinOptViaNullRejectionRule.java:125-208 | a rewrite is only FULL→LEFT, FULL→INNER or LEFT→INNER; FULL needs a filter candidate rejecting NULLs on a left-only join column, INNER one on a right-only join column |
| OuterJoinRule.NoJoinColumnsNoRewrite | java/calcite/src/main/java/org/apache/calcite/rel/rules/OuterJoinOptViaNullRejectionRule.java:110-112 | with no left or no right join column the join is never rewritten |
| OuterJoinRule.OuterJoinOptViaNullRejectionRule.constructor | java/calcite/src/main/java/org/apache/calcite/rel/rules/OuterJoinOptViaNullRejectionRule.java:67-72 | a new rule starts with an empty memo |
| OuterJoinRule.OuterJoinOptViaNullRejectionRule.ClearMemo | java/calcite/src/main/java/org/apache/calcite/rel/rules/OuterJoinOptViaNullRejectionRule.java:74-76 | the memo is empty afterwards |
| OuterJoinRule.OuterJoinOptViaNullRejectionRule.CollectFilterCondition | java/calcite/src/main/java/org/apache/calcite/rel/rules/OuterJoinOptViaNullRejectionRule.java:253-267 | appends to the list exactly the filters of a pre-order walk from the node (`Collect`: one vertex unwrapped by `Unwrap`, a filter recorded before its inputs, inputs in order); `Plan.CollectComplete` shows these are exactly the filters reachable from the node |
| OuterJoinRule.OuterJoinOptViaNullRejectionRule.ExtractJoinColumns | java/calcite/src/main/java/org/apache/calcite/rel/rules/OuterJoinOptViaNullRejectionRule.java:93-108 | the single `addJoinCols` call on a top-level `=` and the loop over the operands of a top-level AND/OR compute exactly the join columns `JoinColumns` of the condition |
| OuterJoinRule.OuterJoinOptViaNullRejectionRule.ClassifyFilters | java/calcite/src/main/java/org/apache/calcite/rel/rules/OuterJoinOptViaNullRejectionRule.java:125-157 | the nested loops compute exactly the null-rejected columns of the collected filters' candidates, or report the exception |
| OuterJoinRule.OuterJoinOptViaNullRejectionRule.Analyse | java/calcite/src/main/java/org/apache/calcite/rel/rules/OuterJoinOptViaNullRejectionRule.java:88-208 | returns the specified outcome (early returns included) and changes nothing |
| OuterJoinRule.OuterJoinOptViaNullRejectionRule.OnMatch | java/calcite/src/main/java/org/apache/calcite/rel/rules/OuterJoinOptViaNullRejectionRule.java:79-215 | the memo is keyed by the condition's printed form `Rex.Digest` (`toString`, line 82); a memoised condition is skipped with nothing changed; otherwise the condition is added to the memo and the outcome is the analysis of the old plan; without a rewrite the plan is unchanged; with one, a copy of the join differing only in its type is appended and becomes input 0 of the parent, and nothing else changes |
| RuleScenarios.FooBarJoinUnfiltered | java/calcite/src/main/java/org/apache/calcite/rel/rules/OuterJoinOptViaNullRejectionRule.java:253-267 | the walk below the example join meets no filter |
| RuleScenarios.FooBarFilters | java/calcite/src/main/java/org/apache/calcite/rel/rules/OuterJoinOptViaNullRejectionRule.java:253-267 | the walk over the example plan collects exactly its one WHERE filter |
| RuleScenarios.FooBarAnalysis | java/calcite/src/main/java/org/apache/calcite/rel/rules/OuterJoinOptViaNullRejectionRule.java:88-208 | on the example plan the outcome is fixed by how the WHERE clause classifies |
| RuleScenarios.FullToLeft | java/calcite/src/main/java/org/apache/calcite/rel/rules/OuterJoinOptViaNullRejectionRule.java:43-45 | `foo FULL JOIN bar ON a = c WHERE a IS NOT NULL` is rewritten to LEFT |
| RuleScenarios.FullToInner | java/calcite/src/main/java/org/apache/calcite/rel/rules/OuterJoinOptViaNullRejectionRule.java:47-50 | adding `AND c IS NOT NULL` rewrites it to INNER |
| RuleScenarios.LeftToInner | java/calcite/src/main/java/org/apache/calcite/rel/rules/OuterJoinOptViaNullRejectionRule.java:52-54 | `foo LEFT JOIN bar ON a = c WHERE c IS NOT NULL` is rewritten to INNER |
| RuleScenarios.RewrittenFooBarMatches | java/calcite/src/main/java/org/apache/calcite/rel/rules/OuterJoinOptViaNullRejectionRule.java:209-211 | after the FULL→LEFT rewrite the copy is a LEFT join with the same condition and inputs, and it is the filter's new input, matched by the rule again |
| RuleScenarios.MemoSkipsRepeat | java/calcite/src/main/java/org/apache/calcite/rel/rules/OuterJoinOptViaNullRejectionRule.java:82-87 | after the FULL→LEFT rewrite, matching the spliced copy, whose condition is the same, returns at the memo check |
| RuleScenarios.ClearedMemoReanalyses | java/calcite/src/main/java/org/apache/calcite/rel/rules/OuterJoinOptViaNullRejectionRule.java:74-87 | after `ClearMemo`, a join whose condition was seen before is analysed and rewritten again |
| RuleScenarios.SideBranchFilterNarrowsJoin | java/calcite/src/main/java/org/apache/calcite/rel/rules/OuterJoinOptViaNullRejectionRule.java:114-123 | a FULL join is narrowed to LEFT by a filter that is not below it (not reachable from the join), because the scan starts at the plan's root |
| InlineNullValues.InlineIntNullVal | Shared/InlineNullValues.h:41-74 | fails a check iff a string is not dictionary-encoded with logical size 4, or a non-string is encoded; aborts iff the checks pass on a non-string outside the width table; otherwise the sentinel of a signed 8/16/32/64-bit integer, the 32-bit one for strings |
| InlineNullValues.WidthTable | Shared/InlineNullValues.h:51-73 | BOOLEAN/TINYINT ↦ int8, SMALLINT ↦ int16, INT ↦ int32, BIGINT, TIME, TIMESTAMP, DATE, both INTERVALs, DECIMAL, NUMERIC ↦ int64, each in both directions; types of one width share one sentinel |
| InlineNullValues.SentinelDependsOnTypeOnly | Shared/InlineNullValues.h:43-73 | two columns of the same type that pass the checks get the same sentinel, whatever their sizes and parameters |
| InlineNullValues.StringsShareIntSentinel | Shared/InlineNullValues.h:44-47 | a dictionary-encoded string gets exactly the sentinel of an unencoded INT |
| InlineNullValues.InlineFixedEncodingNullVal | Shared/InlineNullValues.h:76-118 | NONE delegates to `inline_int_null_val`; DATE_IN_DAYS succeeds iff the parameter is 0, 16 or 32 (int16 for 16, else int32); DICT succeeds iff a string of size 1, 2 or 4 (uint8, uint16, int32); FIXED succeeds iff integer, time or decimal with a parameter divisible by 8, giving the smallest `p`-bit signed value, which fits in 64 bits; any other compression fails a check; only NONE can abort |
| InlineNullValues.DictFourBytesAgree | Shared/InlineNullValues.h:97-105 | a 4-byte dictionary-encoded string gets the same sentinel, int32, from both lookups |
| InlineNullValues.FixedSentinelIsMinimum | Shared/InlineNullValues.h:114-117 | `-(1 << (p - 1))` (with `Pow2` for the shift, proved strictly increasing by `Pow2Monotonic`) is representable in `p` bits, one less is not, and it is negative and fits in `int64_t` |
| InlineNullValues.FixedSentinelsDistinct | Shared/InlineNullValues.h:117 | a wider FIXED encoding has a strictly smaller sentinel, so no two widths share one |

## Left out

- Planner plumbing is not modelled:
  - `RelOptRuleCall` (the rule receives the plan and the matched parent/join indices directly);
  - `call.getPlanner().getRoot()` (the plan's `root` field);
  - `relBuilder.push`, whose result is unused;
  - `call.transformTo`;
  - trait sets;
  - the operand pattern given to the constructor.
- The cast of the matched join to `LogicalJoin` (line 81) is assumed to succeed: every join in the model is a logical join.
- `RexNode.toString()` is modelled by `Rex.Digest`, a rendering in Calcite's style (`=($0, $2)`). It approximates Calcite's exact digest text. What the memo depends on is that equal conditions give equal strings.
- The memo is a static, process-wide field in the source. Here it is a field of the rule object. Sharing between rule instances and concurrent planners is not modelled.
- A heuristic-planner vertex (`HepRelVertex`) is a node with no inputs of its own that wraps one operator. The walk unwraps it exactly once, as the source does.
- Filters, joins and expressions carry only what the rule reads. Row types, field names and other operators' contents are not modelled.
- OuterJoinRule.OuterJoinOptViaNullRejectionRule.OnMatch: requires the plan to be acyclic (the ghost rank), which the planner guarantees. Without it the recursive walk of the source need not terminate.
- InlineNullValues.InlineFixedEncodingNullVal: requires a FIXED parameter that passes the checks to be below 64 and above 0 (`FixedShiftDefined`). For 0 or 64 the C++ shift `1L << (p - 1)` or its negation is undefined behaviour, which has no value to model.
- `inline_int_null_value<T>()` is not part of this model. Its result is kept symbolic, so no property depends on the actual sentinel of a C++ type.
- `inline_fp_null_value` and `inline_fp_null_val` return floating-point sentinels (`NULL_FLOAT`, `NULL_DOUBLE`) that are defined elsewhere. They are not modelled.
- The CUDA and glog variants of `CHECK` are both modelled as the failure result `CheckFailed`. `abort()` is modelled as `Aborted`. The logged messages are not modelled.
- `sqltypes.h` is not part of this model. `SQLTypeInfo` is reduced to its type, compression, compression parameter, size and logical size, and the type classes are written out from the types they name.
- `ForeignServerTest.java` and `SqlShowTables.java` are end-to-end DDL tests and a constant DDL node. They contain no logic to state.

# Verified model of the configuration engine

The project models `scripts/kconfig/kconfiglib.py`, the engine that evaluates the symbols and
choices of a Kconfig configuration, and the diagnosis of unmet dependencies in
`scripts/kconfig/kconfig.py`. To verify: `dafny verify dfyconfig.toml`.

## How the model is built

- `Types`, `Numbers`, `ConfigText`: symbols, choices and their properties after parsing and
  finalisation; `int()`, `str()` and `hex()`; escaping and the line patterns. Symbols and
  choices refer to each other by index.
- `Semantics`: every cached attribute (visibility, tristate value, string value, assignable
  values, selection) as one step over the attributes it reads, with the set of attributes that
  short-circuiting actually reads. `Evaluation`: the unique solution of these equations by plain
  recursion, for configurations without dependency loops.
- `Caching`, `Updates`, `Engine`: the objects with their cached fields, the dependents sets and
  the recursive invalidation that stops at items without a cached visibility. The invariant of
  the class is that every cached value is what plain recursion gives for the current user state
  and that every item that was read to compute it still has its visibility cached. Every method
  keeps it, so it holds after every sequence of assignments, removals and reads.
- `UserInput`, `Choices`, `Ranges`, `Assignable`: what user input can influence, the symbols of a
  choice, the range clamp, and whether assignable values are respected.
- `ConfigFile`, `ReadBack`, `FullConfig`, `MinConfig`, `ConfigIO`, `SmallConfig`, `LossyConfig`:
  loading with and without replacing, and the round trips of full and minimal configurations.
- `Meaning`, `Comparisons`, `Lines`, `Outputs`: what values, relations, lines and files are, in
  terms of conditions, positions and characters only, without the functions of the model.
- `SplitExpr`: operands of expressions, missing dependencies, unsatisfied selects.
- `DepLoop`, `WellFounded`, `LoopExamples`: the three-colour search for dependency loops, as a
  function and on the objects, and what a passed check says about evaluation.
- `MenuSpec`, `MenuDeps`, `MenuTree`, `ImplicitMenus`, `MenuOutput`, `Headings`, `Reload`,
  `Collected`: the menu tree as a value and as linked nodes, its finalisation (also as separate
  passes), the meaning of propagated dependencies, the two stackless walks, the lines for menus,
  loading what is written, and the configuration collected from a finalised tree.
- `ExprParser`, `Precedence`, `Preprocessor`, `MacroLaws`: the expression parser and printer, how
  operators bind, macro expansion, and what macros stand for.
- `SyncDeps`: the record of the previous build.

A configuration is assumed to be well-formed (`ConfigOK`): no dependency loop, choice symbols
that depend on their choice, and choice defaults that are members. `FinalizedMembers` proves the
second for the configuration of a finalised tree; the third is a check that only warns.
`SmallConfigOK` and `LossyConfigOK` show two such configurations.

## What does not hold as documented

- Writing and loading a configuration does not restore tristates in general: a default may
  exceed the visibility, a user value may not. Trailing blanks of numbers are lost, and so
  may be the mode of a choice whose symbols are all n. `FullRoundTrip` and `MinRoundTrip` give the exact
  conditions, and the lemmas of `LossyConfig` and `ModeLost` inputs on which they fail.
- A menu or comment whose prompt reads like the line of a symbol that is not set is taken for
  one when the written file is loaded (`HeadingIgnoredIff`, `HeadingLoaded`).
- `load_config(replace=True)` keeps the old user selection of a tristate choice if the file
  assigns m and no y to its symbols.
- `assignable` lists m, which would be promoted to y, and not y for a symbol of visibility m that
  is selected to m and implied to y (`PlainAssignable`, `AssignableNotRespected`). For choice
  symbols it ignores that values do not depend on selects and implies, and that a symbol that is
  not selected stays n (`MemberAssignable`).
- `_expr_depends_on()` accepts comparisons with y by `!=`, unlike its comment says
  (`AcceptedForms`, `AcceptedMeans`).
- A passed loop check does not make evaluation well-founded. The search follows dependents. They
  do not show that tristate symbols read MODULES, and choice membership is not followed in all
  cases: a symbol that is finished from within its choice is not searched for loops through the
  choice again, whether the choice was entered through one of its properties or through another
  of its symbols. `CheckedMeansAcyclicIff` gives the exact condition under which a passed check is
  enough, and `ModulesLoop` and `ChoiceLoopMissed` inputs on which it is not.

## Model

| member | source | states |
|---|---|---|
| `Numbers.PrintParseNumber` | scripts/kconfig/kconfiglib.py:4428-4434 | `str()` of an int and `hex()` of a hex bound, read by `int(s, base)`, give every integer back |
| `Lines.PrintedNumber` | scripts/kconfig/kconfiglib.py:4428-4434 | the standard forms are a minus sign, `0x` for hex numbers, and lower-case digits without a leading zero that have the value of the number |
| `ConfigText.StringRoundTrip` | scripts/kconfig/kconfiglib.py:6222-6240 | for every string the quoted escaped text is matched whole, the captured group is the escaped string, and unescaping it returns the string |
| `ConfigText.MatchSetLine` | scripts/kconfig/kconfiglib.py:1273-1275 | an assignment line is recognised with its name, and its value loses exactly the trailing blanks |
| `ConfigText.NotSetLine` | scripts/kconfig/kconfiglib.py:4578-4580 | the 'is not set' line is not taken for an assignment and gives the name back |
| `Lines.LoadedLine` | scripts/kconfig/kconfiglib.py:1267-1340 | an assignment line and a 'not set' line act on the one defined symbol of that name |
| `Lines.SkippedLine` | scripts/kconfig/kconfiglib.py:1273-1340 | lines for names that are not defined, and other lines, change nothing |
| `Lines.LoadedTri` | scripts/kconfig/kconfiglib.py:1287-1296 | outside choices the first character decides: the user value becomes n, m or y and nothing else changes, or the line is ignored |
| `Lines.LoadedMember` | scripts/kconfig/kconfiglib.py:1298-1313 | for choice symbols m and y set the mode, y sets the selection, and n leaves both |
| `Evaluation.ReadsStatic` | scripts/kconfig/kconfiglib.py:6034-6088 | whatever an evaluation reads under short-circuiting is mentioned in a property of the item |
| `Evaluation.StepCongruence` | scripts/kconfig/kconfiglib.py:4468-4545 | two states that agree on what the first one reads, and on the user's own input, give the same value and the same reads |
| `Evaluation.EvalStep` | scripts/kconfig/kconfiglib.py:4327-4545 | plain recursion without caches satisfies the step equations of all attributes, for acyclic configurations |
| `Evaluation.EvalUnique` | scripts/kconfig/kconfiglib.py:4327-4545 | no other values satisfy the step equations |
| `Caching.ReadsFollowDependents` | scripts/kconfig/kconfiglib.py:3480-3553 | every attribute that is read belongs to the reader or to an item with the reader among its dependents, or is MODULES, or never changes |
| `Caching.SurvivorUnchanged` | scripts/kconfig/kconfiglib.py:4905-4934 | a value that survives the early-stopping invalidation is what evaluation of the new user state gives |
| `Caching.InvalidationSound` | scripts/kconfig/kconfiglib.py:4919-4934 | after an assignment and its invalidation all remaining cached values are correct and still have the visibilities of everything they read cached |
| `Caching.AssignmentIsLocal` | scripts/kconfig/kconfiglib.py:4905-4934 | an assignment can only change values of items reachable through dependents, unless MODULES is reachable |
| `Engine.Kconfig.constructor` | scripts/kconfig/kconfiglib.py:998-1003 | a new engine has no assignments, only the constants cached, and exact dependents sets |
| `Engine.Kconfig.ExprValue` | scripts/kconfig/kconfiglib.py:6034-6088 | the cached evaluator returns the reference value of an expression, keeps the cache invariant, and leaves everything it read cached |
| `Meaning.ExprMeaning` | scripts/kconfig/kconfiglib.py:6034-6066 | AND is the smaller, OR the larger operand, NOT the complement |
| `Comparisons.RelationOfNumbers` | scripts/kconfig/kconfiglib.py:6067-6088 | symbols with numbers as values, not both strings, are related as the numbers are, for each of the six operators |
| `Comparisons.RelationOfStrings` | scripts/kconfig/kconfiglib.py:6067-6088 | two strings, or values of which one is not a number, are related by lexicographic order, stated by a common prefix and the next character |
| `Comparisons.IntAndConstant` | scripts/kconfig/kconfiglib.py:6067-6088 | `X < 10` and the like compare the value of an int symbol with the number that is written |
| `Engine.Kconfig.CompareSyms` | scripts/kconfig/kconfiglib.py:6067-6081 | relations compare as strings, as numbers, or as strings again if a number is malformed, reading only what the code reads |
| `Engine.Kconfig.ComputeVisibility` | scripts/kconfig/kconfiglib.py:6332-6359 | visibility is the largest prompt condition, hidden or promoted by mode and type |
| `Meaning.VisibilityMeaning` | scripts/kconfig/kconfiglib.py:6332-6359 | outside choices: y if some prompt condition is y, or m for a symbol without m; n if all are n |
| `Meaning.MemberVisibilityMeaning` | scripts/kconfig/kconfiglib.py:6336-6350 | the cases in which the mode of the choice hides its symbol |
| `Engine.Kconfig.Visibility` | scripts/kconfig/kconfiglib.py:4556-4563 | the cached visibility is the reference visibility |
| `Engine.Kconfig.ChoiceVisibility` | scripts/kconfig/kconfiglib.py:5258-5265 | the same for choices |
| `Engine.Kconfig.ChoiceTriValue` | scripts/kconfig/kconfiglib.py:5229-5247 | the mode of a choice, computed from its cached visibility |
| `Meaning.ModeMeaning` | scripts/kconfig/kconfiglib.py:5229-5247 | when the mode is n and when it is y, in terms of visibility, user mode, optionality and type |
| `Engine.Kconfig.TriValue` | scripts/kconfig/kconfiglib.py:4467-4545 | the cached tristate value is the reference value, whatever was read or assigned before |
| `Engine.Kconfig.ComputePlainTri` | scripts/kconfig/kconfiglib.py:4495-4530 | user value, defaults, implies, selects and the promotion of m, in this order, with the write flag |
| `Meaning.ValueMeaning` | scripts/kconfig/kconfiglib.py:4495-4530 | the value: user value limited by the visibility, or the first default with a met condition limited by that condition and raised by an imply; raised by a select; m promoted |
| `Meaning.WrittenMeaning` | scripts/kconfig/kconfiglib.py:4486-4513 | the write flag: visible, selected, implied with met dependency, or a default other than n |
| `Meaning.MemberMeaning` | scripts/kconfig/kconfiglib.py:4532-4542 | the value of a choice symbol by visibility, selection and user value, and its write flag |
| `Engine.Kconfig.ComputeMemberTri` | scripts/kconfig/kconfiglib.py:4532-4542 | the value of a choice symbol in y and m mode |
| `Engine.Kconfig.StrValue` | scripts/kconfig/kconfiglib.py:4326-4465 | the cached string value is the reference value |
| `Engine.Kconfig.ComputeInt` | scripts/kconfig/kconfiglib.py:4353-4442 | range check of the user value, first active default, clamping |
| `Meaning.NumberMeaning` | scripts/kconfig/kconfiglib.py:4361-4436 | the text of a number: the user's if visible and within the first range with a met condition, else the first default with a met condition, or the bound that this exceeds |
| `Meaning.NumberWritten` | scripts/kconfig/kconfiglib.py:4394-4412 | a number is written if it is visible or has a default with a met condition |
| `Meaning.StringMeaning` | scripts/kconfig/kconfiglib.py:4438-4455 | text and write flag of a string |
| `Engine.Kconfig.Selection` | scripts/kconfig/kconfiglib.py:5275-5282 | the cached selection is the reference selection |
| `Engine.Kconfig.SelectionFromDefaultsValue` | scripts/kconfig/kconfiglib.py:5480-5493 | the first usable default, else the first visible symbol, else none |
| `Meaning.SelectionMeaning` | scripts/kconfig/kconfiglib.py:5464-5493 | in y mode: the user's selection if visible; or the symbol of the least default with a met condition and a visible symbol; or the least visible symbol of the choice |
| `Engine.Kconfig.Assignable` | scripts/kconfig/kconfiglib.py:4853-4897 | the cached assignable values are the reference ones |
| `Engine.Kconfig.ChoiceAssignable` | scripts/kconfig/kconfiglib.py:5445-5462 | the same for choices |
| `Assignable.PlainAssignable` | scripts/kconfig/kconfiglib.py:4084-4098 | for a visible symbol outside choices, a value is assignable exactly if assigning it makes it the value, except for m and y at visibility m with a select of m and an imply of y |
| `Assignable.MemberAssignable` | scripts/kconfig/kconfiglib.py:4084-4098 | for a visible choice symbol the assignable values are those that would be respected exactly if it is selected (in y mode) or not reached by selects and implies (in m mode); y is always respected in y mode |
| `Assignable.ModeAssignable` | scripts/kconfig/kconfiglib.py:5115-5116 | a mode of a visible choice is assignable exactly if assigning it makes it the mode |
| `SmallConfig.AssignableNotRespected` | scripts/kconfig/kconfiglib.py:4886-4897 | a symbol whose only assignable value m becomes y when it is assigned |
| `Engine.Kconfig.InvalidateAll` | scripts/kconfig/kconfiglib.py:3555-3563 | nothing of a defined symbol or a choice stays cached |
| `Engine.Kconfig.RecInvalidate` | scripts/kconfig/kconfiglib.py:4905-4934 | terminates on cyclic dependents, drops the values of a set of items closed under live dependents, and nothing else |
| `Engine.Kconfig.SetValue` | scripts/kconfig/kconfiglib.py:4638-4685 | the new user state and the result are those of the specification, and all cached values are correct for the new state |
| `Lines.AcceptedMeaning` | scripts/kconfig/kconfiglib.py:4641-4660 | the values that are accepted, by type |
| `Engine.Kconfig.UnsetValue` | scripts/kconfig/kconfiglib.py:4687-4694 | the same for removing a value |
| `Engine.Kconfig.SetChoiceValue` | scripts/kconfig/kconfiglib.py:5297-5323 | the same for the mode of a choice |
| `Engine.Kconfig.UnsetChoiceValue` | scripts/kconfig/kconfiglib.py:5325-5332 | the same for removing mode and selection |
| `Engine.Kconfig.UnsetValues` | scripts/kconfig/kconfiglib.py:1991-2007 | no defined symbol and no choice keeps user input; the rest is unchanged |
| `Engine.Kconfig.BuildDep` | scripts/kconfig/kconfiglib.py:3480-3539 | after the pass an item is a dependent of exactly the items that mention it among their non-constant operands |
| `Engine.Kconfig.AddChoiceDeps` | scripts/kconfig/kconfiglib.py:3541-3553 | the dependents sets are then exactly the dependency edges, with choices depending on their symbols |
| `Engine.Kconfig.WrittenValue` | scripts/kconfig/kconfiglib.py:4566-4574 | the value and the write flag that evaluation leaves behind, whatever was cached |
| `Choices.SelectionIsVisibleMember` | scripts/kconfig/kconfiglib.py:5464-5493 | there is a selection exactly in y mode with a visible symbol, and it is one |
| `Choices.YMeansSelected` | scripts/kconfig/kconfiglib.py:4532-4536 | a choice symbol is y exactly if it is the selection |
| `Choices.ExactlyOneY` | scripts/kconfig/kconfiglib.py:4532-4542 | in y mode with a visible symbol exactly one symbol is y and all others are n; in other modes none is y |
| `Choices.NoMemberAboveMode` | scripts/kconfig/kconfiglib.py:5229-5247 | no symbol's visibility or value exceeds the mode |
| `Ranges.InRange` | scripts/kconfig/kconfiglib.py:4361-4442 | with an active range the number read from the value is in the range for every user value and default list, exactly if the range is not empty |
| `Ranges.UserNumberOrDefault` | scripts/kconfig/kconfiglib.py:4380-4405 | an assigned number is kept as written if it is visible and in range, and otherwise has no effect at all |
| `UserInput.SameValuesIff` | scripts/kconfig/kconfiglib.py:4467-4545 | two user states give all attributes the same values exactly if each single step of the second, on the values of the first, gives them back |
| `ConfigFile.SetSymAssigns` | scripts/kconfig/kconfiglib.py:4641-4651 | skipping the assignment of an unchanged value has the same effect as storing it |
| `ConfigFile.LoadLinesChoice` | scripts/kconfig/kconfiglib.py:1298-1313 | which lines mark a choice as set and which set its selection |
| `ConfigFile.ReplaceIsClearThenMerge` | scripts/kconfig/kconfiglib.py:1251-1368 | loading with replace gives the user state of clearing everything and merging, from any earlier state, exactly if no choice with an old selection gets an m and no y |
| `SmallConfig.OldSelectionSurvives` | scripts/kconfig/kconfiglib.py:1298-1313 | a file with a single m on which the old selection survives |
| `SmallConfig.ModeLost` | scripts/kconfig/kconfiglib.py:5229-5247 | an optional choice that was set to m, with all symbols n: neither the full nor the minimal configuration restores the mode |
| `ConfigIO.ReadLine` | scripts/kconfig/kconfiglib.py:1267-1354 | one line of a file, on the engine's objects |
| `ConfigIO.LoadFile` | scripts/kconfig/kconfiglib.py:1249-1368 | loading on the engine's objects gives the specified user state and correct caches |
| `ConfigIO.ClearAndMerge` | scripts/kconfig/kconfiglib.py:1991-2007 | unset_values() and a merging load give the user state that replacing is compared with, and that comparison on the objects |
| `ConfigIO.WriteFile` | scripts/kconfig/kconfiglib.py:1634-1647 | the symbol lines of a configuration, whatever was cached before |
| `ConfigIO.WriteMinFile` | scripts/kconfig/kconfiglib.py:1696-1731 | the lines of a minimal configuration, whatever was cached before |
| `ConfigIO.IsOmitted` | scripts/kconfig/kconfiglib.py:1706-1727 | the three tests that omit a line |
| `ConfigIO.DefaultString` | scripts/kconfig/kconfiglib.py:4958-4991 | the default of `_str_default()`, which ignores dependencies and ranges |
| `Outputs.MinimalSymbols` | scripts/kconfig/kconfiglib.py:1704-1729 | the symbols of a minimal configuration, in terms of visibility, selects, first defaults and default selections by position |
| `ConfigIO.SaveAndRestore` | scripts/kconfig/kconfiglib.py:1505-1582 | on the engine's objects: saving, any later changes, and loading the saved file restore everything exactly under the conditions of the round trips |
| `ReadBack.ReadBackLines` | scripts/kconfig/kconfiglib.py:1249-1368 | reading back the lines of any set of symbols gives exactly their values as user values, with the modes and selections they imply, over any earlier state |
| `FullConfig.BoolIsNotM` | scripts/kconfig/kconfiglib.py:4526-4530 | a bool symbol is never m |
| `FullConfig.NonzeroIsMode` | scripts/kconfig/kconfiglib.py:4532-4542 | the value of an m or y choice symbol is the mode of the choice |
| `FullConfig.PlainTriReloaded` | scripts/kconfig/kconfiglib.py:4495-4530 | a tristate value comes back exactly if it does not exceed the visibility, or a select or imply of y or the promotion of m restores it |
| `FullConfig.NumberReloaded` | scripts/kconfig/kconfiglib.py:4353-4442 | a number comes back exactly unless trailing blanks that were in use are lost |
| `FullConfig.ModesReloaded` | scripts/kconfig/kconfiglib.py:5229-5247 | modes come back exactly if the written symbols show them or they are the modes without input |
| `FullConfig.FullRoundTrip` | scripts/kconfig/kconfiglib.py:1584-1657 | writing and loading over any earlier state restores all values, selections and modes exactly if each item meets its own condition |
| `FullConfig.FullRoundTripWithoutTristates` | scripts/kconfig/kconfiglib.py:1584-1657 | without tristates, with non-optional bool choices and trimmed numbers, it always does |
| `MinConfig.VisibleDependency` | scripts/kconfig/kconfiglib.py:3668-3692 | a visible symbol has its direct dependency met |
| `MinConfig.MinRoundTrip` | scripts/kconfig/kconfiglib.py:1659-1731 | loading the minimal configuration over any earlier state restores everything exactly if what is written is kept, no select of m hides a higher default behind a user value, and the modes are shown |
| `MinConfig.MinRoundTripWithoutTristates` | scripts/kconfig/kconfiglib.py:1668-1671 | without tristates, with non-optional bool choices and trimmed numbers, it always does |
| `LossyConfig.FullConfigLosesDefault` | scripts/kconfig/kconfiglib.py:4496-4510 | a tristate with default y and visibility m that the full configuration does not restore |
| `LossyConfig.FullConfigLosesBlank` | scripts/kconfig/kconfiglib.py:1267-1268 | an assigned number with a trailing blank that the full configuration does not restore |
| `LossyConfig.MinConfigLosesUserValue` | scripts/kconfig/kconfiglib.py:1707-1713 | a user value m behind a select of m that the minimal configuration does not restore |
| `SplitExpr.Split` | scripts/kconfig/kconfiglib.py:6177-6219 | the accumulating traversal returns the top-level operands from left to right |
| `SplitExpr.OperandsOfJoin` | scripts/kconfig/kconfiglib.py:6197-6207 | splitting a joined list of operands returns the list; nesting at the top level does not matter |
| `SplitExpr.SameOperandsSameValue` | scripts/kconfig/kconfiglib.py:6205-6207 | expressions with the same top-level operands have the same value: parentheses, order and repetition at the top level do not matter |
| `SplitExpr.ValueOfOperands` | scripts/kconfig/kconfiglib.py:6177-6219 | an expression has the minimum of its AND operands and the maximum of its OR operands as value |
| `SplitExpr.MissingDeps` | scripts/kconfig/kconfig.py:192-214 | the cached evaluation lists exactly the operands below the assigned value, in order |
| `SplitExpr.MissingDepsExact` | scripts/kconfig/kconfig.py:192-214 | something is listed exactly if the direct dependency is below the assigned value, and each listed operand is |
| `SplitExpr.MissingDepsMeansLower` | scripts/kconfig/kconfig.py:171-178 | for visible tristates a missing dependency means that the value was not reached, unless a select or imply reaches it |
| `SplitExpr.UnsatisfiedSelect` | scripts/kconfig/kconfiglib.py:5005-5009 | a select above the direct dependency always has a culprit that reaches its value, and without one there is none |
| `SplitExpr.NamedSelecter` | scripts/kconfig/kconfiglib.py:5011-5016 | the symbol named for a culprit is itself above the direct dependency |
| `DepLoop.Checker.CheckSym` | scripts/kconfig/kconfiglib.py:6610-6682 | no loop, a partial loop that starts on the call stack, or a raised loop that is a real cycle; finished symbols only have finished dependents |
| `DepLoop.Checker.CheckChoice` | scripts/kconfig/kconfiglib.py:6685-6716 | the same for choices, with the skipped symbol never closing a two-element loop |
| `DepLoop.LongCycleMentions` | scripts/kconfig/kconfiglib.py:6646-6652 | a simple cycle of three or more items contains a dependency that is not choice membership |
| `DepLoop.Checker.CheckAll` | scripts/kconfig/kconfiglib.py:1119-1122 | a partial loop never reaches the top; a raised loop is a cycle; without one there is an order in which all dependents come first |
| `WellFounded.NoSymbolCycle` | scripts/kconfig/kconfiglib.py:6646-6657 | after a passed check no cycle of symbols depends on itself directly |
| `WellFounded.OrderMeansNoLoop` | scripts/kconfig/kconfiglib.py:6646-6682 | without choices there is no loop to raise if an order exists |
| `WellFounded.CheckedMeansAcyclicIff` | scripts/kconfig/kconfiglib.py:1119-1122 | after a passed check evaluation is well-founded exactly if MODULES and the visibility and selection of each choice are not among what is read, directly or indirectly, to compute them |
| `WellFounded.ChoiceFreeIff` | scripts/kconfig/kconfiglib.py:4318-4324 | without choices this is the case exactly if no tristate symbol is among MODULES and what it reads |
| `WellFounded.CheckedMeansOK` | scripts/kconfig/kconfiglib.py:1119-1122 | and exactly then the configuration meets everything that evaluation and caching rely on |
| `WellFounded.CheckLoops` | scripts/kconfig/kconfiglib.py:1119-1122 | the check raises a real loop or leaves an order, and if it passes, the configuration is in order exactly under that condition; without choices it raises a loop exactly if there is no order |
| `LoopExamples.ModulesLoop` | scripts/kconfig/kconfiglib.py:4318-4324 | a configuration that passes the check although MODULES depends on a tristate symbol, which reads MODULES |
| `LoopExamples.ChoiceLoopMissed` | scripts/kconfig/kconfiglib.py:6652-6670 | a loop through a choice that the search does not raise, when it enters the choice through its prompt (two symbols are enough) and when it enters it through another symbol of the choice |
| `LoopExamples.ChoiceLoopFound` | scripts/kconfig/kconfiglib.py:6663-6667 | the same loops are raised when the search starts at the symbol of the choice that closes them |
| `MenuSpec.MakeAndValue` | scripts/kconfig/kconfiglib.py:2866-2878 | the simplifying AND has the minimum as value |
| `MenuSpec.MakeOrValue` | scripts/kconfig/kconfiglib.py:2880-2892 | the simplifying OR has the maximum as value |
| `MenuSpec.CloseLevelKeeps` | scripts/kconfig/kconfiglib.py:3651-3655 | flattening and removing 'if' nodes leaves a clean level with the other nodes in order |
| `MenuSpec.FinalizeFirstKeeps` | scripts/kconfig/kconfiglib.py:3587-3666 | finalisation keeps the nodes other than 'if's in definition order, with exactly the conditions of plain recursive propagation, and leaves every level below clean |
| `MenuDeps.PropagationMeaning` | scripts/kconfig/kconfiglib.py:3668-3718 | each final condition has the minimum of its own value, of all enclosing dependencies, and, for prompts of symbols and choices, of all enclosing 'visible if's |
| `MenuDeps.PromptEntailsDirectDep` | scripts/kconfig/kconfiglib.py:3684-3692 | each prompt entails the direct dependency that collects the dependencies of all menu nodes |
| `Collected.FinalizeFirstChoices` | scripts/kconfig/kconfiglib.py:3671-3679 | in the final tree all conditions below a choice are n or have the choice as an AND operand, except below nested choices, which bind their own contents |
| `Collected.FinalizedPropagated` | scripts/kconfig/kconfiglib.py:3720-3759 | the configuration collected from a finalised tree has prompts that entail the direct dependencies, and no string, int or hex symbol is selected |
| `Collected.FinalizedMembers` | scripts/kconfig/kconfiglib.py:3905-3914 | each choice collected from a finalised tree limits the prompts of its symbols, and these depend on it |
| `Collected.SelectedValue` | scripts/kconfig/kconfiglib.py:3737-3747 | in the collected configuration a symbol is selected to at least v exactly if a menu node selects it under a condition of at least v and its own symbol has at least v |
| `MenuDeps.AcceptedForms` | scripts/kconfig/kconfiglib.py:6490-6515 | the comparisons taken for a dependency are those of the comment and, beyond it, `!= y` |
| `MenuDeps.AcceptedMeans` | scripts/kconfig/kconfiglib.py:6498-6511 | the listed forms are only true if the symbol is not n, and the other accepted comparisons are y if it is n |
| `MenuTree.Menu.FlattenLevel` | scripts/kconfig/kconfiglib.py:6527-6553 | the links and parents after flattening represent the flattened trees, and other nodes are untouched |
| `MenuTree.Menu.RemoveIfNodes` | scripts/kconfig/kconfiglib.py:6556-6579 | the links after the removal represent the trees without 'if's |
| `MenuTree.Menu.PropagateDeps` | scripts/kconfig/kconfiglib.py:3668-3718 | only the conditions of the children change, to the inherited ones |
| `MenuTree.Menu.ImplicitMenu` | scripts/kconfig/kconfiglib.py:3610-3627 | the siblings that depend on a symbol are finalised, become its children, and the rest follows the symbol |
| `ImplicitMenus.NestedKids` | scripts/kconfig/kconfiglib.py:6518-6525 | every node nested below a symbol has a condition, that of its prompt or else its dependency, of the accepted forms |
| `ImplicitMenus.MenuEndMeaning` | scripts/kconfig/kconfiglib.py:3610-3627 | the sibling behind an implicit menu has no such condition, and the menu is empty only if the first sibling has none |
| `ImplicitMenus.AllByPasses` | scripts/kconfig/kconfiglib.py:3587-3666 | the interleaved finalisation is propagation and nesting of implicit menus first and the clean-up of all levels after that |
| `ImplicitMenus.TreeByPasses` | scripts/kconfig/kconfiglib.py:3587-3666 | the same for the whole tree |
| `ImplicitMenus.CloseLevelLifts` | scripts/kconfig/kconfiglib.py:6527-6579 | the clean-up of a level, done along its links, moves the children of 'if's and of nodes without prompt up at every depth |
| `MenuTree.Menu.FinalizeNode` | scripts/kconfig/kconfiglib.py:3587-3666 | the links after finalisation represent the specified trees; every node of the input is finalised once, in definition order |
| `MenuTree.Menu.FinalizeTree` | scripts/kconfig/kconfiglib.py:3587-3666 | the whole tree: clean, in order, with right links, parents and conditions, each node finalised exactly once |
| `MenuTree.Menu.NodeIter` | scripts/kconfig/kconfiglib.py:1908-1957 | the stackless walk ends and yields every node below the top once, in definition order |
| `MenuOutput.ConfigContents` | scripts/kconfig/kconfiglib.py:1607-1657 | the walk that writes the file puts out exactly the text of the recursive description: headings, end comments, blank lines and symbol lines, with visibilities and values evaluated on the objects |
| `MenuOutput.ContentsNested` | scripts/kconfig/kconfiglib.py:1607-1657 | headings and '# end of' comments are properly nested, and each symbol comes at most once |
| `MenuOutput.EachWrittenOnce` | scripts/kconfig/kconfiglib.py:1636-1643 | each symbol of the tree that has a value to write is put out exactly once, and no other |
| `Headings.HeadingsOfWalk` | scripts/kconfig/kconfiglib.py:1612-1656 | which visited menus and comments have headings, and which menus '# end of' comments, by the values of their conditions |
| `Headings.TextMeaning` | scripts/kconfig/kconfiglib.py:1612-1656 | the text of each line, with the blank line of a symbol behind an '# end of' comment |
| `MenuOutput.WalkIsConfigLines` | scripts/kconfig/kconfiglib.py:1634-1652 | if symbols are numbered in definition order, the assignment lines of the walk are the lines of the round trips |
| `Reload.HeadingIgnoredIff` | scripts/kconfig/kconfiglib.py:1326-1340 | a heading leaves every state alone when it is loaded exactly if it does not read like the line of a bool or tristate symbol that is not set |
| `Reload.ContentsLoaded` | scripts/kconfig/kconfiglib.py:1249-1368 | if no heading does, loading the whole file has the effect of loading the symbol lines, in every state |
| `Reload.FileRoundTrip` | scripts/kconfig/kconfiglib.py:1584-1657 | so writing the whole file and loading it restores everything exactly under the conditions of the round trip of the symbol lines |
| `Reload.HeadingLoaded` | scripts/kconfig/kconfiglib.py:1652-1656 | a comment in the menu tree that unsets a symbol when the written file is loaded |
| `ExprParser.Parser.ParseExpr` | scripts/kconfig/kconfiglib.py:3390-3429 | the parser accepts and rejects what the grammar does, and the index stays in front of the terminator |
| `ExprParser.Parser.ParseFactorExpr` | scripts/kconfig/kconfiglib.py:3440-3474 | the same for factors, with m rewritten on request |
| `Precedence.Operators` | scripts/kconfig/kconfiglib.py:3390-3438 | && binds tighter than ||, and both group to the right |
| `Precedence.Factors` | scripts/kconfig/kconfiglib.py:3440-3474 | symbols, relations, negations and parentheses as factors |
| `ExprParser.NormIsExact` | scripts/kconfig/kconfiglib.py:3422-3429 | every expression has a right-nested normal form, and is its own exactly if no operator has itself as the left operand |
| `ExprParser.NormValue` | scripts/kconfig/kconfiglib.py:3417-3420 | the normal form has the same value |
| `ExprParser.NormOperands` | scripts/kconfig/kconfiglib.py:6177-6219 | the normal form has the same operands, in order |
| `ExprParser.PrintParse` | scripts/kconfig/kconfiglib.py:6106-6147 | parsing a printed expression gives its normal form and leaves exactly the terminator; the expression itself comes back exactly if it has no operator to the left of the same operator |
| `ExprParser.PrintParseMeaning` | scripts/kconfig/kconfiglib.py:6381-6386 | what is parsed back has the value and the operands of what was printed |
| `ExprParser.RewriteValueIff` | scripts/kconfig/kconfiglib.py:3450-3453 | rewriting m to m && MODULES preserves all values exactly if MODULES is not n |
| `Preprocessor.Expander.ExpandMacro` | scripts/kconfig/kconfiglib.py:2745-2805 | a macro ends in an error or is replaced by what it stands for; the text before it and behind it is untouched and the counters are restored |
| `Preprocessor.Expander.ExpandWhole` | scripts/kconfig/kconfiglib.py:2663-2676 | the same for all macros of a text |
| `Preprocessor.Expander.FnVal` | scripts/kconfig/kconfiglib.py:2807-2831 | calls of variables are guarded by their counters, which are restored on success |
| `MacroLaws.MacroInText` | scripts/kconfig/kconfiglib.py:2663-2676 | a macro in a text is replaced, and expansion goes on behind its expansion |
| `MacroLaws.CallMacro` | scripts/kconfig/kconfiglib.py:2745-2805 | `$(name,arg,...)` calls the name with the arguments in order |
| `MacroLaws.ArgumentMacro` | scripts/kconfig/kconfiglib.py:2783-2788 | `$(n)` is the n-th argument of the enclosing call, counted from the end if n is negative, and a name if there is none |
| `MacroLaws.ArgumentOfVariable` | scripts/kconfig/kconfiglib.py:2783-2788 | a variable with the value `$(n)` returns its n-th argument |
| `MacroLaws.ProtectedComma` | scripts/kconfig/kconfiglib.py:2762-2780 | matching parentheses protect commas |
| `MacroLaws.NestedMacro` | scripts/kconfig/kconfiglib.py:2794-2800 | a macro in an argument is expanded in place and not read again |
| `Preprocessor.MacroRest` | scripts/kconfig/kconfiglib.py:2792-2792 | what remains after a macro is a suffix of the text |
| `Preprocessor.MacroLower` | scripts/kconfig/kconfiglib.py:2816-2826 | the counters only turn results into errors and never change a result |
| `Preprocessor.CircularReference` | scripts/kconfig/kconfiglib.py:2816-2826 | variables that begin with references to each other in a circle raise the error, whatever is in expansion already |
| `SyncDeps.ReadRecord` | scripts/kconfig/kconfiglib.py:1842-1883 | reading auto.conf back gives exactly the recorded values |
| `SyncDeps.TouchesMeansChanged` | scripts/kconfig/kconfiglib.py:1802-1830 | the tests for one symbol amount to comparing recorded values, absent and n being the same for bool and tristate |
| `SyncDeps.Contents` | scripts/kconfig/kconfiglib.py:1899-1906 | the recorded lines, whatever was cached |
| `Outputs.RecordedValues` | scripts/kconfig/kconfiglib.py:1899-1906 | the recorded symbols and their values |
| `Outputs.OldNames` | scripts/kconfig/kconfiglib.py:1855-1883 | old values by type, with names that no longer exist remembered |
| `SyncDeps.Directory.Sync` | scripts/kconfig/kconfiglib.py:1792-1840 | touches exactly the symbols whose recorded value differs from the one at the previous sync |
| `SyncDeps.Directory.SyncAgain` | scripts/kconfig/kconfiglib.py:1798-1840 | a repeated sync touches nothing |

## Left out

- Warning and error messages, including the values that `_warn_select_unsatisfied_deps()` reads
  only to print them; only whether an error is raised is kept.
- File access, encodings, splitting files into lines, saving of old files. Files are sequences
  of lines; a carriage return inside a string value is not modelled.
- Prompts with newlines. The prompts of menus and comments are given by node. A header is any
  lines that are ignored when loaded.
- Tokenising, parsing of menu entries, help texts, options and `source`.
- Digits and blanks outside ASCII in `int()`.
- `option env` symbols and the defconfig_list symbol in round trips: they are never written
  (`PlainConfig`); evaluation and caching do cover them.
- Nodes of the menu tree are entries of one sequence that the methods update, and their fields
  are not separate heap objects.
- `_add_props_to_sym()` and `_finalize_choice()` as code on objects: `CollectedFrom` says what they
  collect from the final tree, without defaults, ranges and implies. `configdefault` nodes are
  not treated specially.
- The use of `_visited` for unique symbols in `node_iter()`; `ConfigContents` has it.
- `_expand_name()`, `_expand_str()` and assignments in the preprocessor; built-in and Python
  functions are arbitrary functions from arguments to a text or an error.
- `auto.conf` files written by hand or for other symbols: `Directory.Sync` starts from no record
  or one of its own.
- With choices, when the check raises a loop: that depends on where the search starts.
  `ChoiceLoopMissed` and `ChoiceLoopFound` show both outcomes for one loop.
- `autoconf.h`, `eval_string()`, `referenced`, printing of items, and the user interfaces.

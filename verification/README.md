# Verified model of the Kconfig engine, the OSAL checksums and two OSAL protocols

This project models, in Dafny, the parts of the repository whose correctness
is least obvious from reading them, and proves what they are for.

**The Kconfig engine (`scripts/kconfig`).** Dependencies are expressions in a
three-valued logic: n = 0, m = 1, y = 2, AND is the minimum, OR the maximum,
NOT is 2 - x.

- `Expressions`, `ExprEquality`, `ExprSelfEqual`, `ExprDups`,
  `ExprTransform`: the rewriters as
  functions on expressions, with meaning, normal forms and termination.
  `ExprRewriter` has them in the program's own form, with results passed by
  reference and one global change counter, and proves the two the same.
- `MenuDeps`: how conditions are handed down the menu tree, and the test that
  moves an entry into an automatic submenu. `MenuTree`: the relinking itself,
  on linked objects in the heap, and the walk over the tree.
- `Symbols`, `DepCheck`: the dependency graph and the search for cycles.
- `SymMeaning`, `SymPromises`, `SymCalc`: what every symbol means without caches,
  what its definition promises, and the evaluator with its caches, marks and user
  values, proved to agree.
- `Lists`, `Choice`, `ChoiceOrder`: the circular list and the resolution of
  choices.
- `Preprocess`, `Expansion`: macro expansion and its laws. `Confdata`,
  `ConfdataFormat`: the `.config` format.

**Checksums.** `Checksums` holds what is true of any such checksum;
`CrcBits`, `CrcRegisters`, `CrcTables`, `Crc` the three polynomials (0x1021, 0xA001,
0xEDB88320) and both tables; `CrcCheck` their check values; `CrcForms.dfy` the loops of the kernel, of user
space and of the shared-memory cache. CRC-32 is the code of section 8 of
RFC 1952; CRC16-MODBUS follows section 6.2.2 of the MODBUS over Serial Line
Specification V1.02.

**Protocols.** `Threads`: who frees a thread's control block. `Rwlock`: the
writer flag of the reader-writer lock. Both are step systems in which any
number of callers run interleaved, one step for each locked section or atomic
operation.

## Assumptions

- Expression nodes are never changed once built and the node table holds one
  node per content, so comparing node pointers is comparing values.
- Assignments are well typed: a boolean is never m, a symbol that is neither
  boolean nor tristate is n as an operand, and a boolean or tristate compared
  with a literal compares its number 0, 1, 2 with the number the literal reads
  as, or is unequal if it reads as none. `SymMeaning.MeaningIsValuation` proves
  that computed values are such an assignment. How other texts compare is
  one abstract three-way result per pair.
- Environment variables, shell output, file name and line number are
  parameters of the expansion; a file is a string.
- A choice's members, visibilities and default conditions are parameters of its
  resolution; what `sym_calc_visibility` would compute is a function.
- Threads: join and detach are called only on threads created joinable, and one
  call at most is begun on a handle. Nothing weaker is enough, as
  `Threads.MisuseOtherwise` proves. Lock: a thread unlocks only what it holds.
  Memory is sequentially consistent.

## Where the code departs from what it promises

- `expr_join_and` takes different constants for unequal values (expr.c:423-436),
  but a literal such as `"2"` compares equal to y. `ExprDups.TwoTestsExact` says
  exactly when the rule changes a value.
- expr.c:649 applies a rule to `left.expr` of a comparison, where the node holds
  a symbol. `Transform` follows the rule documented at lines 573 and 618,
  `A!=y -> !A`; `ExprTransform.AsWrittenExact` says exactly for which expressions
  the code does too, `UnequalYesFails` being the smallest where it does not.
- `expr_trans_compare` treats `!A` as if A were never m (815-816), takes the text
  of any operand for its value, so that an undefined FOO, which is n, passes for
  `FOO!=n`, and with m as the constant leaves && and || as they are.
  `ExprTransform.TransCompareExact` and `TransCompareModExact` characterise all of
  this; two examples show what it means for automatic submenus.
- The defaults of a choice are not checked for membership when it is resolved
  (symbol.c:272-379). A default naming a visible foreign symbol can leave no
  member at y, `Choice.ForeignDefaultLeavesNone` being the smallest case;
  `Choice.ResolvedExactlyOne` says exactly when.
- The printer does not escape newlines, which the reader takes for line ends
  (confdata.c:566-636).
- For a null pointer the kernel's CRC32 is 0xFFFFFFFF and the one of user space
  is 0.
- The title of a menu or comment is written behind `# ` as it is, and one that
  reads `CONFIG_X is not set` is read back as a setting.
- Any second join or detach call on a handle, and any first one on a thread
  created detached, can touch or free its block after it was freed
  (osal_thread.c:86-209).

## Model

| member | source | states |
|---|---|---|
| `ExprEquality.ExprEqSound` | scripts/kconfig/expr.c:207-254 | When `expr_eq` answers true, the two expressions have the same value under every assignment in which y, m and n mean themselves |
| `ExprEquality.ExprEqOptSound` | scripts/kconfig/expr.c:207-254 | The same where either expression is missing, which counts as y |
| `ExprEquality.EliminateEqOrder` | scripts/kconfig/expr.c:101-199 | Cancelling common operands of two expressions, including one && and one \|\|, never invents an order: whatever order the remainders have, the originals already had |
| `ExprEquality.EliminateEqOptOrder` | scripts/kconfig/expr.c:179-199 | The same where either expression is missing |
| `ExprEquality.CancelMeaning` | scripts/kconfig/expr.c:101-148 | All operands cancelled on the two sides amount to one and the same operand taken out of both |
| `ExprEquality.EliminatedToYesIsWeaker` | scripts/kconfig/menu.c:444-452 | The superset test: once elimination has reduced the second expression to y, the original first one is nowhere above the original second one |
| `ExprEquality.EliminateYnMeaning` | scripts/kconfig/expr.c:267-308 | Dropping y and n operands keeps the value |
| `ExprSelfEqual.CancelIsRows` | scripts/kconfig/expr.c:101-148 | The recursion over two trees, both rewritten as it goes, is the double loop over their rows of operands, in order |
| `ExprSelfEqual.ExprEqReflexive` | scripts/kconfig/expr.c:207-254 | Every expression is recognised as equal to itself: each operand meets its twin before any other it could cancel, and the y and n that remain simplify to the same symbol |
| `ExprSelfEqual.SharedOperandGone` | scripts/kconfig/expr.c:101-199 | An expression that is an operand of the other one is taken out of both, on whichever side it stands: it becomes y for &&, n for \|\| |
| `ExprRewriter.Rewriter.EliminateEqInPlace` | scripts/kconfig/expr.c:182-198 | For two expressions that are there: the by-reference form yields the two remainders and raises the global counter by exactly the number of cancelled pairs |
| `ExprRewriter.Rewriter.EliminateEqOrAbsent` | scripts/kconfig/expr.c:179-199 | The whole function: nothing is rewritten or counted when one expression is missing |
| `ExprRewriter.Rewriter.Equal` | scripts/kconfig/expr.c:219-254 | For two expressions that are there: the equality test, run by rewriting copies, gives its answer and leaves the global counter as it found it; the mutual recursion with the elimination terminates |
| `ExprRewriter.Rewriter.EqualOrAbsent` | scripts/kconfig/expr.c:207-254 | The whole function: a missing expression equals y and nothing else |
| `ExprRewriter.Rewriter.JoinInPlace` | scripts/kconfig/expr.c:479-524 | The by-reference pass over all operand pairs yields both rewritten sides and counts the joins in the global counter |
| `ExprRewriter.Rewriter.EliminateDups` | scripts/kconfig/expr.c:537-561 | The repeat-until-quiet loop terminates for every expression, although the recursive calls use the same global counter, which is restored; its result is that of the function whose properties follow |
| `ExprDups.Dups` | scripts/kconfig/expr.c:537-561 | The result is a single y or n, or has no y or n operand anywhere in its && / \|\| skeleton; it never has more operands than the input, and fewer if the input was not of that shape |
| `ExprDups.JoinOperandsShrinks` | scripts/kconfig/expr.c:479-524 | One pass adds no operand; a pass that joins leaves a y or n behind for the simplification, one that does not changes nothing |
| `ExprDups.DupsSettled` | scripts/kconfig/expr.c:479-561 | In the result no operand of one side of a node can be joined with any operand of its other side |
| `ExprDups.DupsIdempotent` | scripts/kconfig/expr.c:537-561 | Running it again changes nothing |
| `ExprSelfEqual.RepeatedJoined` | scripts/kconfig/expr.c:313-400 | A repeated operand is always joined, whatever it is |
| `ExprDups.JoinMeaning` | scripts/kconfig/expr.c:313-470 | Every rule of `expr_join_or` and `expr_join_and`: the joined expression is worth the two operands together, given that a tristate symbol tested against a literal reading as 0, 1 or 2 is tested against no other constant |
| `ExprDups.JoinOperandsMeaning` | scripts/kconfig/expr.c:479-524 | While both sides are rewritten in place, `e1 op e2` keeps its value, under the same condition |
| `ExprDups.DupsMeaning` | scripts/kconfig/expr.c:537-561 | The value is kept under every well-typed assignment, for expressions in which a tristate symbol tested against a literal reading as 0, 1 or 2 is tested against no other constant |
| `ExprDups.EqualUnequalExact` | scripts/kconfig/expr.c:423-436 | The rule `a=b && a!=c -> a=b` for constants is right under every well-typed assignment if and only if b and c are not two constants comparing as one tristate value |
| `ExprDups.TwoTestsExact` | scripts/kconfig/expr.c:423-561 | The whole loop keeps the value of `A=b && A!=c`, for constants b and c, under every well-typed assignment if and only if they do not compare as one tristate value |
| `ExprDups.DisguisedConstantChangesValue` | scripts/kconfig/expr.c:423-436 | Where it is wrong: `A="2" && A!=y` is n for A = y, and becomes `A="2"`, which is y |
| `ExprTransform.Transform` | scripts/kconfig/expr.c:593-711 | As documented, it terminates although De Morgan's laws build a larger term: the weight that counts a negation as doubling never grows |
| `ExprTransform.AsWrittenExact` | scripts/kconfig/expr.c:593-711 | The code as written follows the documented rules, and so everything stated of `Transform` holds of it, if and only if no boolean is tested with `!= y` anywhere in the expression |
| `ExprTransform.TransformMeaning` | scripts/kconfig/expr.c:593-711 | The value is kept under every well-typed assignment (of the documented rules, so of the code where `AsWrittenExact` says) |
| `ExprTransform.TransformNormal` | scripts/kconfig/expr.c:573-592 | Afterwards negation stands only directly above symbols other than y, m, n, and no boolean is compared with these (of the documented rules, so of the code where `AsWrittenExact` says) |
| `ExprTransform.TransformIdempotent` | scripts/kconfig/expr.c:593-711 | A second application changes nothing, and the expressions left unchanged are exactly those in that form (of the documented rules, so of the code where `AsWrittenExact` says) |
| `ExprTransform.TransCompareMeaning` | scripts/kconfig/expr.c:784-846 | With booleans and tristates as operands, `e=y`, `e!=y`, `e=n`, `e!=n` are translated rightly when no negated operand has the value m |
| `ExprTransform.TransCompareDecided` | scripts/kconfig/expr.c:784-846 | With such operands they are translated rightly whenever the expression itself is y or n, whatever is negated inside |
| `ExprTransform.TransCompareExact` | scripts/kconfig/expr.c:784-846 | For every expression, with operands of any type: these translations are right if and only if `Right` holds, a condition on the operands: a symbol has to read as its value, a negated m is right where its operand is wrong, and && and \|\| need all operands answered rightly unless one decides |
| `ExprTransform.RightOfTristates` | scripts/kconfig/expr.c:784-846 | What that condition comes to for booleans and tristates: only at m can it fail, and there by one rule each for negation and the two kinds of operators |
| `ExprTransform.TransCompareNotExact` | scripts/kconfig/expr.c:815-816 | A negation at the top of an operand that is translated rightly is itself so if and only if the operand is not m |
| `ExprTransform.TransCompareModExact` | scripts/kconfig/expr.c:784-846 | Comparison with m, for every expression: right if and only if `RightForMod`; && and \|\| only at n, negated ones only at y, a double negation as what it negates, a negated symbol or comparison never where the plain one is right |
| `MenuDeps.RewriteMMeaning` | scripts/kconfig/menu.c:104-128 | The rewritten condition means what the author wrote with m read as m && MODULES |
| `MenuDeps.PropagateAsWritten` | scripts/kconfig/menu.c:320-328 | The transformation of a condition to be handed down is that of the code if and only if the condition tests no boolean with `!= y` |
| `MenuDeps.PropagateMeaning` | scripts/kconfig/menu.c:320-328 | Rewriting, combining with the parent's condition, transforming and de-duplicating together yield the lesser of the two conditions, where their constant tests do not clash and, for the code, where `PropagateAsWritten` says |
| `MenuDeps.PathDepMeaning` | scripts/kconfig/menu.c:320-396 | After conditions have been handed down any number of levels, an entry's condition is worth the least of all conditions on the path to it, under the same two provisos |
| `MenuDeps.DependsMeaning` | scripts/kconfig/expr.c:741-768 | An expression that depends on a symbol is n whenever the symbol is n |
| `MenuDeps.DependsExactly` | scripts/kconfig/expr.c:741-768 | It depends on a symbol if and only if one operand of its outermost && is the symbol, its test for y or m, or its test for not n |
| `MenuDeps.DependentTaken` | scripts/kconfig/menu.c:424-433 | Such an entry enters the automatic submenu, whatever the prompt of the symbol depends on |
| `MenuDeps.UnrelatedLeft` | scripts/kconfig/menu.c:424-429 | An entry in whose condition the symbol does not occur does not |
| `MenuDeps.SupersetTaken` | scripts/kconfig/menu.c:435-452 | Both sides of the superset test: with S depending on R, an entry on `(S \|\| Q) && R` enters, one on `S \|\| Q` does not |
| `MenuDeps.InSubmenuSound` | scripts/kconfig/menu.c:420-457 | An entry moved into the automatic submenu of a boolean or tristate symbol is on only while the symbol or its prompt is, wherever the conditions of the two are translated rightly in the sense of `TransCompareExact` |
| `MenuDeps.IsOnExact` | scripts/kconfig/menu.c:420-422 | The simplified `e != n` that is compared says whether e is on, if and only if its translation is right |
| `MenuDeps.InSubmenuOfDecided` | scripts/kconfig/menu.c:420-457 | With booleans and tristates as operands that covers every assignment in which the entry is y |
| `MenuDeps.ModuleBehindNegation` | scripts/kconfig/menu.c:420-457 | Where it goes wrong by the value m: an entry depending on `!A && (S \|\| Q)` enters the submenu of S, whose prompt depends on `A=n`; with A = m it is on although S and its prompt are not |
| `MenuDeps.UndefinedBehindNegation` | scripts/kconfig/menu.c:420-457 | Where it goes wrong by an undefined symbol: the same with FOO, which is n but whose text is not "n"; the entry is y, S and its prompt are n |
| `MenuTree.Flatten` | scripts/kconfig/menu.c:466-505 | Lifting the children of entries without prompt text keeps the depth-first order of the entries |
| `MenuTree.FlattenTidy` | scripts/kconfig/menu.c:466-505 | Afterwards only entries with a prompt text have children on that level |
| `MenuTree.FlattenKeeps` | scripts/kconfig/menu.c:466-505 | An entry with a prompt text keeps its place on the level, with all its children |
| `MenuTree.AbsorbedExactly` | scripts/kconfig/menu.c:424-457 | The automatic submenu takes the entries up to the first one that fails the test, and no more |
| `MenuTree.FinalizedHead` | scripts/kconfig/menu.c:395-462 | Finalising a childless symbol's entry outside a choice does not stop before an entry that passes the test; finalising any other entry leaves the entries behind it alone |
| `MenuTree.Finalized` | scripts/kconfig/menu.c:305-515 | Finalising an entry, which may take over entries following it, keeps the depth-first order of the whole level, whatever the tests answer |
| `MenuTree.FinalizedTidy` | scripts/kconfig/menu.c:305-515 | Below a finalised entry only entries with a prompt text have children, on every level |
| `MenuTree.Finalize` | scripts/kconfig/menu.c:305-515 | Relinking `list`, `next` and `parent` in place while the tree is walked ends in exactly the links of the finalised level: every child points to its parent, every entry to its successor; which entries that level has and which have submenus is what `FinalizedHead` and `FinalizedKept` say |
| `MenuTree.FinalizedKept` | scripts/kconfig/menu.c:395-505 | The first child of every entry is the one the tree before promises: its own, or the entry behind a childless symbol outside a choice if that passes the test |
| `MenuTree.FlattenLevel` | scripts/kconfig/menu.c:466-505 | The pointer loop that lifts children leaves the links of the flattened level |
| `MenuTree.Absorb` | scripts/kconfig/menu.c:424-462 | The loop that builds an automatic submenu cuts the accepted entries off the level and hangs them below the symbol's entry, losing and sharing none |
| `MenuTree.FinalizeRoot` | scripts/kconfig/menu.c:517-520 | The tree has the same entries in the same depth-first order before and after, none lost or duplicated; all links are right; and `list` of every entry is told by the links before: null without a prompt text, else as it was, else, for a childless symbol outside a choice, the entry behind it if and only if that passes the test |
| `MenuTree.MenuNext` | scripts/kconfig/menu.c:28-40 | From any entry below the root of any subtree, or of the whole tree when the root is NULL: the next one in depth-first order, or null exactly when none is left |
| `MenuTree.Walk` | scripts/kconfig/menu.c:28-40 | Repeated from any entry, it visits every entry below that exactly once, in depth-first order, and leaves its subtree for no other |
| `MenuTree.SubtreeAt` | scripts/kconfig/menu.c:28-40 | Every entry of a linked level is the root of such a subtree |
| `DepCheck.Checker.CheckDeps` | scripts/kconfig/symbol.c:1307-1336 | A symbol returned lies on a real dependency cycle that the argument reaches; null means the argument and all it depends on are finished, in dependency order |
| `DepCheck.Checker.CheckSymDeps` | scripts/kconfig/symbol.c:1214-1259 | The same for all that a symbol depends on; marks and stack are as before |
| `DepCheck.Checker.CheckExprDeps` | scripts/kconfig/symbol.c:1179-1211 | The same for all symbols of an expression |
| `Symbols.DepsExactly` | scripts/kconfig/symbol.c:1214-1259 | The dependencies of the graph: t is one of s if and only if it occurs in the direct, reverse or implied dependency of s, in the condition of a property other than a select or imply, or in the value of a default |
| `Symbols.SelectsNotFollowed` | scripts/kconfig/symbol.c:1239-1241 | Whatever is selected or implied, dependencies and cycles are the same |
| `DepCheck.Checker.CheckAll` | scripts/kconfig/parser.y:599-619 | No error is counted if and only if nothing the menu symbols reach lies on a dependency cycle; then every symbol follows all it depends on |
| `Symbols.OrderedAllAcyclic` | scripts/kconfig/symbol.c:1307-1336 | Such an order excludes every cycle below the symbols in it |
| `SymMeaning.MeaningsEquation` | scripts/kconfig/symbol.c:411-549 | Along a dependency order there is one value for every symbol, and together the values satisfy the recursive definition |
| `SymMeaning.MeaningIsValuation` | scripts/kconfig/symbol.c:411-549 | These values form a well-typed assignment: a boolean is never m, and comparisons agree with values; so the theorems on expressions apply to them |
| `SymMeaning.ValueBounds` | scripts/kconfig/symbol.c:433-505 | For every boolean or tristate symbol: selects force the value, a user value behind a visible prompt bounds it from both sides, implies raise it within the dependencies, what nothing enables is n, and m never reaches a boolean |
| `SymPromises.DefaultValue` | scripts/kconfig/symbol.c:478-505 | A boolean or tristate without a counting user value has the lesser of value and condition of its first active default, n without one, raised by implies within the dependencies and by selects |
| `SymPromises.DefaultText` | scripts/kconfig/symbol.c:508-525 | A string, int or hex symbol has its user text while its prompt is visible, else the text of the symbol its first active default names, else that of one nothing sets |
| `SymPromises.VisibilityMeaning` | scripts/kconfig/symbol.c:212-264 | A symbol is as visible as the best of its prompts, m only where it can be m; missing dependencies are y, missing selects and implies n |
| `SymMeaning.StepLocal` | scripts/kconfig/symbol.c:212-264 | A symbol's value and visibility depend only on the symbols that the cycle check follows, and on its own user value |
| `SymCalc.Evaluator.CalcExpr` | scripts/kconfig/expr.c:891-978 | The cached value of an expression is its meaning under the uncached values |
| `SymCalc.Evaluator.CalcVisibility` | scripts/kconfig/symbol.c:212-264 | The four stored conditions are those the uncached values give |
| `SymCalc.Evaluator.CalcValue` | scripts/kconfig/symbol.c:411-549 | Never entered for a symbol being computed; every value marked valid, here and as a side effect elsewhere, is the uncached one, of which `DefaultValue`, `DefaultText` and `ValueBounds` say what it is; terminates |
| `SymCalc.Evaluator.ClearAllValid` | scripts/kconfig/symbol.c:551-560 | After invalidation nothing but the constants is taken from a cache |
| `SymCalc.Evaluator.SetTristateValue` | scripts/kconfig/symbol.c:562-596 | Refused if and only if the user cannot choose, the prompt not reaching above the selects, or recomputation would not yield the value; else the recomputed value is exactly the one set, and every symbol that does not depend on it keeps its value; the caches are right even when they are not cleared |
| `SymMeaning.SettingHonoured` | scripts/kconfig/symbol.c:562-596 | On an acyclic graph an accepted setting is what recomputation yields, through visibility, select and MODULES promotion |
| `SymPromises.AcceptedExactly` | scripts/kconfig/symbol.c:562-577 | The range test accepts just the values that the user can choose and that recomputation would yield |
| `SymMeaning.OthersKeepTheirValue` | scripts/kconfig/symbol.c:579-596 | Changing one user value changes only symbols that depend on that symbol |
| `SymMeaning.SameValueSameCaches` | scripts/kconfig/symbol.c:589-593 | Setting a symbol to the value it already has changes no symbol's value, so skipping the invalidation is safe |
| `Choice.ChoiceMenu.FindDefault` | scripts/kconfig/symbol.c:272-295 | The default of a choice: first applicable default, else first visible entry |
| `Choice.ChoiceMenu.CalcChoice` | scripts/kconfig/symbol.c:304-379 | The member found by user value, accepted default, first unset entry or last visible member, in that order; if any member is visible, never two visible ones end at y, and exactly one does if and only if no foreign default can be told before the call |
| `ChoiceOrder.ScanFirst` | scripts/kconfig/symbol.c:310-318 | The member wanted by the user is the first visible one on the priority list with the user value y |
| `ChoiceOrder.ChosenByRank` | scripts/kconfig/symbol.c:319-357 | Without one: the default, of the first condition and visible symbol or else the first visible entry, unless set to n; else the first visible entry without a user value; else the last visible one on the list |
| `Choice.ChosenIsMember` | scripts/kconfig/symbol.c:304-379 | With a visible member there is always a visible result, and it is a member if and only if not: no visible member is y by the user, and the first active default names a symbol outside the choice that the user has not set to n |
| `Choice.ResolvedExactlyOne` | scripts/kconfig/symbol.c:304-379 | Never two visible members at y; one if and only if that same condition on the state before the call fails |
| `Choice.ForeignDefaultTold` | scripts/kconfig/symbol.c:272-333 | That condition, which only reads the state before, is what the scan and the search for a default come to |
| `Choice.OwnDefaultsSuffice` | scripts/kconfig/symbol.c:272-379 | So if all defaults name members, exactly one visible member ends at y whenever any is visible |
| `Choice.ChoiceMenu.SetValue` | scripts/kconfig/symbol.c:604-639 | The visible members get user values y and n, each moves to the front in turn; recomputation is asked for exactly when some value differs |
| `Choice.SetPriorityPermutes` | scripts/kconfig/symbol.c:604-639 | However entries repeat, the priority list stays a permutation of the members |
| `ChoiceOrder.SetPriorityOrder` | scripts/kconfig/symbol.c:604-639 | After a setting the visible entries stand at the front of the list, the last one first, and the other members follow in their old order |
| `Choice.SetThenChosen` | scripts/kconfig/symbol.c:604-639 | After a visible member has been set it is what the choice resolves to |
| `Choice.SetAndResolve` | scripts/kconfig/symbol.c:304-379 | Setting and resolving leaves exactly the set member at y among the visible ones |
| `Lists.ListMove` | scripts/include/list.h:165-169 | On the circular list the entry comes right behind the head and the others keep their order; all links are consistent |
| `Lists.ListDel` | scripts/include/list.h:106-115 | Without the entry the others still form a ring in the same order |
| `Lists.ListAdd` | scripts/include/list.h:63-84 | The new entry stands right behind the head of a ring |
| `Lists.MoveToFrontPermutes` | scripts/include/list.h:165-169 | Moving an entry to the front loses and duplicates none |
| `Preprocess.ExpandText` | scripts/kconfig/preprocess.c:502-544 | Expansion of every string under every set of recursive variables terminates, with a text or a refusal; what is left over is a suffix of the input, empty unless a token was asked for |
| `Expansion.PlainText` | scripts/kconfig/preprocess.c:502-544 | A text without a dollar sign stands for itself |
| `Expansion.TextBefore` | scripts/kconfig/preprocess.c:502-544 | The text before a reference stays in front of the expansion of the rest |
| `Expansion.Reference` | scripts/kconfig/preprocess.c:460-544 | A reference is replaced by the value of its clause, and expansion goes on behind it; what fails there fails the whole |
| `Expansion.ArgumentReference` | scripts/kconfig/preprocess.c:350-371 | `$(1)` is the first argument, `$(2)` the second one, for every decimal numeral up to the number of arguments |
| `Expansion.TwoArguments` | scripts/kconfig/preprocess.c:350-544 | A value naming two arguments has them in the order in which it names them, its text in between |
| `Expansion.CutJoined` | scripts/kconfig/preprocess.c:372-403 | Cutting arguments that were joined by commas gives them back |
| `Expansion.VariableValue` | scripts/kconfig/preprocess.c:255-281 | The first variable of a name counts, before functions and environment: a simple one as it is, a recursive one expanded with just the arguments of the call, refused when under way too often or, without arguments, at all |
| `Expansion.FunctionCall` | scripts/kconfig/preprocess.c:350-446 | The clause of a call `name,a,b` of a user function has its value expanded with a and b as value |
| `Expansion.SimpleReference` | scripts/kconfig/preprocess.c:255-281 | `$(name)` of a simple variable is its value |
| `Expansion.SelfReferenceRefused` | scripts/kconfig/preprocess.c:255-281 | A recursive variable that refers to itself is refused |
| `Expansion.FunctionValue` | scripts/kconfig/preprocess.c:117-228 | Each built-in function takes just so many arguments and gives just this text |
| `Preprocess.Preprocessor.ExpandString` | scripts/kconfig/preprocess.c:502-544 | The cursor-and-buffer loop computes that expansion, and a successful one restores every `exp_count` |
| `Preprocess.Preprocessor.ExpandReference` | scripts/kconfig/preprocess.c:460-495 | The same for a dollar reference with nested parentheses |
| `Preprocess.Preprocessor.EvaluateClause` | scripts/kconfig/preprocess.c:350-446 | The same for a clause: an argument number, or name and arguments expanded from left to right, at most 16; what these come to is what the laws of `Expansion` say |
| `Preprocess.Preprocessor.ExpandVariable` | scripts/kconfig/preprocess.c:255-281 | The same for a variable or function call; the counter goes up for the time of the expansion only |
| `Preprocess.BudgetFalls` | scripts/kconfig/preprocess.c:255-281 | Entering a variable within its limit lowers the sum of what the counters leave by exactly one |
| `Preprocess.ExpandTextFewer` | scripts/kconfig/preprocess.c:255-281 | The counters decide only whether an expansion succeeds, never what it yields: with fewer expansions under way the result is the same |
| `Preprocess.CloseParenFirst` | scripts/kconfig/preprocess.c:460-495 | The parenthesis found is the first one that balances |
| `Preprocess.SplitJoin` | scripts/kconfig/preprocess.c:372-403 | The arguments, joined with commas, are the text that was cut |
| `Preprocess.SplitCuts` | scripts/kconfig/preprocess.c:372-403 | No argument contains a comma outside parentheses |
| `Confdata.UnescapeEscape` | scripts/kconfig/confdata.c:257-279 | Unescaping the escaped text gives the text back and stops at the closing quote |
| `Confdata.EscapeStringValue` | scripts/kconfig/confdata.c:566-606 | The buffer, whose length is computed beforehand, is filled exactly: quote, escaped text, quote, NUL |
| `Confdata.UnescapeInPlace` | scripts/kconfig/confdata.c:257-279 | The loop that moves the rest of the buffer over each backslash leaves the unescaped text, NUL-terminated, or reports a missing quote |
| `Confdata.ValueRoundTrip` | scripts/kconfig/confdata.c:237-298 | The text printed for a value of the symbol's type is read as that value |
| `Confdata.LineRoundTrip` | scripts/kconfig/confdata.c:610-636 | A printed line, also `# ... is not set`, is read as its own name and value |
| `ConfdataFormat.ParseLineExactly` | scripts/kconfig/confdata.c:412-443 | A line sets a symbol if and only if it is an assignment with the prefix, or the prefixed name in `# ... is not set` |
| `ConfdataFormat.ParseValueExactly` | scripts/kconfig/confdata.c:237-298 | What is stored has the type of the symbol; for booleans and tristates the first letter alone decides, a number is stored if and only if it is valid |
| `ConfdataFormat.IntValidExactly` | scripts/kconfig/symbol.c:671-712 | An int is valid if and only if it is a decimal numeral without leading zeros, with or without a minus sign |
| `Confdata.FileRoundTrip` | scripts/kconfig/confdata.c:320-487 | A written file with headings and blank lines, read line by line, stores the printed settings and nothing else, but for headings in the form of a line that unsets a symbol, which do so |
| `Confdata.EverySettingRestored` | scripts/kconfig/confdata.c:320-487 | With distinct names a written symbol has its value back if and only if that is n or no heading behind it has the form of a line that unsets it |
| `Confdata.HeadingLosesSetting` | scripts/kconfig/confdata.c:853-856 | Such a heading: behind a boolean or tristate X, an entry with the title `CONFIG_X is not set` sets X to n |
| `Confdata.StringSurvivesExactly` | scripts/kconfig/confdata.c:566-636 | A string value survives writing and reading if and only if it contains no newline; otherwise the symbol is left without a value |
| `Confdata.ReadSimple` | scripts/kconfig/confdata.c:320-487 | The line-reading loop stores what the lines say, later ones over earlier ones |
| `ConfdataFormat.LineEnds` | scripts/kconfig/confdata.c:301-318 | Lines ending in carriage return and newline read like lines ending in a newline |
| `Checksums.BurstDetected` | kernel/osal/src/util/osal_crc.c:7-91 | Any checksum whose step is invertible and tells rows of n pieces apart detects every error within n consecutive pieces, in messages of any length |
| `Checksums.AddedAtOnce` | kernel/osal/src/util/osal_crc.c:7-91 | Bits taken in one by one are bits added to the register side by side, followed by all the steps |
| `Checksums.BitBurstDetected` | kernel/osal/src/util/osal_crc.c:7-91 | A register that holds n bits detects every error within n consecutive bits, wherever in its bytes it begins |
| `Checksums.FoldConcat` | kernel/osal/src/util/osal_crc.c:7-29 | A checksum over a concatenation is that of the second part, continued from the first |
| `Crc.CcittDetects` | kernel/osal/src/util/osal_crc.c:7-40 | CRC16-CCITT, from any start: two messages of equal length that differ only within 16 consecutive bits, byte boundaries or not, have different checksums |
| `Crc.ModbusDetects` | kernel/osal/src/util/osal_crc.c:42-66 | The same for CRC16-MODBUS, in its own bit order |
| `Crc.Crc32Detects` | kernel/osal/src/util/osal_crc.c:68-92 | The same for CRC32 and 32 consecutive bits |
| `Crc.BytesDetected` | kernel/osal/src/util/osal_crc.c:7-91 | In particular errors within 2 consecutive bytes for both CRC16s, and 4 for CRC32 |
| `CrcCheck.CcittCheck` | kernel/osal/src/util/osal_crc.c:7-39 | The published check value: "123456789" gives 0x29B1 |
| `CrcCheck.ModbusCheck` | kernel/osal/src/util/osal_crc.c:42-65 | "123456789" gives 0x4B37 |
| `CrcCheck.Crc32Check` | kernel/osal/src/util/osal_crc.c:68-91 | "123456789" gives 0xCBF43926 |
| `CrcCheck.NoBytes` | kernel/osal/src/util/osal_crc.c:7-91 | Without a byte the CRC16s give their start, as for a null pointer, and CRC32 gives 0 |
| `Crc.CcittContinued` | user/osal/src/osal_crc.c:110-123 | Two successive updates are one update over both parts |
| `CrcTables.CcittEntry` | user/osal/src/osal_crc.c:9-39 | Each of the 256 literals is what eight bit steps make of its index |
| `CrcTables.Crc32Entry` | user/osal/src/osal_crc.c:42-86 | Each of the 256 literals is what eight bit steps make of its index |
| `Crc.CcittTableStep` | user/osal/src/osal_crc.c:101 | One table look-up per byte equals the eight bit steps |
| `Crc.Crc32TableStep` | user/osal/src/osal_crc.c:166 | One table look-up per byte equals the eight bit steps |
| `KernelCrc.CcittUpdate` | kernel/osal/src/util/osal_crc.c:7-29 | The nested bit loops compute the CCITT fold from any start; a null pointer gives the start back |
| `KernelCrc.Ccitt16` | kernel/osal/src/util/osal_crc.c:32-39 | The same from 0xFFFF, also for a null pointer |
| `KernelCrc.Modbus16` | kernel/osal/src/util/osal_crc.c:42-65 | The nested bit loops compute the MODBUS fold from 0xFFFF (user space has the same loop) |
| `KernelCrc.Sum32` | kernel/osal/src/util/osal_crc.c:68-91 | The nested bit loops compute CRC32; a null pointer gives 0xFFFFFFFF |
| `UserCrc.CcittUpdate` | user/osal/src/osal_crc.c:110-123 | The table-driven loop computes the same function as the kernel's bit loops, for every byte string and start |
| `UserCrc.Ccitt16` | user/osal/src/osal_crc.c:91-105 | The same from 0xFFFF |
| `UserCrc.Sum32` | user/osal/src/osal_crc.c:156-170 | The table-driven loop computes the same CRC32 as the kernel for every byte string; a null pointer gives 0, unlike the kernel |
| `ShmCache.Sum32` | user/osal/src/ipc/osal_shm_cache.c:52-65 | The masked form computes the same CRC32 |
| `Threads.StepKeepsInv` | kernel/osal/src/sys/osal_thread.c:86-209 | Completion, exit, and a join or detach whose caller respects the handle keep the ownership invariant, interleaved in any way |
| `Threads.BlockFreedOnce` | kernel/osal/src/sys/osal_thread.c:86-237 | If the thread was created joinable and a call is begun only as the first one ever, then in every run the block is freed at most once and not touched afterwards; it has been freed exactly when the thread is finished, was joined or detached, and no one is about to free it; a join that returned gave the thread's result |
| `Threads.MisuseOtherwise` | kernel/osal/src/sys/osal_thread.c:86-237 | That condition is exact: from every state such callers can reach in which the thread was created detached or a call has begun, some schedule makes the next call use the block after it was freed |
| `Threads.FreeIsPossible` | kernel/osal/src/sys/osal_thread.c:86-237 | A finished thread that was joined or detached always has someone able to free its block |
| `Threads.OverlappingDetachFreesTwice` | kernel/osal/src/sys/osal_thread.c:187-209 | One such run: two overlapping detach calls on a completed joinable thread both free the block |
| `Threads.CreatedDetachedFreesTwice` | kernel/osal/src/sys/osal_thread.c:86-209 | Another: the first detach call on a thread created detached, while it completes |
| `Rwlock.StepKeepsInv` | kernel/osal/src/ipc/osal_rwlock.c:30-96 | Every atomic step of lock, try-lock and unlock keeps the invariant on flag and semaphore |
| `Rwlock.UnlockReleasesWhatIsHeld` | kernel/osal/src/ipc/osal_rwlock.c:82-96 | In every run flag 1 means a writer holds the lock, a reader holding it means flag 0, and the one unlock call releases the semaphore the way it was taken |
| `Rwlock.WriterExcludes` | kernel/osal/src/ipc/osal_rwlock.c:41-79 | While a writer has the semaphore nobody else does |
| `Rwlock.Admission` | kernel/osal/src/ipc/osal_rwlock.c:30-79 | In every reachable state a reader is let in if and only if no writer has the semaphore, a writer if and only if nobody has |
| `Rwlock.AllOut` | kernel/osal/src/ipc/osal_rwlock.c:82-96 | The lock is never stuck: from every such state all that are inside can leave, and then the semaphore is free and the flag 0 |

## Left out

- ExprTransform.Transform: what node the code builds at expr.c:649 from a symbol taken for an expression is not modelled; `TransformAsWritten` ends there.
- ExprDups.DupsMeaning: the condition on constant tests is sufficient for a whole expression and exact for the two-test expressions that the rule is about; some expressions with clashing tests keep their value all the same.
- MenuDeps.InSubmenuSound: speaks of symbols with a tristate value only; a wrong translation need not, in a given assignment, lead to a wrong submenu.
- MenuDeps.PropagateMeaning: states the value of one propagated condition; the tree that carries the conditions is in `MenuTree`, where the answers of the dependency tests are an arbitrary function and the `dep` fields do not appear.
- MenuTree.FinalizeRoot: the conditions that `select` and `imply` add to other symbols, and a symbol's own direct dependency, are collected during finalisation but not in the model; they are given in `Symbols`.
- SymCalc.Evaluator.CalcValue: the symbols' fields are maps from symbols in one object, so aliasing between symbol records is not modelled; no choices, ranges or transitional symbols; MODULES has a fixed value while others are computed; the write and change flags and warnings are left out.
- DepCheck.Checker.CheckDeps: no choice groups; the printing of a cycle is diagnostic only.
- Choice.ChoiceMenu.CalcChoice: entries and priority list are sequences; `Lists` has the list operations on linked nodes.
- Preprocess.Preprocessor.ExpandString: the variable list is fixed during an expansion (`variable_add` and `+=` are left out); refusal stands for the exit with a message; what `do_shell` does to the output of a command, cutting it at 4095 characters, dropping newlines at its end and turning the others into blanks, belongs to the parameter; counters do not overflow.
- Confdata.ReadSimple: warnings, the `MODULES`-dependent default definitions and choice handling of the reader are left out; the prefix is the default one, `CONFIG_`; a string holds no NUL, a title no newline.
- Confdata.EscapeStringValue: the printers for other formats (auto.conf, C header, Rust) are left out.
- Threads.BlockFreedOnce: `complete_all` and the unlock after it are one step; `osal_thread_cancel`, the registry list and creation failures are left out; that a pending step is eventually taken is not stated, only that it can be.
- Rwlock.StepKeepsInv: the semaphore is a counter of readers and one writer bit; the shadow counter of the kernel semaphore wrapper is left out, as is waiting order.
- `expr_lookup` bucket arithmetic and node memory; `expr_print` and all output of expressions.
- Overflow of the rewrite counter: `trans_count` is unbounded in the model.
- E_RANGE nodes, integer and hex range clamping, string and integer setters.
- The lexer and grammar, all front ends, file creation and renaming.
- Drivers, transports, POSIX wrappers and monitors of the OSAL: plumbing over libraries that are not part of this model.

# Models of the OpenSLX sources

This project models four parts of the repository in Dafny and proves what they promise.

* **The Kconfig engine** (`openslx-src-tools/mconf/trunk`). Dependency expressions over the
  three values n < m < y are rewritten in place, compared, printed and parsed; symbols are
  evaluated lazily with a validity cache; recursive dependencies are detected by a depth
  first search; the menu tree is restructured; string values are written to and read from
  the configuration file.
* **The Reed-Solomon encoder** (`contrib/ldap-site-mngmt/pdf-tags/semacode.php`) of the ECC 200
  symbols of ISO/IEC 16022: tables, generator polynomial, shift register and interleaving.
* **The DNBD block driver** (`contrib/dnbd`): the block cache, the life of the requests in
  the queues, and the weighting of the servers.
* **Takeover and emergency mode of DNBD2** (`contrib/dnbd2`).

Code that works in place is modelled by classes and methods: the rewriter of duplicate
operands holds one tree and assigns through paths that stand for the pointer-to-pointer
arguments; the menu table holds the next, list and parent pointers of all entries; the
symbol table holds the cached values; the cache holds linked nodes; the line buffer and the
tables of the encoder are arrays. Each such method is proved against a function or a
predicate, and the theorems are about those.

A *valuation* gives every symbol a tristate and a string value. It is *coherent* when it is
one the symbol table can produce: a bool symbol is never m, the string of a bool or tristate
symbol is the letter of its value, and a constant has the value of its name.

| file | part |
|---|---|
| `common.dfy` | notions that several parts share |
| `kconfig_expr.dfy` | tristate values, symbols, expressions and their value |
| `kconfig_equality.dfy`, `kconfig_canonical.dfy` | elimination of y and n, elimination of equal operands, expr_eq |
| `kconfig_transform.dfy`, `kconfig_extract.dfy`, `kconfig_compare.dfy` | normal form, common factors, comparisons and prompts |
| `kconfig_join.dfy`, `kconfig_slots.dfy`, `kconfig_dups.dfy` | joining of operands, paths into a tree, elimination of duplicates |
| `kconfig_print.dfy` | printing and the expression grammar |
| `kconfig_values.dfy`, `kconfig_meaning.dfy`, `kconfig_symbols.dfy`, `kconfig_deps.dfy` | definition of the values and its cases, the cache, recursive dependencies |
| `kconfig_menu.dfy`, `kconfig_submenu.dfy`, `kconfig_inherit.dfy`, `kconfig_shape.dfy`, `kconfig_finalize.dfy` | menu links, conditions of entries and the test for a submenu, conditions handed down the tree, the shape of the finished menu, menu_finalize and the walk |
| `conf_strings.dfy` | quoted strings in the configuration file |
| `rs_field.dfy`, `rs_code.dfy`, `rs_encoder.dfy`, `rs_blocks.dfy` | the field, the code, the encoder, the interleaving |
| `dnbd_cache.dfy`, `dnbd_queue.dfy`, `dnbd_protocol.dfy`, `dnbd_steps.dfy`, `dnbd_weights.dfy` | cache, queues, request protocol and what its steps do, server weights |
| `dnbd2_takeover.dfy`, `dnbd2_steps.dfy` | servers of DNBD2 and what the steps do |

## Where the code does less than it seems to promise

* `expr_trans_compare` reads every symbol by its string, so that m counts as y when it is
  compared with n (`TransCompareReads`); it is exact where that makes no difference
  (`TransCompareIff`), so a NOT is compared with y and n correctly exactly if its operand
  is not m, as long as that holds no negated m itself (`TransCompareNotIff`,
  `TransCompareNotFails`). Compared with m it is rarely exact
  (`TransCompareModIff`), but no caller asks for that.
* `menu_finalize` can admit an entry below a prompt that is n while the entry is m
  (`MisplacedByNegatedMod`); the second test is right for the condition of an entry exactly
  if its comparison with n is no AND, or the condition never owes being m to the negation
  of a symbol that is m (`NeverMisplacedIff`).
* The second test admits nothing whose comparison with n is no AND, even if it equals that
  of the prompt above (`YesIsLeftIff`).
* `expr_eliminate_dups` turns a contradiction into n (or y) even when it is m
  (`ContradictionExactIff`, `ContradictionNotExact`); what it keeps is the information order.
* `expr_trans_bool` turns a negated comparison with n around where the symbol is m
  (`TransBoolNotIff`), but its only caller from outside, `menu_finalize`, passes expressions in negation
  normal form, of which it keeps whether they are n (`TransBoolKeepsNotNo`).
* `expr_depends_symbol` is sound for bool and tristate symbols only
  (`DependsSymbolExactType`).
* `expr_print` does not print quotes, so a quoted constant comes back as a configuration
  symbol (`QuotedConstantLost`).
* A string value comes back only if its line fits the 1024-byte buffer (`RoundTripIff`).
* After the weights of n servers were computed, up to n random bytes can be without a server
  (`BytesWithoutServer`): exactly if the weights due do not reach 256 (`NoByteLeftIff`), as
  with times that are not very long (`LastByteLeft`, `OneServerLeavesByte`).
* The shutdown of the DNBD driver clears the queues before it resets the running flag, and
  the flag is tested before a request is queued, so a read can be left in tx_queue of a
  stopped device (`RequestLost`): exactly the requests that were on their way at the clearing
  or are accepted between it and the reset (`LostIff`).
* A stopped DNBD2 device may keep an active server that is gone
  (`StoppedActiveMayBeGone`), exactly if the administrator clears or replaces its slot
  without success while the device is stopped (`ActiveLostIff`, `ActiveLostInRunIff`).
* A cache hit does not overwrite the block (`InsertServes`), so the cache can serve a stale
  block (`RunServesStale`): what it serves is the block of the device exactly if the sector
  entered the cache with it (`RunServesIff`), and always if the device does not change
  (`RunServesDevice`).
* A full cache of one block follows a null pointer when it replaces that block
  (`BlockCache.Cache.Insert`).

## Model

| member | source | states |
|---|---|---|
| ExprEquality.EliminateYNValue | openslx-src-tools/mconf/trunk/expr.c:236-317 | Removing y and n operands leaves the value of every expression unchanged under every coherent valuation. |
| ExprEquality.EliminateYNComplete | openslx-src-tools/mconf/trunk/expr.c:236-317 | Afterwards no AND or OR has a y or n operand, and the expression stays the same, or the same size, exactly when there was none before. |
| ExprEquality.EliminatePairsFactor | openslx-src-tools/mconf/trunk/expr.c:135-167 | Both arguments of the pairwise elimination lose one and the same common operand: each original is what is left of it combined with that operand. |
| ExprEquality.ZerosStay | openslx-src-tools/mconf/trunk/expr.c:150-155 | The pairwise elimination never takes out an operand that decides the value of its side, y of an OR or n of an AND, even where both sides have it. |
| ExprEquality.ExprEqSound | openslx-src-tools/mconf/trunk/expr.c:194-234 | expr_eq answers 1 only for expressions of equal value under every coherent valuation. |
| ExprEquality.EliminateEqImplies | openslx-src-tools/mconf/trunk/expr.c:169-189 | If eliminating the common operands leaves y of the second expression, the first is at most the second under every valuation: the admission test of an implicit submenu. |
| Canonical.EliminatePairsComplete | openslx-src-tools/mconf/trunk/expr.c:135-167 | For operands without y and n, apart from the neutral elements left by earlier replacements, the greedy pairwise elimination computes the two multiset differences, in whatever order the pairs meet. |
| Canonical.ExprEqDecides | openslx-src-tools/mconf/trunk/expr.c:194-234 | Without y and n, expr_eq answers 1 exactly when the canonical forms (multisets of operands, recursively) are equal. |
| Canonical.ExprEqIffRearranged | openslx-src-tools/mconf/trunk/expr.c:194-234 | Without y and n, expr_eq answers 1 exactly when one expression is reached from the other by swapping and regrouping operands of AND and OR. |
| Canonical.YesIsLeftIff | openslx-src-tools/mconf/trunk/expr.c:169-189 | Without y and n, eliminating equal operands leaves y of the second expression if and only if the first is an AND that has all AND operands of the second among its own; two equal single comparisons, or two equal ORs, do not count. |
| Canonical.DerivesCanonical | openslx-src-tools/mconf/trunk/expr.c:194-234 | Every chain of swaps and regroupings leaves the canonical form unchanged. |
| Canonical.CanonicalDerives | openslx-src-tools/mconf/trunk/expr.c:194-234 | Expressions of equal canonical form are joined by an explicit chain of swaps and regroupings. |
| Transformation.TransformValue | openslx-src-tools/mconf/trunk/expr.c:641-776 | expr_transform keeps the value under every coherent valuation; the recursion, with the second pass after De Morgan and double negation, ends by a weight in which NOT doubles its operand. |
| Transformation.TransformNormal | openslx-src-tools/mconf/trunk/expr.c:641-776 | The result is in normal form: NOT only above a symbol other than y, m and n, and no comparison of a bool symbol with one of these. |
| Transformation.TransformFixesNormal | openslx-src-tools/mconf/trunk/expr.c:641-776 | An expression in normal form is left alone, so the rules are complete for it. |
| Transformation.TransformCorrect | openslx-src-tools/mconf/trunk/expr.c:641-776 | expr_transform yields an equivalent expression in negation normal form, and applying it again changes nothing. |
| Extraction.ExtractEqFactor | openslx-src-tools/mconf/trunk/expr.c:853-880 | Each argument of expr_extract_eq is its remainder combined with what was added to the extracted expression. |
| Extraction.ExtractExact | openslx-src-tools/mconf/trunk/expr.c:831-851 | After extraction each original equals the extracted part combined with its remainder, under all coherent valuations. |
| Extraction.ExtractEqMaximal | openslx-src-tools/mconf/trunk/expr.c:853-880 | Without y and n the extraction is as large as possible: the remainders are the two multiset differences of the operands. |
| Extraction.ExtractLeavesUnit | openslx-src-tools/mconf/trunk/expr.c:831-851 | Without y and n, nothing but the neutral element is left of the first expression exactly when its operands are contained in those of the second. |
| Comparison.TransCompareExact | openslx-src-tools/mconf/trunk/expr.c:882-941 | For y or n and an expression over tristate symbols whose negated operands are not m, the rewritten comparison is y exactly when the comparison of the value holds, and n otherwise. |
| Comparison.TransCompareOptExact | openslx-src-tools/mconf/trunk/expr.c:882-941 | The same with a missing expression, which stands for y. |
| Comparison.TransCompareNotIff | openslx-src-tools/mconf/trunk/expr.c:913-914 | For y and n and an operand over tristate symbols that holds no negated m itself, the NOT case is exact if and only if the operand is not m. |
| Comparison.TransCompareNotFails | openslx-src-tools/mconf/trunk/expr.c:913-914 | A concrete negated symbol with value m: asked whether it differs from n, as menu_finalize asks, the NOT case answers n though it is m. |
| Comparison.TransCompareModIff | openslx-src-tools/mconf/trunk/expr.c:893-936 | With m as the symbol compared to, which no caller passes, and for every expression: an AND or OR below the leading NOTs is compared correctly exactly where the whole is n, a comparison exactly below an even number of NOTs, and a symbol below an even number exactly where its string is m if and only if its value is, below an odd number exactly where not. |
| Comparison.TransCompareReads | openslx-src-tools/mconf/trunk/expr.c:882-941 | For y and n and every expression, symbols of other types included, the rewritten comparison is exactly the comparison of the value the expression has when every symbol is read by its string: as y or n if that is its string, and as the opposite otherwise. |
| Comparison.TransCompareIff | openslx-src-tools/mconf/trunk/expr.c:882-941 | So the rewriting is exact under a valuation if and only if reading the symbols that way does not change whether the expression equals y, or n. |
| Comparison.TransCompareTwoValued | openslx-src-tools/mconf/trunk/expr.c:882-941 | The rewritten comparison is never m, for every expression. |
| Comparison.TransBoolKeepsNotNo | openslx-src-tools/mconf/trunk/expr.c:322-346 | expr_trans_bool keeps whether an expression is n when every comparison with n that it replaces is not below a NOT. |
| Comparison.TransBoolComplete | openslx-src-tools/mconf/trunk/expr.c:322-346 | Afterwards no comparison "s != n" of a tristate symbol s is left anywhere, and an expression without one is left alone, and no other. |
| Comparison.TransBoolNotIff | openslx-src-tools/mconf/trunk/expr.c:322-346 | For a single comparison below a NOT the replacement keeps "not n" exactly when the symbol is not m. |
| Comparison.TransBoolKeepsVisibility | openslx-src-tools/mconf/trunk/symbol.c:198-209 | The prompt visibility of a symbol that is not tristate is the same before and after expr_trans_bool on its prompt conditions. |
| Comparison.NotContainedIsIrrelevant | openslx-src-tools/mconf/trunk/expr.c:778-800 | The value of an expression that does not contain a symbol does not depend on that symbol. |
| Comparison.ContainsSymbolIff | openslx-src-tools/mconf/trunk/expr.c:778-800 | The test finds a symbol exactly if it is one of the set of symbols of the expression. |
| Comparison.DependsSymbolSound | openslx-src-tools/mconf/trunk/expr.c:802-829 | If an expression depends on a bool or tristate symbol and the symbol is n, the expression is n. |
| MenuDependencies.DependsSymbolIff | openslx-src-tools/mconf/trunk/expr.c:802-829 | An expression depends on a symbol s exactly if one of the operands of the whole AND, found by its path, is s itself, s = y, s = m or s != n. |
| Comparison.DependsSymbolExactType | openslx-src-tools/mconf/trunk/expr.c:815-820 | For the comparison with y this holds exactly for bool and tristate symbols; a string symbol breaks it. |
| Joining.JoinExact | openslx-src-tools/mconf/trunk/expr.c:351-507 | Whenever two operands are joined to one, the joined expression has the value of OR, or AND, of the two. |
| Joining.JoinIff | openslx-src-tools/mconf/trunk/expr.c:351-507 | Which operands are joined, and to what, written as expressions: equal ones to the first; otherwise exactly, in either order, for a tristate s and two different of y, m, n, s = a OR s = b to s != c, s != a AND s != b to s = c, where c is the third; for a bool s, s OR NOT s to y; for both, s AND s = y to s = y, s AND s != n to s, s AND s != m to s = y; for a tristate s and constants a, b, s = a AND s != b to s = a, or to n if a is b. |
| Joining.RuleJoins | openslx-src-tools/mconf/trunk/expr.c:360-507 | Wherever one of these rules fits, the operands are not equal by expr_eq and are joined by it. |
| Joining.JoinsByRule | openslx-src-tools/mconf/trunk/expr.c:360-507 | No pair of operands that are not equal is joined in any other way. |
| Joining.JoinShape | openslx-src-tools/mconf/trunk/expr.c:351-507 | The joined expression is no larger than the first operand, introduces no operator of the same kind and keeps negation normal form. |
| Joining.JoinsEqual | openslx-src-tools/mconf/trunk/expr.c:357-358 | Operands that expr_eq finds equal are always joined, to the first one. |
| Duplicates.Rewriter.EliminateDups1 | openslx-src-tools/mconf/trunk/expr.c:509-559 | The pass over one operator, working in place through two pointers into the tree, changes only the tree below its root, to an expression of equal value, and counts a rewrite only if the tree loses an operand to y or n; without a rewrite no operand below the first pointer can be joined with another one below the second, and nothing inside it can be joined either (which pairs these are is said by JoinIff). |
| Duplicates.Rewriter.EliminateDups2 | openslx-src-tools/mconf/trunk/expr.c:561-615 | The pass for contradictions changes only the tree below its root, to an expression that refines it; without a rewrite no operand below the first pointer is contradicted below the second, and there is no contradiction inside it either. |
| Duplicates.JoinedAll | openslx-src-tools/mconf/trunk/expr.c:525-533 | A pass over the whole tree without a rewrite has, by its nested passes, found nothing to join in any AND or OR that is not below a NOT. |
| Duplicates.ClearedAll | openslx-src-tools/mconf/trunk/expr.c:578-610 | The same for contradictions. |
| Duplicates.EliminateDups | openslx-src-tools/mconf/trunk/expr.c:617-634 | The loop ends, and its result refines its input in the information order (y and n stay, m may become anything), is no larger, and stays in negation normal form, and in the form of comparisons with n if it has that; in no AND or OR of it that is not below a NOT are two operands equal, does a pair of them have the form of a rule of expr_join_or or expr_join_and, or do they contradict each other, and an expression of which that is true already is left alone, so that a second elimination changes nothing. |
| Duplicates.UnjoinableIff | openslx-src-tools/mconf/trunk/expr.c:509-559 | Nothing can be joined in an expression exactly if, in every AND and OR of it that is not below a NOT, no two operands are equal or have the form of a rule. |
| Duplicates.EliminateYNRefines | openslx-src-tools/mconf/trunk/expr.c:627-634 | A counted rewrite leaves y or n operands, so expr_eliminate_yn makes the tree strictly smaller: the measure of the loop. |
| Duplicates.ContradictionExactIff | openslx-src-tools/mconf/trunk/expr.c:561-615 | Replacing a contradicting operand is exact if and only if the operand tree is not m. |
| Duplicates.ContradictionFound | openslx-src-tools/mconf/trunk/expr.c:574-600 | Without y and n a contradiction is reported exactly when the operands of the transformed negation of one side are all operands of the other. |
| Duplicates.ContradictionNotExact | openslx-src-tools/mconf/trunk/expr.c:574-600 | (A or B) and not A and not B is m when A and B are m, but is rewritten to n. |
| Duplicates.RefinedExact | openslx-src-tools/mconf/trunk/expr.c:617-634 | On valuations in which no symbol of the input is m the result has exactly the value of the input. |
| Printing.ParsePrint | openslx-src-tools/mconf/trunk/expr.c:984-1080 | Parsing the printed tokens by the expression grammar succeeds and gives the expression grouped to the left, with its symbols looked up again. |
| Printing.WordsMean | openslx-src-tools/mconf/trunk/zconf.tab.c:1785-1828 | A word, = or !=, and a word parse to an expression that is y exactly if the strings of the two symbols are equal, or are not; ! and a word to its negation. |
| Printing.OperatorsMean | openslx-src-tools/mconf/trunk/zconf.tab.c:1785-1828 | AND binds stronger than OR, on either side of it. |
| Printing.LeftGroupedDerives | openslx-src-tools/mconf/trunk/zconf.tab.c:1785-1828 | What the parser returns differs from the original only by regrouping, given as an explicit chain of associativity steps. |
| Printing.RoundTripIff | openslx-src-tools/mconf/trunk/expr.c:1016-1080 | The parse gives back the expression up to grouping exactly when the symbol table finds every printed name as the symbol it was printed from. |
| Printing.RoundTripValue | openslx-src-tools/mconf/trunk/expr.c:1016-1080 | In that case the parsed expression has the same value under every valuation and prints as the same tokens. |
| Printing.PrintTopLeftGrouped | openslx-src-tools/mconf/trunk/expr.c:1016-1080 | Regrouping to the left does not change the printed tokens: no parentheses depend on it. |
| Printing.PrintsAlikeIff | openslx-src-tools/mconf/trunk/expr.c:984-1014 | Two expressions print alike exactly when they are equal up to grouping, so expr_compare_type sets all parentheses that are needed. |
| Printing.QuotedConstantLost | openslx-src-tools/mconf/trunk/expr.c:1026-1030 | Quotes are not printed: a constant is found again exactly when it is y, m or n. |
| SymbolDefinition.SolutionUnfolds | openslx-src-tools/mconf/trunk/symbol.c:262-361 | With acyclic dependencies the direct recursive definition of all symbol values satisfies its equations. |
| SymbolMeaning.HiddenValue | openslx-src-tools/mconf/trunk/symbol.c:316-324 | A bool or tristate symbol all of whose prompts are n and whose reverse dependency is n or missing has the value of the first default whose condition is not n, and n if there is none, with m raised to y where it acts as bool. |
| SymbolMeaning.ShownValue | openslx-src-tools/mconf/trunk/symbol.c:306-324 | Any other bool or tristate symbol has its user value, or without one that default: unchanged where it lies between the value of the reverse dependency and the largest value of the prompts (m raised to y in all three where the symbol acts as bool), the largest prompt where it is above that, and the reverse dependency where it is below that or the prompts are. |
| SymbolMeaning.TextMeans | openslx-src-tools/mconf/trunk/symbol.c:326-345 | A string symbol with a prompt that is not n has its user value; without one, or with all prompts n, the string of the symbol that its first default with a condition other than n names, and the empty string otherwise. |
| SymbolMeaning.NameMeans | openslx-src-tools/mconf/trunk/symbol.c:287-291 | Symbols of other types and constants have their name as string and, apart from y and m, the value n. |
| SymbolMeaning.PromptsMaximum | openslx-src-tools/mconf/trunk/symbol.c:198-203 | The OR over the prompts is at least each of them, and one of them unless it is n. |
| SymbolDefinition.SolutionUnique | openslx-src-tools/mconf/trunk/symbol.c:262-361 | It is the only assignment of values that does. |
| SymbolDefinition.SolutionCoherent | openslx-src-tools/mconf/trunk/symbol.c:193-221 | Its values form a coherent valuation: a bool symbol is never m, and the string of a bool or tristate symbol is the letter of its value. |
| SymbolDefinition.UserValueLocal | openslx-src-tools/mconf/trunk/symbol.c:312-322 | A user value of one symbol changes no symbol ranked below it. |
| SymbolTables.SymbolTable.CalcValue | openslx-src-tools/mconf/trunk/symbol.c:262-361 | After the call the symbol is valid and its cached value, visibility and reverse dependency are those of the definition (whose cases are HiddenValue, ShownValue, TextMeans and NameMeans), whatever was valid before; only symbols ranked below it were computed on the way. |
| SymbolTables.SymbolTable.CalcVisibility | openslx-src-tools/mconf/trunk/symbol.c:193-221 | Visibility and reverse dependency of the symbol become those of the definition, with m raised to y where the symbol cannot be m. |
| SymbolTables.SymbolTable.FindDefault | openslx-src-tools/mconf/trunk/symbol.c:120-130 | The loop over the defaults finds the first one whose condition is not n under the defined values. |
| SymbolTables.SymbolTable.CalcExpr | openslx-src-tools/mconf/trunk/expr.c:943-982 | The evaluation, which computes the symbols it meets, gives the value of the expression under the defined values and changes only symbols ranked below the expression. |
| SymbolTables.SymbolTable.ClearAllValid | openslx-src-tools/mconf/trunk/symbol.c:374-384 | Only symbols that do not depend on the cache stay valid. |
| SymbolTables.SymbolTable.Recalculate | openslx-src-tools/mconf/trunk/confdata.c:656-688 | Clearing the cache, which may have been filled under other user values, and then calculating any symbols in any order leaves every valid symbol with the value of the definition, the cached and the newly computed ones alike. |
| SymbolTables.SymbolTable.SetTristate | openslx-src-tools/mconf/trunk/symbol.c:425-459 | For a symbol that is neither a choice nor a choice value: a value is accepted if and only if a full recomputation with it as user value reports exactly that value; it is stored if accepted, and otherwise nothing changes. |
| SymbolTables.SymbolTable.InRange | openslx-src-tools/mconf/trunk/symbol.c:406-423 | The range test decides by the up-to-date visibility and reverse dependency of the symbol. |
| SymbolTables.WithinRangeIffReported | openslx-src-tools/mconf/trunk/symbol.c:406-423 | The value computed with a user value x is x if and only if it was x before or x is within range. |
| SymbolTables.SameValueChangesNothing | openslx-src-tools/mconf/trunk/symbol.c:455-457 | If the value of the symbol stays the same, so do the values of all symbols: why nothing is cleared then. |
| SymbolTables.AcceptedIffReported | openslx-src-tools/mconf/trunk/symbol.c:425-459 | The test on the cached values holds exactly when the recomputed value is the requested one. |
| DependencyGraph.DepChecker.CheckDeps | openslx-src-tools/mconf/trunk/symbol.c:790-825 | A symbol returned lies on a real cycle; the CHECK flags are as before; if no failure occurred so far and nothing is returned, the symbol and all it depends on are ranked. |
| DependencyGraph.DepChecker.CheckExpr | openslx-src-tools/mconf/trunk/symbol.c:759-788 | The same for all symbols of an expression. |
| DependencyGraph.DepsIff | openslx-src-tools/mconf/trunk/symbol.c:803-819 | A symbol directly depends on another exactly if that occurs in its reverse dependency, or in the condition of a property that is neither a choice nor a select, or in the value of a default, unless the symbol is a choice. |
| DependencyGraph.DepChecker.Sweep | openslx-src-tools/mconf/trunk/zconf.tab.c:2134-2139 | The sweep over all symbols counts no error if and only if no symbol lies on a cycle of dependencies, leaves no CHECK flag, and then has found a topological order. |
| DependencyGraph.RankedAcyclic | openslx-src-tools/mconf/trunk/symbol.c:790-825 | A graph ranked in a topological order has no cycle through a ranked symbol. |
| DependencyGraph.StackCycle | openslx-src-tools/mconf/trunk/symbol.c:794-798 | An edge from the top of the stack of symbols under check back into it closes a cycle. |
| DependencyGraph.CleanSweepAcyclic | openslx-src-tools/mconf/trunk/zconf.tab.c:2134-2139 | The order found by a clean sweep is the rank that the calculation of values needs to end. |
| DependencyGraph.InOrder | openslx-src-tools/mconf/trunk/symbol.c:120-130 | Prompts and defaults stay in the order of the property list, so that the first visible default is that of the list. |
| MenuDependencies.Conjoin | openslx-src-tools/mconf/trunk/menu.c:253-256 | A dependency handed down refines the conjunction of the outer and the own condition, is n where either of them is, stays in negation normal form, and is free of duplicates. |
| MenuDependencies.PromptCondition | openslx-src-tools/mconf/trunk/menu.c:266-271 | The new condition of a prompt is n where that of its entry or its own is, and not n where both are y; for a symbol that is tristate, or none, it refines the conjunction of both and is free of duplicates, for another no comparison "s != n" of a tristate s is left in it. |
| MenuDependencies.TransCompareNo | openslx-src-tools/mconf/trunk/expr.c:882-941 | Comparing an n-valued expression with n gives y, and the negated comparison n, without any condition on negated operands. |
| MenuDependencies.NotNo | openslx-src-tools/mconf/trunk/menu.c:281-283 | Normal form and duplicate elimination do not change the value of the comparison of the prompt condition with n, under any coherent valuation; the result is made of comparisons, bool symbols and their negations, y and n, is free of duplicates, and is the normal form itself if that is. |
| MenuDependencies.BelongsBelow | openslx-src-tools/mconf/trunk/menu.c:286-304 | An entry is admitted to an implicit submenu only if its condition mentions the symbol above. By the first test, which always admits, the condition is n whenever that bool or tristate symbol is n; by the second, whatever the types of the symbols, it is seen as n (with every symbol whose string is not n read as y) whenever the condition of the prompt above is, or, if that is over bool and tristate symbols, is n. The second test admits exactly if expr_eliminate_eq leaves y of the comparison of the prompt; without y and n exactly a comparison that is an AND holding all operands of the one above. |
| MenuDependencies.DecidedByOperands | openslx-src-tools/mconf/trunk/menu.c:292-301 | If neither comparison with n has duplicates, or y or n, the second test admits exactly if that of the entry, in normal form, is an AND that holds all AND operands of that of the prompt. |
| MenuDependencies.SubordinateValue | openslx-src-tools/mconf/trunk/menu.c:286-304 | In terms of values: an admitted condition that is not n has a symbol above that is not n, or, if none of its negated symbols is m, a prompt above that is not n. |
| Transformation.TransformForm | openslx-src-tools/mconf/trunk/expr.c:641-776 | Of comparisons, bool symbols, y and n below any operators expr_transform leaves comparisons that are none of a bool symbol with y, m or n, bool symbols and their negations, y and n. |
| MenuDependencies.NeverMisplacedIff | openslx-src-tools/mconf/trunk/menu.c:291-304 | For an entry whose comparison with n, in any form that NotNo can return, holds no y and n: the second test never admits it below a prompt that is n while the entry is not, whatever the condition of that prompt (as long as its comparison holds none either), if and only if the comparison is no AND, or the condition of the entry, wherever it is not n, is still not n when every symbol whose string is not n is read as y: it never owes being m to the negation of a symbol that is m. |
| MenuDependencies.MisplacedByNegatedMod | openslx-src-tools/mconf/trunk/menu.c:291-304 | The condition "not A, and S or T" is admitted below the prompt S with the condition A = n (both comparisons are free of duplicates), and with A = m and S = y it is m though the prompt is n. |
| MenuFinalization.MenuTable.HandDown | openslx-src-tools/mconf/trunk/menu.c:249-276 | Every entry of the list inherits the outer condition in its dependency and its prompt, and no other entry changes, those further below included. |
| MenuConditions.ListHanded | openslx-src-tools/mconf/trunk/menu.c:249-278 | If the list has been handed the condition of its owner and its entries are finalized afterwards, then at every depth each entry has inherited the condition of the entry it was below. |
| MenuConditions.HandedGuards | openslx-src-tools/mconf/trunk/menu.c:249-276 | In a tree in which every entry has inherited from the one above, the dependency and the condition of an entry, however deep, are n wherever the condition of any entry above it is n. |
| MenuFinalization.MenuTable.MayEnter | openslx-src-tools/mconf/trunk/menu.c:286-304 | The entry behind goes below if its condition depends on the symbol, or has it and passes the second test; it stays behind if it has no condition, or the symbol is not in it, or it does not depend on the symbol and fails the second test. |
| MenuFinalization.MenuTable.AbsorbLoop | openslx-src-tools/mconf/trunk/menu.c:286-311 | The sibling loop passes the entries in order; each one it passes is finalized, has the entry as parent, and goes below it by the conditions before; the entry at which it stops, if any, stays behind by these conditions; those of the siblings themselves are not changed by it. |
| MenuFinalization.MenuTable.Relink | openslx-src-tools/mconf/trunk/menu.c:312-316 | The admitted siblings become the list of the entry and the others its next entries. |
| MenuFinalization.MenuTable.Absorb | openslx-src-tools/mconf/trunk/menu.c:279-317 | The siblings up to the first one that stays behind become the submenu: each of them goes below the entry, the first one left does not, and the preorder sequence of all entries is kept. |
| MenuFinalization.MenuTable.Dissolve | openslx-src-tools/mconf/trunk/menu.c:337-346 | A promptless menu is replaced in its list by itself followed by its children, in the same preorder, with the new parent. |
| MenuFinalization.MenuTable.Flatten | openslx-src-tools/mconf/trunk/menu.c:318-348 | The loop leaves every entry with a prompt text in its place with its whole submenu, and every other one followed by what was below it; no submenu without a prompt text is left, and the preorder is unchanged. |
| MenuShape.OpenedAt | openslx-src-tools/mconf/trunk/menu.c:337-346 | In place of the i-th entry of the list stands the entry with its submenu if it has a prompt with a text, else the entry alone followed by its former children. |
| MenuFinalization.MenuTable.Finalize | openslx-src-tools/mconf/trunk/menu.c:228-366 | Finalizing one entry keeps the preorder of its subtree and the siblings it may absorb, sets every parent pointer to the owner, finalizes each entry of the subtree exactly once, hands all conditions down the subtree and the subtrees of the absorbed siblings, and touches no other links or conditions. The calls it makes are those its final conditions ask for: one for each entry of its list; without a list, if it has a symbol, one for each sibling that goes below it, up to the first that stays behind; and the subtree has the shape that these calls give. |
| MenuFinalization.MenuTable.FinalizeRoot | openslx-src-tools/mconf/trunk/zconf.tab.c:2133-2133 | Finalizing the root keeps the preorder sequence of the whole menu, finalizes every entry exactly once, and in the finished tree every entry, at every depth, has inherited the condition of the entry it was below. At every depth the calls are those the final conditions ask for, and the finished menu is the tree of these calls with the submenus without a prompt text dissolved. |
| MenuShape.SubmenuStarts | openslx-src-tools/mconf/trunk/menu.c:286-311 | An entry with a symbol and without a list gets a submenu exactly if the entry behind it does not stay behind, and the submenu starts with that entry: always if its condition depends on the symbol, never if the symbol is not in it. |
| MenuShape.FollowsUnique | openslx-src-tools/mconf/trunk/menu.c:228-366 | Where no comparison with n has duplicates, only one tree of calls is what the conditions ask for, so they alone give the menu its shape. |
| MenuShape.MadeStep | openslx-src-tools/mconf/trunk/menu.c:279-311 | A further call of a loop of menu_finalize changes nothing that the calls before it looked at, so these are still what the conditions ask for. |
| MenuFinalization.MenuTable.Climb | openslx-src-tools/mconf/trunk/confdata.c:508-513 | Going up along the parent pointers finds exactly the entry that follows in preorder, or none at the end. |
| MenuFinalization.MenuTable.Walk | openslx-src-tools/mconf/trunk/confdata.c:436-514 | The walk without a stack ends and visits exactly the entries of the menu, each once, in preorder. |
| ConfStrings.UnquoteEscape | openslx-src-tools/mconf/trunk/confdata.c:249-259 | What conf_write prints of a string, closing quote included, unquotes to the same string, whatever follows. |
| ConfStrings.EscapeInjective | openslx-src-tools/mconf/trunk/confdata.c:473-487 | Different strings are printed differently. |
| ConfStrings.EscapeOne | openslx-src-tools/mconf/trunk/confdata.c:473-487 | Of a single character only quote and backslash change, by a backslash before them. |
| ConfStrings.EscapeJoin | openslx-src-tools/mconf/trunk/confdata.c:473-487 | A string is printed character by character: the printed form of two strings in sequence is that of the first and then that of the second. |
| ConfStrings.CutEndIs | openslx-src-tools/mconf/trunk/confdata.c:195-200 | A line end, with or without a carriage return before it, is cut off together with all that follows. |
| ConfStrings.WriteValue | openslx-src-tools/mconf/trunk/confdata.c:473-487 | The loop over runs of plain characters prints the escaped form. |
| ConfStrings.UnquoteInPlace | openslx-src-tools/mconf/trunk/confdata.c:249-259 | The loop that moves the rest of the line over each backslash ends, succeeds exactly when there is a closing quote, leaves the unquoted string in the buffer and changes nothing before it. |
| ConfStrings.ReadLine | openslx-src-tools/mconf/trunk/confdata.c:186-268 | The in-place reading of a line finds exactly the name and the value that the line contains, and nothing in a line without prefix, equals sign or closed quotes. |
| ConfStrings.TruncatedUnquote | openslx-src-tools/mconf/trunk/confdata.c:260-263 | A value cut off before its closing quote is not accepted. |
| ConfStrings.RoundTripIff | openslx-src-tools/mconf/trunk/confdata.c:148-268 | A string without NUL and newline comes back through the 1024-byte buffer exactly when its line, with the newline, has at most 1024 characters. |
| GaloisField.OrderIsExact | contrib/ldap-site-mngmt/pdf-tags/semacode.php:66-97 | No power of alpha between the 1st and the 254th is 1: the table loop meets 255 different bytes. |
| GaloisField.Reached | contrib/ldap-site-mngmt/pdf-tags/semacode.php:86-97 | Every nonzero byte is one of these powers, so the logarithm table has no gap. |
| GaloisField.LogProduct | contrib/ldap-site-mngmt/pdf-tags/semacode.php:115-115 | Adding logarithms modulo 255 and looking up the antilogarithm multiplies by the power of alpha. |
| GaloisField.MulCommutes | contrib/ldap-site-mngmt/pdf-tags/semacode.php:138-138 | The product of two bytes does not depend on which logarithm is taken first. |
| GaloisField.MulLinear | contrib/ldap-site-mngmt/pdf-tags/semacode.php:138-138 | The product is linear over exclusive or in each factor. |
| GaloisField.TimesSeparates | contrib/ldap-site-mngmt/pdf-tags/semacode.php:115-115 | Different powers of alpha move every nonzero byte to different bytes: there are no zero divisors. |
| ReedSolomonCode.GeneratorRoots | contrib/ldap-site-mngmt/pdf-tags/semacode.php:106-122 | The generator polynomial vanishes at exactly the powers alpha^first .. alpha^(first+n-1). |
| ReedSolomonCode.LowRemainder | contrib/ldap-site-mngmt/pdf-tags/semacode.php:129-151 | At every root of the generator the shift register holds the message shifted past the check symbols. |
| ReedSolomonCode.EncodedIsCodeword | contrib/ldap-site-mngmt/pdf-tags/semacode.php:129-151 | For every message and every number n of check symbols, the message followed by the check symbols, highest first, vanishes at alpha^first .. alpha^(first+n-1). |
| ReedSolomonCode.TooManyRoots | contrib/ldap-site-mngmt/pdf-tags/semacode.php:103-104 | A polynomial of degree below 255 with as many consecutive roots as nonzero terms is zero. |
| ReedSolomonCode.CodewordsFarApart | contrib/ldap-site-mngmt/pdf-tags/semacode.php:103-104 | Two different codewords of equal length up to 255 differ in more than n positions: the distance the code exists for. |
| ReedSolomonCode.CheckSymbolsUnique | contrib/ldap-site-mngmt/pdf-tags/semacode.php:129-151 | For words of length up to 255 the register computes the only check symbols that complete the message to a codeword. |
| ReedSolomonEncoder.PolynomialBits | contrib/ldap-site-mngmt/pdf-tags/semacode.php:50-50 | The reduction step of the model is the polynomial 0x12d without its highest bit. |
| ReedSolomonEncoder.TopBit | contrib/ldap-site-mngmt/pdf-tags/semacode.php:73-78 | The loop finds the highest bit of the polynomial and its position. |
| ReedSolomonEncoder.ReedSolomon.InitializeGaloisField | contrib/ldap-site-mngmt/pdf-tags/semacode.php:66-97 | The loop fills the tables with the powers of alpha and the logarithm of every nonzero byte. |
| ReedSolomonEncoder.ReedSolomon.InitializeEncodingParameters | contrib/ldap-site-mngmt/pdf-tags/semacode.php:106-122 | The nested loops, updating rspoly in place, leave the generator polynomial. |
| ReedSolomonEncoder.ReedSolomon.EncodeArray | contrib/ldap-site-mngmt/pdf-tags/semacode.php:129-151 | The loops over the register compute the remainder of the message, and the message followed by the reversed result is a codeword. |
| ReedSolomonBlocks.Semacode.Rs | contrib/ldap-site-mngmt/pdf-tags/semacode.php:342-359 | Every position of the check symbols is written exactly once, nothing else changes, and every interleaved block, data and check symbols together, is a codeword. |
| ReedSolomonBlocks.BlocksAreCodewords | contrib/ldap-site-mngmt/pdf-tags/semacode.php:342-359 | Reading every blocks-th position gives the data and the check symbols of one block. |
| SearchTrees.LinkCorrect | contrib/dnbd/trunk/kernel/cache.c:258-260 | Linking a node where the search ended keeps the order and adds exactly its key. |
| SearchTrees.EraseCorrect | contrib/dnbd/trunk/kernel/cache.c:208-208 | Erasing keeps the order, removes exactly the key and leaves the nodes of all others. |
| CacheContents.RunKeepsRecent | contrib/dnbd/trunk/kernel/cache.c:127-264 | After any sequence of insertions the cache holds exactly the max_blocks most recently inserted different sectors, in that order. |
| CacheContents.RecentMembers | contrib/dnbd/trunk/kernel/cache.c:127-264 | These are sectors that were inserted, and every inserted one is in the unbounded list. |
| CacheContents.InsertServes | contrib/dnbd/trunk/kernel/cache.c:152-186 | After an insertion the sector is served from the block that was cached for it, if there was one, and from the new block otherwise. |
| CacheContents.InsertServesIff | contrib/dnbd/trunk/kernel/cache.c:152-186 | The block given to an insertion is served exactly when the sector was not cached or its cached block is the same. |
| CacheContents.RunServes | contrib/dnbd/trunk/kernel/cache.c:127-264 | In every run a cached sector is served from the insertion with which it entered the cache, the last one at which it was not among the most recent sectors. |
| CacheContents.RunServesIff | contrib/dnbd/trunk/kernel/cache.c:127-264 | So what is served is the present block of the device exactly if the sector entered the cache with it. |
| CacheContents.RunServesStale | contrib/dnbd/trunk/kernel/cache.c:152-186 | A run of two insertions, between which the device changes, after which the old block is served. |
| CacheContents.RunServesDevice | contrib/dnbd/trunk/kernel/cache.c:39-125 | If every insertion stored the block of the device, a sector is found exactly when it is among them, and then the block found is that of the device. |
| BlockCache.Cache.Find | contrib/dnbd/trunk/kernel/cache.c:65-76 | The descent finds the node of the sector exactly when the tree has it. |
| BlockCache.Cache.Search | contrib/dnbd/trunk/kernel/cache.c:39-125 | A search returns the block stored for the sector, or nothing if the sector is not in the cache. |
| BlockCache.Cache.Insert | contrib/dnbd/trunk/kernel/cache.c:127-264 | An insertion moves a present sector to the front with its block, or puts the new one there and evicts exactly the last one when the cache is full; list, tree and slots stay consistent. |
| BlockCache.Cache.Detach | contrib/dnbd/trunk/kernel/cache.c:156-166 | Taking a node that is not the head out of the chain keeps all other links, and the tail. |
| BlockCache.Cache.PushFront | contrib/dnbd/trunk/kernel/cache.c:171-180 | A node put in front becomes the head, and the chain stays doubly linked. |
| BlockCache.Cache.Touch | contrib/dnbd/trunk/kernel/cache.c:152-186 | A present sector keeps its block and its slot and comes first; the head stays where it is. |
| BlockCache.Cache.Replace | contrib/dnbd/trunk/kernel/cache.c:190-218 | A full cache reuses the node and the slot of its tail. |
| BlockCache.Cache.Append | contrib/dnbd/trunk/kernel/cache.c:219-229 | A cache that is not full takes the next slot, so the slots stay 0 .. used-1, each once. |
| RequestQueues.Queue.DequeueHandle | contrib/dnbd/trunk/kernel/queue.c:31-50 | The first request from the head that waits for the position leaves the queue, and the others keep their order. |
| RequestQueues.Queue.Dequeue | contrib/dnbd/trunk/kernel/queue.c:53-65 | The request at the tail leaves the queue. |
| RequestQueues.Requeue | contrib/dnbd/trunk/kernel/queue.c:99-126 | The walk that deletes while it goes moves exactly the late requests to the head of the other queue, the last one first, and leaves the others in order. |
| RequestQueues.LateSplit | contrib/dnbd/trunk/kernel/queue.c:109-119 | Late and other requests together are the queue, with no request lost or doubled. |
| RequestProtocol.StepInv | contrib/dnbd/trunk/kernel/main.c:532-562 | Every step of the kernel, the two threads, the timer and the shutdown, in either order of clearing the queues and resetting the running flag, keeps the invariant: one place per request, and transfers that cover its first sectors in order. |
| RequestProtocol.RequestsAreSafe | contrib/dnbd/trunk/kernel/main.c:226-368 | After any interleaving each accepted request is in exactly one of tx_queue, rx_queue, the hands of a thread or of do_request on the way into tx_queue, or completed; it is completed exactly when all its sectors were reported; no sector is reported twice or outside the request. |
| RequestSteps.ReadIsBrought | contrib/dnbd/trunk/kernel/main.c:226-368 | In every run, for every request, exactly as many sectors are reported to the kernel as read as replies and the cache have brought for it. |
| RequestSteps.ReplyReports | contrib/dnbd/trunk/kernel/main.c:355-361 | A reply that has brought count sectors reports exactly these as read, those that follow what was done before; while sectors are missing the request becomes the head of tx_queue, otherwise it is completed; no other request and no other queue changes. |
| RequestSteps.CacheReports | contrib/dnbd/trunk/kernel/main.c:538-556 | The same for sectors found in the cache. |
| RequestSteps.SubmitReports | contrib/dnbd/trunk/kernel/main.c:795-814 | A request that is no read, or comes while the running flag is not set, fails with all its sectors; any other is noted as on its way, and nothing is reported. |
| RequestSteps.ReplyMatches | contrib/dnbd/trunk/kernel/queue.c:31-50 | A reply finds a request exactly if one in rx_queue has its next sector at that position, and takes the first such from the head out of the queue; otherwise nothing changes. |
| RequestSteps.RexmitIff | contrib/dnbd/trunk/kernel/queue.c:99-126 | A waiting request returns to tx_queue exactly if it was sent before the timeout, and stays in rx_queue otherwise. |
| RequestSteps.RexmitReverses | contrib/dnbd/trunk/kernel/queue.c:109-119 | Of two requests that return, the one that entered rx_queue earlier is sent later. |
| RequestSteps.FirstInFirstOut | contrib/dnbd/trunk/kernel/queue.c:53-65 | tx_queue is first in, first out: no step but the clearing changes the order of two requests in it, and only the one that is to be sent next leaves it. |
| RequestSteps.TakesOldest | contrib/dnbd/trunk/kernel/main.c:533-536 | The sending thread takes the request at the tail, if it holds none and there is one. |
| RequestSteps.ClearReports | contrib/dnbd/trunk/kernel/main.c:98-130 | The clearing reports exactly the missing sectors of every request in rx_queue and then in tx_queue, from the tail on, as failed. |
| RequestProtocol.CompletedStays | contrib/dnbd/trunk/kernel/main.c:66-95 | A completed request stays completed in every step, and nothing more is transferred for it. |
| RequestProtocol.LateRequestsReturn | contrib/dnbd/trunk/kernel/main.c:579-600 | A request that waited past the timeout is queued for sending again. |
| RequestSteps.SentStamps | contrib/dnbd/trunk/kernel/main.c:370-396 | Sending stamps the request with the time, and changes nothing else. |
| RequestProtocol.ClearCompletes | contrib/dnbd/trunk/kernel/main.c:98-130 | When the threads have ended and the queues are cleared, whether the running flag is still set or not, a request is completed if and only if it was not on its way into tx_queue. |
| RequestProtocol.SubmitCompletesIff | contrib/dnbd/trunk/kernel/main.c:795-814 | A request is completed at once if and only if it is no read or the running flag is not set. |
| RequestProtocol.QuietRunIff | contrib/dnbd/trunk/kernel/main.c:731-743 | In every run without threads the open requests stay open, and of the new ones exactly those stay open that are reads accepted while the flag is set. |
| RequestProtocol.LostIff | contrib/dnbd/trunk/kernel/main.c:731-743 | However the shutdown goes on after the queues were cleared, a request is never completed by it if and only if it was on its way into tx_queue at the clearing or is accepted before the running flag is reset; it is then left in tx_queue or on its way there. |
| RequestProtocol.NothingAccepted | contrib/dnbd/trunk/kernel/main.c:795-800 | Once the flag is reset no request is accepted any more, so with the other order only one on its way can be lost. |
| RequestProtocol.RequestLost | contrib/dnbd/trunk/kernel/main.c:731-743 | A run in which a read comes between the clearing and the reset of the flag and stays in tx_queue of a stopped device. |
| RequestProtocol.FailAllInv | contrib/dnbd/trunk/kernel/main.c:98-107 | Failing a whole queue completes each of its requests once. |
| RequestDriver.Driver.DoRequest | contrib/dnbd/trunk/kernel/main.c:768-818 | A read request on a running device is accepted and enters tx_queue; any other fails at once. |
| RequestDriver.Driver.Submit | contrib/dnbd/trunk/kernel/main.c:795-806 | The test of the running flag and of the direction, up to the point where the lock is given up. |
| RequestDriver.Driver.Enter | contrib/dnbd/trunk/kernel/main.c:807-807 | The accepted request enters tx_queue, whatever has happened since the test. |
| RequestDriver.Driver.SetRunning | contrib/dnbd/trunk/kernel/main.c:707-743 | The start sets the running flag and the shutdown resets it; nothing else changes. |
| RequestDriver.Driver.TakeForSending | contrib/dnbd/trunk/kernel/main.c:533-536 | The sending thread takes the oldest request, if there is one. |
| RequestDriver.Driver.TakeForReply | contrib/dnbd/trunk/kernel/main.c:304-305 | A reply takes out the request that waits for its position, or nothing. |
| RequestDriver.Driver.FinishFromCache | contrib/dnbd/trunk/kernel/main.c:538-556 | Sectors from the cache end the request or send its rest through tx_queue again. |
| RequestDriver.Driver.WaitForReply | contrib/dnbd/trunk/kernel/main.c:558-559 | A request that is not cached is in rx_queue before it is sent. |
| RequestDriver.Driver.SendRequest | contrib/dnbd/trunk/kernel/main.c:370-396 | Sending stamps the request with the time from which its timeout counts, and changes no queue. |
| RequestDriver.Driver.FinishReply | contrib/dnbd/trunk/kernel/main.c:355-359 | The sectors of a reply, none included, end the request or send its rest again, as the step of the protocol does (ReplyReports). |
| RequestDriver.Driver.Retransmit | contrib/dnbd/trunk/kernel/main.c:579-600 | The timer moves the late requests as one step. |
| RequestDriver.Driver.ClearQueues | contrib/dnbd/trunk/kernel/main.c:110-130 | Clearing both queues, with the running flag set or not, fails every request in them, each once, and keeps the invariant. |
| ServerWeights.WeighingBounds | contrib/dnbd/trunk/kernel/net.c:132-187 | With n active servers and W the sum of their factors, the weights add up to more than 255 - n, and W times their sum is below 255 * (W + n). |
| ServerWeights.WeightShare | contrib/dnbd/trunk/kernel/net.c:171-183 | One weight is its share of 255, up to the rounding of the two divisions. |
| ServerWeights.BytesOfServer | contrib/dnbd/trunk/kernel/net.c:57-86 | Of the 256 random bytes exactly min(P_i, 256) - min(P_(i-1), 256) choose server i, where P are the prefix sums of the weights. |
| ServerWeights.BytesOfNone | contrib/dnbd/trunk/kernel/net.c:57-86 | Exactly 256 minus the sum of the weights, or none if that reaches 256, of the 256 random bytes choose no server. |
| ServerWeights.BytesWithoutServer | contrib/dnbd/trunk/kernel/net.c:57-86 | After weighing at most as many bytes as there are active servers choose none. |
| ServerWeights.NoByteLeftIff | contrib/dnbd/trunk/kernel/net.c:132-187 | After weighing every byte chooses a server if and only if some server is active and the weights due, computed from the times before, reach 256. |
| ServerWeights.LastByteLeft | contrib/dnbd/trunk/kernel/net.c:132-187 | If the factors of the active servers are 255 or more on average, or all zero, byte 255 chooses none after every weighing. |
| ServerWeights.OneServerLeavesByte | contrib/dnbd/trunk/kernel/net.c:171-183 | One active server with time 1 gets weight 255, and byte 255 chooses none. |
| ServerWeights.TwoServersLeaveNone | contrib/dnbd/trunk/kernel/net.c:171-183 | Two active servers with time 200000 get weight 133 each, and every byte chooses one of them. |
| ServerWeights.PicksOne | contrib/dnbd/trunk/kernel/net.c:66-74 | A byte chooses at most one server, and that one is active. |
| ServerWeights.Servers.NextServer | contrib/dnbd/trunk/kernel/net.c:57-86 | The loop returns the server whose range holds the byte, and 0 exactly when the byte is above all ranges. |
| ServerWeights.Servers.Weigh | contrib/dnbd/trunk/kernel/net.c:132-187 | The two passes stall the silent servers, give every active one its weight and set the average time. |
| ServerWeights.Servers.Rtt | contrib/dnbd/trunk/kernel/net.c:108-126 | The smoothed time of one server moves towards the clamped sample and stays within its bounds; no other server changes. |
| ServerWeights.SmoothedBetween | contrib/dnbd/trunk/kernel/net.c:122-124 | The new smoothed time lies between the old one and the sample. |
| ServerWeights.SmoothedWeighs | contrib/dnbd/trunk/kernel/net.c:122-124 | The new smoothed time is 990 parts of the old one and 10 parts of the sample, of 1000, rounded down. |
| ServerWeights.ClampedNearest | contrib/dnbd/trunk/kernel/net.c:116-119 | A sample outside the accepted range counts as the nearest value inside. |
| ServerWeights.StalledIff | contrib/dnbd/trunk/kernel/net.c:147-157 | Weighing stalls exactly the active servers that were sent something more than the timeout after they last answered, and otherwise changes nothing but the weights of active servers. |
| ServerWeights.AverageBetween | contrib/dnbd/trunk/kernel/net.c:158-169 | The average time lies between any bounds of the times of the active servers. |
| ServerWeights.Servers.SetServerId | contrib/dnbd/trunk/kernel/net.c:22-54 | A heartbeat activates an inactive server with the smallest time, no weight and fresh stamps, and counts it; a stalled one becomes active as it was; an active one, or a number out of range, changes nothing, and no other server changes. |
| Takeover.FastestIsMinimum | contrib/dnbd2/trunk/kernel/servers.c:38-57 | The search finds the first of the servers with the smallest smoothed time among the configured ones with an accepted time, or none if there is none. |
| Takeover.TryAllKeeps | contrib/dnbd2/trunk/kernel/servers.c:234-252 | Trying addresses only adds servers to free slots. |
| Takeover.UpdateKeepsTimes | contrib/dnbd2/trunk/kernel/servers.c:297-326 | A reply keeps the order min, smoothed time, max of a server, for all three commands. |
| Takeover.StepInv | contrib/dnbd2/trunk/kernel/servers.c:92-144 | Takeover, emergency start and end, deletion, replies and the writes of the administrator all keep the invariant. |
| Takeover.RunIsSafe | contrib/dnbd2/trunk/kernel/servers.c:92-144 | In every run from the start, while the device runs its active server is configured, and every configured server with an accepted time has min <= smoothed time <= max. |
| Takeover.StoppedActiveMayBeGone | contrib/dnbd2/trunk/kernel/core.c:446-469 | A run after which the stopped device has an active server that is no longer configured: the promise holds only while the device runs. |
| Takeover.ActiveLostIff | contrib/dnbd2/trunk/kernel/sysfs.c:342-352 | A step loses the active server if and only if the administrator writes to its slot while the device is stopped, and the write names no server or one that cannot be set up: the case that the test for a running device lets by. |
| Takeover.ActiveLostInRunIff | contrib/dnbd2/trunk/kernel/sysfs.c:342-352 | In a run, stopped devices included, the active server is configured at all times if and only if no step of the run is of this kind. |
| Takeover.SwitchIff | contrib/dnbd2/trunk/kernel/servers.c:123-140 | For every percentage, negative ones included: without a stall the active server changes exactly when the first of the fastest servers passes the thresholds, and never to a slower one. |
| Takeover.EmergencyIff | contrib/dnbd2/trunk/kernel/servers.c:108-116 | The emergency mode starts exactly when the active server is stalled and no other one is configured. |
| TakeoverSteps.StallTakesOver | contrib/dnbd2/trunk/kernel/servers.c:111-140 | With the active server stalled and another one configured, the stalled one is removed; afterwards another, configured server is active: the first configured other one in the order of the slots, if and only if among the servers left none overtakes it by the thresholds, else the one that does; nothing else changes. |
| TakeoverSteps.StallAlone | contrib/dnbd2/trunk/kernel/core.c:421-443 | With no other server configured the stalled one is kept, and, unless the emergency mode is on already, every reachable address of the emergency list is afterwards among the servers, or no slot is free. |
| TakeoverSteps.EmergencyInRun | contrib/dnbd2/trunk/kernel/servers.c:108-116 | In every run from the start the emergency mode is on only after a stall was found. |
| TakeoverSteps.TryAddIff | contrib/dnbd2/trunk/kernel/servers.c:234-252 | An address is added in the first free slot, exactly if it is not among the servers and names one; one that cannot be set up leaves the slot empty; all other slots stay. |
| TakeoverSteps.ThresholdsMean | contrib/dnbd2/trunk/kernel/servers.c:129-140 | A threshold of zero is not used, and one has to be set. The percentage asks that the smallest time is at most (100 - percentage)/100 of that of the active server, the ticks that it is smaller by at least so many; if both are set both must hold. |
| TakeoverSteps.ReplyEndsEmergency | contrib/dnbd2/trunk/kernel/core.c:228-252 | A reply ends the emergency mode with its sender active, and changes the active server only then; the emergency list becomes the sender and the servers it named, filled up with empty addresses; these servers are tried, and configured ones stay. |
| TakeoverSteps.RttUpdated | contrib/dnbd2/trunk/kernel/servers.c:297-326 | A time above the limit changes nothing; another one widens the range, and replaces the smoothed time if that is zero or the command is none for a block, else counts 10 in 1000, rounded down. |
| TakeoverSteps.Started | contrib/dnbd2/trunk/kernel/sysfs.c:190-227 | The start makes the server that told the capacity active and remembers the addresses of all slots in order. |
| TakeoverSteps.SlotWritten | contrib/dnbd2/trunk/kernel/sysfs.c:329-357 | The slot holds the new server if that can be set up, and is empty otherwise, unless it is the active one of a running device, which stays; no other slot changes. |
| TakeoverSteps.ActiveWritten | contrib/dnbd2/trunk/kernel/sysfs.c:368-389 | A server becomes active exactly if the device runs and it is configured. |
| TakeoverSteps.ServerRemoved | contrib/dnbd2/trunk/kernel/servers.c:64-86 | A server is removed exactly if it is not the active one, and no other slot changes. |
| TakeoverDevice.Device.FindNext | contrib/dnbd2/trunk/kernel/servers.c:19-32 | The loop finds the first configured server that is not active. |
| TakeoverDevice.Device.FindFastest | contrib/dnbd2/trunk/kernel/servers.c:38-57 | The loop finds the fastest server and its time. |
| TakeoverDevice.Device.TryAddServer | contrib/dnbd2/trunk/kernel/servers.c:234-252 | A known address is left alone; otherwise the first free slot is taken, if there is one. |
| TakeoverDevice.Device.ActivateFastest | contrib/dnbd2/trunk/kernel/servers.c:92-144 | The work function performs the takeover step (StallTakesOver, StallAlone, SwitchIff) and keeps the invariant. |
| TakeoverDevice.Device.BeginEmergency | contrib/dnbd2/trunk/kernel/core.c:421-443 | All servers of the emergency list are tried once; the active server stays. |
| TakeoverDevice.Device.DelServerWork | contrib/dnbd2/trunk/kernel/servers.c:64-86 | A server is removed unless it is active. |
| TakeoverDevice.Device.StoreRunning | contrib/dnbd2/trunk/kernel/sysfs.c:190-227 | The start makes the server that answered active and remembers all addresses. |
| TakeoverDevice.Device.StoreStopped | contrib/dnbd2/trunk/kernel/sysfs.c:228-240 | The stop leaves no active server. |
| TakeoverDevice.Device.StoreSock | contrib/dnbd2/trunk/kernel/sysfs.c:329-357 | A slot is rewritten unless it is the active one of a running device. |
| TakeoverDevice.Device.StoreActive | contrib/dnbd2/trunk/kernel/sysfs.c:368-389 | Only a configured server of a running device becomes active. |
| TakeoverDevice.Device.ReceiveServers | contrib/dnbd2/trunk/kernel/core.c:228-252 | The reply ends the emergency mode with its sender active, rewrites the emergency list and tries its servers. |
| TakeoverDevice.Device.RecordRtt | contrib/dnbd2/trunk/kernel/servers.c:297-326 | The times of the server that replied are updated as specified. |

## Left out

- Choice symbols, E_CHOICE and E_RANGE, int and hex ranges: they add cases to every
  recursion and break the recursive definition of the values.
- Changes of modules_val while values are computed: it is a parameter of the configuration.
- Memory management in expr.c: allocation, expr_free, sharing of subtrees between
  expressions. The trees of the rewriter are values in a field, addressed by paths.
- The NULL children that expr_trans_compare builds for a symbol other than y, m and n.
- SYMBOL_WRITE, SYMBOL_CHANGED and the change counter, warnings, and debug output.
- Properties other than the prompt in menu_finalize, reverse dependencies added by select,
  and the visibility of choice values.
- Addresses of menu entries: the links are maps from the name of an entry, so that
  frames are stated by sets of names.
- MenuFinalization.MenuTable.HandDown: of the properties of an entry only the prompt is
  modelled, and the conditions are stated to refine the conjunction, not to equal it,
  because the elimination of duplicates inside it is exact only without m.
- MenuFinalization.MenuTable.Finalize: choices and their values, and select, are not modelled.
- MenuDependencies.BelongsBelow: for a symbol above that is neither bool nor tristate the
  first test promises nothing, because the comparison with y is then not sound
  (`DependsSymbolExactType`).
- MenuDependencies.NeverMisplacedIff: comparisons that hold y or n are left out; for them the
  test is only shown to be right where the condition is always seen (`SubordinateValue`).
- SymbolDefinition.SolutionUnfolds: the cases of choices, int and hex symbols are left out.
- SymbolTables.SymbolTable.CalcValue: so they are in the calculation.
- SymbolTables.SymbolTable.CalcVisibility: the early return for choice values is left out.
- SymbolTables.SymbolTable.ClearAllValid: the calculation of modules_sym at its end is left out.
- SymbolTables.SymbolTable.SetTristate: the branch for choice values is left out, and so is a
  call for a symbol that is not valid, whose old value would be stale.
- SymbolTables.SymbolTable.InRange: the test for choice values is left out.
- Canonical.EliminatePairsComplete: requires operands without y and n, because the source
  never matches these two with each other; with them the elimination is only sound
  (`EliminatePairsFactor`).
- Extraction.ExtractEqMaximal: the same restriction.
- Extraction.ExtractLeavesUnit: the same restriction.
- BlockCache.Cache.Search: the copy into the segments of the request and read errors are
  left out.
- BlockCache.Cache.Insert: requires that a full cache of one block already has the sector,
  because the source is undefined there.
- BlockCache.Cache.Replace: requires two blocks, for the same reason.
- TakeoverDevice.Device.StoreRunning: the search for an answering server is a parameter.
- The LALR tables of the parser: the grammar is modelled by its precedences and
  associativity, as a recursive descent over tokens.
- Lexing of names and strings, file names, timestamps, and the other lines of the
  configuration file than those of string symbols.
- Failed allocations and failed writes to the cache file, counters of hits and misses, and
  the balancing of the search tree.
- Caches without any block, for which the first insertion is undefined in the source.
- Overflow of 32-bit products in the weights, and of the clock: numbers are unbounded.
- HZ is a parameter of at least 4 ticks per second.
- Takeover.SwitchIff: the product of the percentage and the time is unbounded; in the source
  it can overflow.
- Sockets, checksums, thread start and stop, and the timers themselves: their effects are
  steps or parameters.
- RequestProtocol.RequestsAreSafe: a request may be stamped with a new sending time at any
  moment, which allows more runs than the driver has.
- Kernel memory of requests: the sending thread may still read a request that the receiving
  thread has completed; the model keeps its record.
- The counters of the request pool of DNBD2, its requeue policy and its capacity requests:
  the start of the device is one step with the server that answered.
- The text encodation and the module placement of Data Matrix symbols, and image output.
- The user interfaces mconf and conf, and the other tools of the repository.

# jetlint: verified static analysers

jetlint's rules make claims about every run of the program they look at: this function never
falls off its end, this constructor calls `super()` exactly once, this test never flips, this
else-if can never run. This project models those analysers, and the machinery around them, in
Dafny 4.11, gives the analysed program a semantics, and proves which of the claims hold.

Each analyser appears twice. A function says what it computes; where the source works by loops,
maps and buffers, a method runs the same steps and is proved to compute that function. The
theorems relate the function to an independent definition: runs of a program, values of an
expression, valuations of a condition, interleavings of callers, spellings of a literal.

| files | what they hold |
|---|---|
| `Options`, `Syntax`, `Completions`, `Paths`, `Jumps` | statements and their runs as completion records (ECMA-262 (2023) sections 6.2.4, 14.12 and 14.15): conditions go either way, loops run any number of times, expressions may skip parts, and every run counts its `super()` calls. One semantics for three analysers |
| `Outcomes`, `Tallies` | the completions a statement can have, and with how many `super()` calls, computed from its syntax and proved to be those of its runs: what the analysers are compared with where they go wrong |
| `ReturnStatus` (module `ReturnFlow`), `ReturnRecords`, `CaseExits` | how a function body returns, and which returns that records; whether a case clause can fall through |
| `SuperCount`, `SuperFlow`, `SuperSound`, `SuperExact`, `SuperReasons`, `SuperVerdict` | the four-point domain of call counts, the path analysis over it, the code on which it is sound, why it differs from the true status on code it follows, and exactly when it is right on any code |
| `JsExpr`, `TruthSorts`, `ValueText` | expressions and the values they can have (opaque parts have any); which are nullish, falsy and truthy; which have no text |
| `ConstantCondition`, `ConstantText`, `ConstantReport`, `ConstantNullishness` | the constancy predicates, the texts of array literals and templates, when a report is right, and constant nullishness |
| `Text`, `Canonical`, `DuplicateCase`, `DupeElseIf`, `DeadBranch` | canonical strings, why equal strings mean equal trees, and the two rules that compare trees by them |
| `SpawnElection` | any number of callers of `EnsureRunning` and their daemons, as interleaved steps |
| `Engine` (module `LintEngine`), `ConfigCascade` | one dispatching, capped walk; the merge of configuration files |
| `Bytes`, `JsonComments`, `RustStrings`, `RustSpellings`, `RustTokens` | the scanners that read fixtures, and the ways Rust spells a string literal |
| `ForDirection` | for loops whose counter moves away from the bound |

`dafny verify dfyconfig.toml` checks everything.

## Where the code falls short of its claim

Each of these has a lemma with a concrete input, and a lemma that says exactly when the claim does hold. For the
analysers the condition looks at the input: the syntax of a statement, the sorts and texts of values the parts of an
expression can have, or the trees that are compared.

- A `break` below a clause's direct statements is not tracked, so a switch judged to return always can
  complete normally (`ReturnFlow.NestedBreakIsUnsound`; `ReturnFlow.MustReturnExact`, for any statement).
- After `while (c) break;` the walk of a block stops, as it does after `break`, and a finally block that may return but
  need not is not looked at, so the returns there are missed (`ReturnRecords.BareBreakIsUnsound`,
  `ReturnRecords.FinallyReturnIsUnsound`; `ReturnRecords.RecordsExact`).
- A do-while body that can `break` or `continue` its own loop is still taken to exit the case
  (`CaseExits.BreakingDoWhileIsUnsound`; `CaseExits.CaseExitsExact`, for any clause).
- `superInExpr` takes only `&&`, `||`, `??` and `?:` to skip anything. In `x ||= super()`, `f?.(super())` and
  `let {a = super()} = x` the call may be skipped, yet counts as made (`SuperSound.SkippedSuperIsUnsound`;
  `SuperCount.SteadyExact`, for any expression).
- `loopBody` takes the last child, which for a do-while is its test. A bare `return` in a do-while body is
  therefore invisible to the super-call analysis (`SuperSound.DoWhileReturnIsUnsound`; `SuperSound.DoWhileReturnExact` for
  the statement, `SuperReasons.ConstructorExact` for the constructor).
- `composeSequential` keeps the count of paths that are no longer alive, so a constructor that always throws
  can be reported as calling `super()` twice (`SuperReasons.StaleMultipleHappens`; `SuperReasons.ConstructorExact`).
- A catch block is analysed as if nothing had run before it, a finally block is not reached when both blocks before it
  exit, and the heads of loops and switches are not counted (`SuperVerdict.CatchIsUnsound`,
  `SuperVerdict.FinallyIsUnsound`, `SuperVerdict.LoopHeadIsUnsound`, `SuperVerdict.SwitchHeadIsUnsound`;
  `SuperVerdict.VerdictExact`, for any constructor body).
- The calls of earlier rounds of a loop are counted only for paths that go on after it, and those of a path that breaks
  out of it for none. A loop that may call `super()` or return bare, in a branch that always throws, can therefore return
  after two calls under SuperSome, and `while (x) { if (x) { super(); break; } }` is SuperNone
  (`SuperVerdict.LoopReturnIsUnsound`, `SuperVerdict.LoopBreakIsUnsound`; `SuperVerdict.VerdictExact`).
- `??` with two constant operands is taken to be constant, but the left may be falsy without being nullish
  (`ConstantReport.CoalesceIsUnsound`; `ConstantReport.CoalesceExact`).
- `null` in an array literal is taken to have the text it has on its own, and a spread inside a spread counts as an
  element, so the empty text of `[null]` and of `[...[...[], ...[]]]` counts as text in a template
  (`ConstantText.NullElementIsUnsound`, `ConstantText.SpreadCountIsUnsound`; `ConstantText.SpanExact` for the
  span, `ConstantText.HollowExact` for the template).
- `&&=`, `||=` and `??=` are taken to have a fixed nullishness whatever their operands are
  (`ConstantNullishness.AndAssignIsUnsound`, `ConstantNullishness.OrAssignIsUnsound`;
  `ConstantNullishness.LogicalAssignExact`, and `ConstantNullishness.RightExact` for any expression).
- Canonical strings, whose comments promise to tell shapes apart, record the children of a node and the text of some
  leaves, and nothing else that a node holds. A unary operator, the `var` or `let` of a declaration, the `extends` of a
  heritage clause and JSX text are none of these. `case -1` and `case +1` clash, and so on
  (`DuplicateCase.UnaryOperatorIgnored`, `DuplicateCase.LeafTextIgnored`, `DuplicateCase.KeywordIgnored`;
  `DuplicateCase.DuplicateExact`). `if (!x) … else if (-x) …`, `if (f(<b>x</b>)) … else if (f(<b>y</b>)) …`, and calls of
  functions that differ in a `var` and a `let`, are reported although the second branch can run
  (`DeadBranch.OperatorConfusion`, `DeadBranch.LeafTextConfusion`, `DeadBranch.KeywordConfusion`;
  `DeadBranch.RightReportExact`).
- Sides of `&&` and `||` are also swapped inside atoms, so `f(x && y)` and `f(y && x)` count as the same test, though a
  call may tell their values apart (`DeadBranch.SwapConfusion`; `DeadBranch.LiteralReportExact`).
- A spawner that stops waiting, a daemon that exits, or a probe that times out on a live daemon each lead to a second
  daemon; a timed-out probe also unlinks the live one's socket (`SpawnElection.SlowProbeSpawnsTwo`;
  `SpawnElection.SafeExactly`).
- With ignore patterns, which are applied after the capped run, the cap can change the exit code
  (`LintEngine.CapHidesError`; `LintEngine.ExitCodeExact`).
- A raw byte string with hashes (`br#"…"#`) always fails to tokenize, because the raw reader is started at its `#`; one
  without is read with escapes, so `br"\"` fails (`RustTokens.HashedByteStringFails`,
  `RustTokens.BackslashByteStringFails`; `RustTokens.RawByteStringExact`).

- A line continuation in a Rust literal, a backslash at the end of a line, is read as the line end and the white space
  that Rust skips, and an underscore in `\u{1_F600}` as a digit 0 (`RustSpellings.ContinuationIsMisread`,
  `RustSpellings.UnderscoreIsMisread`; `RustSpellings.ReadsRightExact`, and `RustSpellings.BracedExact` for the braces).

## Model

| member | source | states |
|---|---|---|
| ReturnFlow.MustReturnSound | internal/astflow/return_status.go:155-450 | No run of a statement whose status is MustReturn completes normally: loops, try/catch/finally, fallthrough; every break of a switch is a direct statement of a clause, no labelled jumps |
| ReturnFlow.MustReturnBodyNeverFallsOff | internal/astflow/return_status.go:96-111 | A function whose status is MustReturn never runs off the end of its body |
| ReturnFlow.MustReturnExact | internal/astflow/return_status.go:155-450 | For any statement with that status, the verdict is right exactly when normal completion is not among the completions computed from its syntax; with direct breaks it never is |
| ReturnFlow.MustReturnSwitchExact | internal/astflow/return_status.go:275-339 | A switch judged MustReturn completes normally exactly when `break`, at any depth, is a computed completion of running from some clause |
| Outcomes.OutExact | internal/astflow/return_status.go:155-450 | The completions computed from a statement's syntax are exactly those its runs have: loops, try, finally and jumps at any depth |
| ReturnFlow.NestedBreakIsUnsound | internal/astflow/return_status.go:222-240 | `switch (x) { default: if (c) break; return y; }` is AlwaysExplicit, yet can complete normally |
| ReturnFlow.ReturnStatusExact | internal/astflow/return_status.go:155-450 | The status is makeStatus of the true outcome set over all runs: branches, switches with direct breaks, labels, loops without jumps that can come to their end, do-whiles that do not return, tries that throw nothing they catch, finally blocks that always return or never do |
| ReturnRecords.ReturnsRecorded | internal/astflow/return_status.go:155-450 | Every value or bare return, and every throw, that a run can end with is recorded: loops with jumps, try/catch, labels, switches with direct breaks; no do-while returns, no loop is nothing but a jump, and a finally block always returns or never does |
| ReturnRecords.RecordsExact | internal/astflow/return_status.go:155-450 | And nothing else is recorded where no statement is unreachable but behind a jump or a statement judged to return, and nothing thrown is caught: the status records exactly the returns of the runs |
| ReturnRecords.BareBreakIsUnsound | internal/astflow/return_status.go:222-240 | `while (c) break; return y;` is NotReturn, yet can return |
| ReturnRecords.FinallyReturnIsUnsound | internal/astflow/return_status.go:343-386 | A try whose finally block may return is NotReturn, yet can return bare |
| ReturnFlow.SwitchExact | internal/astflow/return_status.go:275-339 | The right-to-left pass and the merge of entries agree with running the switch from every clause it can be entered at |
| ReturnFlow.AnalyzeBlock | internal/astflow/return_status.go:155-211 | The traversal computes the status function for every statement |
| ReturnFlow.WalkStatements | internal/astflow/return_status.go:222-240 | The accumulating loop, with its early exits, computes the status of the list and whether it broke out |
| ReturnFlow.AnalyzeSwitch | internal/astflow/return_status.go:275-339 | The loop over entries computes the merged status, with the no-default path merged in |
| ReturnFlow.EntryStatuses | internal/astflow/return_status.go:300-329 | Filling `infos` right to left gives each clause the status of entering the switch there |
| ReturnFlow.AnalyzeTry | internal/astflow/return_status.go:343-386 | try, catch and finally are combined as the status function says |
| SuperCount.ComposeIsSumset | internal/astflow/super_call.go:525-532 | composeSuperSequential of two abstractions is the abstraction of the sumset, for all nonempty sets of call counts |
| SuperCount.MergeIsUnion | internal/astflow/super_call.go:536-544 | mergeSuperBranches of two abstractions is the abstraction of the union |
| SuperCount.SteadyExact | internal/astflow/super_call.go:466-522 | superInExpr is right on an expression and all it is made of exactly when no head calls super and nothing that `?.`, a logical assignment or a default may skip makes a path's one call |
| SuperCount.InExprExact | internal/astflow/super_call.go:466-522 | superInExpr is the abstraction of the call counts over all evaluation paths of an expression exactly when it agrees with the count that merges what may be skipped |
| SuperCount.CountedExact | internal/astflow/super_call.go:466-522 | A count that merges what may be skipped is the abstraction of the call counts over all evaluation paths, for every expression |
| SuperCount.SuperInExpr | internal/astflow/super_call.go:466-522 | The accumulating traversal of an expression computes the status function |
| SuperFlow.AnalyzeNode | internal/astflow/super_call.go:132-211 | The traversal of statements computes the path state function |
| SuperFlow.AnalyzeStmtSeq | internal/astflow/super_call.go:255-264 | The loop over statements composes their states until no path is alive |
| SuperFlow.AnalyzeSwitchNode | internal/astflow/super_call.go:296-350 | The right-to-left deltas and their merge compute the switch state function |
| SuperSound.AmendedSound | internal/astflow/super_call.go:79-127 | With right expression counts and do-while bodies looked at, every run that ends normally or by bare return makes a number of super calls the status allows |
| SuperSound.ConstructorSound | internal/astflow/super_call.go:79-127 | SuperAlways: every run that ends normally or by bare return makes exactly one super call; not SuperMultiple: none makes two; SuperNone: none makes any; where the status allows what the amended one does. Loops may call super and return bare, but not `break` or `continue` then; a try may call super in its block, or in a handler |
| SuperSound.OvertCovers | internal/astflow/super_call.go:79-127 | It does on code whose expressions are counted right and whose do-while bodies do not return bare |
| SuperSound.OvertSound | internal/astflow/super_call.go:79-127 | On that code the three clauses hold, also for a body that never completes normally after a loop that may call super and return bare |
| SuperSound.StateAccounts | internal/astflow/super_call.go:132-211 | Every run of a statement that completes normally, returns bare or breaks to its clause is covered by the amended path state, or returned bare from a later round of a loop and the state says Multiple |
| SuperSound.SwitchAccounts | internal/astflow/super_call.go:296-350 | Every run of a switch, entered at any clause or none, is covered by the amended merged state |
| SuperSound.DoWhileReturnIsUnsound | internal/astflow/return_status.go:495-505 | `do { return; } while (t); super();` is SuperAlways, yet has a run that returns without super |
| SuperSound.DoWhileReturnExact | internal/astflow/return_status.go:495-505 | The state of a do-while accounts for its bare returns exactly when bare return is not a computed completion of its body |
| SuperSound.SkippedSuperIsUnsound | internal/astflow/super_call.go:505-513 | `x \|\|= super();` is SuperAlways, yet has a run without a call |
| SuperReasons.ConstructorExact | internal/astflow/super_call.go:79-127 | Where the body never completes normally and a path has made two calls by the first statement that cannot, the status is wrong exactly when no judged run makes two; elsewhere, exactly when the bare returns out of do-whiles call for another status than the other judged runs |
| SuperExact.AmendedExact | internal/astflow/super_call.go:79-127 | On plain code, loops that call super included, the amended status is the abstraction of the true counts |
| SuperVerdict.VerdictExact | internal/astflow/super_call.go:79-127 | For any constructor body: every judged run makes a number of super calls the status allows exactly when the status allows each count computed from the syntax |
| SuperVerdict.TrueStatusExact | internal/astflow/super_call.go:79-127 | For any constructor body, the status its runs call for is computed from the syntax: loops, try and jumps at any depth |
| Tallies.TalliesExact | internal/astflow/super_call.go:132-211 | The endings and capped call counts computed for a statement are exactly those of its runs |
| SuperVerdict.CatchIsUnsound | internal/astflow/super_call.go:353-383 | `try { super(); throw x; } catch { super(); }` is SuperAlways, yet calls super twice |
| SuperVerdict.FinallyIsUnsound | internal/astflow/super_call.go:353-383 | `try { return x; } catch { return x; } finally { return; }` is SuperAlways, yet returns bare without super |
| SuperVerdict.LoopHeadIsUnsound | internal/astflow/super_call.go:164-188 | `for (super(); x;) {}` is SuperNone, yet calls super |
| SuperVerdict.SwitchHeadIsUnsound | internal/astflow/super_call.go:296-350 | `switch (super()) {}` is SuperNone, yet calls super |
| SuperVerdict.LoopBreakIsUnsound | internal/astflow/super_call.go:161-191 | `while (x) { if (x) { super(); break; } }` is SuperNone, yet calls super |
| SuperVerdict.LoopReturnIsUnsound | internal/astflow/super_call.go:164-191 | `if (x) { while (x) { if (x) super(); else return; } throw x; } else super();` is SuperSome, yet can return bare after two calls |
| SuperExact.StateExact | internal/astflow/super_call.go:393-463 | There each amended record of alive, broken and bare-return paths is the abstraction of the true sets of counts |
| SuperExact.RepeatExact | internal/astflow/super_call.go:164-191 | The state of a loop that neither jumps nor returns bare is the abstraction of its true counts: SuperMultiple exactly when a round that goes on can call super |
| SuperExact.TryExact | internal/astflow/super_call.go:353-383 | So is that of a try with a super-free block, whatever its handler calls, and a finally block that only passes |
| SuperReasons.StaleMultipleHappens | internal/astflow/super_call.go:411-430 | `super(); super(); throw e;` is SuperMultiple although no run is judged |
| CaseExits.CaseExitsSound | internal/rules/nofallthrough/rule.go:170-177 | When caseExits holds, no run of the clause body completes normally, through blocks, if/else, try/catch/finally and do-while without a break or continue of its own |
| CaseExits.StatementExitsSound | internal/rules/nofallthrough/rule.go:352-411 | A statement that statementAlwaysExits accepts never completes normally |
| CaseExits.BodyExits | internal/rules/nofallthrough/rule.go:138-168 | A body that bodyAlwaysExitsCase accepts never completes normally |
| CaseExits.CaseExitsExact | internal/rules/nofallthrough/rule.go:170-177 | For any accepted clause, the verdict is right exactly when normal completion is not among the completions computed from its syntax |
| CaseExits.AcceptedExact | internal/rules/nofallthrough/rule.go:352-411 | A clause is accepted exactly when no run goes off its end: simple statements, return, throw, break, continue, block, if, try whose handler can be reached, do-while over branching code |
| CaseExits.DoWhileExitExact | internal/rules/nofallthrough/rule.go:352-411 | An accepted do-while completes normally exactly when `break` or `continue` is a computed completion of its body |
| CaseExits.BreakingDoWhileIsUnsound | internal/rules/nofallthrough/rule.go:352-411 | `do { if (c) break; return y; } while (t);` is accepted and can fall through |
| ConstantCondition.TruthySound | internal/rules/noconstantcondition/rule.go:545-619 | isConstantTruthy and isConstantFalsy imply truthy and falsy values in every evaluation, zeros being spelled as the parser spells them |
| ConstantCondition.NullishSound | internal/rules/noconstantcondition/rule.go:623-642 | isConstantNullish and isConstantNonNullish are right in every evaluation |
| ConstantCondition.PrimitiveSound | internal/rules/noconstantcondition/rule.go:841-919 | isPrimitiveConstant implies that any two evaluations give the same primitive value |
| ConstantText.SpanExact | internal/rules/noconstantcondition/rule.go:648-694 | isPrimitiveConstantTruthy implies that every evaluation contributes text to a template, unless the span is hollow; a hollow one without templates contributes none |
| ConstantText.CoercibleExact | internal/rules/noconstantcondition/rule.go:926-961 | A coercible array literal holds only known values, as many as its flattened width, and has no text exactly when it is textless |
| ConstantText.CoercibleFixed | internal/rules/noconstantcondition/rule.go:926-961 | It has one value, and so one text, in every evaluation |
| ConstantText.TemplateExact | internal/rules/noconstantcondition/rule.go:478-516 | A template can go either way exactly when it has no text of its own, every span can be without text, and some span can have some |
| ConstantText.HollowExact | internal/rules/noconstantcondition/rule.go:478-516 | A template, reported or not, can go either way exactly when it is hollow, every span can be without text, and some span that the verdict does not pin down can have some |
| ConstantText.NullElementIsUnsound | internal/rules/noconstantcondition/rule.go:648-735 | <code>&#96;${[null]}${x}&#96;</code> is reported, and can go either way |
| ConstantText.SpreadCountIsUnsound | internal/rules/noconstantcondition/rule.go:700-735 | So is a template with the empty `[...[...[], ...[]]]` before `${x}` |
| ConstantReport.ObviouslyConstantSound | internal/rules/noconstantcondition/rule.go:360-541 | isObviouslyConstant implies that any two evaluations agree on truthiness, where no `??` decided by its last branch is unclear and no template taken to have text is hollow |
| ConstantReport.BasicReportExact | internal/rules/noconstantcondition/rule.go:360-541 | On tests of literals, arrays, identifiers but `NaN`, `!`, `void`, `typeof`, comma, `&&`, `\|\|` and `=`, `&&=`, `\|\|=`, the rule reports exactly those that cannot go either way |
| ConstantReport.BasicTruthExact | internal/rules/noconstantcondition/rule.go:545-619 | There isConstantTruthy holds exactly of what is always truthy, and isConstantFalsy of what is always falsy |
| ConstantReport.ArithmeticReported | internal/rules/noconstantcondition/rule.go:841-919 | Operators, logical ones included, on literals are one primitive and are reported |
| ConstantReport.ListReported | internal/rules/noconstantcondition/rule.go:926-961 | So is adding such a term to an array literal that holds nothing but such terms, holes and arrays, nested or spread |
| ConstantReport.TextReported | internal/rules/noconstantcondition/rule.go:478-516 | So is a template with text of its own, or with a span that is a literal with text, a sum of two, or an array literal with one in it or with a comma |
| ConstantReport.CoalesceReportExact | internal/rules/noconstantcondition/rule.go:451-457 | `??` behind a literal or identifier is reported exactly when it cannot go either way, and is seen to be truthy exactly when it always is |
| ConstantReport.BooleanReported | internal/rules/noconstantcondition/rule.go:518-541 | So is `Boolean(e)` when such a test `e` cannot go either way |
| TruthSorts.SortsExact | internal/rules/noconstantcondition/rule.go:360-541 | Which of nullish, falsy and truthy the values of an expression can be follows from its parts, array literals included; what arithmetic and templates yield is left to the host |
| TruthSorts.FlipsExact | internal/rules/noconstantcondition/rule.go:360-541 | A test can go either way exactly when its sorts are mixed |
| ConstantCondition.FindTruthyPart | internal/rules/noconstantcondition/rule.go:478-516 | The template case's flag loop finds whether some part is never empty |
| ConstantCondition.ArrayCoercionIsTruthy | internal/rules/noconstantcondition/rule.go:700-735 | The flag and counter of the nested loops decide whether an element is taken to have text or two are counted |
| ConstantReport.CoalesceExact | internal/rules/noconstantcondition/rule.go:451-457 | A reported `??` of rightly constant operands can go either way exactly when the left can be nullish and can be falsy otherwise, and the right can be truthy |
| ConstantReport.ClearBySight | internal/rules/noconstantcondition/rule.go:451-457 | It cannot when the left is constantly non-nullish, nullish, truthy or one primitive, or the right constantly falsy |
| ConstantReport.CoalesceIsUnsound | internal/rules/noconstantcondition/rule.go:451-457 | `(x && null) ?? true` is reported, and can go either way |
| ConstantNullishness.NullishnessSound | internal/rules/noconstantbinaryexpression/rule.go:347-486 | Where hasConstantNullishness holds, every value is nullish if isStaticallyNullish holds, and none is otherwise |
| ConstantNullishness.FixedIsSeen | internal/rules/noconstantbinaryexpression/rule.go:347-486 | It holds of every literal, function, update, arithmetic, conversion, comma, parenthesis or assignment that is always nullish or never |
| ConstantNullishness.FixedCoalesceIsSeen | internal/rules/noconstantbinaryexpression/rule.go:347-486 | And of a `??` whose left side may be nullish and whose right side is such an expression, when the whole never is |
| ConstantNullishness.RightExact | internal/rules/noconstantbinaryexpression/rule.go:347-486 | On any expression the verdict is right exactly when the sorts of its values, arithmetic left to the host, are those it claims |
| ConstantNullishness.LogicalAssignExact | internal/rules/noconstantbinaryexpression/rule.go:377-486 | A logical assignment, judged never nullish, is that exactly when it is `\|\|=` or `??=` and nullish is not among the sorts of its source |
| ConstantNullishness.AndAssignIsUnsound | internal/rules/noconstantbinaryexpression/rule.go:377-486 | `(x &&= 1)` is judged never nullish, and can be undefined |
| ConstantNullishness.OrAssignIsUnsound | internal/rules/noconstantbinaryexpression/rule.go:377-486 | `x \|\|= null` is judged never nullish, and can be null |
| Text.QuoteReadable | internal/rules/noduplicatecase/rule.go:50-54 | A quoted text can be told from whatever follows it |
| Canonical.RenderReadable | internal/rules/noduplicatecase/rule.go:40-68 | Unique readability: two rendered shapes followed by anything are equal only if the shapes and what follows are |
| DuplicateCase.BuildCanonical | internal/rules/noduplicatecase/rule.go:43-68 | The string builder writes the rendering of what is shown of the tree |
| DuplicateCase.CanonicalizeExact | internal/rules/noduplicatecase/rule.go:40-68 | Two trees have the same canonical string exactly when, parentheses removed everywhere, they have the same kinds, children and texts of listed leaves |
| DuplicateCase.ParensExact | internal/rules/noduplicatecase/rule.go:40-45 | Parentheses change no string, removing them removes them all, and leaves a tree without any as it is |
| DuplicateCase.LeafReportExact | internal/rules/noduplicatecase/rule.go:71-87 | Of two labels that are leaves of the ten kinds that hold text, the second is reported exactly when kind and text are equal |
| DuplicateCase.Visit | internal/rules/noduplicatecase/rule.go:89-115 | The seen-set loop reports, in order, exactly the clauses whose label looks like an earlier one: the same erased tree |
| DuplicateCase.DuplicateExact | internal/rules/noduplicatecase/rule.go:89-115 | Every repeated label is reported, and a clause repeats a label exactly when an earlier one that looks the same holds the same in all that the strings omit |
| DuplicateCase.UnaryOperatorIgnored | internal/rules/noduplicatecase/rule.go:50-66 | Operands under different unary operators share a string |
| DuplicateCase.LeafTextIgnored | internal/rules/noduplicatecase/rule.go:50-66 | A label that differs from an earlier one in JSX text only looks like it and does not repeat it |
| DuplicateCase.KeywordIgnored | internal/rules/noduplicatecase/rule.go:50-66 | Nor does a call of a function that differs in the keyword of a declaration |
| DupeElseIf.BuildCanonical | internal/rules/nodupeelseif/rule.go:191-233 | The recursion that sorts the sides of `&&` and `\|\|` writes the rendering of the normal form |
| DupeElseIf.CanonicalizeExact | internal/rules/nodupeelseif/rule.go:184-233 | Two expressions have the same string exactly when they are the same up to swapping the sides of `&&` and `\|\|`, and up to unlisted leaf text and all that nodes hold besides text and children |
| DupeElseIf.SwapExact | internal/rules/nodupeelseif/rule.go:196-213 | Swapping the sides of an operator goes unnoticed exactly for `&&` and `\|\|`, and between sides with one string |
| DupeElseIf.ParensTold | internal/rules/nodupeelseif/rule.go:184-189 | An expression and itself in parentheses never have one string |
| DupeElseIf.OperandsExact | internal/rules/nodupeelseif/rule.go:156-167 | No operand is parenthesized or has the operator it was split at |
| DupeElseIf.CheckSubset | internal/rules/nodupeelseif/rule.go:169-182 | The nested loop decides whether every term of one conjunction is in the other |
| DupeElseIf.FilterRow | internal/rules/nodupeelseif/rule.go:98-113 | Filtering a row over its own storage leaves exactly its uncovered operands, in order |
| DupeElseIf.FilterAll | internal/rules/nodupeelseif/rule.go:98-113 | Filtering every row in turn disturbs no other row |
| DupeElseIf.Visit | internal/rules/nodupeelseif/rule.go:38-122 | The walk up the chain reports exactly when some condition's row is emptied by the ancestors |
| DeadBranch.SurvivorsExact | internal/rules/nodupeelseif/rule.go:98-113 | An operand is filtered away exactly when some ancestor's row covers it |
| DeadBranch.AndSplit | internal/rules/nodupeelseif/rule.go:156-167 | A condition holds exactly when all its AND-operands do |
| DeadBranch.OrSplit | internal/rules/nodupeelseif/rule.go:156-167 | A condition holds exactly when one of its OR-operands does |
| DeadBranch.ReportExact | internal/rules/nodupeelseif/rule.go:38-122 | The rule reports exactly when, for the test or an AND-operand of it, each OR-operand has in some ancestor an OR-operand whose AND-terms all have the strings of its own |
| DeadBranch.LeafReportExact | internal/rules/nodupeelseif/rule.go:235-250 | An else-if on a leaf of the ten kinds that hold text, below another, is reported exactly when kind and text are equal, and exactly then their strings are |
| DeadBranch.NeverReachedExact | internal/rules/nodupeelseif/rule.go:38-122 | Whatever counts as the same atom, for ORs of ANDs of atoms and chains of any length: every valuation of the test makes an ancestor true exactly when each OR-operand is so covered by the same terms |
| DeadBranch.RightReportExact | internal/rules/nodupeelseif/rule.go:38-122 | On such tests every branch never reached is reported, and a report is right exactly when the covering terms agree in all the strings omit |
| DeadBranch.DeadBranchSound | internal/rules/nodupeelseif/rule.go:38-122 | Every valuation that makes a reported test true makes an earlier condition of the chain true, for tests of any form whose compared terms agree in what the strings omit |
| DeadBranch.RecordedReportSound | internal/rules/nodupeelseif/rule.go:38-122 | The same for tests of any form that hold nothing the strings omit |
| DeadBranch.AtomReportExact | internal/rules/nodupeelseif/rule.go:184-233 | One atom after another is reported when their strings agree, rightly when they are the same up to swaps, and rightly with swaps told apart when they are identical |
| DeadBranch.OperatorConfusion | internal/rules/nodupeelseif/rule.go:184-233 | Two tests with different unary operators on one operand are reported, and the second can hold alone |
| DeadBranch.LeafTextConfusion | internal/rules/nodupeelseif/rule.go:235-250 | Two calls that differ in JSX text are reported, and the second can hold alone |
| DeadBranch.KeywordConfusion | internal/rules/nodupeelseif/rule.go:214-233 | A call of a function that differs in a `let` for a `var` is reported, and can hold alone |
| DeadBranch.LiteralReportExact | internal/rules/nodupeelseif/rule.go:196-213 | If swapped sides below an atom may matter, a report on ORs of ANDs of atoms is right exactly when the covering terms are identical |
| DeadBranch.SwapConfusion | internal/rules/nodupeelseif/rule.go:196-213 | Two calls whose arguments differ in the order of an `&&` are reported, and the second can hold alone |
| SpawnElection.MutualExclusion | internal/daemon/spawn_unix.go:10-16 | In every run, whatever fails, exactly the holder of the lock stands between taking and leaving it |
| SpawnElection.SingleSpawn | internal/daemon/spawn.go:58-149 | For any number of callers and any interleaving, under the three assumptions: at most one daemon ever, a live daemon's socket never unlinked, success only while the daemon serves |
| SpawnElection.SafeExactly | internal/daemon/spawn.go:58-149 | All runs are safe exactly when no spawner gives up early, no daemon exits and no probe of a serving daemon fails |
| SpawnElection.NilOnlyOnAnswer | internal/daemon/spawn.go:58-149 | Whatever fails: a step that lets a caller return nil is taken only where a serving daemon answers |
| SpawnElection.ErrorOnlyOnFailure | internal/daemon/spawn.go:58-149 | A caller returns an error only when its set-up failed, or a spawner when its wait ran out |
| SpawnElection.SpawnsOnlyUnanswered | internal/daemon/spawn.go:81-133 | Only a caller whose probe under the lock found no daemon, or failed, goes on to unlink and to spawn |
| SpawnElection.DaemonsOnlySpawned | internal/daemon/spawn.go:110-133 | A step adds at most one daemon, and only from a caller about to spawn it |
| SpawnElection.RunsEnd | internal/daemon/spawn.go:134-148 | Every run is bounded by its first state |
| SpawnElection.NoDeadlock | internal/daemon/spawn.go:58-149 | While a caller has not returned, some step can be taken without any failure |
| SpawnElection.EveryCallSucceeds | internal/daemon/spawn.go:50-57 | A run that can go no further has returned nil to every caller, with a daemon serving |
| SpawnElection.SlowProbeSpawnsTwo | internal/daemon/spawn.go:81-90 | A probe that times out on a serving daemon leads to a second daemon |
| LintEngine.Engine.Lint | internal/engine/engine.go:46-117 | The result is the batches of the naive loop over files, nodes and rules, in its order, fed in until the cap is reached |
| LintEngine.Collector.RunEntry | internal/engine/engine.go:90-112 | One handler adds its batch, keeps the error count equal to the errors collected, and stops exactly at the cap |
| LintEngine.BuildDispatch | internal/engine/engine.go:50-69 | However the handler maps are iterated, each kind lists the active rules' handlers in rule order |
| LintEngine.DispatchIsNaive | internal/engine/engine.go:50-90 | Dispatch by kind calls the same handlers in the same order as asking every rule |
| LintEngine.DiagnosticsExact | internal/engine/engine.go:46-145 | Uncapped, a diagnostic is among the result exactly when a rule with a configured, not empty severity reports it, with its id, severity, message and the reported node's range, at a node of a kind it handles, or panics there, which is a warning of jetlint/rule-panic at that node |
| LintEngine.CappedIsShortestPrefix | internal/engine/engine.go:33-42 | A capped run is the shortest prefix of the batches with that many errors, or all of them |
| LintEngine.CapKeepsErrors | internal/engine/engine.go:101-112 | Whether any error is found does not depend on the cap |
| LintEngine.FilterIgnored | internal/cli/cli.go:1238-1250 | Filtering over its own storage keeps exactly the diagnostics of files that are not ignored |
| LintEngine.ExitCodeExact | internal/cli/cli.go:1238-1260 | With ignore patterns, no cap changes the exit code exactly when the first batch with an error has one that is not ignored, or there is none anywhere |
| LintEngine.CapHidesError | internal/cli/cli.go:1238-1260 | An error in an ignored file before the only one that counts: with a cap of one the exit code changes |
| RustStrings.ReadRegularString | cmd/oxlint-fixtures/extract.go:197-273 | The reading loop computes the value and end index given unit by unit |
| RustSpellings.SpellingReads | cmd/oxlint-fixtures/extract.go:197-273 | Every way Rust spells a literal, by raw bytes, letters, `\x`, `\u{}` with any digits and underscores, and line continuations, is read to the closing quote, with a value given unit by unit |
| RustSpellings.ReadsRightExact | cmd/oxlint-fixtures/extract.go:197-273 | That value is what the literal means in Rust exactly when it holds no continuation and no misread underscore |
| RustSpellings.BracedExact | cmd/oxlint-fixtures/extract.go:232-248 | The braces are misread exactly when an underscore stands behind a digit other than 0, but that U+FFFD is also what stands for no scalar value |
| RustSpellings.ContinuationIsMisread | cmd/oxlint-fixtures/extract.go:263-266 | A continuation is read as the line end and the white space after it |
| RustSpellings.UnderscoreIsMisread | cmd/oxlint-fixtures/extract.go:242-248 | `\u{1_F600}` is U+1F600, and read as U+10F600 |
| RustSpellings.RuneExact | cmd/oxlint-fixtures/extract.go:242-248 | The 32-bit rune that the digit loop ends with is the scalar value exactly when no underscore stands behind a digit other than 0, for any number of underscores |
| RustSpellings.RegularRoundTrip | cmd/oxlint-fixtures/extract.go:197-273 | An escaped literal anywhere in a text reads back as its content, to its exact end |
| RustStrings.ReadRawString | cmd/oxlint-fixtures/extract.go:302-334 | The raw reading loop stops at the first quote followed by enough hashes |
| RustStrings.RawExact | cmd/oxlint-fixtures/extract.go:302-334 | A raw literal reads back as its content, to its exact end, exactly when every quote in the content is followed by fewer hashes than the literal has |
| RustTokens.Tokenize | cmd/oxlint-fixtures/extract.go:52-175 | The loop terminates on every text, stays in bounds, and yields the tokens given step by step |
| RustTokens.TokensInOrder | cmd/oxlint-fixtures/extract.go:52-175 | Tokens stand where they say with the text they say, in order, none reaching into the next |
| RustTokens.BracketIsOneToken | cmd/oxlint-fixtures/extract.go:139-159 | Where a token can start, each bracket and comma is one token, of its own kind |
| RustTokens.WordIsOneToken | cmd/oxlint-fixtures/extract.go:160-172 | A longest run of bytes without white space, brackets, quotes and the listed marks, that starts no string, is one token |
| RustTokens.MarkIsOneToken | cmd/oxlint-fixtures/extract.go:160-172 | Each such mark that starts no comment is one token |
| RustTokens.QuotedIsOneToken | cmd/oxlint-fixtures/extract.go:119-138 | A character literal or lifetime is one token, up to its `'` or to the first stop not behind a backslash |
| RustTokens.BlockCommentSkipped | cmd/oxlint-fixtures/extract.go:65-80 | A block comment is skipped to its own close, with every comment nested in it, however deep |
| RustTokens.LineCommentSkipped | cmd/oxlint-fixtures/extract.go:60-64 | A line comment is skipped up to its line end |
| RustTokens.RawLiteralIsOneToken | cmd/oxlint-fixtures/extract.go:88-94 | A raw literal is one string token, whatever brackets and commas it holds |
| RustTokens.LiteralIsOneToken | cmd/oxlint-fixtures/extract.go:81-87 | So is a regular literal, however spelled, with the value it is read as |
| RustTokens.ByteStringExact | cmd/oxlint-fixtures/extract.go:95-118 | `b"…"` becomes one token ending at its own close exactly when its escapes end there |
| RustTokens.RawByteStringExact | cmd/oxlint-fixtures/extract.go:95-118 | `br"…"`, with hashes or not, becomes one token ending at its own close exactly when it has no hashes and, read with escapes, its units end there |
| RustTokens.HashedByteStringFails | cmd/oxlint-fixtures/extract.go:95-118 | A raw byte string with hashes makes tokenizing fail |
| RustTokens.BackslashByteStringFails | cmd/oxlint-fixtures/extract.go:95-118 | `br"\\"` is a whole raw byte string, and fails |
| RustTokens.SplitEntries | cmd/oxlint-fixtures/extract.go:399-428 | The loop yields the segments between the commas outside brackets that have content |
| RustTokens.SegmentsConserve | cmd/oxlint-fixtures/extract.go:399-428 | The segments with those commas put back are the body |
| RustTokens.EntriesWhole | cmd/oxlint-fixtures/extract.go:399-437 | Each entry of a balanced body is balanced, has content, and has no comma outside brackets |
| RustTokens.EntriesExact | cmd/oxlint-fixtures/extract.go:399-437 | The entries are exactly the segments that hold a string, a bracket, a comma or a word that is not blank |
| JsonComments.StripJSONCComments | cmd/biome-fixtures/main.go:357-405 | The loop writes the pieces of the text that are not comments |
| JsonComments.SpelledExact | cmd/biome-fixtures/main.go:357-405 | A text of strings (no quote but behind a backslash), closed block comments, line comments up to their newline and other bytes is read as just these, and stripped of just the comments |
| JsonComments.PiecesOfStripped | cmd/biome-fixtures/main.go:357-405 | The stripped text has the same pieces without the comments: no leftovers join into a new comment |
| JsonComments.StripIdempotent | cmd/biome-fixtures/main.go:357-405 | Stripping twice equals stripping once |
| JsonComments.LiteralsVerbatim | cmd/biome-fixtures/main.go:353-356 | Every string literal comes out verbatim, in order |
| JsonComments.StripSubsequence | cmd/biome-fixtures/main.go:357-405 | The result is a subsequence of the input |
| ConfigCascade.ResolvedConfig.MergeFile | internal/config/config.go:262-292 | However the child's map is iterated, each rule it mentions takes its severity and options, or goes when off; all else stays, and only rules that are on have options |
| ConfigCascade.ResolveCascade | internal/config/config.go:221-243 | Every rule has the severity and options of the deepest file that mentions it, or its default; the patterns are those of the files, outermost first |
| ConfigCascade.DeepestMentionExact | internal/config/config.go:191-196 | The deepest mention is the last file that mentions the rule, and exists if any file does |
| ConfigCascade.ResolvedExact | internal/config/config.go:262-280 | A rule last said to be `off` is gone with its options; one last given a severity has it, with the options beside it or none; one that no file mentions has its default |
| ConfigCascade.IgnoreRulesExact | internal/config/config.go:281-292 | Each pattern stands behind those of the files above, below its file's directory, or, with a leading `!` taken off, as a negation below the outermost one |
| ConfigCascade.OutsideExact | internal/config/config.go:138-146 | A path is outside a pattern's directory exactly when its first segment is `..` |
| ConfigCascade.LoadFile | internal/config/config.go:158-189 | A file is accepted exactly when every rule is known, every severity valid and the cap not negative |
| ConfigCascade.Matches | internal/config/config.go:135-153 | A path is ignored exactly when the last pattern that applies to it is positive |
| ForDirection.ReportExact | internal/rules/fordirection/rule.go:35-65 | Where the rule understands the test and the update, it reports exactly the loops that, once entered, never leave by their test, only what the update adds to the tested name counting |
| ForDirection.UnderstoodExact | internal/rules/fordirection/rule.go:100-208 | It understands a loop exactly when the test compares a name by an order and the update steps that same name by `++`, `--`, or `+=` or `-=` of a known sign |
| ForDirection.SignRight | internal/rules/fordirection/rule.go:210-248 | numericSign is the sign of the value |
| ForDirection.SignExact | internal/rules/fordirection/rule.go:210-248 | Of a literal under signs and parentheses it is positive or negative exactly when the value is |
| ForDirection.ReportedHasWholeHeader | internal/rules/fordirection/rule.go:72-91 | Taking the third child for the update is right whenever the rule reports |

Notes on the statements:

- *Runs.* A thrown expression may stop anywhere, so a faulting evaluation makes at most as many `super()` calls as a
  complete one. `SuperSound.Fit` is code on which the super analysis is sound once its expression counts are right and
  do-while bodies are looked at. It leaves out super calls in switch heads and labels, loop heads and do-whiles, in a try
  block whose handler can go on, and in finally blocks; `break` and `continue` of loops that call super; bare returns out
  of finally blocks; and, by `SuperSound.Lasts`, the hasty loops of the failing input above. `SuperFlow.Amended` is that
  reading of the code, and `SuperSound.Overt` the code on which it makes no difference. `SuperVerdict` needs no such code.
- *Values.* Opaque expressions and identifiers evaluate to anything, and each occurrence does so on its own; object
  coercion gives any primitive, an array literal's is the join of its elements. `ConstantCondition.Spelled` asks that zero
  is spelled as the parser spells it. `ConstantReport.Settled` asks that no `??` a verdict rests on brings a falsy left value
  and a truthy right one together, and that no template it rests on is hollow. Spreading anything but an array yields
  anything.
- *Valuations.* An else-if's atoms may be true or false at will, but the same atom has one truth value. The same means up
  to swapping the sides of `&&` and `||` inside it, everything else a node holds compared; in `DeadBranch.LiteralReportExact` it
  means identical.
- *Spawning.* A step of a caller is one file-system or lock operation. The state is the path of the socket, the lock
  on the pid file, and each daemon's phase. A caller's own set-up may fail or not; safety holds either way.
- *Rust.* Line ends are as Rust sees them, a carriage return before a newline already gone, and ranging over ASCII text
  yields its bytes.
- *For loops.* The counter is a real number, the bound is fixed, and the body leaves the counter alone.

## Left out

- The typescript-go wrapper (parser, type checker, positions): trees are datatypes with kinds, texts and children.
- Labelled `break` and `continue`; code unreachable because a condition is constant.
- A switch inside the head of another, whose clauses the code would collect as its own: clauses are a field of the statement.
- Type-aware rules and one-node syntactic rules: thin over type queries, or easy.
- Shadowing checks and the generator exemption around no-constant-condition's reports.
- The rest of no-constant-binary-expression (truthiness, equality, type tags).
- no-fallthrough's comment scanning and its message choice.
- SuperSound.ConstructorSound: excludes what Fit leaves out, where the analysis is unsound; SuperVerdict.VerdictExact covers it.
- Default values of constructor parameters, such as `constructor(x = super())`: the code looks at the body only.
- Closing an iterator when a for-of is left early, which may run user code.
- The pid file's contents, logs, idle timers, goroutines, and Windows, where the lock does nothing.
- Directory walking, JSON decoding and globbing in the configuration: their results are inputs.
- Rule options passed to handlers, and Walk's own traversal, which is taken to visit parents before children.
- Output formats, colours, flags, and the process around them.
- RustStrings.Unit: ranging over a string is a function given from outside; only that ASCII is read byte by byte is used.
- RustTokens.SplitEntries: `strings.TrimSpace` is a predicate given from outside.
- ForDirection.Value: rounding of floating-point counters is not modelled.
- extract.go's findVec, option and settings readers: single scans without a law of their own.

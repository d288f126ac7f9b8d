# Verified models of the organization tooling

This project models six components of the repository and proves properties of them. Each component is a group of
modules; `Wrappers` holds optional values and results.

**Static publication** (`Publication`, `PublicationSafety`, `PublicationRecovery`, `PublicationSolo`,
`PublicationVolume`). Any number of packages race on one pointer file. An action is one durable write, one read under
the lock, or one callback; an exception or a crash may fall between any two actions, and a crash frees the lock. The
log of a state records what happened, and the chain of packages is a function of the log. `PublicationVolume` is the
publisher itself, with the pointer, journals, backups and releases as fields; other packages act between its critical
sections, and its history is a run of the transition system. Assumed, as the protocol does: digests do not collide
(`Digest` is a constructor), pointer bytes identify their package and differ from the first pointer, and attempts of one
package follow each other.

**Workflow expressions** (`Scalars`, `Syntax`, `Meaning`, `ValueLaws`, `Precision`, `PythonSets`, `Interpreter`,
`Conditions`, `Matrix`, `Calls`, `CallWalk`, `CallContexts`, `CallCoverage`, `CallChain`).
`Meaning.Actual` is what GitHub computes from actual values, following its operator documentation;
`Meaning.Values` is what the interpreter computes from sets of possible values. Both use the same functions on values;
`ValueLaws` says what these mean without them. `Interpreter.Expression` is the fused
parser and evaluator; the grammar it follows is `Syntax.ParseAll`. Numbers in texts follow section 6 of RFC 8259.
`Matrix` and `Calls` expand job matrices and follow calls of reusable workflows. Which payloads an event carries on
GitHub is a parameter of a run (`World.payloads`), independent of the table in the interpreter.

**Spend-safe selectors** (`Spend`, `SpendShapes`). The token patterns a `runs-on` value must match, and the labels
GitHub then asks for.

**Source provenance** (`GitTree`, `GitRestore`, `GitProof`, `GitPaths`, `SourceRoots`). Git's tree encoding, the
restoration of an origin tree from a maintained tree and trusted omissions, the proof that this gives, and the split of
a tree into source roots. The hash function is arbitrary. Where collisions matter, the statement excludes exactly a
collision between a tree object of the restored tree and one of the origin.

**Pinned dependencies and permissions** (`Pins`, `Dependencies`, `Permissions`, `PermissionWalk`). The walk over the
pinned source graph, and the walk over call paths that carries the grant of a caller job down to actions.

**Rulesets** (`Rulesets`, `Rewrites`, `Equality`, `RulesetPlan`, `Convergence`, `ApplyRun`, `ApplySafety`). The merge of
declared checks, the rewrite of a ruleset, the plan, and apply and rollback against a server that may answer anything: a
server is any function from the history and the request to a reply.

## What does not hold as one might expect

The code is modelled as it is. In these cases a property holds only under a condition; the lemma named gives the
condition, an input on which the property fails, or both.

- `false` stands for any falsy unknown value on the left of `&&`. Compared for equality it is exact if and only if the
  other side is no nonempty text that reads as zero (`Scalars.StandInExact`); `(input && '0') == '0'` with an empty
  input is claimed to be true only, and GitHub computes false (`Meaning.StandInUnsound`).
- In a text test `false` is such a stand-in too. On the left it is exact if and only if nothing is asked for, or neither
  `false` nor zero passes; on the right if and only if both pass (`Scalars.TestStandInExact`).
- `format` writes a value as GitHub does if and only if it is a text, or a number that Python writes alike
  (`Scalars.PythonTextExact`); Python writes `None`, `True` and `False`.
- Python's sets take `true` for 1 and `false` for 0 and hold one of them. Whatever the order, this changes no condition
  and loses no value but for an equal one, unless a function reads the text of such values (`PythonSets.ResultSound`,
  `PythonSets.ResultHolds`); `startsWith(flag || 1, 't')` is an input for which every order is wrong
  (`PythonSets.TextLost`).
- A payload is taken to be absent under every event that the interpreter does not list for it. Null covers every run if
  and only if no event that the context leaves open carries the payload (`Meaning.AbsentPayloadExact`). A review of a
  pull request carries one, so a job with `if: github.event.pull_request.draft` is dropped under `pull_request_review`
  although GitHub runs it (`Conditions.ReviewDrops`, and `Conditions.PayloadDrops` for the family).
- A call passes on the caller's whole context but its inputs. Values of the caller's matrix stay, while GitHub gives the
  called workflow none, so a runner it asks for can be missed (`CallCoverage.MatrixLeaks`). An argument that `false` may
  stand for is not covered either, so a job can be dropped although GitHub runs it (`CallCoverage.CallDrops`).
  `CallCoverage.CallAllows` says exactly when a call keeps what is covered.
- The parser takes any token as an atom, an operator or a closing parenthesis included. `Syntax.GrammarExact`
  describes all trees it accepts, `Syntax.ParenthesizeReadable` those an author would write.
- A SUPERSEDED journal is terminal although its own pointer can become live again: another package switches on top and
  rolls back, and this attempt dies before its handler runs. The pointer then stays live without acceptance, and every
  retry refuses (`PublicationSolo.Stranded`). `PublicationRecovery.RecoveryExact` says exactly from which states a
  retry recovers.
- The permission walk asks for the path with `/action.yml` appended even when the path is empty. It loads another file
  than the dependency walk and GitHub exactly at a repository root that has both action files (`Pins.WalksAgree`).
- A declared check with a field besides its context and integration drifts for ever: the plan reads back only these two
  (`Equality.ReplanSame`, `Convergence.Converged`).
- A strict flag that reads back as the number 0 equals the `false` that was put, so the write is reported APPLIED, and
  the plan, which asks for the boolean itself, drifts (`ApplySafety.StrictNumberInput`).
- The settings are chosen by the name a ruleset was planned under, the declared checks by the name it is read with. A
  ruleset renamed in between, with an override for one of the names, is reported APPLIED and drifts
  (`ApplySafety.RenamedApplied`); `Convergence.Converged` says exactly when it does not.
- A matrix of includes alone expands to one row, whatever their number, since later includes extend the first one
  (`Matrix.IncludesCollapse`); `Matrix.IncludesApart` says exactly when every include gets a row of its own.
- Python takes `true` for 1, so an include may turn a number of a dimension into a boolean (`Matrix.DimensionRetyped`);
  `Matrix.DimensionsUntouched` says exactly when none does.
- A path equal to the prefix of a source root, which a base tree may have, is in no view (`SourceRoots.ViewsPartition`).

## Model

| member | source | states |
|---|---|---|
| `PublicationSafety.Safety` | tools/static-publication/publish.py:185-289 | Every state of every interleaving of any number of packages, with exceptions and crashes at any step, keeps the invariant: one attempt under the lock, own journals with a captured parent, the facts of every point, the parent chain, and a justification of every event |
| `PublicationSafety.LivePointerExplained` | tools/static-publication/publish.py:219-289 | In every run the live pointer is joined to the first pointer by parent links, every package on the chain is completely installed, and every journal has a backup that is the package's parent |
| `PublicationSafety.PointerWrites` | tools/static-publication/publish.py:255-280 | Every write of the pointer pushes a package whose recorded parent was live, or pops exactly the package whose own pointer was live; nothing else is ever overwritten |
| `PublicationSafety.HistoryJustified` | tools/static-publication/publish.py:209-282 | In every run a switch follows a complete install and a candidate check of the same attempt, ACCEPTED a serving check with the own pointer live, ROLLED_BACK a readback with the parent live, and the refusal for differing rollback bytes never happens |
| `PublicationSafety.GuardedBlock` | tools/static-publication/publish.py:253-272 | An exception leads to the handler exactly from the candidate check on, until the attempt returns or is in the handler |
| `PublicationSafety.NextKeeps` | tools/static-publication/publish.py:204-289 | Each single action of each package, the crash and the exception included, keeps the invariant |
| `PublicationRecovery.RetryRuns` | tools/static-publication/publish.py:185-289 | A retry, given as a function of the state and the callbacks, is a run of the protocol without crash or exception |
| `PublicationRecovery.FinishKeeps` | tools/static-publication/publish.py:219-289 | The rest of an attempt terminates from every point and keeps the invariant |
| `PublicationRecovery.Recovery` | tools/static-publication/publish.py:209-289 | From a recoverable state, in which other attempts may stand anywhere outside the lock, one retry accepts the package exactly when its rollback has not begun and both checks pass; otherwise the parent is live and the journal is REFUSED when the candidate failed there, ROLLED_BACK or ROLLBACK_SWITCHED by the readback when the package had to be rolled back, SUPERSEDED when the parent was live although the package had been switched to, and unchanged when it was terminal |
| `PublicationRecovery.RecoveryExact` | tools/static-publication/publish.py:209-289 | A retry ends accepted with the own pointer live, or withdrawn with the parent live, whatever the callbacks answer, if and only if the state is recoverable: the pointer is the own one or the parent's, the parent's where nothing is recorded or the rollback has begun, and the release can be installed where the attempt gets that far |
| `PublicationRecovery.NotRecovered` | tools/static-publication/publish.py:219-247 | Callbacks with which a retry from any other state leaves neither outcome |
| `PublicationSolo.CrashRecovery` | tools/static-publication/publish.py:185-289 | From every reachable state in which the package is recoverable, after any number of other publications, and from every crash point of every run of its attempts from there: the state is recoverable again, and one retry ends as `Recovery` says |
| `PublicationSolo.FreshRecoverable` | tools/static-publication/publish.py:235-247 | A package without a journal is recoverable if and only if its parent is live and its release can be installed |
| `PublicationSolo.Stranded` | tools/static-publication/publish.py:266-289 | The failing input: a run of two packages, for any such two, that leaves a terminal journal with the own pointer live, not recoverable, and no retry that changes it |
| `PublicationVolume.Volume.Install` | tools/static-publication/publish.py:154-182 | An existing release must hold exactly these files; otherwise a complete copy is put in place; nothing else changes, wherever other attempts stand |
| `PublicationVolume.Volume.Prepare` | tools/static-publication/publish.py:219-247 | The first critical section follows the transition system and leaves the attempt at the candidate check, at a pending rollback, or stopped |
| `PublicationVolume.Volume.ConfirmRollback` | tools/static-publication/publish.py:209-217 | The readback of a rollback, whatever others do before the lock is taken again, and the final journal follow the transition system |
| `PublicationVolume.Volume.VerifyAndSwitch` | tools/static-publication/publish.py:253-271 | The guarded block, with others acting while the callbacks run, returns only with the own pointer live and the journal ACCEPTED, and otherwise leads to the handler |
| `PublicationVolume.Volume.RollBack` | tools/static-publication/publish.py:272-288 | The handler, with others acting before it takes the lock, follows the transition system to its end |
| `PublicationVolume.Volume.Undo` | tools/static-publication/publish.py:273-286 | The critical section of the handler: it restores the parent from the own pointer; with another pointer it changes none, and the journal is REFUSED where the parent is live and SUPERSEDED elsewhere |
| `PublicationVolume.Volume.Publish` | tools/static-publication/publish.py:185-289 | A whole attempt, with any other packages acting whenever it does not hold the lock, is a run of the transition system with orderly steps of its own, so it keeps the invariant; it returns only when published; and when nobody interferes it ends exactly as the retry says, and recovers as `Recovery` says |
| `Syntax.GrammarExact` | scripts/merge_lane.py:105-164 | A token list parses to a tree if and only if the tree is readable and prints as that list: all tokens are consumed, and no list has two readings |
| `Syntax.ParenthesizeReadable` | scripts/merge_lane.py:115-164 | Every tree over names, literals, calls and operators is readable once parentheses stand where precedence and left associativity need them |
| `Syntax.BindsRight` | scripts/merge_lane.py:105-135 | Comparisons bind tighter than a conjunction, and this tighter than a disjunction, in this order |
| `Syntax.BindsLeft` | scripts/merge_lane.py:105-135 | And in the other |
| `Syntax.Associates` | scripts/merge_lane.py:115-135 | Operators that bind alike are read from the left, the two comparisons among each other too |
| `Syntax.NegatesFirst` | scripts/merge_lane.py:137-140 | Negation binds tighter than any operator |
| `Interpreter.Expression.Parse` | scripts/merge_lane.py:105-135 | On every token list the fused parser and evaluator ends, and either raises the parser's message or advances to the parser's end with the direct evaluation and the errors of the parsed tree |
| `Interpreter.Expression.Atom` | scripts/merge_lane.py:137-222 | The same for atoms, calls and their arguments |
| `Interpreter.Expression.Product` | scripts/merge_lane.py:123-134 | The loops over operand pairs collect the combination of every pair |
| `Interpreter.Expression.Apply` | scripts/merge_lane.py:158-205 | The loops over rows of format arguments, over JSON texts, and over pairs of operands of a text test collect the value of every combination |
| `Meaning.Sound` | scripts/merge_lane.py:61-222 | For every run the context allows, whatever payloads events carry, and every expression faithful for it, the value GitHub computes is a member of the returned set, covered by the unknown element, or falsy with `false` in the set; and exactly represented where no stand-in arises |
| `Precision.Precise` | scripts/merge_lane.py:61-222 | When every name of an expression has one known value and every function is one the interpreter computes, the value GitHub computes is the only possible one |
| `Precision.CombineExact` | scripts/merge_lane.py:118-135 | For one pair of operands an operator gives exactly the outcomes for the actual values they stand for: both answers of a comparison, or the operand that the left side chooses |
| `Precision.SupportedExact` | scripts/merge_lane.py:156-205 | The functions the interpreter knows, by name and number of arguments; every other call has the unknown value |
| `Precision.NegationsExact` | scripts/merge_lane.py:139-140 | A negation is possible exactly when an operand could have that truth |
| `ValueLaws.EqualExact` | scripts/merge_lane.py:65-86 | Two texts are equal if and only if they have the same letters, in whatever case; any other two values if and only if both read as the same number |
| `ValueLaws.ReadsExact` | scripts/merge_lane.py:77-84 | Null and the empty text read as 0, flags as 1 and 0, a text as a number exactly when it is a numeral with blanks around it |
| `ValueLaws.NumeralReads` | scripts/merge_lane.py:42-83 | Every numeral is read, as the integer of all its digits scaled by its exponent and its decimal places |
| `ValueLaws.NumberIsNumeral` | scripts/merge_lane.py:42-83 | Only numerals are read |
| `ValueLaws.DigitExact` | scripts/merge_lane.py:42-42 | The ten digits |
| `ValueLaws.FalsyExact` | scripts/merge_lane.py:61-62 | A value is falsy exactly when it reads as zero and is no text but the empty one |
| `ValueLaws.PassesExact` | scripts/merge_lane.py:181-203 | `contains`, `startsWith` and `endsWith` pass exactly when the one text has the other inside, at its start, or at its end, in whatever case |
| `ValueLaws.TestNames` | scripts/merge_lane.py:181-203 | Which name is which test |
| `ValueLaws.ConstantExact` | scripts/merge_lane.py:147-211 | The constants are the quoted texts, the three keywords and the numerals, with leading zeros allowed; no other name is one |
| `ValueLaws.UnquoteQuoted` | scripts/merge_lane.py:147-148 | Unquoting undoes quoting |
| `ValueLaws.QuotedUnquote` | scripts/merge_lane.py:147-148 | Quoting undoes unquoting, for every body the token pattern allows |
| `ValueLaws.FlagText` | scripts/merge_lane.py:196-201 | The text of a flag is its keyword, and Python's the same in another case |
| `ValueLaws.NullText` | scripts/merge_lane.py:77-84 | The text of null is worth the same number as null |
| `ValueLaws.FormatFills` | scripts/merge_lane.py:160-169 | Every template of characters, doubled braces and numbers of arguments is filled piece by piece |
| `ValueLaws.FormatPieces` | scripts/merge_lane.py:160-169 | Nothing but such a template is filled |
| `Meaning.EqualitySound` | scripts/merge_lane.py:65-86 | Equality and inequality of covered operands is exact when a stand-in meets no zero text |
| `Meaning.StandInUnsound` | scripts/merge_lane.py:128-130 | A family of equalities for which the returned set misses the value GitHub computes |
| `Meaning.ZeroIsZeroText` | scripts/merge_lane.py:77-84 | The literal `'0'` is a text of that family |
| `Precision.AbsentExact` | scripts/merge_lane.py:212-220 | A name is taken to be null when the context knows of some event, and the name is within one of four payloads that is listed for none of the known ones |
| `Meaning.AbsentPayloadExact` | scripts/merge_lane.py:212-220 | Where a payload is taken to be absent, null covers every allowed run if and only if no event that the context leaves open, named or unknown, carries the payload |
| `Meaning.AbsentPayloadMissed` | scripts/merge_lane.py:212-220 | The allowed run that is missed: an event that carries the payload |
| `Conditions.PayloadDrops` | scripts/merge_lane.py:212-252 | The failing family: under an event that is not listed for a payload, a job conditioned on a value of that payload is dropped in every run where the value is truthy |
| `Conditions.ReviewDrops` | scripts/merge_lane.py:212-252 | One such input: a review of a draft, with `if: github.event.pull_request.draft` |
| `Scalars.StandInExact` | scripts/merge_lane.py:65-86 | `false` in place of a falsy unknown compares alike if and only if the other side is no nonempty text that reads as zero |
| `Scalars.TestStandInExact` | scripts/merge_lane.py:176-205 | For `contains`, `startsWith` and `endsWith`, on either side: exactly when `false` in place of a falsy unknown gives the same answer |
| `Scalars.PythonTextExact` | scripts/merge_lane.py:158-169 | When Python's formatting writes what GitHub writes |
| `PythonSets.ResultRepresents` | scripts/merge_lane.py:61-222 | When every set on the way holds one of several equal values, in whatever order they come: a result holds some of the values and an equal one for each, as long as no function that reads text is given equal values of two types |
| `PythonSets.ResultExists` | scripts/merge_lane.py:61-222 | Every expression has such a result |
| `PythonSets.ResultHolds` | scripts/merge_lane.py:61-252 | Such a result may hold exactly when the full set may |
| `PythonSets.ResultSound` | scripts/merge_lane.py:61-222 | Such a result covers, up to equality, the value GitHub computes |
| `PythonSets.TextLost` | scripts/merge_lane.py:128-134 | The failing input: whether a flag, or else 1, starts with `t` may be either, and every result holds one answer only |
| `Conditions.PrintedRunsBack` | scripts/merge_lane.py:105-247 | Every tree, printed with the parentheses it needs, runs back to its own evaluation and errors, and means what it meant |
| `Conditions.Evaluate` | scripts/merge_lane.py:225-247 | A text gives its own value, the values of its tree, or on a failed parse the unknown element and every build label in it, with the errors reported |
| `Conditions.DecideRunnable` | scripts/merge_lane.py:250-252 | A job is kept when it has no condition or a possible value of it may hold |
| `Conditions.RunnableKeeps` | scripts/merge_lane.py:250-252 | No job whose condition could hold in some allowed run is dropped |
| `Matrix.ProductExact` | scripts/merge_lane.py:270-273 | The product holds exactly the rows that take one value of each dimension |
| `Matrix.ProductAt` | scripts/merge_lane.py:272-273 | The row of every choice of indices stands at the place of that choice |
| `Matrix.PlaceOnto` | scripts/merge_lane.py:272-273 | Every place of the product is that of a choice, so there is one row per element |
| `Matrix.PlaceOrder` | scripts/merge_lane.py:272-273 | The places follow the choices in order, the last dimension varying fastest |
| `Matrix.KeptAt` | scripts/merge_lane.py:274-276 | The exclusions keep exactly the rows that none of them matches, in order |
| `Matrix.Expand` | scripts/merge_lane.py:274-287 | The loops that update rows in place compute the rows one include after the other |
| `Matrix.RowsExact` | scripts/merge_lane.py:277-287 | Each row is its original, or the include that opened it, with every later include that fits that start; so an include never depends on what earlier ones added |
| `Matrix.OriginalsFirst` | scripts/merge_lane.py:270-287 | The rows begin with one row per element that no exclusion matches, in order, each agreeing with its original on every dimension |
| `Matrix.SameExact` | scripts/merge_lane.py:275-284 | Cells are equal when they are the same, or flags and numbers that count the same |
| `Matrix.ExcludedExact` | scripts/merge_lane.py:274-276 | A row is excluded exactly when some exclusion has, under each of its keys, a value equal to that of the row, null where it has none |
| `Matrix.FitsExact` | scripts/merge_lane.py:281-284 | An include fits a row exactly when this holds of its keys that are dimensions |
| `Matrix.OriginalCells` | scripts/merge_lane.py:277-287 | Cell by cell: a row that starts from an element of the product has under each key the value of the last include that fits this element and has the key, and without one that of the element |
| `Matrix.DimensionsUntouched` | scripts/merge_lane.py:279-285 | The values of the dimensions never change if and only if no include holds an equal value of another type |
| `Matrix.DimensionRetyped` | scripts/merge_lane.py:279-285 | A matrix whose number becomes a boolean |
| `Matrix.IncludesApart` | scripts/merge_lane.py:277-287 | Every include gets a row of its own if and only if no original and no earlier include takes it |
| `Matrix.IncludesCollapse` | scripts/merge_lane.py:272-287 | A matrix of includes alone has one row |
| `Calls.ReachedCarries` | scripts/merge_lane.py:341-378 | Every evaluation below a workflow carries the event the workflow was entered with |
| `CallWalk.ReachedIsPure` | scripts/merge_lane.py:341-378 | On acyclic calls the cut at ancestors never removes anything |
| `CallWalk.Visitor.Visit` | scripts/merge_lane.py:341-374 | The memoised visit ends on every set of documents, finds nothing the plain traversal does not find, and all of it on acyclic calls |
| `CallWalk.RunnerEvaluations` | scripts/merge_lane.py:317-378 | From all triggers: the evaluations of the traversal without memo on acyclic calls, never others; each with the event of a trigger, never `workflow_call` |
| `CallContexts.ContextsExact` | scripts/merge_lane.py:288-298 | There is one context per row of the expanded matrix, in order, with the values of the row's cells under `matrix` and everything else as it was; or the plain one where there are no rows |
| `CallContexts.PassedNames` | scripts/merge_lane.py:363-366 | A call passes on the arguments and the caller's names but for its own inputs, and no other name |
| `CallContexts.PassedArgument` | scripts/merge_lane.py:364-366 | Each argument has its values in the caller's context |
| `CallContexts.PassedOther` | scripts/merge_lane.py:363-363 | Every other name keeps its values |
| `CallContexts.DefaultNames` | scripts/merge_lane.py:345-349 | Defaults are added for the declared inputs that were not passed, and what was passed stays |
| `CallContexts.DefaultValue` | scripts/merge_lane.py:345-349 | A default has its values in the context with the defaults before it |
| `CallContexts.TriggersExact` | scripts/merge_lane.py:375-378 | A traversal starts for every event that triggers a named workflow, but for being called, and for nothing else |
| `CallContexts.ReachedExact` | scripts/merge_lane.py:341-374 | The traversal finds exactly the evaluations that follow: of every job that may run in a row of its matrix, in the workflow or in one that a chain of such jobs calls, with every value of every label, and of no other |
| `CallContexts.ReturnedExact` | scripts/merge_lane.py:317-378 | What all traversals find together is exactly what follows from some event that triggers a workflow |
| `CallCoverage.CallFound` | scripts/merge_lane.py:341-367 | When a job that calls a workflow could run, everything below the called workflow, entered with the passed arguments, is found |
| `CallCoverage.RunnerCovered` | scripts/merge_lane.py:288-374 | In every row of a job's matrix, or once without one, and for every world that the row's context allows: when the job could run in it, an evaluation of the job is found whose values cover every label the job asks for in that world |
| `CallCoverage.RowHasContext` | scripts/merge_lane.py:288-298 | Every row has such a context |
| `CallCoverage.RowFits` | scripts/merge_lane.py:288-298 | A row's context covers a world when the workflow's does and each cell's values cover what the world has for it |
| `CallCoverage.CallAllows` | scripts/merge_lane.py:345-367 | A world of the called workflow, which shares only the event and its payload with the caller, is allowed on entry if and only if the values of every argument, of every default that applies, and of whatever else the caller's context holds, its matrix included, cover the value the name has there |
| `CallCoverage.SourceFits` | scripts/merge_lane.py:365-366 | It is enough that an argument is faithful and cannot be a stand-in |
| `CallCoverage.RowAllows` | scripts/merge_lane.py:288-298 | A world of a matrix row, which shares only the event and its payload with the workflow, is allowed if and only if the values of the row, and of whatever else the context holds, cover the value the name has there |
| `CallCoverage.MatrixLeaks` | scripts/merge_lane.py:363 | The failing call: the caller's matrix value hides the runner that a job of the called workflow asks for |
| `CallChain.ChainKeeps` | scripts/merge_lane.py:341-367 | Along a chain of calls of any length the worlds stay allowed, and everything found below its end is found from its start |
| `CallChain.ChainCovered` | scripts/merge_lane.py:288-374 | Any number of calls down, in every row of every matrix on the way: every job that could run at the end of a chain whose values fit has an evaluation, found from its start, that covers every label it asks for |
| `CallChain.CalledRunnerCovered` | scripts/merge_lane.py:288-374 | The same through one call, for a job of the called workflow in any row of its matrix |
| `CallChain.TriggeredCovered` | scripts/merge_lane.py:317-378 | The same from all triggers together, whichever of them starts the run; on acyclic calls these are the evaluations that are returned |
| `CallCoverage.CallDrops` | scripts/merge_lane.py:361-366 | The failing call: an argument that a stand-in covers, compared with a zero text, drops a job that GitHub runs |
| `Spend.SelfHostedExpression` | scripts/reusable_runner_spend.py:37-54 | The check and its loop over parenthesis depth accept exactly the three patterns |
| `Spend.CheckSelector` | scripts/reusable_runner_spend.py:57-80 | Which selectors are accepted |
| `Spend.AcceptedTree` | scripts/reusable_runner_spend.py:37-80 | Every accepted token list parses to a chain of alternatives of known shape that ends in a self-hosted choice |
| `SpendShapes.ChainsAccepted` | scripts/reusable_runner_spend.py:37-80 | Conversely, every text that reads as such a chain, and whose format call is one an author would write, is accepted |
| `SpendShapes.LabelExact` | scripts/reusable_runner_spend.py:17-34 | A pool label is its prefix, in whatever case, and some letters, digits and hyphens |
| `SpendShapes.InputExact` | scripts/reusable_runner_spend.py:18-52 | An input is `inputs.` and a name of letters, digits, underscores and hyphens |
| `SpendShapes.ListExact` | scripts/reusable_runner_spend.py:60-62 | A list is accepted exactly when it asks for `self-hosted` and holds nothing but texts without an interpolation |
| `Spend.SafeSelectorSpends` | scripts/reusable_runner_spend.py:21-80 | Every accepted selector asks, for every visibility and every input, for a self-hosted label, or for `ubuntu-latest` with the visibility loosely equal to `public` |
| `GitTree.KeyOrderIsGitOrder` | scripts/source_provenance.py:106 | Sorting by the name, with a slash after directories, is Git's own entry comparison |
| `GitTree.OrderIsGitOrder` | scripts/source_provenance.py:106 | The sorted entries are in Git's order, each before all later ones |
| `GitTree.PayloadExact` | scripts/source_provenance.py:107-108 | The payload parses back: two listings with the same payload are the same listing in the same order |
| `GitTree.DigitsExact` | scripts/source_provenance.py:109-109 | The length in the header is written in decimal digits, without a zero in front |
| `GitTree.TreeObjectExact` | scripts/source_provenance.py:106-109 | The hashed bytes determine names, modes and object ids |
| `GitRestore.Restore` | scripts/source_provenance.py:83-109 | The restoration refuses exactly when an addition meets something in its way, and otherwise hashes the tree with the additions in place |
| `GitProof.RestoreUndoesOmit` | scripts/source_provenance.py:75-109 | Omitting matching subtrees, and the directories left empty, and then restoring gives the original listing, for every hash function |
| `GitProof.OmitFits` | scripts/source_provenance.py:96-105 | That restoration never refuses |
| `GitProof.OmitFull` | scripts/source_provenance.py:83-97 | What omission leaves is again a tree given in full, to which the restoration applies |
| `GitProof.RestorationExact` | scripts/source_provenance.py:83-109 | Without a collision, a maintained tree restores to the origin's object id if and only if it is the origin without the omissions and every omission is a directory of the origin with the recorded object id |
| `GitPaths.OverlayExact` | scripts/source_provenance.py:75-81 | The overlay reinserts at exactly the omitted paths, with their object ids |
| `GitPaths.OmitExact` | scripts/source_provenance.py:75-105 | Omitting removes the leaves at and below the omitted paths and no other |
| `GitPaths.OriginExact` | scripts/source_provenance.py:68-109 | Path by path: the restored object id is the origin's if and only if the omissions are directories of the origin with those ids and every other path agrees on mode and object |
| `GitPaths.RestoredOriginTree` | scripts/source_provenance.py:68-109 | What omission left of any origin is never refused and restores to that origin's object id |
| `SourceRoots.MeetsExact` | scripts/source_provenance.py:62-64 | Comparing texts with a slash appended decides whether one path lies at or below the other |
| `SourceRoots.OmissionsOverlap` | scripts/source_provenance.py:62-64 | Looking only behind each path of the sorted list finds an overlap exactly when there is one |
| `SourceRoots.AcceptedSeparate` | scripts/source_provenance.py:62-64 | The accepted lists are exactly the prefix-free ones that the restoration needs |
| `SourceRoots.Roots` | scripts/source_provenance.py:112-150 | The roots are our rows that exist at the head, pairwise without overlap; each new one restores to its recorded origin, and so agrees with it on mode and object outside the omissions; it fails exactly when a row overlaps an earlier root or is new and unproven |
| `SourceRoots.RestoresExact` | scripts/source_provenance.py:137-147 | The head tree restores to the recorded object id if and only if it agrees with the origin outside the omissions, which are directories of the origin |
| `SourceRoots.ViewExact` | scripts/source_provenance.py:153-169 | A view holds exactly the paths under its prefix that are not excluded, as often as the tree |
| `SourceRoots.ViewsPartition` | scripts/source_provenance.py:153-181 | The outer view and the views of the roots together hold every path of the tree exactly as often as the tree does, except a path equal to a root prefix, which is in none |
| `Pins.DependencyPick` | scripts/action_pin_drift_check.py:269-274 | The dependency walk loads the file GitHub loads, `action.yml` before `action.yaml` |
| `Pins.PermissionPick` | scripts/action_pin_drift_check.py:381-388 | Which file the permission walk loads |
| `Pins.WalksAgree` | scripts/action_pin_drift_check.py:387-388 | The two walks load the same file except at a repository root that has both |
| `Pins.ValidatePins` | scripts/action_pin_drift_check.py:67-113 | The report is empty if and only if the head is a full id and every pin is right: one with a full id has its marker where asked, and a file it loads at that commit, which is merged; any other says `main`, where that is allowed, and loads a file at the head. It holds exactly the reasons for which a pin is faulty, in report order |
| `Pins.FaultsExact` | scripts/action_pin_drift_check.py:74-113 | Each reason: the form, the missing marker, and what is known of the commit the pin names |
| `Pins.TargetMeans` | scripts/action_pin_drift_check.py:67-71 | Which file a path loads at a commit |
| `Dependencies.Waits` | scripts/action_pin_drift_check.py:263-299 | A path into an unvisited file leaves the visited ones at a queued item behind a shorter path |
| `Dependencies.Inspect` | scripts/action_pin_drift_check.py:263-301 | The walk from one pin ends, visits every reachable file once, each with a shortest path of the graph, and reports exactly the faults of the visited files |
| `Dependencies.DependencyErrors` | scripts/action_pin_drift_check.py:256-302 | Every finding is a fault at the end of a shortest real path from a pin of that caller; none is missed; nothing is reported if and only if every file that some path from a pin leads to is readable, has valid nested pins only and all its local targets. A path starts with the file that the pin loads at the commit it names, and goes on through pins to the commits these name and through local references at the same commit |
| `Dependencies.EdgeMeans` | scripts/action_pin_drift_check.py:286-298 | What a file queues is what it refers to |
| `Dependencies.FaultsMean` | scripts/action_pin_drift_check.py:280-301 | What is reported of a file: that it is unreadable, a faulty pin, or an absent local target |
| `Permissions.LeadsExact` | scripts/action_pin_drift_check.py:400-418 | The carried ceiling is none exactly when some job on the call path has no grant, by its own block or else by its workflow's, and the location is the job the path starts in |
| `Permissions.ResolveMeans` | scripts/action_pin_drift_check.py:367-389 | What a `uses` value loads: a shared reference at the commit it names or at the head, `$/…` and a local workflow at the origin of the file, any other `./…` in the caller's own files |
| `Permissions.CeilingFalls` | scripts/action_pin_drift_check.py:407-418 | The carried ceiling never rises and the caller job never changes |
| `PermissionWalk.Walker.Walk` | scripts/action_pin_drift_check.py:391-423 | The memoised walk ends, makes every visit that follows, and has a finding for exactly the flagged visits it made |
| `PermissionWalk.MetadataPermissionErrors` | scripts/action_pin_drift_check.py:360-428 | A caller job has a finding for an action that runs the contribution check if and only if some call path between them has a job without a grant, where a job's grant is that of its own block, or else of its workflow, or else that of its callers; the finding names such a path, and there is one for each job and action |
| `Rulesets.MergeChecks` | scripts/apply_merge_queue.py:208-219 | The loop over the current checks computes the merge |
| `Rulesets.DeclaredOnce` | scripts/apply_merge_queue.py:208-219 | Each declared context ends with exactly one check: the first current one with the declared fields, or the declaration |
| `Rulesets.UndeclaredUnchanged` | scripts/apply_merge_queue.py:208-219 | Undeclared checks keep their order and number |
| `Rulesets.MergeFixed` | scripts/apply_merge_queue.py:208-219 | Merging changes nothing if and only if every declared context has one check that holds the declared fields |
| `Equality.MergeSame` | scripts/apply_merge_queue.py:357-376 | The same with Python's equality, which takes a boolean for the number 1 or 0 |
| `Rulesets.MergeIdempotent` | scripts/apply_merge_queue.py:208-219 | Merging again changes nothing |
| `Equality.ReplanSame` | scripts/apply_merge_queue.py:363-379 | The merged list, read back, shows no drift if and only if every declaration names its context and integration only |
| `Rewrites.PutCarries` | scripts/apply_merge_queue.py:433-434 | A write carries the name, the rules and four fields as they are, and nothing else |
| `Rewrites.ChecksOnlyExact` | scripts/apply_merge_queue.py:444-453 | Adopting checks alone succeeds exactly when there is one rule of checks, with a list, and something to adopt |
| `Rewrites.ChecksOnlySets` | scripts/apply_merge_queue.py:444-453 | That rule gets the merged list, and every other rule and parameter stays |
| `Rewrites.WithRules` | scripts/apply_merge_queue.py:456-481 | The loop over the rules computes the rewrite, and fails exactly when a queue rule has no parameters |
| `Rewrites.EditUnchanged` | scripts/apply_merge_queue.py:437-481 | Rules stay in place; other rules, other parameters and undeclared checks are unchanged; at most one rule of checks is added, at the end, and only when there was none |
| `Rewrites.RewriteIdempotent` | scripts/apply_merge_queue.py:456-481 | Rewriting a rewritten ruleset changes nothing |
| `RulesetPlan.FindSettings` | scripts/apply_merge_queue.py:184-189 | For every key the wanted value is that of the last override for this repository and this name that sets the key, and without one the general value |
| `RulesetPlan.ChecksExact` | scripts/apply_merge_queue.py:199-205 | The declared checks are those of the first target for this repository and id, none without one; another name is refused |
| `RulesetPlan.OneContext` | scripts/apply_merge_queue.py:204-204 | Of these, one context has its one check or none |
| `RulesetPlan.FindChecks` | scripts/apply_merge_queue.py:199-205 | The loop over the targets |
| `RulesetPlan.FalsyExact` | scripts/apply_merge_queue.py:310-312 | What an extra approval or an integration may be to count as none |
| `RulesetPlan.PairExact` | scripts/apply_merge_queue.py:494-502 | Two checks are bound alike exactly when they have one context and equal integrations, or none |
| `Convergence.BodyExact` | scripts/apply_merge_queue.py:528-537 | A write is prepared exactly when no check is declared for another name, the parameters of the first queue can be read, and every queue has parameters; for one context, when there is one rule of checks with a list and something to adopt |
| `Convergence.PutsStrict` | scripts/apply_merge_queue.py:467-473 | In every rule of checks the strict flag is the policy's where there is a queue, and as it was elsewhere; no other parameter changes |
| `Convergence.PutsReview` | scripts/apply_merge_queue.py:464-466 | In every rule of reviews the count and the extra approval are the policy's, and no other parameter changes |
| `Convergence.PutsWanted` | scripts/apply_merge_queue.py:456-463 | A write puts, into every queue rule, the values wanted of the repository and the planned name |
| `Convergence.PlanExact` | scripts/apply_merge_queue.py:184-395 | The plan is refused if and only if checks are declared for another name, and reports no drift if and only if the queue parameters are the wanted values, key by key, the review count and the extra approval are the policy's, every declared check is there once with its fields, each up to Python's equality, and the strict flag itself is the policy's |
| `Convergence.Converged` | scripts/apply_merge_queue.py:336-395 | Whatever the server stored: when its managed part equals what was put, the next plan reports no drift if and only if every declaration is plain, the ruleset has the name its checks are declared for, the settings of the planned name are those of the name it has, and the strict flag reads back as a boolean |
| `Convergence.RenamedDrifts` | scripts/apply_merge_queue.py:526-545 | A ruleset planned under one name and read under another with other settings drifts after a write that was stored as put |
| `Convergence.OneContextConverged` | scripts/apply_merge_queue.py:444-453 | The same for the adoption of one context, where every field is compared |
| `ApplyRun.Session.PutAndReadBack` | scripts/apply_merge_queue.py:540-547 | The body is put once and read again only when the reply does not match |
| `ApplyRun.Session.Apply` | scripts/apply_merge_queue.py:509-558 | Against every server: nothing is sent when a backup exists or a declared ruleset is missing; otherwise the rows run in order up to the first refusal, and the backups on disk are those of the log |
| `ApplyRun.Session.Rollback` | scripts/apply_merge_queue.py:561-584 | Against every server: per backup one read and at most one write of the rollback body, up to the first refusal |
| `ApplySafety.ApplyCareful` | scripts/apply_merge_queue.py:526-541 | In every run each write puts the rewrite, for its row, of the ruleset that was read and saved right before it, and every backup is followed at once by its write |
| `ApplySafety.StopsAtRefusal` | scripts/apply_merge_queue.py:548-551 | After the first 403 nothing is sent any more |
| `ApplySafety.RowOutcome` | scripts/apply_merge_queue.py:526-558 | A row is STOPPED if and only if its last reply is a 403, and APPLIED if and only if something was put and the last reply matches it; the ruleset is read a second time if and only if the reply to the write differs, and the row differs if and only if that reading does |
| `ApplySafety.BackupOutcome` | scripts/apply_merge_queue.py:568-584 | A backup is STOPPED if and only if its last reply is a 403 |
| `ApplySafety.AllRowsRun` | scripts/apply_merge_queue.py:525-558 | Every row runs, unless a 403 comes, which is then the last reply |
| `ApplySafety.AllBackupsRun` | scripts/apply_merge_queue.py:563-584 | The same for the backups of a rollback |
| `ApplySafety.AppliedConverges` | scripts/apply_merge_queue.py:526-547 | A row reported APPLIED ended with a reply that equals what was put, and planning from that reply finds nothing to do if and only if the declarations in scope are plain and, for a full write, the name has not changed for the checks, the settings of the planned name are those of the name read back, and the strict flag is a boolean |
| `ApplySafety.RenamedApplied` | scripts/apply_merge_queue.py:526-547 | The failing family: a renamed ruleset with other settings is reported APPLIED and drifts |
| `ApplySafety.RenamedInput` | scripts/apply_merge_queue.py:184-189 | One such input: an override for the old name alone |
| `ApplySafety.StrictNumberInput` | scripts/apply_merge_queue.py:380-381 | The failing reply: the strict flag stored as the number 0 matches what was put and drifts |
| `ApplySafety.RestoredMeans` | scripts/apply_merge_queue.py:561-577 | A row reported RESTORED ended with a reply that has, up to Python's equality, the saved queue parameters, and the review, bindings and strict flag of the ruleset read before |
| `ApplySafety.RollbackRestoresQueue` | scripts/apply_merge_queue.py:561-576 | A rollback puts the saved queue parameters back |
| `ApplySafety.RollbackKeeps` | scripts/apply_merge_queue.py:571-576 | A rollback keeps every other field, rule and parameter as it stands |
| `ApplySafety.RollbackUndoesQueue` | scripts/apply_merge_queue.py:509-584 | Rolling back what was applied gives the first queue rule back exactly as it was |

## Left out

- Publication: file modes, ownership, syncing, symbolic links and temporary names; package and proof validation before the first lock; other pointers, which have their own lock; the `checkpoint` hook, which can only raise and so is an exception.
- Publication: inside its critical sections the publisher is not interleaved with steps of others that touch no file; they come before or after.
- Publication: a failing durable write inside the first critical section is a crash of the attempt at that step.
- Expressions: `fromJSON` of collections, and matrices given as text, stay unknown; the values of contexts are scalars; tokens are given, not cut from text.
- Expressions: numbers are reals, so rounding and overflow of floating point are not modelled; how Python and GitHub write a number are parameters.
- Interpreter.Expression.Parse: collects full sets, in which `true` and 1 are two values; `PythonSets` relates them to the sets of Python.
- Expressions: lower case and trimmed whitespace are those of ASCII; format templates with Python's attribute, index or specification fields count as unusable.
- Meaning.Sound: asks that no payload is taken to be absent that an event carries, that operands of equality meet no zero text and operands of text tests no value for which `false` is inexact where a stand-in may arise, and that the numbers that text tests see and the values that are formatted are written alike by Python and GitHub; `AbsentPayloadExact`, `StandInExact`, `TestStandInExact` and `PythonTextExact` show why.
- Spend.SafeSelectorSpends: asks that GitHub writes no number that starts like a pool label; case folding is that of ASCII.
- Matrix: exclusions and includes that are no mappings, which the original skips; equality inside nested collections is equality of their text.
- Calls: contexts of nested matrix values by subkey, selectors given as collections inside a text, and the messages attached to an evaluation.
- CallWalk.Visitor.Visit: finds everything on acyclic calls only.
- Source provenance: reading the policy, the shape of its rows, and the content hashes of dependency manifests, which enter `Roots` as a truth value, as does whether a root stood in the base; a maintained tree is given in full rather than listed object by object.
- Pins: cutting pins, grants, jobs and the parts of shared references out of text; the age of a pin.
- PermissionWalk.MetadataPermissionErrors: reading a file of the shared source always succeeds here, while the original stops with an exception; two jobs of one file with the same reported line are one caller job.
- Equality: numbers are integers; collections inside a value are equal when their text is.
- Rulesets: the loop of `plan` over the fleet with its exclusions, inherited and missing rows, and its notes; loading and validating a policy enter as preconditions; reading a ruleset through the query interface gives the same values as through the other one.
- Convergence.Converged: the bindings are compared without their order, which the original's sorting removes.
- ApplyRun: backup file names, and failing to write a backup.

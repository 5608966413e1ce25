# A model of the composition kernel, the claim record, the design gate and the CSS name scanner

The repository composes an application from declared modules (`pkit`), holds one application per
database while it lives (`pkit/claims.go`), decides which colours a theme may paint (`design`), and
reads what names a client style sheet addresses (`ui`). This project models those four and proves
what they promise. `dafny verify dfyconfig.toml` checks everything.

## How the files fit together

**The resolver.** A module is an identity with a name and a list of declarations; a contract is an
opaque key. `Composition.dfy` holds that vocabulary, `ResolutionSpec.dfy` says on sets of modules,
without mentioning any algorithm, what it means for an app to resolve. `Declarations.dfy` (duplicate
names, choices, withdrawal, the declaration sweep, contracts declared both ways), `NeedSettling.dfy`
(the repeat-until-unchanged loop), `Sentences.dfy` (what each issue says of the app), `BuildOrder.dfy` (the queue, which Use order determines, and the
depth-first cycle search) and `Resolver.dfy` are the loops of `pkit/resolve.go`; `Resolver.Resolve`
ties them to the specification: no issue is reported exactly when the app resolves, and every issue
reported is true of the app. The two quirks of
the code stand: the `many`
branch of `dependsOnLast` reads the module that runs last even when a choice withdrew it, and the
declaration sweep and the count of run-last modules cover withdrawn modules too.

**The dry build.** `Wiring.dfy` is the object a module's build reads and writes; a build is an
adaptive script of `Get`, `All`, `Put` and `Composition` steps that may stop or fail at any point.
`DryBuild.dfy` runs arbitrary builds in order, selects the ports and answers `Plan`.

**Claims and lifecycles.** `Claims.dfy` is the process-wide record with its mutable counters and
once-only receipts, proved against a map of counts. `Lifecycle.dfy` is the protocol around it: any
number of apps and of overlapping Build, Run and Server calls, one atomic step at a time, with an
engine that may answer anything. `Boots.dfy` says over whole runs what becomes of a call after each
answer it gets.

**Colours.** Arithmetic is over the reals. `Colours.dfy` (literals, authored values with mixes
behind pointers that may be shared or loop), `ColourGraph.dfy` (plain recursive evaluation and the
reference graph), `ColourResolution.dfy` (the memoised walk) and `ColourLayers.dfy` (listing order,
role layers, detached copies). `ColourMixing.dfy` says what a resolved name's colour is by the form its
author gave it, `ColourText.dfy` reads literals and printed values back. `ColourSpace.dfy` and `ColourHex.dfy` hold the conversions.

**Contrast.** `ContrastRatios.dfy` follows WCAG 2.2 (relative luminance, contrast ratio; success
criteria 1.4.3 and 1.4.11) over any channel linearisation `f` with f(0) = 0 and f(1) = 1 that stays in
the unit interval. It does not ask `f` to increase: at the literal break 0.03928 the two pieces of the
source's function differ by under a millionth in the wrong direction. `Settling.dfy` repairs a colour,
`WalkSteps.dfy` says where the repair's walk goes,
`Gate.dfy` measures a theme and the role layer over it, `Accent.dfy` and `AccentForm.dfy` answer for
the colour a person asked for. Tables of fields, pairs and roles are parameters, so the results hold
for every table.

**The CSS name scanner.** `CssNames.dfy` holds the byte cursors of `ui/hooks.go`, each loop proved
equal to a position-based function, and `CssBytes.dfy` what its bytes and numbers are.
`CssSpellings.dfy` says what a spelled name is in the scanner's own
units, `CssStandard.dfy` what a browser reads (sections 3.3, 4.3.7, 4.3.8 and 4.3.11 of CSS Syntax
Module Level 3) and when the two agree, `CssSelectors.dfy` lays whole selectors out in pieces, and
`CssClasses.dfy` and `CssAttributes.dfy` compare the classes and the attributes found with those a browser
reads. `HeadScan.dfy` is the scan of a rule's head for a `;`.
`ClientSheet.dfy` is the mask of `ui/client_sheet.go` over a normalized text; `SheetPromise.dfy`,
`SheetTokens.dfy` and `SheetCuts.dfy` compare it with the text the client wrote, as the gate and as a
browser cuts it.

**Font stacks.** `FontStacks.dfy`, `FontWords.dfy` (what the words of an unquoted name are) and
`FontPrinting.dfy`.

## Where the code and its documentation differ

- `pickImplementation` counts missing inputs in a string that is empty when none is missing, so an
  implementation whose first unset input is named by the empty string is picked. `PicksExactly` says
  that this is the only difference, `NamelessInputIsPicked` gives an input; nothing on the way from
  `FromDeployment` refuses such a name.
- `attrNames` promises every attribute name a selector addresses, however it is spelled. `attrMatches`
  opens a bracket at every `[` byte, also in an escape or a string, and then runs over the selector's own
  bracket: `(.\[)[b]` and `("[")[b]` give no attribute, and `(.\5b )[b]` gives `b`
  (`EscapedBracketHides`, `QuotedBracketHides`, `RespelledBracketShows`). `BracketsAgreeExactly` says when
  the reader's brackets are a browser's, and `AttrsAsABrowser` when the attributes are.
- `unbraced` promises to find the `;` a browser acts on. It has no case for an escape, so an escaped quote
  or `[` opens a string or bracket for it: in `.a\";` it finds none (`EscapedQuoteHides`).
  `SpansAgreeExactly` says when it steps over what a browser steps over.
- `outsideValues` says it masks closed strings and URL arguments of a text `resolveNames` normalized.
  Normalizing decodes the escapes inside strings first, so a string's end can move:
  `"\\"#f"x"` normalizes to `"\"#f"x"`, and `#f` is hidden outside every string the client wrote
  (`MaskMayHideOutside`). `MaskIsFaithfulExactly` says exactly when what is hidden is what was written
  inside strings and urls.
- `outsideValues` says open spans stay visible. A string that nothing closes is masked to the end of
  the text when the text's last byte is the string's own quote, escaped (`"a\"`); `MaskedExactly`
  says exactly when, `OpenStringMasked` gives the input.
- `outsideValues` reads the byte before where a string ended. A string left open by a lone backslash
  ends one byte past the text, so that read is out of range; `PanicsExactly` gives the exact condition
  and `NormalizedTextMayPanic` an input that `resolveNames` produces.
- `LegibleAccent` documents a lower-case `#rrggbb`. A colour the gate accepts comes back lower-cased
  but otherwise as written, so `#FFF` comes back as `#fff` (`ShortAnswer`); `StoredFormExactly` says
  exactly when the answer has the documented form.
- `scanIdent` documents the empty name where no identifier starts. It reads one wherever a digit, a
  hyphen or a `\` stands (`ReadsWhereNoneStarts`), so `.5a` yields a class (`ClassOfADigit`).
- `outsideValues` takes every `url(` for a url, also at the end of a longer name: `my-url(#f)` hides its
  `#f` (`LongerNameHides`). `CutsAgreeExactly` says when the gate cuts a text as a browser does, and
  `MaskIsABrowsersExactly` when it hides what a browser finds inside strings and urls.
- The name scanner says it resolves a name as a browser does. It does exactly under the condition of
  `ReadsAsABrowser`. It differs on an escape of zero (U+0000, where section 4.3.7 of CSS Syntax Module
  Level 3 asks for U+FFFD), on a hex escape ended by CR LF (one newline after section 3.3, of which the
  scanner takes the first byte), on a zero byte (U+FFFD after section 3.3), on a `\` at the end of the
  text (U+FFFD) and on a `\` before a newline (no escape, section 4.3.8); each has a lemma at an input.
  `ClassesAsABrowser` says for whole selectors when the classes found are those a browser reads.

## Model

| member | source | states |
|---|---|---|
| ResolutionSpec.ExtensionExcludesCycles | pkit/resolve.go:541-628 | modules that can be listed each after its dependencies have no closed dependency walk, of any length |
| ResolutionSpec.WithdrawnLostToAChoice | pkit/resolve.go:171-202 | no chosen module is withdrawn, and every withdrawn one shares a contract with a chosen module that is built |
| ResolutionSpec.OrderIndependence | pkit/resolve.go:139-202 | permuting Use and reordering Choose changes neither whether the app resolves, nor what is built, nor who supplies which need, nor which build orders are right |
| Declarations.UseOnce | pkit/resolve.go:138-148 | one module per name, the first, and every name keeps its module; what is said is exactly which names repeat, one sentence for each further use |
| Declarations.FirstOfNameIs | pkit/resolve.go:138-148 | what is kept of Use is the first module of every name, in Use order |
| Declarations.ReadChoices | pkit/resolve.go:150-169 | the chosen composed modules; exactly the choices that are not in use, and those that settle nothing, are said, each by its own name |
| Declarations.DeclaredKeys | pkit/resolve.go:716-728 | every supplied contract, each exactly once |
| Declarations.WithdrawFor | pkit/resolve.go:171-202 | for one contract, the candidates left and exactly the modules a choice passed over |
| Declarations.Withdraw | pkit/resolve.go:171-202 | the withdrawn set is exactly the modules that lose a contract to a choice without being chosen, and each contract keeps its living suppliers |
| Declarations.SweepModule | pkit/resolve.go:204-246 | exactly the declarations that contradict the module's others, and those said before, are said, each with the module's name and the declaration's key; none exactly when the module says everything straight |
| Declarations.SweepDeclarations | pkit/resolve.go:204-246 | the same over all modules, withdrawn ones included: exactly what some module says wrong is said |
| Declarations.ThoseThatRunLast | pkit/resolve.go:248-270 | exactly the modules that ask to run after everything, withdrawn ones included, once each and in Use order |
| Declarations.MixedContracts | pkit/resolve.go:272-300 | on modules that say things straight, exactly the contracts both provided and contributed; each is said, and nothing else is |
| NeedSettling.MissingNeed | pkit/resolve.go:302-327 | a hard need without a living candidate is said once, by the module's name and the contract's, unless the contract has candidates and every one of them was itself refused: then nothing is said; either way the refusal is traced |
| NeedSettling.MissingIsOwed | pkit/resolve.go:302-327 | a need said to be missing never had a candidate, or has one that a choice alone took away |
| NeedSettling.SettleNeed | pkit/resolve.go:329-401 | one edge: kept, wired, unwired or refused; a change is strict progress, no change means the edge is settled |
| NeedSettling.DependsOnLast | pkit/resolve.go:465-490 | one sentence, with the module's name and the key, for each declaration that reads the module that runs last, withdrawn or not, in order; the module is refused exactly when there is one |
| NeedSettling.Settle | pkit/resolve.go:329-401 | the loop terminates on every input, leaves every surviving module's needs answered by its one living supplier, drops nobody silently (every module it refuses is traced to a recorded issue), never gives an edge that lost its supplier another one, loses no issue, adds only sentences that are owed, and adds none when nothing was wrong |
| BuildOrder.Visit | pkit/resolve.go:633-656 | a step of the depth-first search closes a genuine cycle or finishes the module after everything it depends on |
| BuildOrder.CycleThrough | pkit/resolve.go:633-656 | a found cycle is a closed dependency walk; finding none leaves a list in which nothing precedes its dependencies |
| BuildOrder.WaitersNeverFinish | pkit/resolve.go:610-628 | modules that all wait for one another never appear in such a list, so the search from a leftover always closes a cycle |
| BuildOrder.Order | pkit/resolve.go:541-628 | every survivor once and after its dependencies, ready modules in turn and in Use order when ready together, the run-last module at the end, or a genuine cycle; leaving one out with no cycle is impossible on the settled graph |
| BuildOrder.OneOrder | pkit/resolve.go:536-537 | Use order breaks every tie: two such orders of the same modules are the same list |
| Resolver.PickImplementation | pkit/resolve.go:494-534 | the first implementation with no named input missing, as the code counts them; with none, exactly one sentence: nothing was named, the first input missing from the first implementation the environment allows, or it allows none |
| ResolutionSpec.PicksExactly | pkit/resolve.go:494-534 | an implementation is picked as documented, when it is wanted and has every input, unless its first unset input is the empty string; exactly that one is picked although an input is missing |
| ResolutionSpec.PicksWellAsDocumented | pkit/resolve.go:494-534 | a module whose implementations name all their inputs is picked for exactly when one of them is runnable |
| ResolutionSpec.NamelessInputIsPicked | pkit/resolve.go:513-522 | an implementation whose one input is the empty string is picked with nothing set |
| ResolutionSpec.SimulatedInDevelopmentOnly | pkit/resolve.go:501-507 | with its inputs set, an implementation is picked everywhere unless it is simulated, and then in development only |
| Resolver.ContributorsListedOnce | pkit/resolve.go:431-444 | modules that do not repeat themselves are each one contributor |
| Resolver.ContributorsInOrder | pkit/resolve.go:431-444 | contributors are listed in the order they stand among the survivors, which is Use order |
| Resolver.ReadContributors | pkit/resolve.go:431-444 | the contributors of every contract, in Use order, one entry per declaration |
| Resolver.CycleReasons | pkit/resolve.go:660-691 | every edge of a reported cycle gets at least one reason, and each reason is a need wired to, or a contribution of, the next module |
| Resolver.ReasonsInWords | pkit/resolve.go:660-691 | which words stand for a hard need, an optional one and one that takes every contribution |
| Resolver.OrderSettled | pkit/resolve.go:446-456 | the order read off the settled needs is a linear extension of the dependency relation, or a closed walk of it |
| Resolver.AnswerNeeds | pkit/resolve.go:138-444 | everything before the order: silent exactly when names, choices, declarations, needs and implementation picks are all answerable, and every sentence true of the app |
| Resolver.Resolve | pkit/resolve.go:87-457 | no issue exactly when the app resolves; then the plan builds exactly the survivors, wires each need to its only supplier, lists contributors and orders modules with ties in Use order, and answers each built module with its first picked implementation; every issue is true of the app as declared (in particular a missing need is one nobody in use supplies, or one a choice took a candidate of); a reported cycle is explained edge by edge by the plan's own wiring; with issues, every composed module is built, withdrawn, or traced to one |
| Sentences.WithoutChoicesMissingIsAbsent | pkit/resolve.go:83-86 | with nothing chosen, a missing need reported is one nobody in use supplies: a module that could not be resolved causes no second sentence |
| Sentences.OwedIsJustified | pkit/resolve.go:302-401 | what the sweep says is true of the app: a need nobody answers or a choice took, two surviving candidates, a reader of the module that runs last, a contract declared both ways |
| Resolver.SamePlanWhateverOrder | pkit/resolve.go:139-202 | the plans of two permuted apps build the same modules, wire every single need of a built module alike, and agree on contributors, dependencies and the module that runs last |
| Resolver.OneBuildOrder | pkit/resolve.go:536-537 | two plans of one app have the same build order, position by position |
| WiringModel.OnePerContributor | pkit/app.go:180-198 | All answers one value per contributor, in order, exactly when none of them put nil |
| WiringModel.NilsAreRecorded | pkit/app.go:187-195 | the errors of such a read name exactly the contributors that put a nil, and errors and values together are as many as were put |
| WiringModel.Wiring.GetOne | pkit/app.go:153-174 | which of the four outcomes a read has, exactly: undeclared, a hard need nothing supplies (by the first declaration that reads the contract), the zero value, or the one value put; and what it records |
| WiringModel.Wiring.GetAll | pkit/app.go:180-198 | every contribution in contributor order and one recorded error for every nil among them, or a refusal of an undeclared read |
| WiringModel.Wiring.PutOne | pkit/app.go:201-211 | appends the value to the module's own puts when declared, else records the error and stores nothing |
| WiringModel.Wiring.BuildOne | pkit/app.go:423-437 | with its needs in reach, no build meets a missing supplier or a wrong count, whatever it reads; every answer it hears is what was put before it; the build ends exactly where its script does, with what the script returned or at a read the module did not declare; what it put for each contract is what its steps put, in order, and what it recorded is what its steps record |
| WiringModel.OneCourse | pkit/app.go:423-437 | beside the same values and manifests a script takes one course and ends one way |
| WiringModel.RecordsExactly | pkit/app.go:180-211 | a build records an error exactly when it puts a contract the module does not supply or reads a nil contribution |
| DryBuild.RefusedDependency | pkit/app.go:461-468 | the refused or suppressed dependency found first, and none exactly when every dependency built |
| DryBuild.PutCountProblems | pkit/app.go:441-454 | exactly which supplied contracts do not have exactly one value, and how they were got wrong; silent exactly when all have |
| DryBuild.RunModule | pkit/app.go:378-401 | what is said of a module is exactly what is wrong with its run, and its manifest is its script's exactly when nothing is |
| DryBuild.BuildInOrder | pkit/app.go:369-401 | for arbitrary builds, the loop keeps built, refused and suppressed modules, their values, their errors and what each build heard apart; of every module that ran, what is kept is its script's, and the problems are what is wrong with the runs |
| DryBuild.RefusedExactly | pkit/app.go:369-401 | a module whose dependencies all built ran, and is refused exactly when its script was stopped, returned an error, put a contract it did not declare, read a nil contribution or put a wrong count; otherwise its manifest and its values are its script's |
| DryBuild.RunIsTheOne | pkit/app.go:423-437 | beside what it saw, the run of a module is the only one its script can have |
| DryBuild.SuppressionIsDownstream | pkit/app.go:369-401 | built, refused and suppressed split the order; suppressed is exactly depending, at any distance, on a refused module, and the recorded culprit is a refused one in reach |
| DryBuild.CulpritIsReached | pkit/app.go:461-468 | following the recorded culprit leads through dependencies to a refused module |
| DryBuild.DownstreamIsSuppressed | pkit/composition_error.go:24-31 | whatever reaches a refused module, however far away, is suppressed |
| DryBuild.NobodyReadsTheRefused | pkit/app.go:369-401 | no build ran while a value of a refused or suppressed module was in sight |
| DryBuild.EveryAllIsWhole | pkit/app.go:180-198 | in every build that ran, every `All` heard one value per contributor, the very one that contributor is known by afterwards, exactly when none of them put nil |
| DryBuild.EveryGetIsTheOne | pkit/app.go:153-174 | and every `Get` heard the one value its supplier is known by, or nothing when nobody supplies an optional need |
| DryBuild.TheLastSeesEverything | pkit/app.go:215-220 | when everything built, the run-last module saw every other manifest, in order |
| DryBuild.Compose | pkit/app.go:348-417 | an answer exactly when the app resolves, the name is accepted, nothing was refused and the kernel's gates pass; the problems are the gates' or exactly what is wrong with the runs; without a resolved app nothing is built |
| DryBuild.OneValueEach | pkit/build.go:137-162 | modules that put as declared put one value each, so one module is one value |
| DryBuild.SingleAnswers | pkit/build.go:137-162 | the ports are exactly the contracts with one value from one module |
| DryBuild.SelectPorts | pkit/build.go:137-162 | over the puts of modules that put as declared, nothing required is unanswered exactly when each required contract is a port, and a port is the value of the one module that put it |
| DryBuild.MakePlan | pkit/build.go:124-191 | a plan is returned exactly when settings and name are accepted, the app resolves, every module built, the gates pass, each required port has exactly one composed module that declares it, and the roles pass; every port is then the one value its supplier's script put |
| Claims.DatabaseClaims.Claim | pkit/claims.go:97-117 | a lifecycle is recorded exactly when the database is free or held by the same application with the same composition; a refusal changes nothing |
| Claims.DatabaseClaims.Release | pkit/claims.go:72-87 | a receipt counts down once, a nil or spent one does nothing, and the guard on the entry never fails when reached |
| Claims.DatabaseClaims.OneApplicationPerDatabase | pkit/claims.go:97-117 | receipts live at once on one database share application and composition |
| Claims.DatabaseClaims.NothingHeldAtTheEnd | pkit/claims.go:72-87 | once every receipt is released the record is empty |
| ClaimsSpec.ReleaseUndoesClaim | pkit/claims.go:72-117 | giving back what was just taken restores the record, entry included |
| ClaimsSpec.ClaimsAndReleasesCommute | pkit/claims.go:72-117 | a claim and a release commute wherever both can happen |
| Lifecycle.StepKeeps | pkit/build.go:236-323 | every atomic step of every call keeps the protocol's invariant |
| Lifecycle.SafetyOfEveryRun | pkit/build.go:284-323 | in every run, a count is its unreleased receipts, an entry exists exactly while there is one, live receipts on a key agree, each app has at most one call past `newEngine`, and `built` says whether it has |
| Lifecycle.NothingLeaks | pkit/build.go:206-268 | a call that ended gave its claim back, and when all have ended the record is empty |
| Lifecycle.EachClaimOnce | pkit/server.go:363-391 | a step takes one new claim, gives one ungiven claim back, or leaves record and receipts alone |
| Lifecycle.CloseTwiceIsCloseOnce | pkit/build.go:364-368 | closing a Runtime again changes nothing |
| Boots.PlanDecidesTheCall | pkit/build.go:285-288 | in every run, Plan's answer lets the call go on exactly when it is no refusal; a refused call takes no further step and holds nothing |
| Boots.BuiltTurnsAway | pkit/build.go:297-301 | a call that reads `built` set is over with nothing taken and its mutex back; one that reads it clear goes on to claim |
| Boots.ClaimIsTakenWhereItFits | pkit/build.go:302-305 | the claim is taken exactly when the database is free or held by this application with this composition, and the record then counts one more; a call turned away leaves the record, frees its app's mutex and is over |
| Boots.ChecksDecideBuilt | pkit/build.go:306-322 | the engine's own checks set `built`, and free the mutex, exactly when they pass; when they do not, all the call still does is give its claim back, under the mutex |
| Boots.UnwoundIsBuildable | pkit/build.go:306-319 | and then the mutex is free and the app not built |
| Boots.RefusedBootGivesItsAppBack | pkit/build.go:233-268 | after a boot refused before effects the call gives its claim back, then clears `built`, and does nothing else; until then the app stays built |
| Boots.RefusedBootLeavesAppBuildable | pkit/build.go:261-268 | when it has, `built` is clear, nobody is past `newEngine`, and the next call goes on to claim |
| Boots.FailedBootSpendsTheApp | pkit/build.go:233-268 | after a boot that failed past its effects the call gives its claim back and does nothing else, and the app is spent for the rest of the run |
| Boots.StartedBootSpendsTheApp | pkit/build.go:228-241 | a boot that started keeps its claim until its Runtime's first Close, and the app is spent for the rest of the run |
| Lifecycle.UsedUpForGood | pkit/build.go:261-268 | an app whose lifecycle is used up stays marked built in every later state of the run |
| Lifecycle.NobodyIsStuck | pkit/build.go:284-323 | a call that has not ended can step, or waits for a mutex whose holder can |
| CssNames.ScanEscape | ui/hooks.go:459-476 | the loop reads an escape's value and end: one to six digits and one space, or one byte, or nothing after a lone backslash |
| CssNames.ScanIdent | ui/hooks.go:394-413 | the loop returns the decoded name and where it stops |
| CssNames.EndOfBracket | ui/hooks.go:532-546 | the loop returns where the bracket ends, at most one byte past the text |
| CssNames.AttrMatches | ui/hooks.go:323-352 | the loop returns the folded local name and the comparison of every bracket |
| CssBytes.DigitsAreWorth | ui/hooks.go:463-476 | a hex digit is worth its place among the sixteen, in either case, and nothing else is one |
| CssBytes.ClassesAre | ui/hooks.go:563-590 | which bytes are white space, newlines, quotes and name bytes, as ASCII characters |
| CssBytes.FoldingIs | ui/hooks.go:584-590 | folding takes each capital letter to its small one and changes nothing else |
| CssBytes.RuneDecodes | ui/hooks.go:471 | the bytes appended for a number decode, as UTF-8, to that number, or to U+FFFD when it is no character |
| CssSpellings.EscapeReads | ui/hooks.go:459-476 | every spelled escape is read whole and stands for what it spells |
| CssSpellings.IdentReads | ui/hooks.go:394-413 | every spelling of a name in the scanner's own units (literal bytes, `\c`, hex digits with or without one space, a last lone `\`) is decoded to that name and left just past it |
| CssSpellings.ReadIsSpelled | ui/hooks.go:394-413 | and nothing else is ever read: what the scanner takes is a spelling, ended where no identifier goes on |
| CssSpellings.SameNameHoweverSpelled | ui/hooks.go:394-413 | two spellings of one name, wherever they stand, give the same name and each stops at its own end |
| CssSpellings.ResolveReads | ui/hooks.go:502-520 | a spelled name resolves to its case-folded self inside any fragment |
| CssStandard.NameHere | ui/hooks.go:388-394 | at every offset of every text a browser reads a name |
| CssStandard.OneName | ui/hooks.go:388-394 | and only one |
| CssStandard.ZeroIsTheDifference | ui/hooks.go:459-476 | the scanner's reading of an escape's number is the standard's exactly when the number is not zero |
| CssStandard.NameExactly | ui/hooks.go:394-413 | a name spelled in units both know is the standard's exactly when no escape in it is one of zero |
| CssStandard.ReadWholeExactly | ui/hooks.go:394-413 | a browser's spelling is read whole exactly when no escape in it is ended by a carriage return and a line feed, and no byte of it is zero |
| CssStandard.ReadsAsABrowser | ui/hooks.go:394-413 | name and end are a browser's exactly when no unit is an escape of zero, an escape ended by CR LF, a zero byte or a `\` at the end of the text, and no `\` before a newline follows |
| CssStandard.SameNameToABrowser | ui/hooks.go:394-413 | two such spellings of one name are one name to the scanner |
| CssStandard.EscapeOfZero | ui/hooks.go:459-476 | `\0` reads as a zero byte where a browser reads U+FFFD |
| CssStandard.EscapeEndedByCrLf | ui/hooks.go:471-474 | an escape ended by CR LF: the scanner stops between the two and reads `f` where a browser reads `fl` |
| CssStandard.ClassUnseen | ui/hooks.go:256-278 | so a class selector can address `fl` while the reader finds `f` |
| CssStandard.BackslashBeforeNewline | ui/hooks.go:459-476 | a `\` before a newline is read as part of the name, which it ends for a browser |
| CssStandard.ZeroByte | ui/hooks.go:404-409 | a zero byte ends a name where a browser reads U+FFFD and goes on |
| CssStandard.BackslashAtTheEnd | ui/hooks.go:459-476 | a `\` with nothing after it reads as nothing where a browser reads U+FFFD |
| CssClasses.ReadsWhereNoneStarts | ui/hooks.go:389-394 | where no identifier starts (section 4.3.9) the scanner reads a name exactly when a digit, a hyphen or a `\` stands there |
| CssClasses.ClassOfADigit | ui/hooks.go:389-394 | `.5a` addresses no class and the reader finds `5a` |
| CssClasses.StandardLayOut | ui/hooks.go:256-278 | a browser reads every selector in pieces, its class names where an identifier starts |
| CssClasses.NameReadExactly | ui/hooks.go:394-413 | a class name is a browser's exactly when no unit is an escape of zero, a zero byte or a `\` at the end of the text, only the last is an escape ended by CR LF, and no `\` before a newline follows |
| CssClasses.ClassesAsABrowser | ui/hooks.go:256-278 | for whole selectors: the classes found are those a browser reads, in order and no others, exactly when every class name is read alike and no dot stands before a digit, a hyphen or a `\` that starts no name |
| CssClasses.NoClassUnseen | ui/hooks.go:256-278 | when every class name is read alike, every class a browser reads is among those found |
| CssSelectors.ClassesRead | ui/hooks.go:256-278 | a selector's class names are exactly those of its class pieces, decoded and in order; a dot in a bracket, a string or an escape makes none, nor does anything after a string or bracket nothing closes |
| CssSelectors.LayOut | ui/hooks.go:256-278 | every selector is laid out in such pieces |
| CssSelectors.SameClassesHoweverSpelled | ui/hooks.go:256-278 | selectors that spell the same class names address the same classes, whatever else they hold |
| CssSelectors.PrefixesRead | ui/hooks.go:332-343 | every namespace prefix, named, empty or wildcard, is stepped over to the local name |
| CssSelectors.AttrsRead | ui/hooks.go:323-352 | the attributes found are those of the brackets the reader opens, one at every `[` byte it comes to, in an escape or a string too; closed or not, in order, by decoded and folded local name |
| CssSelectors.PartOut | ui/hooks.go:323-352 | every selector falls into such brackets, as the reader opens them, and bytes between them |
| CssSelectors.ComparesIsAnOperator | ui/hooks.go:359-375 | a bracket compares its attribute's value exactly when one of the six operators stands, unbroken, after the name and any space |
| CssSelectors.SameAttrHoweverSpelled | ui/hooks.go:323-375 | brackets that spell one local name, whatever its case, and end alike are one attribute match with one comparison answer |
| CssSelectors.SameAttrsHoweverSpelled | ui/hooks.go:323-375 | selectors in which the brackets the reader opens name the same attributes and end alike, in order, have the same attribute matches |
| CssAttributes.BracketsAgreeExactly | ui/hooks.go:323-352 | for whole selectors: the reader opens the brackets a browser opens, at each and nowhere else, exactly when no `[` byte stands in a piece that is no bracket or after a quote nothing closes |
| CssAttributes.WhereItStands | ui/hooks.go:323-352 | and there it can only stand in a string, or in an escape of it, alone or in a class name |
| CssAttributes.SameBracket | ui/hooks.go:349 | a bracket ends where it ends from after the local name, however its names are spelled |
| CssAttributes.AttrsOfBrackets | ui/hooks.go:279-291 | then the attributes found are those of a browser's brackets, in order, one that nothing closes among them |
| CssAttributes.StartIsReadExactly | ui/hooks.go:332-343 | in a bracket that is an attribute selector the reader's local name starts where a browser's does exactly when no escape ended by CR LF and no zero byte cuts the namespace's name short |
| CssAttributes.AttributeReadExactly | ui/hooks.go:345-348 | and the reader finds the attribute a browser reads there, folded name and comparison, exactly when the local name is read alike |
| CssAttributes.AttrsAsABrowser | ui/hooks.go:279-291 | for whole selectors: the attributes found are those a browser reads, in order and no others, exactly when every local name is read alike |
| CssAttributes.SameAttrsToABrowser | ui/hooks.go:279-291 | so two such spellings of a selector in which a browser reads the same attributes give the same attributes, whatever else they hold |
| CssAttributes.EscapedBracketHides | ui/hooks.go:326-330 | in `(.\[)[b]` a browser reads the attribute `b` and the reader finds none |
| CssAttributes.RespelledBracketShows | ui/hooks.go:326-330 | in `(.\5b )[b]`, the same selector respelled, it finds `b` |
| CssAttributes.QuotedBracketHides | ui/hooks.go:326-330 | in `("[")[b]` it finds none either |
| ClientSheet.OutsideValues | ui/client_sheet.go:72-98 | the in-place mask blanks exactly the covered bytes and keeps every other, or reads out of range exactly when the scan does |
| ClientSheet.StringRuns | ui/hooks.go:548-561 | a string scan ends past a closing quote, at the end of the text, or one byte past it after a lone backslash, and exactly when each |
| ClientSheet.PanicsExactly | ui/client_sheet.go:82-84 | the read is out of range exactly when the text ends in an odd run of backslashes and the scan meets a string nothing closes |
| ClientSheet.NormalizedTextMayPanic | ui/client_sheet.go:82-84 | a normalized text on which that happens |
| ClientSheet.MaskedExactly | ui/client_sheet.go:69-88 | a string is masked exactly when it closes or the text's last byte is its quote |
| ClientSheet.OpenStringMasked | ui/client_sheet.go:69-88 | a string nothing closes that is masked to its end, and a fragment that normalizes to it |
| ClientSheet.CoveredIsInside | ui/client_sheet.go:69-98 | over a text cut into closed strings, closed `url(` arguments, a string that runs open to its own quote at the end, and other bytes, the mask covers exactly the insides |
| ClientSheet.SpanOut | ui/client_sheet.go:69-98 | every text is cut up so |
| HeadScan.Unbraced | ui/client_sheet.go:49-68 | the loop answers whether the scan over strings and brackets comes to the byte |
| HeadScan.SpansAgreeExactly | ui/client_sheet.go:49-68 | the scan steps over the strings and brackets of a browser and over nothing else exactly when nothing outside them escapes a quote or a `[` |
| HeadScan.FindsWhatStandsOutside | ui/client_sheet.go:49-54 | then it finds a `;` exactly when one stands outside strings and brackets, by itself or escaped |
| HeadScan.EscapedQuoteHides | ui/client_sheet.go:55-68 | in `.a\";` a browser ends the rule at the `;` and the scan finds none |
| SheetTokens.CutUp | ui/hooks.go:490-520 | every text a client writes has the gate's cut: every string and every spelling of `url(` that closes, and units outside them |
| SheetTokens.NormalizesTo | ui/hooks.go:502-520 | however a text is cut, normalizing decodes it token by token |
| SheetTokens.MaskIsFaithfulExactly | ui/client_sheet.go:69-98 | masking the normalized text hides exactly what a reader finds inside strings and urls, however that reader cuts the text, exactly when every token is calm: a decoded string still ends at its own quote, a decoded argument holds no `)`, and nothing decoded between them opens a span |
| SheetPromise.KeptExactly | ui/client_sheet.go:69-98 | the same over decoded pieces, at any offset |
| SheetPromise.UnescapedIsCalm | ui/client_sheet.go:69-98 | a string with neither its own quote nor a backslash among its decoded characters is calm |
| SheetTokens.MaskMayHideOutside | ui/client_sheet.go:69-98 | a text whose mask hides a colour outside every string it was written with |
| SheetCuts.BrowserCuts | ui/client_sheet.go:69-71 | every text has a browser's cut: no url begins inside a longer name and no string runs over a bare newline |
| SheetCuts.CutsAgreeExactly | ui/client_sheet.go:69-98 | the gate's cut is a browser's exactly when none of its urls runs on from a name and none of its strings holds a bare newline |
| SheetCuts.MaskIsABrowsersExactly | ui/client_sheet.go:69-98 | the mask hides exactly what a browser finds inside strings and urls exactly when the tokens of a browser's cut are calm |
| SheetCuts.LongerNameHides | ui/client_sheet.go:88-92 | `my-url(#f)` is no url to a browser, and its `#f` is hidden |
| Colours.ParseColor | design/colors.go:189-214 | succeeds exactly on `transparent` and on three, four, six or eight hex digits after a hash, and the channels are their bytes over 255, alpha one when not given |
| ColourText.DigitIsWorth | design/colors.go:189-214 | a digit of a literal is worth its place among the sixteen, in either case |
| ColourText.LiteralsMean | design/colors.go:189-214 | which pair of digits is which channel; a short literal is the long one with every digit doubled; `transparent` is zero in every channel |
| Colours.OneUnfolding | design/colors.go:63-100 | a value is at most one finite expression |
| Colours.MetIsSmaller | design/colors.go:83-88 | a mix met while unfolding a value is the value's own or unfolds to something strictly smaller |
| Colours.NotInsideItself | design/colors.go:83-88 | so no mix is met inside itself |
| Colours.Css | design/colors.go:63-100 | terminates on every graph of mixes, shared or looping, succeeds exactly on values with a finite well-formed unfolding clear of the active mixes, prints it, and restores the active set |
| Colours.CssText | design/colors.go:59-61 | the public rendering succeeds exactly on values with a finite unfolding and percentages from 0 to 100 |
| ColourText.PrintIsFaithful | design/colors.go:63-100 | a reader of the printed form gets back the very expression, the percentage with its first operand, so values that print alike are one expression |
| ColourGraph.MixInterpolates | design/colors.go:171-179 | a mix of valid colours is valid, alpha is interpolated, channels lie between the operands' unless it is transparent, and premultiplied channels interpolate |
| ColourGraph.ValuesAreValid | design/colors.go:44-51 | everything evaluation yields passes the channel check |
| ColourGraph.OneMeaning | design/colors.go:139-180 | a name means at most one colour |
| ColourGraph.MeaningNeedsOrder | design/colors.go:139-153 | when every name evaluates, references are closed and no walk of them, however long, returns to its start |
| ColourResolution.Gather | design/colors.go:113-131 | succeeds exactly when every name is well formed and declared once, and then holds every listed colour |
| ColourResolution.Memo.Resolve | design/colors.go:141-154 | a name's answer is its meaning, now on record, or a fault that shows none exists: a reference to no colour, or a closed walk |
| ColourResolution.Memo.Evaluate | design/colors.go:155-180 | a value evaluates to what plain recursive evaluation gives, or a fault shows it does not; what that is for a mix, `ColourMixing.ResolvedMix` says |
| ColourResolution.ResolveColors | design/colors.go:109-187 | succeeds exactly when names are valid and distinct, values well formed and references closed and free of loops; the result is then plain evaluation's colour for every colour name and nothing else |
| ColourMixing.ResolvedMix | design/colors.go:163-179 | in the result a mix is its percentage of whatever its first operand evaluates to and the rest of its second's, premultiplied, and zero in every channel when transparent |
| ColourMixing.WholeOfOneOperand | design/colors.go:171-179 | at a hundred percent an opaque first operand is the whole colour, at zero an opaque second one |
| ColourMixing.ResolvedReference | design/colors.go:159-161 | a reference has the colour of the name it gives |
| ColourMixing.BaseColour | design/colors.go:114-122 | a base token of type color has the colour its value spells |
| ColourMixing.DerivedColour | design/colors.go:124-131 | a derived token has the colour of what its value unfolds to |
| ColourMixing.OnlyColours | design/colors.go:113-131 | the names of the result are the base tokens of type color and the derived tokens, no others |
| ColourMixing.ListedWellExactly | design/colors.go:113-131 | the lists are accepted exactly when every name is a colour name, every base token has a type and no name is given twice |
| ColourLayers.OrderDoesNotMatter | design/colors.go:109-187 | permuting either list changes neither success nor any colour |
| ColourLayers.LayerResolves | design/roles.go:137-150 | a layer whose values are well formed and read only colours the theme sets resolves over every theme whose colours parse |
| ColourLayers.Detach | design/roles.go:176-184 | the copy means the same and shares no mix with anything in memory, which is left as it was |
| ColourLayers.TableSurvivesEdits | design/roles.go:166-175 | however many writes a detached copy's mixes take, and whatever else was written since, the table's own value keeps its meaning |
| ColourSpace.HsvRoundTrip | design/seed.go:539-588 | every opaque colour of the unit cube, in all six sectors and for greys and black, comes back from hue, saturation and value |
| ColourSpace.HueNamesTheTop | design/seed.go:566-588 | the hue's third of the circle is that of the highest channel, the value is that channel, and the saturation gives the lowest |
| ColourHex.StoredIsNearest | design/seed.go:534-537 | a stored colour reads back as the byte colour nearest in every channel |
| ColourHex.HalvesGoUp | design/seed.go:534-537 | half-way between two bytes the upper one is stored |
| ColourHex.StoredReturns | design/seed.go:534-537 | a lower-case six-digit literal read and stored again is the same literal |
| ColourHex.BlendIsTheMix | design/seed.go:316-323 | on opaque operands the blend is the premultiplied mix a resolved layer computes |
| ContrastRatios.Contrast | design/contrast.go:39-45 | the measured ratio is the lighter end over the darker, whichever argument it is |
| ContrastRatios.PrimariesWeigh | design/contrast.go:28-34 | red, green and blue weigh 0.2126, 0.7152 and 0.0722, and a grey what its channel does |
| ContrastRatios.ContrastBounds | design/contrast.go:36-45 | symmetric, one between equals, and within 1 and 21 |
| ContrastRatios.PolesMultiply | design/contrast.go:36-45 | white's and black's contrasts on one ground multiply to 21, and 21 lies between white and black |
| ContrastRatios.BetterEnd | design/seed.go:380-398 | on any ground the better pole reaches every floor up to the square root of 21 |
| ContrastRatios.OneColourForBoth | design/README.md:166-173 | some luminance reads at 4.5:1 on two canvases exactly when they are 20.25:1 apart, or the dark one is at least 0.175, or the light one at most 11/60 |
| Settling.ReachesAll | design/seed.go:447-454 | true exactly when the colour reaches the floor on every ground as that ground stands under it |
| WalkSteps.WhatStandsUnder | design/seed.go:305-323 | a plain ground is its base; a tinted one is opaque and holds its percentage of the colour and the rest of its base, at a hundred percent the colour itself |
| Settling.HsvRgbValid | design/seed.go:539-563 | rendering any hue, saturation and value in range stays in the unit cube |
| Settling.WalkTowardPole | design/seed.go:424-443 | the first of the 255 steps that clears every ground as stored, or the fact that none does; which colours the steps are, the WalkSteps rows say |
| WalkSteps.WalkKeepsTheHue | design/seed.go:419-443 | every point of the walk has the candidate's hue unless it is grey, and its channels stand apart in the candidate's proportions |
| WalkSteps.WalkNeverTurnsBack | design/seed.go:419-443 | toward white the value never falls, toward black it never rises, and the saturation never rises |
| WalkSteps.WalkIsLinear | design/seed.go:424-443 | a fraction of the walk is that fraction of the way to the pole in value and to no saturation |
| WalkSteps.StepsAreEven | design/seed.go:424-443 | each of the 255 steps moves the value a 255th of the way to the pole and takes a 255th of the saturation |
| WalkSteps.WalkStartsAtTheCandidate | design/seed.go:424-443 | the walk starts at the candidate |
| Settling.Settle | design/seed.go:380-398 | the candidate if it clears, else the first step that does toward the pole that reads better on the first ground, else that pole; the first ground is only read when there is one; every step keeps the candidate's hue (`WalkSteps.AnswerIsOnTheLine`) |
| Settling.SettleDarker | design/seed.go:408-417 | the same with the pole fixed to black |
| WalkSteps.AnswerIsOnTheLine | design/seed.go:380-443 | a repair answers the candidate, the pole, or the literal stored for a colour of the candidate's hue some 255ths of the way |
| Settling.LastStepIsThePole | design/seed.go:424-443 | the walk's last step is the pole |
| Settling.SettlingFailsOnlyWithItsPole | design/seed.go:380-417 | on any grounds, fixed or tinted, the answer clears them all unless the pole walked toward does not |
| Settling.SettleReachesOneGround | design/seed.go:380-398 | on one plain ground the answer always reaches every floor whose square is at most 21, hence 4.5 |
| Gate.Check | design/contrast.go:184-206 | accepts exactly the themes whose colours all parse, are opaque and reach every pair's floor |
| Gate.CheckRoles | design/contrast.go:239-284 | accepts exactly when there is a pair to measure, the layer resolves over the theme, and every pair names a possible floor and two opaque roles whose resolved colours reach it |
| Gate.ReadsTwoOpaqueRoles | design/contrast.go:253-284 | a role pair passes exactly when its floor is one a ratio can have and the two roles, under the name given or failing that the emitted one, are opaque and reach it |
| Gate.EitherSpellingIsThePair | design/contrast.go:218-224 | over a layer of emitted names either spelling of a role is the same pair |
| Gate.OnePainting | design/contrast.go:239-284 | what a layer paints over a theme is one set of valid colours, so the verdict does not depend on how it was resolved |
| Accent.SettleAccent | design/accent.go:131-151 | the first step of the accent's line with which the whole gate passes, or the fact that none does |
| Accent.LighterCopyGoesLighter | design/accent.go:124-132 | the walk goes toward white exactly when the theme's copy reads higher against black than its canvas does |
| Accent.SameColourLowered | design/accent.go:89 | a literal in lower case is the same colour |
| Accent.LegibleAccent | design/accent.go:69-99 | the answers in their order: nothing for nothing, a refusal, the colour asked for, the first gated step, a refusal |
| Accent.PaintedIsGated | design/accent.go:69-99 | a non-empty answer passes both halves of the gate in its theme, and is the colour asked for whenever that passes |
| AccentForm.PaintedIsOnTheLine | design/accent.go:69-151 | a painted colour is the one asked for, in lower case, or a colour of its hue some 255ths of the way to that pole |
| AccentForm.StoredFormExactly | design/accent.go:67-99 | an answer is the six-digit lower-case literal a theme stores exactly when six digits were asked for or the colour asked for had to be repaired |
| AccentForm.ShortAnswer | design/accent.go:67-99 | a gated theme asked for `#FFF` answers `#fff`, which no theme stores |
| Accent.PairPaintsTwoColours | design/README.md:166-173 | over a pair whose canvases are too close, no two answers, whatever was asked, are one colour in both themes |
| FontStacks.ParseFontFamilies | design/typography.go:97-148 | terminates on every string and returns exactly the families cut off its front one by one |
| FontStacks.ParsedFamiliesAreValid | design/typography.go:41-47 | every family returned passes validation and can be written down again, and there is at least one |
| FontWords.NameHasTheWords | design/typography.go:115-139 | an unquoted family runs to the first comma or the end; a single generic word is that keyword in lower case, and any other name has the words written, one space apart |
| FontWords.WhiteParts | design/typography.go:116 | the words of a text are those before a white space and then those after it |
| FontWords.FoldedLetters | design/typography.go:167-174 | keywords are compared with capital letters made small and nothing else changed |
| FontPrinting.PrintThenParse | design/typography.go:97-148 | a non-empty list of such families, generic names bare and literal names in a quote they do not hold, reads back as itself |
| FontPrinting.CanonicalForm | design/typography.go:97-148 | whatever was read reads the same from its canonical form |
| FontPrinting.CssFontsOk | design/typography.go:150-164 | every generic keyword is a lower-case identifier and none of the keywords that must be quoted |

## Left out

- The wording of sentences: an issue is a tagged record, so the wording, `Explain`, `Describe` and how a contract's name prints are not modelled; the once-only identifiers are compared as the pair of module name and contract spelling, not as one concatenated string.
- `p.choices` and `p.takers`, which only feed explanations.
- Reflection: contracts are opaque keys, and a value put is opaque except for being nil.
- WiringModel.Wiring.BuildOne: a build is a finite script bounded by a limit of its own; Go panics other than the wiring failure, and builds that never return, are not modelled.
- `Implementation`, `Skin` and `Config` reads of a build: the first two change nothing; `Config` notes which section types a module read, and records an error of the module when it names no section, which the model does not have among a build's errors.
- `pkit/cloud.go` and `pkit/skin.go`: table lookups and recorded settings.
- The kernel's gates over the built manifests, the checks of settings and of the app's name, the list of required ports and the check of recorded roles are parameters of `DryBuild.Compose` and `DryBuild.MakePlan`; what `Plan` then fills into the engine's options is not modelled.
- The engine: Start, Run and its own checks may answer anything, and `RefusedBeforeEffects` is part of that answer.
- `Server.refusals` and `Server.assemble`: the process's own refusals leave exactly one hosted app, so the loop that would close earlier runtimes never has one to close; a Server call is a Build or Run call of that app.
- Lifecycle.SafetyOfEveryRun: the mutex of the claim record is modelled as atomicity of its critical sections, not as a lock.
- Colours.Css: how a percentage is written is a parameter, which has to be readable back for `ColourText.PrintIsFaithful`; the text around it is modelled.
- Colours.ParseColor: a literal is a sequence of characters; a literal with bytes above ASCII is refused by the code and by the model, at different places.
- Floating point: colours are real numbers, so rounding (by which the last of the 255 steps of `settle` may miss the pole it documents), and infinities and NaN other than in a mix's percentage, are not modelled; the power 2.4 of the linearisation is a parameter.
- `Seed.hash`, `FromSeed`'s choices of hue, `Distance` and `Colliding`.
- The shipped tables of tokens, pairs and roles as numbers; the results hold over arbitrary ones.
- Gate.Check: which pair is reported first is not modelled, only whether the theme passes.
- SheetCuts.BrowserCuts: comments, what a string broken by a newline or a malformed url swallows after it, and a string the end of the text closes are not modelled; the bytes there are outside strings.
- CssClasses.ClassesAsABrowser: strings and brackets are laid out as the reader lays them; comments and a string a newline breaks are not modelled.
- CssStandard.ReadsAsABrowser: texts are bytes; what a browser makes of bytes that are no UTF-8 is not modelled.
- `atRuleHead` and `declaredKey` of `ui`: the first walks a selector list as `unbraced` walks a head, with no case for an escape either, and reads the name after an `@` that begins a member; the second cuts resolved text at its first colon.
- CssAttributes.AttrsAsABrowser: a bracket that is no attribute selector (two namespaces, a name missing, something else after the name) makes the whole rule invalid to a browser, so what a browser would read in it is not stated; where the reader opens and ends it is.
- FontStacks.ParseFontFamilies: strings are sequences of Unicode scalar values, so invalid UTF-8, which the code refuses first, does not arise.
- Everything outside `pkit`, `design` and the scanner files of `ui`.

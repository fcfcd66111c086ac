# Verified models of the gate scripts

The repository's gates are Python scripts under `scripts/`. They read build graphs, event
streams, logs and rc files, and decide whether a green result may be trusted. This project
models the logic of the hardest of them in Dafny and proves what they promise.

Each gate asks the same kind of question: does a silent reader mean that nothing is wrong? So
the main results are about whole runs, whole streams and whole graphs, and mostly say "exactly
when".

- **Tag guard** (`scripts/bazel_tag_guard.py`). The input closure is exact on every rule graph,
  cyclic or not. The path evaluator's binding loop, its cap of 64 rounds and its memo are modelled
  with all bindings. A module's charged reads are exact for every import graph. The findings of
  `check_tags` are exactly the raised ones, clause by clause. In a model of editing, running and
  reusing, a silent guard serves no stale verdict exactly when no closure label shadows a derived
  directory and every cached target declares its own module.
- **Build drift** (`scripts/bazel_build_drift.py`, `scripts/bazel_gate_proofs.py`). The line reader
  recovers what the fixture printer wrote, is compositional over complete rules, and loses exactly
  one rule's contribution when a header line is missing, both on lines and on printed texts. The label map is a fixpoint of its own
  derivation, and a silent comparison means that the two dependency graphs are the same.
- **Test floor** (`scripts/bazel_test_floor.py`). The summary reading and the per-case reading of a
  log agree, no red target vanishes from the report, and the stream reader keeps the last event of
  the highest attempt. From the stream to the report: a label the stream ends red on has a suite with
  a failing element, or is among the red doctests.
- **Doctor** (`scripts/bazel_doctor.py`). When splicing the host block is idempotent, and what the
  shell tokenizer makes of an rc file after the credential is set.
- **Acceptance and hermeticity** (`scripts/bazel_accept_proofs.py`, `scripts/accept_shard.py`,
  `scripts/accept_floor.py`, `scripts/bazel_hermeticity_proofs.py`). Overlapping windows, shard
  slices and their totals, and event streams read in two halves.

Each reader is specified by functions, and what those functions mean is proved apart from them, with
the prefixes, names, tags and statuses spelled out again (`GuardMeaning`, `SuiteMeaning`,
`EvaluatorValues`, `ImportNames`, `BuildLines`, `BuildMeaning`, `LogMeaning`, `RunMeaning`, and lemmas
named "in words" elsewhere).

`dafny verify dfyconfig.toml` checks everything. Objects the scripts update in place are classes
(`InputClosure.Search`, `EvaluatorObject.Evaluator`). Loops are methods, proved against
specification functions or predicates. Everything else is functions and lemmas.

## Where the code does not do what is said of it

- `bazel_tag_guard.py:1283` accepts a directory as declared when a closure label is spelled like it,
  without looking at the files below. A guard with every clause silent can then serve a stale verdict
  (`SuiteGuard.SilentGuardCanBeStaleInFull`). Every silent guard with a cached target can come to this,
  by the label of the binary it must declare (`SuiteGuard.EverySilentGuardGrows`).
- `bazel_tag_guard.py:1238` drops a module's own file from its derived reads, and no clause asks a
  target to declare it. A silent guard with a cached target that does not declare it serves a stale
  verdict once the module is edited (`CacheRuns.UndeclaredModuleIsStale`).
  `SuiteGuard.NoStaleGreenInFull` gives the exact condition for both.
- A comment calls the round loop bounded by the binding count. Its productive rounds are, but its
  cap is the constant 64: a chain of 65 aliases in reverse order leaves the last one unbound
  (`EvaluatorResults.CapIsSharp`).
- `_call` on a bare `joinpath()` raises an `AttributeError` (`EvaluatorErrors.BareJoinpathRaises`).
  `EvaluatorErrors.RaisesIffBare` says exactly which expressions raise.
- `listed` in `check_tags` takes the stem of each uncached name, so a name with a slash or another
  suffix lists another target (`TagGuard.NamesThatListAnother`). `TagGuard.StemLookupIff` says exactly
  when the lookup is right.
- `derive_label_map` raises an `IndexError` exactly when a live `@crates//` label has no colon
  (`LabelMap.DeriveLabelMap`).
- A failure block's body does not change the case list, but a summary line in it is counted
  (`LogAgreement.BlockBodyEffect` says exactly when the counts move).
- `splice_block` says that it is idempotent by construction. It is so exactly for a text with no
  marker or whose first END follows its first BEGIN (`HostBlock.IdempotentIff`). With a BEGIN alone
  the second splice deletes text. With an END first every splice adds a block.
- `set_reader_credential` keeps its own earlier comments, so each application adds at least three
  lines (`ReaderCredential.CommentsAccumulate`). The tokens stay the same unless the user name holds
  line ends that leave live lines (`ReaderCredential.SecondApplicationIff`). A line that spells the
  flag only through quoting survives (`ReaderCredential.QuotedFlagIsHidden`);
  `ReaderCredential.OneHeaderIff` is the exact condition for one header.
- `timeline_overlaps` counts neighbours. A window that ends before it starts can be disjoint from
  its neighbour and still be counted (`Timeline.BackwardWindowCounts`). `Timeline.ZeroIff` is exact for
  all rows.
- `resolve` says that an empty value counts as unset. That holds for the environment; an empty flag
  is refused (`Shards.EmptyFlagIsRefused`). `Shards.EmptyAsUnsetIff` says when it makes no difference.
- A comment in `read_run` says that every stream must carry the all-actions flag. A stream that records
  no command line is reported alone and not beside a flagged one; likewise a truncated stream is hidden
  by a finished one in the same file (`HermeticRun.ConcatFindings`).

## Model

| member | source | states |
|---|---|---|
| CacheRuns.NoStaleGreen | scripts/bazel_tag_guard.py:1283-1346 | over every trace of edits, runs and reuses, and every suite that reads only its own module and files at or under its derived paths, a silent guard serves only fresh verdicts if and only if no cached target has a derived directory shadowed by a closure label and each declares its own module |
| CacheRuns.NeverStaleIff | scripts/bazel_tag_guard.py:1283-1346 | silent or not, and whatever files each target may read, no trace of any such suite serves a stale verdict exactly when every cached target has all of them in its closure |
| CacheRuns.UndeclaredModuleIsStale | scripts/bazel_tag_guard.py:1188-1243 | a silent guard with a cached target whose own module is tracked and not in its closure serves a stale verdict |
| ShadowedRuns.SilentGuardCanBeStale | scripts/bazel_tag_guard.py:1283-1304 | the condition is needed: any silent configuration with a cached target and a closure label spelled like a directory can come to walk that directory, with no finding of these clauses and the same rules, and then serves a stale verdict |
| SuiteGuard.NoStaleGreenInFull | scripts/bazel_tag_guard.py:1508-1676 | the same equivalence with every clause of `check_tags` silent, for suites that also read the binary, the compose file and the anchor, the hand-declared and implied reads, all that those are built from, every module if theirs sweeps, and anything if a hint went unreviewed |
| SuiteGuard.SilentGuardCanBeStaleInFull | scripts/bazel_tag_guard.py:1508-1676 | and the same growth with every clause silent before and after, for a directory that is no source file and opens no new directory under `test/` |
| SuiteGuard.EverySilentGuardGrows | scripts/bazel_tag_guard.py:1508-1676 | every silent guard with a cached target, no derived path at or above `crates/ocx_cli/ocx` and no source file of that name has such a growth, through the binary label clause one demands |
| PlainGuards.PlainIsSilent | scripts/bazel_tag_guard.py:1349-1505 | silent guards with any number of cached targets, for any tables: targets that declare what is needed of them, one for each hand entry, of inputs that are no rules, beside a group that meets its demands, raise nothing |
| ImportCoverage.ImportsAreInputs | scripts/bazel_tag_guard.py:1188-1243 | with the derived paths those of the suite, on a silent guard a cached target's closure holds every tracked file its module reaches by import |
| ImportCoverage.ImportEditMovesKey | scripts/bazel_tag_guard.py:1188-1243 | so an edit of an imported file moves the cache key of every cached target whose module reaches it |
| ImportCoverage.UndeclaredImportIsExternal | scripts/bazel_tag_guard.py:1307-1346 | an imported tracked file outside the closure makes the target carry `external` |
| CacheRuns.SilentCoveredIff | scripts/bazel_tag_guard.py:1283-1346 | under a silent guard a cached target's own and derived reads lie in its closure exactly when no derived directory is shadowed and its own module is declared |
| CacheRuns.CoveredIsFresh | scripts/bazel_tag_guard.py:1283-1346 | along any trace, when every cached target is covered, each verdict served equals the one a fresh run would give |
| CacheRuns.UncoveredIsStale | scripts/bazel_tag_guard.py:1283-1346 | one uncovered cached target is enough for a trace and a suite that serve a stale verdict |
| TagGuard.CacheFindings | scripts/bazel_tag_guard.py:1596-1676 | the findings of the uncached, acceptance-tag, floor, sandbox and stamp clauses are exactly the raised ones, both ways |
| SuiteGuard.CheckTags | scripts/bazel_tag_guard.py:1508-1676 | the findings of every clause, the stage, sweep, shared-group and hand-declared ones included, are exactly the raised ones |
| SuiteMeaning.GuardRaisedInWords | scripts/bazel_tag_guard.py:1508-1676 | when each finding of every clause is raised, on records, tables and literals alone: the sweep, group and hand clauses with the hints and the moved-out directories spelled out |
| GuardMeaning.RaisedInWords | scripts/bazel_tag_guard.py:1307-1676 | when each finding of the caching clauses is raised, in words: targets, modules, tags, labels and the paths they spell, and which reads are accounted for |
| GuardMeaning.SilentReadsAccounted | scripts/bazel_tag_guard.py:1283-1304 | on a silent guard every path derived for a target that is not `external` is held by it, has tracked files beneath it and all are held, or lies under `test/` with none |
| GuardMeaning.UntrackedReadIsReported | scripts/bazel_tag_guard.py:1297-1304 | a read of an untracked path outside `test/` that the target does not hold is reported, unless its module is uncached by name |
| GuardMeaning.GeneratedReadsPass | scripts/bazel_tag_guard.py:1297-1304 | a target that reads nothing but untracked paths under `test/` is not reported |
| SuiteGuard.SweepFindings | scripts/bazel_tag_guard.py:823-847 | an acceptance target is reported exactly when its module sweeps its siblings |
| SuiteGuard.GroupFindings | scripts/bazel_tag_guard.py:1457-1505 | the shared group is absent, or each demand on its files, directories and size is reported with exactly what is missing |
| SuiteGuard.HandFindings | scripts/bazel_tag_guard.py:1417-1454 | unknown entries, hinted modules without one, and undeclared hand or implied reads, each exactly |
| TagGuard.ModuleFindings | scripts/bazel_tag_guard.py:1307-1346 | one module's findings: unread, unlisted, rotten or untagged, each exactly when raised |
| TagGuard.AcceptanceTagFindings | scripts/bazel_tag_guard.py:1603-1625 | an acceptance target is reported exactly when it carries `exclusive`, a suppressing tag, or `external` without being listed |
| TagGuard.SandboxFindings | scripts/bazel_tag_guard.py:1650-1676 | each no-sandbox target that is not excluded gets its red and the one finding naming its remedy |
| TagGuard.StampFindings | scripts/bazel_gate_proofs.py:697-698 | a rust binary is reported exactly when it is neither excluded nor excused |
| TagGuard.ExternalExactlyWhereUndeclared | scripts/bazel_tag_guard.py:1307-1346 | on a silent guard `external` is carried exactly where the module is listed, and that exactly where some read is undeclared |
| TagGuard.SilentClauseOne | scripts/bazel_gate_proofs.py:694-695 | on a silent guard a no-sandbox test is uncached or an acceptance target whose closure holds the three declared inputs, and a build action is off the remote cache |
| TagGuard.StemLookupIff | scripts/bazel_tag_guard.py:1603 | a name lists its own module through its stem exactly when it has no slash, ends in `.py` and is longer than that |
| GuardMeaning.PathNameIs | scripts/bazel_tag_guard.py:1570-1572 | the file name of an entry: what follows its last slash, a slash or dot after it not counting |
| GuardMeaning.StemIs | scripts/bazel_tag_guard.py:1603 | its stem: what is before the last dot, unless that is its first or last character |
| TagGuard.NamesThatListAnother | scripts/bazel_tag_guard.py:1603 | two names that list another's target: one with a slash, one with another suffix |
| InputClosure.Search.Reach | scripts/bazel_tag_guard.py:662-678 | the memoised search raises exactly when the rule is on a cycle or reaches one; otherwise it returns exactly what the rule reaches and keeps every finished row exact |
| InputClosure.SearchAll | scripts/bazel_tag_guard.py:680-683 | the search gives up exactly when some rule is, through the records, built from itself, and is exact otherwise |
| InputClosure.Walk | scripts/bazel_tag_guard.py:687-698 | the queue walk ends and collects exactly what one or more input edges reach, cycles included |
| InputClosure.InputClosure | scripts/bazel_tag_guard.py:644-698 | every record list maps each of its labels to exactly the labels it is built from, cyclic or not |
| InputClosure.ReachIsBuiltFrom | scripts/bazel_tag_guard.py:659-698 | reaching in the rule graph is being built from, on the records alone: a chain of labels, each among the inputs of the last record of the one before |
| Reachability.ClosedContainsReach | scripts/bazel_tag_guard.py:644-698 | reachability is the least set holding the first edges and closed under edges |
| PathEvaluator.EvalMonotone | scripts/bazel_tag_guard.py:998-1067 | binding more keys never stops an expression evaluating, and whether it does depends only on which keys are bound |
| EvaluatorErrors.RaisesIffBare | scripts/bazel_tag_guard.py:1053-1056 | evaluating raises exactly when the operand evaluated first is a call of the bare name `joinpath` that no bound function has |
| EvaluatorErrors.BareJoinpathRaises | scripts/bazel_tag_guard.py:1053-1056 | the bare call itself, whatever its arguments |
| PathEvaluator.RoundExtends | scripts/bazel_tag_guard.py:957-988 | a round overwrites no bound name or function, binds only the binders' keys, and binds nothing only when nothing is left |
| BindingLoop.ProductiveRound | scripts/bazel_tag_guard.py:957-988 | every productive round binds a key that was unbound |
| BindingLoop.RunIsShort | scripts/bazel_tag_guard.py:945-951 | a run of productive rounds is no longer than the keys it started without |
| BindingLoop.CapReachesFixpoint | scripts/bazel_tag_guard.py:945-951 | with no more unbound keys than the cap, the capped loop ends at a true fixpoint |
| BindingLoop.RunExtends | scripts/bazel_tag_guard.py:957-988 | the whole loop never overwrites a binding |
| BindingOrder.SettledRunIsBelow | scripts/bazel_tag_guard.py:957-988 | a run of any length binds no key that some settled environment above its start lacks, so one that settles ends with the fewest |
| BindingOrder.BindingOrderIrrelevant | scripts/bazel_tag_guard.py:911-988 | any two orders of the same binders, from starts with the same keys, end with the same bound keys and the same evaluating expressions whenever both settle |
| EvaluatorResults.CapIsSharp | scripts/bazel_tag_guard.py:945-951 | every capped loop over a chain of aliases settles exactly when the chain is no longer than the cap |
| EvaluatorResults.ChainRuns | scripts/bazel_tag_guard.py:945-951 | there is such a loop for every chain and cap |
| EvaluatorResults.ShadowingMovesAValue | scripts/bazel_tag_guard.py:953-996 | binding more keys may change a value: an inner scope bound later shadows the outer one |
| EvaluatorResults.EvalNormal | scripts/bazel_tag_guard.py:998-1067 | evaluation yields only paths of some `..` segments followed by plain ones |
| EvaluatorResults.RunNormal | scripts/bazel_tag_guard.py:957-988 | the loop keeps every bound value in that form |
| EvaluatorObject.Evaluator.Evaluate | scripts/bazel_tag_guard.py:990-996 | with or without a memo entry the answer is the unmemoised one, and the bindings do not change |
| EvaluatorObject.Evaluator.EvalNode | scripts/bazel_tag_guard.py:998-1028 | the node cases compute the specification's value while filling the memo soundly |
| EvaluatorObject.Evaluator.EvalCallNode | scripts/bazel_tag_guard.py:1030-1067 | the call cases, the raising one included, compute the specification's value |
| EvaluatorValues.SlashValue | scripts/bazel_tag_guard.py:1019-1021 | `e / "s"` adds a slash and the segment to the characters of the value of `e` |
| EvaluatorValues.UpValue | scripts/bazel_tag_guard.py:1007-1009 | `.parent` takes the last plain segment off again |
| EvaluatorValues.UpFromRoot | scripts/bazel_tag_guard.py:1007-1009 | and from the root goes up without end |
| EvaluatorValues.ParentsValue | scripts/bazel_tag_guard.py:1012-1018 | `e.parents[n]` is `.parent` taken n + 1 times, whatever `e` does |
| EvaluatorValues.PlusValue | scripts/bazel_tag_guard.py:1022-1025 | `e + "/s"` is `e / "s"`, and without the slash names nothing |
| EvaluatorValues.JoinpathValue | scripts/bazel_tag_guard.py:1053-1066 | `e.joinpath("a", "b")` is `e / "a" / "b"` |
| EvaluatorValues.JoinCallValue | scripts/bazel_tag_guard.py:1053-1066 | and so is `join(e, "a", "b")` |
| EvaluatorValues.UnknownSegment | scripts/bazel_tag_guard.py:1060-1063 | one argument that is no string literal, and nothing is joined |
| EvaluatorValues.DirnameValue | scripts/bazel_tag_guard.py:1046-1048 | `dirname(e)` is `e.parent` |
| EvaluatorValues.CwdValue | scripts/bazel_tag_guard.py:1034-1036 | `cwd()` and `getcwd()` are `test` |
| EvaluatorValues.ConstructorValue | scripts/bazel_tag_guard.py:1037-1045 | a relative literal handed to one of the six constructors or to `open` is joined onto `test`, an absolute one names nothing, anything else is what it is, except to `open` |
| EvaluatorValues.LiteralUnderTest | scripts/bazel_tag_guard.py:1037-1045 | a literal of plain segments lies under `test/`, character for character |
| EvaluatorValues.IdentityValue | scripts/bazel_tag_guard.py:1049-1052 | `e.resolve()`, `realpath(e)` and the other three are `e` |
| EvaluatorValues.BaseValues | scripts/bazel_tag_guard.py:999-1011 | `__file__`, the exported root, and a call of a bound function |
| EvaluatorValues.NameValue | scripts/bazel_tag_guard.py:1002-1006 | a name is what its innermost binding scope binds it to |
| EvaluatorValues.NothingElseEvaluates | scripts/bazel_tag_guard.py:998-1067 | no other form and no call by another name evaluates |
| EvaluatorValues.RootIdiom | scripts/bazel_tag_guard.py:1012-1018 | `Path(__file__).resolve().parents[2]` in any file two directories down is the root |
| EvaluatorObject.Evaluator.Bind | scripts/bazel_tag_guard.py:957-988 | one round updates the object to the specification's round and reports whether anything grew |
| EvaluatorValues.AssignmentBinds | scripts/bazel_tag_guard.py:961-963 | an assignment binds its value to every name among its targets that was free, in its innermost scope, and changes nothing else |
| EvaluatorValues.AnnotatedBinds | scripts/bazel_tag_guard.py:964-965 | an annotated one likewise, and a bare annotation nothing |
| EvaluatorValues.LoopBinds | scripts/bazel_tag_guard.py:966-971 | a loop over `e.parents` binds the root when `e` evaluates; any other loop nothing |
| EvaluatorValues.FunctionBinds | scripts/bazel_tag_guard.py:972-979 | a function not yet bound is bound to its first return value that evaluates |
| EvaluatorObject.Evaluator.Settle | scripts/bazel_tag_guard.py:944-951 | the loop performs a capped run and leaves an empty memo, at a fixpoint when no more keys than the cap were unbound; it raises exactly at a round that raises, after fewer rounds than the cap |
| ImportReads.ImportWalk | scripts/bazel_tag_guard.py:1229-1233 | the worklist collects exactly the module and what the seeds reach without passing through it |
| ImportReads.SegmentsRead | scripts/bazel_tag_guard.py:1151-1156 | the segments a module is imported by are those its path joins |
| ImportReads.PackageSegmentsRead | scripts/bazel_tag_guard.py:1151-1156 | an `__init__.py` is imported by its package's segments |
| ImportReads.ImportClosure | scripts/bazel_tag_guard.py:1223-1238 | the files one module is charged with are those its imports or its governing conftests reach |
| ImportReads.ReadsOf | scripts/bazel_tag_guard.py:1234-1242 | the module's own paths, the charged files, and their named paths but the bare root |
| ImportReads.NamedPathsByModule | scripts/bazel_tag_guard.py:1188-1243 | for every import graph, cycles back to the module included, each module gets its own named paths, the charged files, and their non-root named paths, and nothing else |
| ImportNames.ReadsInWords | scripts/bazel_tag_guard.py:1234-1242 | a path is among a module's reads exactly when the module names it, is charged with it, or is charged with a file that names it and it is not the root |
| ImportNames.ChargedIs | scripts/bazel_tag_guard.py:1223-1238 | the charged files on the imports alone: chains of files each importing the next, from the module or from a conftest in a directory above it |
| ImportNames.ImportsAre | scripts/bazel_tag_guard.py:1205-1221 | a file imports another exactly when one of its dotted names resolves to it, the last listed file of that name |
| ImportNames.ModuleNames | scripts/bazel_tag_guard.py:1151-1165 | the names that reach a module: from `test/`, from `test/src`, and its bare name in `test/tests`, and no others |
| ImportNames.PackageNames | scripts/bazel_tag_guard.py:1151-1165 | the same for a package |
| ImportNames.GovernsIs | scripts/bazel_tag_guard.py:1222-1228 | a conftest governs exactly the files under its own directory |
| Paths.NormalIdempotent | scripts/bazel_tag_guard.py:876-881 | normalising is idempotent on every string |
| Paths.IsNormalIffFixed | scripts/bazel_tag_guard.py:876-881 | a string is in normal shape exactly when normalising leaves it alone |
| Paths.JoinAndParentNormal | scripts/bazel_tag_guard.py:884-889 | every join and every parent is some `..` segments followed by plain ones |
| Paths.JoinAssociative | scripts/bazel_tag_guard.py:884-885 | joining segment by segment is joining the combined path, for all strings |
| Paths.ParentUndoesJoin | scripts/bazel_tag_guard.py:888-889 | the parent undoes joining a plain segment, above the root too |
| Paths.AncestorUndoesJoins | scripts/bazel_tag_guard.py:1012-1021 | the n-th ancestor undoes n plain joins |
| BuildText.ReadBuildOutput | scripts/bazel_build_drift.py:219-280 | the loop over the lines of a text computes the reading that the other results are about |
| BuildLines.HeaderIff | scripts/bazel_build_drift.py:175 | a line is a package's header exactly when it is `# `, a path to `crates/`, the package, `/BUILD.bazel:` and two numbers |
| BuildLines.OpenIff | scripts/bazel_build_drift.py:176 | a line opens a rule exactly when it is a lower-case kind and a parenthesis |
| BuildLines.CloseIff | scripts/bazel_build_drift.py:177 | only `)` closes one |
| BuildLines.NameLine | scripts/bazel_build_drift.py:179 | a name line is two blanks, `name = `, one quoted string and perhaps a comma |
| BuildLines.CrateLine | scripts/bazel_build_drift.py:180 | and a crate line the same under its key |
| BuildLines.FeaturesLine | scripts/bazel_build_drift.py:181 | a features line is any value under its key |
| BuildLines.DepsLine | scripts/bazel_build_drift.py:178 | a dependency line any value under one of its two keys |
| BuildText.TextRead | scripts/bazel_build_drift.py:219-280 | a text of complete rules reads as the merged contributions of its rules |
| BuildText.ReadIsHomomorphic | scripts/bazel_build_drift.py:228-262 | two such texts read as their readings merged: label sets united, tallies added |
| BuildText.MergedEdges | scripts/bazel_build_drift.py:273-279 | a label is in a package's set exactly when one of its rules keeps it |
| BuildText.MissingHeader | scripts/bazel_build_drift.py:228-262 | deleting one rule's header adds exactly one orphan, drops only that rule's contribution, and changes no other package's edges |
| PrintedTexts.StackedTexts | scripts/bazel_build_drift.py:228-262 | one printed text under another reads as their two readings merged |
| PrintedTexts.TextWithoutHeader | scripts/bazel_build_drift.py:228-262 | a printed text without one record's header line reads as before but for one orphan more and that record's own package, edges and row |
| BuildPrinter.RoundTrip | scripts/bazel_build_drift.py:689-711 | reading the text of any well-formed rules, line ends and all, recovers packages, tallies, both tables and every label set, minus exactly the own lib label and labels outside the two prefixes |
| BuildMeaning.RoundTripInWords | scripts/bazel_build_drift.py:219-280 | what is recovered, in words: a package's dependencies are its rules' labels that start with `@crates//` or `//crates/` and are not its own library; the tests are the rules of kind `rust_test` and `sh_test`; the two tables by the last rule of a label |
| BuildMeaning.UnopenedTellsNoRule | scripts/bazel_build_drift.py:234-261 | lines that open no rule are counted nowhere and fill no table |
| BuildPrinter.PrintClassified | scripts/bazel_build_drift.py:689-711 | every printed line is classified as the part of the rule it was printed from |
| BuildPrinter.LiteralsOfList | scripts/bazel_build_drift.py:182 | the string literals read from a printed list are the list |
| LabelMap.DeriveLabelMap | scripts/bazel_build_drift.py:595-622 | exactly the rows in words, a finding exactly for each live third-party label with neither a package nor an old row, and the index error exactly when a live `@crates//` label has no colon |
| LabelMap.RowIsInWords | scripts/bazel_build_drift.py:595-622 | the rows in words: a live third-party label with the package of what follows its first colon, or else its old row; a member whose name is not its directory |
| LabelMap.DerivedIsExact | scripts/bazel_build_drift.py:386-405 | a derived table has no stale row, and without findings no unmapped third-party label |
| LabelMap.DerivedIsFixpoint | scripts/bazel_build_drift.py:595-622 | deriving again from the derived table gives the same table |
| LabelMap.ResolveAgrees | scripts/bazel_gate_proofs.py:566-571 | with the fallback a member's label resolves to its package exactly when the directory is in the fallback's alphabet or differs from the name |
| LabelMap.BuildDrift | scripts/bazel_gate_proofs.py:574-650 | the floor and parity findings, an unmapped finding exactly for each unresolved label of some package, and a set finding exactly for each package whose resolved labels are not its Cargo dependencies |
| LabelMap.DriftFree | scripts/bazel_gate_proofs.py:574-650 | no finding exactly when enough was read, tests equal rows, every label resolves and the two graphs agree edge for edge |
| DriftGate.CheckDrift | scripts/bazel_build_drift.py:408-456 | the orphan, doctest, Cargo floor, stale-row and comparison findings are exactly the raised ones |
| DriftGate.SilentGateIff | scripts/bazel_build_drift.py:408-456 | from printed rules through text, reader and every clause: no finding exactly when enough rules were printed, tests equal rows, each doctest agrees with its library and each library has one, no table row is unused, every dependency resolves and the graph is Cargo's |
| BuildMeaning.SilentGateInWords | scripts/bazel_build_drift.py:408-456 | the same with every condition spelled out: kinds, prefixes, the fallback name, doctests and their libraries |
| BuildMeaning.FindingsInWords | scripts/bazel_build_drift.py:408-456 | when each finding is raised, on the reading, the Cargo graph and the table alone |
| TestLog.NumeralParses | scripts/bazel_test_floor.py:437-442 | reading a printed numeral gives the number |
| TestLog.FindBlocks | scripts/bazel_test_floor.py:453-457 | the block ranges are exactly the lines of the failure blocks, and each name has exactly its bodies |
| TestLog.ReadCasesByRanges | scripts/bazel_test_floor.py:446-466 | the two passes together are the one-pass reading that skips case lines inside blocks |
| LogAgreement.OnePass | scripts/bazel_test_floor.py:426-466 | both readings of a log are one left-to-right fold over its lines |
| LogMeaning.SummaryIs | scripts/bazel_test_floor.py:144-148 | a line is a summary exactly when it has these words and numbers, and with which counts |
| LogMeaning.CaseIs | scripts/bazel_test_floor.py:153 | a line is a case exactly when it is `test`, a name, the first ellipsis after it and an outcome |
| LogMeaning.BlockIs | scripts/bazel_test_floor.py:168-171 | a line opens a failure block exactly when it is a name and stdout or stderr between dashes |
| LogMeaning.InsideIs | scripts/bazel_test_floor.py:168-171 | a line lies in a block exactly when the last delimiter up to it opened one |
| LogMeaning.ReadCasesInWords | scripts/bazel_test_floor.py:446-466 | the cases, in the order of their lines: exactly the case lines outside every block, each with the texts of the blocks of its name |
| LogMeaning.CountsInWords | scripts/bazel_test_floor.py:426-443 | no counts without a summary line, else the sums over all of them |
| LogAgreement.BlockBodyEffect | scripts/bazel_test_floor.py:446-466 | a block's body never changes the case list, and changes the counts exactly when its summary lines do not sum to nothing or are the log's only ones |
| LogAgreement.ReadingsAgree | scripts/bazel_test_floor.py:700-744 | for all counts the printed log's summary and its cases agree, name by name and in order |
| LogAgreement.MangledReadsNoCase | scripts/bazel_test_floor.py:700-717 | with the separator changed the summary still reads and no case does |
| RunReader.ReadRuns | scripts/bazel_test_floor.py:351-408 | every label gets the run its share of the stream determines, and no other label has one |
| RunMeaning.RunIsInWords | scripts/bazel_test_floor.py:351-408 | the run of a label on the events alone: the result of the last highest attempt, with its last log file, and the kind of the label's last own configured event, or none |
| RunMeaning.KindInWords | scripts/bazel_test_floor.py:377-383 | that kind: of the last configured event that is no aspect's and names the label, and empty without one |
| RunReader.TriedIs | scripts/bazel_test_floor.py:375-403 | when an event is an attempt, that its log is the last one listed, and what attempt an absent or zero one is |
| RunReader.WinnerIsLastMaximal | scripts/bazel_test_floor.py:396-404 | the run kept is the last event of maximal attempt, and none is kept only when all attempts are negative |
| RunReader.IgnoredEvent | scripts/bazel_test_floor.py:368-395 | aspect, blank, undecodable, unlabelled and logless events change nothing, wherever they stand |
| RunReader.OrderIrrelevant | scripts/bazel_test_floor.py:351-408 | the result is the same under every reordering, when no label has two results of one attempt or two configured events |
| RunReader.LastAttemptWins | scripts/bazel_test_floor.py:396-404 | a result with no higher attempt before it and none as high after it is the one kept, whatever stands around it |
| RunReader.TiesDependOnOrder | scripts/bazel_test_floor.py:396-404 | of two results of one highest attempt, anywhere in a stream, the later is kept, so exchanging them exchanges the log, status and duration kept |
| JUnit.SuiteOf | scripts/bazel_test_floor.py:571-630 | one suite: the run's own cases in order and at most one stand-in, written exactly where required, with counts equal to its elements |
| JUnit.SuiteIsInWords | scripts/bazel_test_floor.py:571-630 | the suite element by element: each case under the target's name, failing with its text or skipped by how its outcome starts; the stand-in with the last forty lines; the counts as numbers of elements |
| JUnit.JUnitTree | scripts/bazel_test_floor.py:559-631 | one suite per run, in order, and a count finding exactly where the two readings differ |
| JUnit.CountFindingsAre | scripts/bazel_test_floor.py:580-592 | a count finding exactly for a summarised run whose case lines are not executed, ignored and measured together, with both numbers |
| JUnit.WriteJUnit | scripts/bazel_test_floor.py:634-654 | the root's totals count the elements of all suites, and nothing written is exactly the empty finding |
| JUnit.RedShows | scripts/bazel_test_floor.py:574-602 | a suite has a failing element exactly when the status is neither `PASSED` nor `FLAKY`, there is no summary, or a case of the log failed |
| JUnit.CountsHold | scripts/bazel_test_floor.py:584-602 | without a count finding a summarised run is written as its lines, plus one stand-in exactly when it is red without a failed case |
| JUnit.TotalsAreSums | scripts/bazel_test_floor.py:639-649 | the root's totals are the sums of the suites' own attributes |
| JUnit.NoRedVanishes | scripts/bazel_test_floor.py:559-631 | the report's failures number at least the red runs |
| JUnit.GreenReport | scripts/bazel_test_floor.py:559-631 | no failure in the report exactly when every run passed with a summary and no case failed |
| JUnit.RedIsWritten | scripts/bazel_test_floor.py:634-644 | a red run makes the report non-empty |
| JUnit.CountRuns | scripts/bazel_test_floor.py:426-443 | each run is observed with its log's counts, or found unreadable, exactly |
| StreamReport.Report | scripts/bazel_test_floor.py:657-673 | for every event stream and every set of readable logs: one suite for each libtest run and no other, failing exactly when the run did not pass, has no summary or has a failed case; the red doctests exactly; and every label whose last highest attempt did not pass is shown by one or the other |
| StreamReport.SplitDocTests | scripts/bazel_test_floor.py:512-515 | the stream's runs split by the kind Bazel reports, each libtest run once with its log |
| JUnit.PrintedRunsAgree | scripts/bazel_test_floor.py:559-592 | over any runs whose logs the fixture printer wrote there is no count finding and every run is observed |
| HostBlock.IdempotentIff | scripts/bazel_doctor.py:406-417 | splicing a block is idempotent exactly for a text with neither marker or whose first END follows its first BEGIN |
| HostBlock.LaterBlockWins | scripts/bazel_doctor.py:406-417 | on those texts a later splice leaves no trace of an earlier one, whatever the two blocks |
| HostBlock.UnclosedLosesText | scripts/bazel_doctor.py:406-417 | a BEGIN without an END: the second splice deletes everything from that BEGIN on |
| HostBlock.StrayEndGrows | scripts/bazel_doctor.py:406-417 | an END first: every splice adds one more block, for ever |
| HostBlock.KeepsOutside | scripts/bazel_doctor.py:406-417 | the text outside the replaced region is kept character for character; the region runs from the first BEGIN to the first END and its line end; an appended block follows exactly one empty line |
| HostBlock.RenderedIsBlock | scripts/bazel_doctor.py:381-403 | what `host_block` renders is a block unless its settings spell the END marker |
| HostBlock.OcxMarkers | scripts/bazel_doctor.py:120-121 | the two markers are ones the results apply to: one `#`, at the start, and no line end |
| RcTokens.RcLines | scripts/bazel_doctor.py:180-202 | the live lines' tokens in order, each with its own line number, lines ended as `splitlines` ends them |
| RcTokens.LineTokensIs | scripts/bazel_doctor.py:189-201 | a line gives tokens exactly when, stripped, it is not empty, is no comment and has a command word: the words after it |
| RcTokens.PlainWords | scripts/bazel_doctor.py:193-194 | a word without separators, quotation marks and backslashes is one token, and each of the four separators ends it |
| RcTokens.StripIs | scripts/bazel_doctor.py:190 | stripping takes blanks off both ends and leaves none there |
| RcTokens.FallbackWords | scripts/bazel_doctor.py:195-198 | the fallback: the words between blanks |
| RcTokens.QuotingRoundTrip | scripts/bazel_doctor.py:193-194 | any text in double quotes, its quotes and backslashes escaped, is one token: the text |
| RcTokens.EscapingRoundTrip | scripts/bazel_doctor.py:193-194 | so is any non-empty text with every character escaped |
| RcTokens.SingleQuotesKeep | scripts/bazel_doctor.py:193-194 | single quotes keep everything but themselves |
| RcTokens.OtherEscapesStay | scripts/bazel_doctor.py:193-194 | in double quotes a backslash before any other character stays |
| RcTokens.UnquotedTokens | scripts/bazel_doctor.py:193-198 | a line without quotes or backslashes tokenizes, and every token is a part of it |
| RcTokens.WordsOccur | scripts/bazel_doctor.py:195-198 | the fallback's words are parts of the line |
| RcHeaders.SplitHeaderLines | scripts/bazel_doctor.py:228-247 | good lines are those ending in a header token, broken ones each line once per header token before its end, both in order |
| RcHeaders.BrokenAre | scripts/bazel_doctor.py:228-247 | a line is reported broken exactly when a header token of it is followed by another token |
| RcHeaders.GoodAre | scripts/bazel_doctor.py:228-247 | a line is well formed exactly when its last token is a header |
| RcHeaders.PairInIs | scripts/bazel_doctor.py:250-257 | a token gives a pair exactly when it is the flag, a name, a sign and a value, neither empty |
| RcHeaders.HeaderPairIs | scripts/bazel_doctor.py:250-257 | the pair of a line is that of the first token that gives one |
| ReaderCredential.CredentialTokens | scripts/bazel_doctor.py:619-623 | the credential line is one command word and one header token |
| ReaderCredential.CredentialPair | scripts/bazel_doctor.py:250-257 | that token is whole and carries the intended pair |
| ReaderCredential.TokensAfter | scripts/bazel_doctor.py:626-643 | tokenized, the new file is the tokens of every kept live line, in order, those of the live lines a user name with line ends adds, and the credential's |
| ReaderCredential.WhatIsWritten | scripts/bazel_doctor.py:626-643 | the new text: the kept lines without the line ends after the last, an empty line, the two comments and the quoted credential |
| ReaderCredential.KeepsIs | scripts/bazel_doctor.py:632-636 | a line is dropped exactly when it mentions the flag outside a comment |
| ReaderCredential.OneLineUser | scripts/bazel_doctor.py:637-641 | a user name on one line adds none |
| ReaderCredential.SecondApplicationIff | scripts/bazel_doctor.py:626-643 | a second application gives the same token lists exactly when the realm comment keeps no live line, as for every user name on one line |
| ReaderCredential.CommentsAccumulate | scripts/bazel_doctor.py:626-643 | the text is not the same: what was kept of the first result, then the blank line, comments and credential again, at least three lines more |
| ReaderCredential.OneHeaderIff | scripts/bazel_doctor.py:626-643 | exactly one header, whole, and none split, exactly when no line spelt the flag only through quoting and the user name adds no header |
| ReaderCredential.PlainLinesHideNothing | scripts/bazel_doctor.py:193-198 | a line without quotes or backslashes, or that the tokenizer rejects, hides no flag |
| ReaderCredential.QuotedFlagIsHidden | scripts/bazel_doctor.py:632-636 | a concrete line that is kept and read as a header |
| RcHeaders.RcFlag | scripts/bazel_doctor.py:205-219 | the value the last token of that name gives, across all lines |
| RcHeaders.LastValueIs | scripts/bazel_doctor.py:205-219 | that value in words: nothing after the bare flag, else what follows the sign |
| ReaderCredential.CredentialIsLast | scripts/bazel_doctor.py:205-219 | the credential is the value in force, even where a hidden spelling survives |
| Timeline.TimelineOverlaps | scripts/bazel_accept_proofs.py:1485-1509 | the rows are exactly the names with a last start and a last end logged, sorted, none twice; the count is the number of rows that end after the next starts, is zero exactly when all are pairwise disjoint with no inverted neighbours, and is at most the overlapping pairs and inversions |
| Timeline.InsertSorts | scripts/bazel_accept_proofs.py:1503-1507 | insertion keeps rows sorted by start, end and name |
| Timeline.LeAntisymmetric | scripts/bazel_accept_proofs.py:1503-1507 | no two different rows are level, so the sorted order is one |
| Timeline.ZeroIff | scripts/bazel_accept_proofs.py:1508 | for all sorted rows the count is zero exactly when all are pairwise disjoint and no neighbours are inverted |
| Timeline.ZeroIffDisjoint | scripts/bazel_accept_proofs.py:1508 | for windows that go forward: zero exactly when pairwise disjoint |
| Timeline.NoNeighboursNoPairs | scripts/bazel_accept_proofs.py:1508 | one direction needs no assumption: every row ends before any later one starts |
| Timeline.CountBelowPairs | scripts/bazel_accept_proofs.py:1508 | the count never exceeds the overlapping pairs and the inversions together |
| Timeline.BackwardWindowCounts | scripts/bazel_accept_proofs.py:1508 | an inverted pair is disjoint and counted, and needs a window that ends before it starts |
| HermeticRun.ReadRun | scripts/bazel_hermeticity_proofs.py:397-490 | the loop computes the tally's reading and findings, and the reading is of the lines: labels, runner sums, and the number of invocations, at least one |
| HermeticRun.RunnersAre | scripts/bazel_hermeticity_proofs.py:455-466 | a runner is there exactly when a row counts for it, with the sum of all such rows |
| HermeticRun.OtherFindingsIff | scripts/bazel_hermeticity_proofs.py:474-490 | truncated exactly without a finishing event, malformed exactly with a line that does not decode, an unlabelled action or a count that does not parse, empty exactly without a completed target |
| HermeticRun.TallyConcat | scripts/bazel_hermeticity_proofs.py:397-490 | two streams in one file read as each read alone and merged: sets united, runner counts added pointwise |
| HermeticRun.SetsAre | scripts/bazel_hermeticity_proofs.py:437-458 | invalidated, universe and ids are exactly what some event names |
| HermeticRun.AllActionsIff | scripts/bazel_hermeticity_proofs.py:480-485 | the finding is absent exactly when a command line is recorded and every recorded one carries the flag |
| HermeticRun.ConcatFindings | scripts/bazel_hermeticity_proofs.py:474-490 | what a second stream does to each finding, both ways; a stream without a command line loses its all-actions finding beside one that has none |
| HermeticRun.HitsAdd | scripts/bazel_hermeticity_proofs.py:370-394 | cache hits add over two streams, and the work really ran exactly when it did in both |
| HermeticRun.DiskCacheHits | scripts/bazel_hermeticity_proofs.py:389-394 | the sum over the runners that are cache hits |
| HermeticRun.CacheHitIs | scripts/bazel_hermeticity_proofs.py:385-386 | a runner is a cache hit exactly when its name spells `cache hit` in letters of either case |
| Shards.Resolve | scripts/accept_shard.py:38-60 | which slice is accepted for the flags or else the environment, and exactly when each refusal is given |
| Shards.AskedIs | scripts/accept_shard.py:44-47 | what is asked for: the flags if there is one, else `TEST_TOTAL_SHARDS` and `TEST_SHARD_INDEX` where not empty |
| Shards.EmptyFlagIsRefused | scripts/accept_shard.py:38-56 | an empty flag is refused, alone as not together and beside another as no integer, whatever the environment |
| Shards.EmptyAsUnsetIff | scripts/accept_shard.py:38-60 | exactly when counting an empty flag as unset would give the same answer |
| Shards.SelectAt | scripts/accept_shard.py:63-64 | element k of a slice is element index plus k times count of the list |
| Shards.SlicesPartition | scripts/accept_shard.py:63-64 | the slices together are the module list, each module once |
| Shards.SliceSize | scripts/accept_shard.py:63-64 | a slice's exact size |
| Shards.SlicesAreEven | scripts/accept_shard.py:63-64 | sizes differ by at most one, and a slice is empty exactly when its index is past the modules |
| Shards.SliceKeepsOrder | scripts/accept_shard.py:63-64 | a slice keeps the order of the list |
| AcceptFloor.Judge | scripts/accept_floor.py:26-82 | which verdict is given when, green exactly when the directory passes, with exactly the missing names, the totals, and exactly the problems |
| AcceptFloor.MissingShards | scripts/accept_floor.py:33-38 | exactly the expected names with no report |
| AcceptFloor.ShardTotals | scripts/accept_floor.py:43-53 | case, skip, xfail and failure totals over all shard reports are those of the whole suite |
| AcceptFloor.TotalsCount | scripts/accept_floor.py:43-53 | the totals are the numbers of cases, of cases with a failure or error, and of marks that are and are not expected failures |
| AcceptFloor.PassesInWords | scripts/accept_floor.py:26-82 | green in words, limit by limit |
| AcceptFloor.ShardNamesDiffer | scripts/accept_floor.py:34 | no two shards share a report name |
| AcceptFloor.ShardedVerdict | scripts/accept_floor.py:26-82 | judging the merged shards is judging the one unsharded report |

## Left out

- Subprocesses, queries, file reads, git and the network: their results are parameters.
- JSON, TOML, XML, regular expressions, base64 and float parsing: events, lines and numbers come decoded; a log line is its pieces between single spaces.
- `named_repo_paths`, `sweeping_globs` and the scope table of the evaluator: walks over Python syntax; scopes, binders, sweepers and string literals are given.
- The counts and names the gates are held to (`STAGE_FLOORS`, `SUITE_INPUTS_FLOOR`, `HAND_DECLARED_READS` and the like): parameters.
- `floor_findings`, `ceiling_findings` and the target count of `doctest_findings`: single comparisons.
- The label order of `read_runs`, of the report's suites and of findings: results are maps, sets or in the order the loop meets them.
- StreamReport.Report: stops at the report; the early return of `run_check` on a stream without libtest runs, and its printing, are not modelled.
- JUnit.CountRuns: takes runs with distinct names, as the keys of the stream reader's map are.
- Message wording: a finding is its code and subject, a comment its first words.
- Escaping in the report: `_xml_text` is the identity here.
- The `prove_*` fixtures, apart from the printers `_rule` and `_log`.
- The smaller gates (pins, budgets, ceilings, matrices) and the Rust and TypeScript sources.

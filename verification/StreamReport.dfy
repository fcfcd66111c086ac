/** From the build event stream to the report: every red attempt the stream ends on is shown, as
    a suite with a failing element or, for a doctest target, as a finding of its own. */
module StreamReport {
  import opened Text
  import opened TestLog
  import opened JUnit
  import opened RunReader
  import opened RunMeaning

  const DOC_TEST_KIND := "rust_doc_test rule"

  /** The logs that can be read, by where the stream says they lie. */
  type Files = map<string, seq<Line>>

  /** `_read_log`: what cannot be read is empty. */
  function ReadLog(files: Files, log: string): seq<Line> { if log in files then files[log] else [] }

  function TargetOf(files: Files, name: string, run: Run): Target {
    Target(name, run.status, run.seconds, ReadLog(files, run.log))
  }

  /** Bazel called the run's target a doctest. */
  predicate IsDoc(run: Run) { run.kind == "rust_doc_test rule" }

  predicate Passed(status: string) { status == "PASSED" || status == "FLAKY" }

  /** A libtest run the report must not show as passing: by its status, by a log without a
      summary, which one that cannot be read is, or by a failed case. */
  predicate MustFail(files: Files, run: Run) {
    || !Passed(run.status) || run.log !in files || CountResults(files[run.log]).None?
    || exists c :: c in ReadCases(files[run.log]) && c.Failed()
  }

  lemma MustFailIs(files: Files, name: string, run: Run)
    ensures MustFail(files, run) <==> !Green(TargetOf(files, name, run), CountResults(ReadLog(files, run.log)))
  {
    SomeFailed(ReadCases(ReadLog(files, run.log)));
    EmptyLog();
  }

  lemma EmptyLog()
    ensures CountResults([]).None?
  {
  }

  /** `split_doc_tests`: the runs libtest is read from, in some order, and the doctest runs. */
  method SplitDocTests(runs: map<string, Run>, files: Files) returns (targets: seq<Target>, docs: map<string, Run>)
    ensures docs == map name | name in runs && runs[name].kind == DOC_TEST_KIND :: runs[name]
    ensures DistinctNames(targets)
    ensures forall t :: t in targets <==> IsTarget(runs, files, t)
  {
    docs := map name | name in runs && runs[name].kind == DOC_TEST_KIND :: runs[name];
    targets := [];
    var rest := runs.Keys - docs.Keys;
    while rest != {}
      invariant rest <= runs.Keys - docs.Keys && DistinctNames(targets)
      invariant forall t :: t in targets <==> IsTarget(runs, files, t) && t.name !in rest
      decreases rest
    {
      var name :| name in rest;
      var next := TargetOf(files, name, runs[name]);
      assert forall k :: 0 <= k < |targets| ==> targets[k] in targets;
      rest := rest - {name};
      targets := targets + [next];
    }
  }

  predicate IsTarget(runs: map<string, Run>, files: Files, t: Target) {
    t.name in runs && runs[t.name].kind != DOC_TEST_KIND && t == TargetOf(files, t.name, runs[t.name])
  }

  /** The red half of `doctest_findings`. */
  method RedDocTests(docs: map<string, Run>) returns (red: seq<string>)
    ensures forall name :: name in red <==> name in docs && !Passing(docs[name].status)
  {
    red := [];
    var rest := docs.Keys;
    while rest != {}
      invariant rest <= docs.Keys
      invariant forall name :: name in red <==> name in docs && name !in rest && !Passing(docs[name].status)
      decreases rest
    {
      var name :| name in rest;
      rest := rest - {name};
      if !Passing(docs[name].status) { red := red + [name]; }
    }
  }

  // ---- suites and runs -------------------------------------------------------------------------------

  lemma {:induction false} SuiteAt(targets: seq<Target>, observed: map<string, Counts>, suites: seq<Suite>, k: nat)
    requires SuitesFor(targets, observed, suites) && k < |targets|
    ensures SuiteFor(targets[k], Look(observed, targets[k].name), suites[k])
    decreases |targets|
  {
    if k < |targets| - 1 { SuiteAt(targets[..|targets| - 1], observed, suites[..|targets| - 1], k); }
  }

  /** Some suite of that name is there, and whether it shows a failure. */
  ghost predicate Shows(suites: seq<Suite>, name: string, failing: bool) {
    exists k :: 0 <= k < |suites| && suites[k].name == name && (suites[k].failures > 0 <==> failing)
  }

  lemma TargetShows(targets: seq<Target>, observed: map<string, Counts>, suites: seq<Suite>, k: nat)
    requires SuitesFor(targets, observed, suites) && Observes(targets, observed) && k < |targets|
    ensures suites[k].name == targets[k].name
    ensures suites[k].failures > 0 <==> !Green(targets[k], CountResults(targets[k].log))
  {
    SuiteAt(targets, observed, suites, k);
    assert targets[k] in targets;
    RedShows(targets[k], Look(observed, targets[k].name), suites[k]);
  }

  /** A run that must fail makes the report non-empty. */
  lemma {:induction false} FailingIsWritten(suites: seq<Suite>, k: nat)
    requires k < |suites| && suites[k].failures > 0
    requires forall j :: 0 <= j < |suites| ==> suites[j].failures <= |suites[j].elements|
    ensures Tests(suites) > 0
    decreases |suites|
  {
    if k < |suites| - 1 { FailingIsWritten(suites[..|suites| - 1], k); }
  }

  lemma {:induction false} MarkedAtMost(elements: seq<Element>, mark: Mark)
    ensures Marked(elements, mark) <= |elements|
  {
    if elements != [] { MarkedAtMost(elements[..|elements| - 1], mark); }
  }

  lemma ReportHasSuites(targets: seq<Target>, observed: map<string, Counts>, suites: seq<Suite>, k: nat)
    requires SuitesFor(targets, observed, suites) && Observes(targets, observed) && k < |targets|
    requires !Green(targets[k], CountResults(targets[k].log))
    ensures Tests(suites) > 0
  {
    TargetShows(targets, observed, suites, k);
    forall j | 0 <= j < |suites| ensures suites[j].failures <= |suites[j].elements| {
      SuiteAt(targets, observed, suites, j);
      MarkedAtMost(suites[j].elements, Fails);
    }
    FailingIsWritten(suites, k);
  }

  /** The suites are those of the libtest runs, each failing exactly when its run must. */
  ghost predicate Reported(events: seq<Event>, files: Files, root: Option<Root>) {
    && (root.Some? ==> OneSuiteEach(root.value.suites))
    && (root.Some? ==> forall k :: 0 <= k < |root.value.suites| ==> SuiteOfRun(events, files, root.value.suites[k]))
    && forall name, run :: RunInWords(events, name, run) && !IsDoc(run) ==> RunShown(files, root, name, run)
  }

  ghost predicate OneSuiteEach(suites: seq<Suite>) {
    forall i, j :: 0 <= i < j < |suites| ==> suites[i].name != suites[j].name
  }

  ghost predicate SuiteOfRun(events: seq<Event>, files: Files, suite: Suite) {
    exists run :: RunInWords(events, suite.name, run) && !IsDoc(run) && (suite.failures > 0 <==> MustFail(files, run))
  }

  ghost predicate RunShown(files: Files, root: Option<Root>, name: string, run: Run) {
    if root.Some? then Shows(root.value.suites, name, MustFail(files, run)) else !MustFail(files, run)
  }

  /** The targets and counts of one walk. */
  ghost predicate Walked(events: seq<Event>, files: Files, runs: map<string, Run>, targets: seq<Target>,
                         observed: map<string, Counts>)
  {
    && Reads(events, runs) && (forall t :: t in targets <==> IsTarget(runs, files, t))
    && DistinctNames(targets) && Observes(targets, observed)
  }

  lemma SuiteIsRun(events: seq<Event>, files: Files, runs: map<string, Run>, targets: seq<Target>,
                   observed: map<string, Counts>, suites: seq<Suite>, k: nat)
    requires Walked(events, files, runs, targets, observed) && SuitesFor(targets, observed, suites) && k < |suites|
    ensures SuiteOfRun(events, files, suites[k])
  {
    TargetShows(targets, observed, suites, k);
    var t := targets[k];
    assert t in targets;
    RunsInWords(events, runs, t.name, runs[t.name]);
    MustFailIs(files, t.name, runs[t.name]);
  }

  lemma RunIsTarget(events: seq<Event>, files: Files, runs: map<string, Run>, targets: seq<Target>,
                    observed: map<string, Counts>, name: string, run: Run) returns (k: nat)
    requires Walked(events, files, runs, targets, observed)
    requires RunInWords(events, name, run) && !IsDoc(run)
    ensures k < |targets| && targets[k] == TargetOf(files, name, run)
  {
    var t := TargetOf(files, name, run);
    RunsInWords(events, runs, name, run);
    assert t in targets;
    k :| 0 <= k < |targets| && targets[k] == t;
  }

  lemma RunIsShown(events: seq<Event>, files: Files, runs: map<string, Run>, targets: seq<Target>,
                   observed: map<string, Counts>, suites: seq<Suite>, root: Option<Root>, name: string, run: Run)
    requires Walked(events, files, runs, targets, observed) && SuitesFor(targets, observed, suites)
    requires if root.Some? then root.value.suites == suites else Tests(suites) == 0
    requires RunInWords(events, name, run) && !IsDoc(run)
    ensures RunShown(files, root, name, run)
  {
    var k := RunIsTarget(events, files, runs, targets, observed, name, run);
    TargetShows(targets, observed, suites, k);
    MustFailIs(files, name, run);
    if MustFail(files, run) { ReportHasSuites(targets, observed, suites, k); }
  }

  lemma AllReported(events: seq<Event>, files: Files, runs: map<string, Run>, targets: seq<Target>,
                    observed: map<string, Counts>, suites: seq<Suite>, root: Option<Root>)
    requires Walked(events, files, runs, targets, observed) && SuitesFor(targets, observed, suites)
    requires if root.Some? then root.value.suites == suites else Tests(suites) == 0
    ensures Reported(events, files, root)
  {
    forall k | 0 <= k < |suites| ensures SuiteOfRun(events, files, suites[k]) && suites[k].name == targets[k].name {
      TargetShows(targets, observed, suites, k);
      SuiteIsRun(events, files, runs, targets, observed, suites, k);
    }
    forall name, run | RunInWords(events, name, run) && !IsDoc(run) ensures RunShown(files, root, name, run) {
      RunIsShown(events, files, runs, targets, observed, suites, root, name, run);
    }
  }

  // ---- end to end ----------------------------------------------------------------------------------------

  /** The result that counts for the label did not pass. */
  ghost predicate EndsRed(events: seq<Event>, name: string) {
    exists k, t :: RunMeaning.Counts(events, name, k, t) && !Passed(t.status)
  }

  lemma EndsRedIsRun(events: seq<Event>, name: string) returns (run: Run)
    requires EndsRed(events, name)
    ensures RunInWords(events, name, run) && !Passed(run.status)
  {
    var k, t :| RunMeaning.Counts(events, name, k, t) && !Passed(t.status);
    CountingWins(events, name, k, t);
    run := RunFor(Facts(events), name).value;
    RunIsInWords(events, name, run);
  }

  ghost predicate RedDocTest(events: seq<Event>, name: string) {
    exists run :: RunInWords(events, name, run) && IsDoc(run) && !Passed(run.status)
  }

  /** The label has a failing suite, or is among the red doctests if it is one. */
  ghost predicate RedIsReported(events: seq<Event>, name: string, root: Option<Root>, red: seq<string>) {
    if KindIs(events, name, "rust_doc_test rule") then name in red
    else root.Some? && Shows(root.value.suites, name, true)
  }

  lemma AllRedReported(events: seq<Event>, files: Files, root: Option<Root>, red: seq<string>, name: string)
    requires Reported(events, files, root) && (forall n :: n in red <==> RedDocTest(events, n)) && EndsRed(events, name)
    ensures RedIsReported(events, name, root, red)
  {
    var run := EndsRedIsRun(events, name);
    KindInWords(events, name, run.kind);
    KindInWords(events, name, "rust_doc_test rule");
    if !IsDoc(run) { assert RunShown(files, root, name, run); }
  }

  /** `run_check` as far as its report: the suites are exactly the libtest runs', each failing
      exactly when it must, and no label the stream ends red on goes unreported. */
  method Report(events: seq<Event>, files: Files) returns (root: Option<Root>, red: seq<string>)
    ensures Reported(events, files, root)
    ensures forall name :: name in red <==> RedDocTest(events, name)
    ensures forall name :: EndsRed(events, name) ==> RedIsReported(events, name, root, red)
  {
    var runs := ReadRuns(events);
    var targets, docs := SplitDocTests(runs, files);
    var observed, unreadable := CountRuns(targets);
    var written, findings;
    written, root, findings := WriteJUnit(targets, observed);
    red := RedDocTests(docs);
    ghost var suites :| && SuitesFor(targets, observed, suites)
                        && if root.Some? then root.value.suites == suites else Tests(suites) == 0;
    AllReported(events, files, runs, targets, observed, suites, root);
    DocTestsOf(events, runs, docs, red);
    forall name | EndsRed(events, name) ensures RedIsReported(events, name, root, red) {
      AllRedReported(events, files, root, red, name);
    }
  }

  lemma DocTestsOf(events: seq<Event>, runs: map<string, Run>, docs: map<string, Run>, red: seq<string>)
    requires Reads(events, runs) && docs == map name | name in runs && runs[name].kind == DOC_TEST_KIND :: runs[name]
    requires forall name :: name in red <==> name in docs && !Passing(docs[name].status)
    ensures forall name :: name in red <==> RedDocTest(events, name)
  {
    forall name ensures name in red <==> RedDocTest(events, name) {
      if name in runs { RunsInWords(events, runs, name, runs[name]); }
      if RedDocTest(events, name) {
        var run :| RunInWords(events, name, run) && IsDoc(run) && !Passed(run.status);
        RunsInWords(events, runs, name, run);
      }
    }
  }
}

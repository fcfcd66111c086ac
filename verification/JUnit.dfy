/** The JUnit report: one suite per run, one element per case, and a failing element of its own
    for every red target whose log shows none. */
module JUnit {
  import opened Text
  import opened TestLog
  import opened LogAgreement

  /** One test target's run: its status, duration and log. */
  datatype Target = Target(name: string, status: string, seconds: real, log: seq<Line>)

  datatype Mark = Fails | Skips | Plain

  /** A `testcase`; a failing one carries the text of its failure. */
  datatype Element = Element(classname: string, name: string, mark: Mark, text: seq<seq<Line>>)

  datatype Suite = Suite(name: string, tests: nat, failures: nat, skipped: nat, seconds: real, elements: seq<Element>)

  datatype Root = Root(suites: seq<Suite>, tests: nat, failures: nat, skipped: nat, seconds: real)

  datatype Finding =
    | CountDiffers(target: string, written: nat, expected: nat)
    | Empty(targets: nat)
    | Unreadable(target: string)

  predicate Passing(status: string) { status == "PASSED" || status == "FLAKY" }

  const TAIL_LINES: nat := 40

  /** `_tail`: the last lines of a log. */
  function Tail40(log: seq<Line>): (tail: seq<Line>)
    ensures |tail| <= 40 && (|tail| < 40 ==> tail == log)
    ensures |tail| <= |log| && log[|log| - |tail|..] == tail
  {
    if |log| <= TAIL_LINES then log else log[|log| - TAIL_LINES..]
  }

  /** The case that stands in for a whole target. */
  function StandIn(run: Target): Case { Case(run.name, "FAILED", [Tail40(run.log)]) }

  function StandInElement(run: Target): Element { Element(run.name, run.name, Fails, [Tail40(run.log)]) }

  // ---- counting ------------------------------------------------------------------------------------

  function MarkOf(c: Case): Mark { if c.Failed() then Fails else if c.Skipped() then Skips else Plain }

  function ElementOf(name: string, c: Case): Element {
    Element(name, c.name, MarkOf(c), if c.Failed() then c.detail else [])
  }

  function Elements(name: string, cases: seq<Case>): seq<Element> {
    seq(|cases|, k requires 0 <= k < |cases| => ElementOf(name, cases[k]))
  }

  function FailedIn(cases: seq<Case>): nat {
    if cases == [] then 0 else FailedIn(cases[..|cases| - 1]) + if cases[|cases| - 1].Failed() then 1 else 0
  }

  function SkippedIn(cases: seq<Case>): nat {
    if cases == [] then 0 else SkippedIn(cases[..|cases| - 1]) + if cases[|cases| - 1].Skipped() then 1 else 0
  }

  /** Elements of a mark, as the root's `findall` counts them. */
  function Marked(elements: seq<Element>, mark: Mark): nat {
    if elements == [] then 0
    else Marked(elements[..|elements| - 1], mark) + if elements[|elements| - 1].mark == mark then 1 else 0
  }

  lemma NotBoth(c: Case)
    ensures !(c.Failed() && c.Skipped())
  {
    assert c.Failed() ==> c.outcome[0] == 'F';
    assert c.Skipped() ==> c.outcome[0] == 'i';
  }

  lemma ElementsSnoc(name: string, cases: seq<Case>, c: Case)
    ensures Elements(name, cases + [c]) == Elements(name, cases) + [ElementOf(name, c)]
  {
  }

  lemma MarkedSnoc(elements: seq<Element>, e: Element, mark: Mark)
    ensures Marked(elements + [e], mark) == Marked(elements, mark) + if e.mark == mark then 1 else 0
  {
    assert (elements + [e])[..|elements|] == elements;
  }

  /** The counts of the cases are the counts of the elements written for them. */
  lemma {:induction false} MarksCount(name: string, cases: seq<Case>)
    ensures Marked(Elements(name, cases), Fails) == FailedIn(cases)
    ensures Marked(Elements(name, cases), Skips) == SkippedIn(cases)
  {
    if cases != [] {
      var init, c := cases[..|cases| - 1], cases[|cases| - 1];
      MarksCount(name, init);
      assert cases == init + [c];
      ElementsSnoc(name, init, c);
      MarkedSnoc(Elements(name, init), ElementOf(name, c), Fails);
      MarkedSnoc(Elements(name, init), ElementOf(name, c), Skips);
      NotBoth(c);
    }
  }

  lemma {:induction false} SomeFailed(cases: seq<Case>)
    ensures FailedIn(cases) > 0 <==> exists c :: c in cases && c.Failed()
  {
    if cases != [] {
      var init, c := cases[..|cases| - 1], cases[|cases| - 1];
      SomeFailed(init);
      assert cases == init + [c];
    }
  }

  // ---- one suite -----------------------------------------------------------------------------------

  /** A run the report must show as failing. */
  predicate Red(run: Target, counts: Option<Counts>) { !Passing(run.status) || counts.None? }

  /** The suite a run must get: its own cases in order, then at most one stand-in, written
      exactly for a run without a summary and for a red run none of whose cases failed. */
  ghost predicate SuiteFor(run: Target, counts: Option<Counts>, suite: Suite) {
    && suite.name == run.name && suite.seconds == run.seconds
    && suite.tests == |suite.elements|
    && suite.failures == Marked(suite.elements, Fails) && suite.skipped == Marked(suite.elements, Skips)
    && suite.elements == Elements(run.name, ReadCases(run.log))
                         + (if counts.None? || (!Passing(run.status) && FailedIn(ReadCases(run.log)) == 0)
                            then [StandInElement(run)] else [])
  }

  /** Both readings of the log were made and disagree. */
  predicate Differs(run: Target, counts: Option<Counts>) {
    counts.Some? && |ReadCases(run.log)| != counts.value.Lines()
  }

  method SuiteOf(run: Target, counts: Option<Counts>) returns (suite: Suite, findings: seq<Finding>)
    ensures SuiteFor(run, counts, suite)
    ensures findings == CountFinding(run, counts)
  {
    findings := [];
    var cases := ReadCasesByRanges(run.log);
    var read := cases;
    if counts.None? {
      cases := cases + [StandIn(run)];
    } else if |cases| != counts.value.Lines() {
      findings := findings + [CountDiffers(run.name, |cases|, counts.value.Lines())];
    }
    if !Passing(run.status) && FailedIn(cases) == 0 {
      cases := cases + [StandIn(run)];
    }
    var elements := WriteElements(run.name, cases);
    suite := Suite(run.name, |cases|, FailedIn(cases), SkippedIn(cases), run.seconds, elements);
    MarksCount(run.name, cases);
    StandInFails(run, read);
  }

  lemma StandInFails(run: Target, cases: seq<Case>)
    ensures FailedIn(cases + [StandIn(run)]) == FailedIn(cases) + 1
    ensures Elements(run.name, cases + [StandIn(run)]) == Elements(run.name, cases) + [StandInElement(run)]
  {
    OneMoreFails(cases, StandIn(run));
    ElementsSnoc(run.name, cases, StandIn(run));
  }

  lemma OneMoreFails(cases: seq<Case>, c: Case)
    requires c.Failed()
    ensures FailedIn(cases + [c]) == FailedIn(cases) + 1
  {
    assert (cases + [c])[..|cases|] == cases;
  }

  method WriteElements(name: string, cases: seq<Case>) returns (elements: seq<Element>)
    ensures elements == Elements(name, cases)
  {
    elements := [];
    for i := 0 to |cases|
      invariant elements == Elements(name, cases[..i])
    {
      assert cases[..i + 1] == cases[..i] + [cases[i]];
      elements := elements + [ElementOf(name, cases[i])];
    }
    assert cases[..|cases|] == cases;
  }

  lemma {:induction false} MarkedConcat(a: seq<Element>, b: seq<Element>, mark: Mark)
    ensures Marked(a + b, mark) == Marked(a, mark) + Marked(b, mark)
    decreases |b|
  {
    if b == [] {
      assert a + b == a;
    } else {
      assert a + b == (a + b[..|b| - 1]) + [b[|b| - 1]];
      MarkedConcat(a, b[..|b| - 1], mark);
      MarkedSnoc(a + b[..|b| - 1], b[|b| - 1], mark);
    }
  }

  lemma OneMarked(e: Element, mark: Mark)
    ensures Marked([e], mark) == if e.mark == mark then 1 else 0
  {
    assert [e][..0] == [];
  }

  /** A red run's suite has a failing element, and any run's does exactly when the run is red
      or a case of its log failed. */
  lemma RedShows(run: Target, counts: Option<Counts>, suite: Suite)
    requires SuiteFor(run, counts, suite)
    ensures suite.failures > 0 <==> Red(run, counts) || FailedIn(ReadCases(run.log)) > 0
    ensures suite.failures > 0 <==>
              || (run.status != "PASSED" && run.status != "FLAKY") || counts.None?
              || exists c :: c in ReadCases(run.log) && "FAILED" <= c.outcome
  {
    SomeFailed(ReadCases(run.log));
    var read := Elements(run.name, ReadCases(run.log));
    MarksCount(run.name, ReadCases(run.log));
    MarkedConcat(read, [StandInElement(run)], Fails);
    OneMarked(StandInElement(run), Fails);
    assert read + [] == read;
  }

  /** One element for a case: under the target's name and its own, failing with its text,
      skipped, or neither, by how its outcome starts. */
  predicate ElementIs(e: Element, run: Target, c: Case) {
    && e.classname == run.name && e.name == c.name
    && (e.mark == Fails <==> "FAILED" <= c.outcome) && (e.mark == Skips <==> "ignored" <= c.outcome)
    && e.text == if "FAILED" <= c.outcome then c.detail else []
  }

  /** The element that stands in for a run, with the end of its log. */
  predicate IsStandIn(e: Element, run: Target) {
    && e.classname == run.name && e.name == run.name && e.mark == Fails
    && e.text == [if |run.log| <= 40 then run.log else run.log[|run.log| - 40..]]
  }

  predicate NeedsStandIn(run: Target, counts: Option<Counts>) {
    || counts.None?
    || (&& run.status != "PASSED" && run.status != "FLAKY"
        && forall c :: c in ReadCases(run.log) ==> !("FAILED" <= c.outcome))
  }

  function Marks(suite: Suite, mark: Mark): set<int> {
    set k | 0 <= k < |suite.elements| && suite.elements[k].mark == mark
  }

  /** The suite of a run, in words. */
  ghost predicate SuiteInWords(run: Target, counts: Option<Counts>, suite: Suite) {
    var cases := ReadCases(run.log);
    && suite.name == run.name && suite.seconds == run.seconds && suite.tests == |suite.elements|
    && suite.failures == |Marks(suite, Fails)| && suite.skipped == |Marks(suite, Skips)|
    && |suite.elements| == |cases| + (if NeedsStandIn(run, counts) then 1 else 0)
    && (forall k :: 0 <= k < |cases| ==> ElementIs(suite.elements[k], run, cases[k]))
    && (NeedsStandIn(run, counts) ==> IsStandIn(suite.elements[|cases|], run))
  }

  lemma {:induction false} MarkedCounted(elements: seq<Element>, mark: Mark)
    ensures Marked(elements, mark) == |set k | 0 <= k < |elements| && elements[k].mark == mark|
  {
    if elements != [] {
      var init, n := elements[..|elements| - 1], |elements| - 1;
      MarkedCounted(init, mark);
      assert (set k | 0 <= k < |elements| && elements[k].mark == mark)
          == (set k | 0 <= k < |init| && init[k].mark == mark) + if elements[n].mark == mark then {n} else {};
    }
  }

  lemma NeedsIs(run: Target, counts: Option<Counts>)
    ensures NeedsStandIn(run, counts) <==> counts.None? || (!Passing(run.status) && FailedIn(ReadCases(run.log)) == 0)
  {
    SomeFailed(ReadCases(run.log));
  }

  lemma ElementOfIs(run: Target, c: Case)
    ensures ElementIs(ElementOf(run.name, c), run, c)
  {
    NotBoth(c);
  }

  lemma StandInIs(run: Target)
    ensures IsStandIn(StandInElement(run), run)
  {
    var tail := Tail40(run.log);
    assert run.log[|run.log| - |tail|..] == tail;
  }

  /** Every suite written is the one in words. */
  lemma SuiteIsInWords(run: Target, counts: Option<Counts>, suite: Suite)
    requires SuiteFor(run, counts, suite)
    ensures SuiteInWords(run, counts, suite)
  {
    var cases := ReadCases(run.log);
    MarkedCounted(suite.elements, Fails);
    MarkedCounted(suite.elements, Skips);
    NeedsIs(run, counts);
    StandInIs(run);
    forall k | 0 <= k < |cases| ensures ElementIs(suite.elements[k], run, cases[k]) {
      ElementOfIs(run, cases[k]);
      assert suite.elements[k] == Elements(run.name, cases)[k];
    }
  }

  /** Without a finding a summarised run is written as the lines its summary implies, plus at
      most one stand-in. */
  lemma CountsHold(run: Target, counts: Option<Counts>, suite: Suite)
    requires SuiteFor(run, counts, suite) && counts.Some? && !Differs(run, counts)
    ensures suite.tests == counts.value.Lines() || suite.tests == counts.value.Lines() + 1
    ensures suite.tests == counts.value.Lines() + 1 <==> !Passing(run.status) && FailedIn(ReadCases(run.log)) == 0
  {
  }

  // ---- the whole report --------------------------------------------------------------------------------

  /** The count findings of the runs, in order. */
  function CountFindings(runs: seq<Target>, observed: map<string, Counts>): seq<Finding> {
    if runs == [] then []
    else
      var last := runs[|runs| - 1];
      CountFindings(runs[..|runs| - 1], observed) + CountFinding(last, Look(observed, last.name))
  }

  function CountFinding(run: Target, counts: Option<Counts>): seq<Finding> {
    if Differs(run, counts) then [CountDiffers(run.name, |ReadCases(run.log)|, counts.value.Lines())] else []
  }

  /** A run whose case lines are not as many as its summary implies, with both numbers. */
  ghost predicate MiscountOf(run: Target, observed: map<string, Counts>, f: Finding) {
    && run.name in observed
    && var c := observed[run.name];
    && |ReadCases(run.log)| != c.executed + c.ignored + c.measured
    && f == CountDiffers(run.name, |ReadCases(run.log)|, c.executed + c.ignored + c.measured)
  }

  lemma {:induction false} CountFindingsAre(runs: seq<Target>, observed: map<string, Counts>, f: Finding)
    ensures f in CountFindings(runs, observed) <==> exists k :: 0 <= k < |runs| && MiscountOf(runs[k], observed, f)
  {
    if runs != [] {
      var init, last := runs[..|runs| - 1], runs[|runs| - 1];
      CountFindingsAre(init, observed, f);
      assert f in CountFinding(last, Look(observed, last.name)) <==> MiscountOf(last, observed, f);
      assert forall k :: 0 <= k < |init| ==> runs[k] == init[k];
    }
  }

  /** One suite per run, in order. */
  ghost predicate SuitesFor(runs: seq<Target>, observed: map<string, Counts>, suites: seq<Suite>) {
    && |suites| == |runs|
    && (runs == [] || (SuitesFor(runs[..|runs| - 1], observed, suites[..|runs| - 1])
                       && SuiteFor(runs[|runs| - 1], Look(observed, runs[|runs| - 1].name), suites[|runs| - 1])))
  }

  lemma Snoc(runs: seq<Target>, run: Target, observed: map<string, Counts>, suites: seq<Suite>, suite: Suite)
    requires SuitesFor(runs, observed, suites) && SuiteFor(run, Look(observed, run.name), suite)
    ensures SuitesFor(runs + [run], observed, suites + [suite])
    ensures CountFindings(runs + [run], observed)
         == CountFindings(runs, observed) + CountFinding(run, Look(observed, run.name))
  {
    assert (runs + [run])[..|runs|] == runs && (suites + [suite])[..|runs|] == suites;
  }

  lemma SnocAt(runs: seq<Target>, i: nat, observed: map<string, Counts>, suites: seq<Suite>, suite: Suite)
    requires i < |runs| && SuitesFor(runs[..i], observed, suites)
    requires SuiteFor(runs[i], Look(observed, runs[i].name), suite)
    ensures SuitesFor(runs[..i + 1], observed, suites + [suite])
    ensures CountFindings(runs[..i + 1], observed)
         == CountFindings(runs[..i], observed) + CountFinding(runs[i], Look(observed, runs[i].name))
  {
    assert runs[..i + 1] == runs[..i] + [runs[i]];
    Snoc(runs[..i], runs[i], observed, suites, suite);
  }

  /** `junit_tree` */
  method JUnitTree(runs: seq<Target>, observed: map<string, Counts>)
    returns (suites: seq<Suite>, findings: seq<Finding>)
    ensures SuitesFor(runs, observed, suites) && findings == CountFindings(runs, observed)
  {
    suites, findings := [], [];
    for i := 0 to |runs|
      invariant SuitesFor(runs[..i], observed, suites) && findings == CountFindings(runs[..i], observed)
    {
      var suite, more := SuiteOf(runs[i], Look(observed, runs[i].name));
      SnocAt(runs, i, observed, suites, suite);
      suites := suites + [suite];
      findings := findings + more;
    }
    assert runs[..|runs|] == runs;
  }

  function Tests(suites: seq<Suite>): nat {
    if suites == [] then 0 else Tests(suites[..|suites| - 1]) + |suites[|suites| - 1].elements|
  }

  function MarkedAll(suites: seq<Suite>, mark: Mark): nat {
    if suites == [] then 0 else MarkedAll(suites[..|suites| - 1], mark) + Marked(suites[|suites| - 1].elements, mark)
  }

  function Seconds(runs: seq<Target>): real {
    if runs == [] then 0.0 else Seconds(runs[..|runs| - 1]) + runs[|runs| - 1].seconds
  }

  lemma TestsSnoc(suites: seq<Suite>, i: nat)
    requires i < |suites|
    ensures Tests(suites[..i + 1]) == Tests(suites[..i]) + |suites[i].elements|
  {
    assert suites[..i + 1][..i] == suites[..i];
  }

  /** `write_junit`: the root's totals, or the finding that nothing was written. */
  method WriteJUnit(runs: seq<Target>, observed: map<string, Counts>)
    returns (written: nat, root: Option<Root>, findings: seq<Finding>)
    ensures written == 0 <==> root.None?
    ensures root.None? ==> exists suites :: SuitesFor(runs, observed, suites) && Tests(suites) == 0
    ensures root.Some? ==> SuitesFor(runs, observed, root.value.suites)
    ensures root.Some? ==> root.value.tests == written == Tests(root.value.suites)
    ensures root.Some? ==> root.value.failures == MarkedAll(root.value.suites, Fails)
    ensures root.Some? ==> root.value.skipped == MarkedAll(root.value.suites, Skips)
    ensures root.Some? ==> root.value.seconds == Seconds(runs)
    ensures findings == CountFindings(runs, observed) + if root.None? then [Empty(|runs|)] else []
  {
    var suites;
    suites, findings := JUnitTree(runs, observed);
    written := 0;
    for i := 0 to |suites|
      invariant written == Tests(suites[..i])
    {
      TestsSnoc(suites, i);
      written := written + |suites[i].elements|;
    }
    assert suites[..|suites|] == suites;
    if written == 0 { return 0, None, findings + [Empty(|runs|)]; }
    root := Some(Root(suites, written, MarkedAll(suites, Fails), MarkedAll(suites, Skips), Seconds(runs)));
  }

  // ---- what the report promises ------------------------------------------------------------------------

  function SumFailures(suites: seq<Suite>): nat {
    if suites == [] then 0 else SumFailures(suites[..|suites| - 1]) + suites[|suites| - 1].failures
  }

  function SumTests(suites: seq<Suite>): nat {
    if suites == [] then 0 else SumTests(suites[..|suites| - 1]) + suites[|suites| - 1].tests
  }

  function SumSkipped(suites: seq<Suite>): nat {
    if suites == [] then 0 else SumSkipped(suites[..|suites| - 1]) + suites[|suites| - 1].skipped
  }

  /** The root's totals, counted over the elements, are the sums of the suites' own. */
  lemma {:induction false} TotalsAreSums(runs: seq<Target>, observed: map<string, Counts>, suites: seq<Suite>)
    requires SuitesFor(runs, observed, suites)
    ensures MarkedAll(suites, Fails) == SumFailures(suites) && Tests(suites) == SumTests(suites)
    ensures MarkedAll(suites, Skips) == SumSkipped(suites)
  {
    if runs != [] {
      TotalsAreSums(runs[..|runs| - 1], observed, suites[..|runs| - 1]);
    }
  }

  lemma SecondsSnoc(runs: seq<Target>, run: Target)
    ensures Seconds([]) == 0.0 && Seconds(runs + [run]) == Seconds(runs) + run.seconds
  {
    assert (runs + [run])[..|runs|] == runs;
  }

  /** How many of the runs are red. */
  function Reds(runs: seq<Target>, observed: map<string, Counts>): nat {
    if runs == [] then 0
    else
      var last := runs[|runs| - 1];
      Reds(runs[..|runs| - 1], observed) + if Red(last, Look(observed, last.name)) then 1 else 0
  }

  /** No red target vanishes: the report's failures number at least the red runs. */
  lemma {:induction false} NoRedVanishes(runs: seq<Target>, observed: map<string, Counts>, suites: seq<Suite>)
    requires SuitesFor(runs, observed, suites)
    ensures SumFailures(suites) >= Reds(runs, observed)
  {
    if runs != [] {
      NoRedVanishes(runs[..|runs| - 1], observed, suites[..|runs| - 1]);
      var last := runs[|runs| - 1];
      RedShows(last, Look(observed, last.name), suites[|runs| - 1]);
    }
  }

  function RedOnes(runs: seq<Target>, observed: map<string, Counts>): set<int> {
    set k | 0 <= k < |runs| && Red(runs[k], Look(observed, runs[k].name))
  }

  lemma {:induction false} RedsCounted(runs: seq<Target>, observed: map<string, Counts>)
    ensures Reds(runs, observed) == |RedOnes(runs, observed)|
  {
    if runs != [] {
      var init, n := runs[..|runs| - 1], |runs| - 1;
      RedsCounted(init, observed);
      var last := if Red(runs[n], Look(observed, runs[n].name)) then {n} else {};
      assert RedOnes(runs, observed) == RedOnes(init, observed) + last;
    }
  }

  /** The report shows no failure exactly when every run passed with a summary and no case
      line says otherwise. */
  lemma {:induction false} GreenReport(runs: seq<Target>, observed: map<string, Counts>, suites: seq<Suite>)
    requires SuitesFor(runs, observed, suites)
    ensures SumFailures(suites) == 0 <==> AllGreen(runs, observed)
  {
    if runs != [] {
      GreenReport(runs[..|runs| - 1], observed, suites[..|runs| - 1]);
      var last := runs[|runs| - 1];
      RedShows(last, Look(observed, last.name), suites[|runs| - 1]);
    }
  }

  predicate AllGreen(runs: seq<Target>, observed: map<string, Counts>) {
    || runs == []
    || (AllGreen(runs[..|runs| - 1], observed) && Green(runs[|runs| - 1], Look(observed, runs[|runs| - 1].name)))
  }

  predicate Green(run: Target, counts: Option<Counts>) {
    Passing(run.status) && counts.Some? && FailedIn(ReadCases(run.log)) == 0
  }

  /** A run that is red, or wrote a case, makes the report non-empty. */
  lemma {:induction false} RedIsWritten(runs: seq<Target>, observed: map<string, Counts>, suites: seq<Suite>)
    requires SuitesFor(runs, observed, suites) && Reds(runs, observed) > 0
    ensures Tests(suites) > 0
  {
    var last := runs[|runs| - 1];
    if Red(last, Look(observed, last.name)) {
      RedShows(last, Look(observed, last.name), suites[|runs| - 1]);
    } else {
      RedIsWritten(runs[..|runs| - 1], observed, suites[..|runs| - 1]);
    }
  }

  // ---- the counts of the runs -------------------------------------------------------------------------

  /** `observed` is what the logs' summaries say. */
  ghost predicate Observes(runs: seq<Target>, observed: map<string, Counts>) {
    forall run :: run in runs ==> Look(observed, run.name) == CountResults(run.log)
  }

  ghost predicate DistinctNames(runs: seq<Target>) {
    forall i, j :: 0 <= i < j < |runs| ==> runs[i].name != runs[j].name
  }

  /** `count_results` over the runs of one walk. */
  method CountRuns(runs: seq<Target>) returns (observed: map<string, Counts>, findings: seq<Finding>)
    requires DistinctNames(runs)
    ensures Observes(runs, observed)
    ensures forall name :: name in observed ==> exists run :: run in runs && run.name == name
    ensures forall name :: Unreadable(name) in findings
              <==> exists run :: run in runs && run.name == name && CountResults(run.log).None?
  {
    observed, findings := map[], [];
    for i := 0 to |runs|
      invariant Observes(runs[..i], observed)
      invariant forall name :: name in observed ==> exists run :: run in runs[..i] && run.name == name
      invariant forall name :: Unreadable(name) in findings
                  <==> exists run :: run in runs[..i] && run.name == name && CountResults(run.log).None?
    {
      var run := runs[i];
      assert runs[..i + 1] == runs[..i] + [run];
      assert run.name !in observed;
      match CountResults(run.log) {
        case None => findings := findings + [Unreadable(run.name)];
        case Some(counts) => observed := observed[run.name := counts];
      }
    }
    assert runs[..|runs|] == runs;
  }

  /** A run whose log the fixture printer wrote. */
  ghost predicate Printed(run: Target) {
    exists dir, passed, failed, ignored, filtered :: run.log == LogOf(dir, passed, failed, ignored, filtered, false)
  }

  lemma {:induction false} NoneDiffer(runs: seq<Target>, observed: map<string, Counts>)
    requires forall k :: 0 <= k < |runs| ==> !Differs(runs[k], Look(observed, runs[k].name))
    ensures CountFindings(runs, observed) == []
  {
    if runs != [] { NoneDiffer(runs[..|runs| - 1], observed); }
  }

  /** Printed logs leave nothing to report: both readings exist and agree for every run. */
  lemma PrintedRunsAgree(runs: seq<Target>, observed: map<string, Counts>)
    requires Observes(runs, observed) && forall k :: 0 <= k < |runs| ==> Printed(runs[k])
    ensures CountFindings(runs, observed) == [] && forall k :: 0 <= k < |runs| ==> runs[k].name in observed
  {
    forall k | 0 <= k < |runs| ensures runs[k].name in observed && !Differs(runs[k], Look(observed, runs[k].name)) {
      assert runs[k] in runs;
      PrintedRunAgrees(runs[k], Look(observed, runs[k].name));
    }
    NoneDiffer(runs, observed);
  }

  lemma PrintedRunAgrees(run: Target, counts: Option<Counts>)
    requires Printed(run) && counts == CountResults(run.log)
    ensures counts.Some? && !Differs(run, counts)
  {
    var dir, passed, failed, ignored, filtered :| run.log == LogOf(dir, passed, failed, ignored, filtered, false);
    ReadingsAgree(dir, passed, failed, ignored, filtered);
  }
}

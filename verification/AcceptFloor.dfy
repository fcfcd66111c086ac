/** The acceptance floor: totals over a directory of reports, judged against the limits, and why
    judging the merged shards is judging the whole suite. */
module AcceptFloor {
  import opened Text
  import opened TestLog
  import opened Shards

  /** A `testcase` element: whether it has a failure or error, and for each `skipped` mark
      whether it is an expected failure. */
  datatype TestCase = TestCase(bad: bool, marks: seq<bool>)

  datatype Report = Report(name: string, cases: seq<TestCase>)

  datatype Totals = Totals(cases: nat, skipped: nat, xfailed: nat, bad: nat)

  datatype Limits = Limits(floor: int, skips: int, xfails: int)

  datatype Problem = Failed(count: nat) | Shrank(cases: nat) | ManySkips(count: nat) | ManyXfails(count: nat)

  datatype Verdict =
    | NoReport
    | Missing(names: seq<string>)
    | NoLimits(totals: Totals)
    | Red(problems: seq<Problem>)
    | Green(totals: Totals)

  // ---- totals ----------------------------------------------------------------------------------------

  function Zero(): Totals { Totals(0, 0, 0, 0) }

  function Plus(a: Totals, b: Totals): Totals {
    Totals(a.cases + b.cases, a.skipped + b.skipped, a.xfailed + b.xfailed, a.bad + b.bad)
  }

  lemma PlusZero(t: Totals)
    ensures Plus(Zero(), t) == t && Plus(t, Zero()) == t
  {
  }

  lemma PlusAssociative(a: Totals, b: Totals, c: Totals)
    ensures Plus(Plus(a, b), c) == Plus(a, Plus(b, c))
  {
  }


  function Xfails(marks: seq<bool>): nat {
    if marks == [] then 0 else Xfails(marks[..|marks| - 1]) + if marks[|marks| - 1] then 1 else 0
  }

  function Skips(marks: seq<bool>): nat {
    if marks == [] then 0 else Skips(marks[..|marks| - 1]) + if marks[|marks| - 1] then 0 else 1
  }

  function OfCase(c: TestCase): Totals { Totals(1, Skips(c.marks), Xfails(c.marks), if c.bad then 1 else 0) }

  function OfCases(cases: seq<TestCase>): Totals {
    if cases == [] then Zero() else Plus(OfCases(cases[..|cases| - 1]), OfCase(cases[|cases| - 1]))
  }

  function OfReports(reports: seq<Report>): Totals {
    if reports == [] then Zero() else Plus(OfReports(reports[..|reports| - 1]), OfCases(reports[|reports| - 1].cases))
  }

  // ---- the gate ----------------------------------------------------------------------------------------

  function ShardName(i: nat, n: nat): string { "shard-" + Numeral(i) + "-of-" + Numeral(n) + ".xml" }

  predicate Present(reports: seq<Report>, name: string) { exists k :: 0 <= k < |reports| && reports[k].name == name }

  /** Every shard's report is there. */
  predicate AllPresent(reports: seq<Report>, shards: int) {
    forall i: nat :: i < shards ==> Present(reports, ShardName(i, shards))
  }

  predicate Within(t: Totals, limits: Limits) {
    t.bad == 0 && t.cases >= limits.floor && t.skipped <= limits.skips && t.xfailed <= limits.xfails
  }

  /** The directory is green: something was read, no shard is missing, and the totals are
      within limits that exist. */
  predicate Passes(reports: seq<Report>, shards: int, limits: Option<Limits>) {
    reports != [] && AllPresent(reports, shards) && limits.Some? && Within(OfReports(reports), limits.value)
  }

  /** The name of one of the first `n` shards, with no report. */
  ghost predicate IsMissing(reports: seq<Report>, shards: int, n: int, name: string) {
    !Present(reports, name) && exists i: nat :: i < n && i < shards && name == ShardName(i, shards)
  }

  lemma MissingStep(reports: seq<Report>, shards: int, i: nat)
    requires i < shards
    ensures forall name :: IsMissing(reports, shards, i + 1, name)
              <==> IsMissing(reports, shards, i, name) || (name == ShardName(i, shards) && !Present(reports, name))
  {
    forall name | name == ShardName(i, shards) && !Present(reports, name)
      ensures IsMissing(reports, shards, i + 1, name)
    {
    }
  }

  method MissingShards(reports: seq<Report>, shards: int) returns (missing: seq<string>)
    ensures missing == [] <==> AllPresent(reports, shards)
    ensures forall name :: name in missing <==> IsMissing(reports, shards, shards, name)
  {
    missing := [];
    var i := 0;
    while i < shards
      invariant 0 <= i && (shards >= 0 ==> i <= shards)
      invariant missing == [] <==> forall j: nat :: j < i && j < shards ==> Present(reports, ShardName(j, shards))
      invariant forall name :: name in missing <==> IsMissing(reports, shards, i, name)
    {
      MissingStep(reports, shards, i);
      if !Present(reports, ShardName(i, shards)) { missing := missing + [ShardName(i, shards)]; }
      i := i + 1;
    }
  }

  method CountMarks(marks: seq<bool>) returns (skipped: nat, xfailed: nat)
    ensures skipped == Skips(marks) && xfailed == Xfails(marks)
  {
    skipped, xfailed := 0, 0;
    for k := 0 to |marks|
      invariant skipped == Skips(marks[..k]) && xfailed == Xfails(marks[..k])
    {
      assert marks[..k + 1][..k] == marks[..k];
      if marks[k] { xfailed := xfailed + 1; } else { skipped := skipped + 1; }
    }
    assert marks[..|marks|] == marks;
  }

  lemma CasesPrefix(cases: seq<TestCase>, k: nat)
    requires k < |cases|
    ensures OfCases(cases[..k + 1]) == Plus(OfCases(cases[..k]), OfCase(cases[k]))
  {
    assert cases[..k + 1][..k] == cases[..k];
  }

  method CountCases(cases: seq<TestCase>) returns (t: Totals)
    ensures t == OfCases(cases)
  {
    t := Zero();
    for k := 0 to |cases|
      invariant t == OfCases(cases[..k])
    {
      CasesPrefix(cases, k);
      var skipped, xfailed := CountMarks(cases[k].marks);
      t := Plus(t, Totals(1, skipped, xfailed, if cases[k].bad then 1 else 0));
    }
    assert cases[..|cases|] == cases;
  }

  method CountReports(reports: seq<Report>) returns (t: Totals)
    ensures t == OfReports(reports)
  {
    t := Zero();
    for k := 0 to |reports|
      invariant t == OfReports(reports[..k])
    {
      assert reports[..k + 1][..k] == reports[..k];
      var one := CountCases(reports[k].cases);
      t := Plus(t, one);
    }
    assert reports[..|reports|] == reports;
  }

  /** What is wrong with some totals, each with its number. */
  predicate IsProblem(t: Totals, limits: Limits, p: Problem) {
    match p
    case Failed(n) => n == t.bad && n > 0
    case Shrank(n) => n == t.cases && n < limits.floor
    case ManySkips(n) => n == t.skipped && n > limits.skips
    case ManyXfails(n) => n == t.xfailed && n > limits.xfails
  }

  method ProblemsOf(t: Totals, limits: Limits) returns (problems: seq<Problem>)
    ensures forall p :: p in problems <==> IsProblem(t, limits, p)
    ensures problems == [] <==> Within(t, limits)
  {
    problems := [];
    if t.bad > 0 { problems := problems + [Failed(t.bad)]; }
    if t.cases < limits.floor { problems := problems + [Shrank(t.cases)]; }
    if t.skipped > limits.skips { problems := problems + [ManySkips(t.skipped)]; }
    if t.xfailed > limits.xfails { problems := problems + [ManyXfails(t.xfailed)]; }
  }

  /** `run`: green exactly when the directory passes. */
  method Judge(reports: seq<Report>, shards: int, limits: Option<Limits>) returns (verdict: Verdict)
    ensures verdict.Green? <==> Passes(reports, shards, limits)
    ensures verdict.NoReport? <==> reports == []
    ensures verdict.Missing? <==> reports != [] && !AllPresent(reports, shards)
    ensures verdict.Missing? ==> forall name :: name in verdict.names <==> IsMissing(reports, shards, shards, name)
    ensures verdict.NoLimits? <==> reports != [] && AllPresent(reports, shards) && limits.None?
    ensures verdict.Green? || verdict.NoLimits? ==> verdict.totals == OfReports(reports)
    ensures verdict.Red? ==> limits.Some? && verdict.problems != []
                             && forall p :: p in verdict.problems <==> IsProblem(OfReports(reports), limits.value, p)
  {
    if reports == [] { return NoReport; }
    var missing := MissingShards(reports, shards);
    if missing != [] { return Missing(missing); }
    var t := CountReports(reports);
    if limits.None? { return NoLimits(t); }
    var problems := ProblemsOf(t, limits.value);
    if problems != [] { return Red(problems); }
    return Green(t);
  }

  // ---- what the totals count -------------------------------------------------------------------------------

  /** Every case of every report. */
  function AllCases(reports: seq<Report>): seq<TestCase> {
    if reports == [] then [] else AllCases(reports[..|reports| - 1]) + reports[|reports| - 1].cases
  }

  /** Every `skipped` mark of every case. */
  function AllMarks(cases: seq<TestCase>): seq<bool> {
    if cases == [] then [] else AllMarks(cases[..|cases| - 1]) + cases[|cases| - 1].marks
  }

  function Positions(marks: seq<bool>, mark: bool): set<int> { set k | 0 <= k < |marks| && marks[k] == mark }

  function BadOnes(cases: seq<TestCase>): set<int> { set k | 0 <= k < |cases| && cases[k].bad }

  lemma PositionsStep(marks: seq<bool>, n: nat, mark: bool)
    requires |marks| == n + 1
    ensures |Positions(marks, mark)| == |Positions(marks[..n], mark)| + if marks[n] == mark then 1 else 0
  {
    assert Positions(marks, mark) == Positions(marks[..n], mark) + if marks[n] == mark then {n} else {};
  }

  lemma {:induction false} MarksCounted(marks: seq<bool>)
    ensures Skips(marks) == |Positions(marks, false)| && Xfails(marks) == |Positions(marks, true)|
  {
    if marks != [] {
      var n := |marks| - 1;
      MarksCounted(marks[..n]);
      PositionsStep(marks, n, false);
      PositionsStep(marks, n, true);
    }
  }

  lemma {:induction false} MarksConcat(a: seq<bool>, b: seq<bool>)
    ensures Skips(a + b) == Skips(a) + Skips(b) && Xfails(a + b) == Xfails(a) + Xfails(b)
    decreases |b|
  {
    if b == [] {
      assert a + b == a;
    } else {
      assert (a + b)[..|a + b| - 1] == a + b[..|b| - 1];
      MarksConcat(a, b[..|b| - 1]);
    }
  }

  lemma {:induction false} CasesCounted(cases: seq<TestCase>)
    ensures var t := OfCases(cases);
            && t.cases == |cases| && t.bad == |BadOnes(cases)|
            && t.skipped == Skips(AllMarks(cases)) && t.xfailed == Xfails(AllMarks(cases))
  {
    if cases != [] {
      var init, last := cases[..|cases| - 1], cases[|cases| - 1];
      CasesCounted(init);
      MarksConcat(AllMarks(init), last.marks);
      assert BadOnes(cases) == BadOnes(init) + if last.bad then {|cases| - 1} else {};
    }
  }

  lemma {:induction false} ReportsAreCases(reports: seq<Report>)
    ensures OfReports(reports) == OfCases(AllCases(reports))
  {
    if reports != [] {
      ReportsAreCases(reports[..|reports| - 1]);
      OfCasesConcat(AllCases(reports[..|reports| - 1]), reports[|reports| - 1].cases);
    }
  }

  /** The totals are numbers of things in the reports: the cases, those with a failure or an
      error, the marks that are expected failures and the marks that are not. */
  lemma TotalsCount(reports: seq<Report>)
    ensures var t, cases := OfReports(reports), AllCases(reports);
            && t.cases == |cases| && t.bad == |BadOnes(cases)|
            && t.skipped == |Positions(AllMarks(cases), false)| && t.xfailed == |Positions(AllMarks(cases), true)|
  {
    ReportsAreCases(reports);
    CasesCounted(AllCases(reports));
    MarksCounted(AllMarks(AllCases(reports)));
  }

  /** A green directory, in words: a report, one for every shard, the three limits, no bad case,
      no fewer cases than the floor, and no more skips and expected failures than allowed. */
  lemma PassesInWords(reports: seq<Report>, shards: int, limits: Option<Limits>)
    ensures Passes(reports, shards, limits) <==>
              && reports != [] && limits.Some? && BadOnes(AllCases(reports)) == {}
              && (forall i: nat :: i < shards ==> exists k :: && 0 <= k < |reports|
                                                             && reports[k].name == ShardName(i, shards))
              && |AllCases(reports)| >= limits.value.floor
              && |Positions(AllMarks(AllCases(reports)), false)| <= limits.value.skips
              && |Positions(AllMarks(AllCases(reports)), true)| <= limits.value.xfails
  {
    TotalsCount(reports);
    assert |BadOnes(AllCases(reports))| == 0 <==> BadOnes(AllCases(reports)) == {};
    forall i: nat | i < shards
      ensures Present(reports, ShardName(i, shards))
         <==> exists k :: 0 <= k < |reports| && reports[k].name == ShardName(i, shards)
    {
    }
  }

  // ---- the shards' names -------------------------------------------------------------------------------------

  /** No two shards share a report name. */
  lemma ShardNamesDiffer(i: nat, j: nat, n: nat)
    requires ShardName(i, n) == ShardName(j, n)
    ensures i == j
  {
    var tail := "-of-" + Numeral(n) + ".xml";
    assert ShardName(i, n) == "shard-" + Numeral(i) + tail && ShardName(j, n) == "shard-" + Numeral(j) + tail;
    SameMiddle("shard-", Numeral(i), Numeral(j), tail);
    NumeralParses(i);
    NumeralParses(j);
  }

  lemma SameMiddle(pre: string, a: string, b: string, post: string)
    requires pre + a + post == pre + b + post
    ensures a == b
  {
    var s := pre + a + post;
    assert |a| == |b|;
    assert s[|pre|..|pre| + |a|] == a;
    assert (pre + b + post)[|pre|..|pre| + |b|] == b;
  }

  lemma ShardNameSpelled()
    ensures ShardName(3, 12) == "shard-3-of-12.xml"
  {
    assert Numeral(12) == "12" && Numeral(3) == "3";
  }

  // ---- sharded and unsharded --------------------------------------------------------------------------------

  /** A module and the cases its run reports, in whichever report it lands. */
  datatype Module = Module(stem: string, cases: seq<TestCase>)

  function CasesOf(modules: seq<Module>): seq<TestCase> {
    if modules == [] then [] else CasesOf(modules[..|modules| - 1]) + modules[|modules| - 1].cases
  }

  /** One report per shard, in order. */
  function ShardReports(modules: seq<Module>, count: nat): (reports: seq<Report>)
    requires count > 0
  {
    ReportsOf(Slices(modules, count), count)
  }

  /** The reports of some lists of modules, named as the first shards of `count`. */
  function ReportsOf(lists: seq<seq<Module>>, count: nat): seq<Report> {
    seq(|lists|, i requires 0 <= i < |lists| => Report(ShardName(i, count), CasesOf(lists[i])))
  }

  lemma {:induction false} OfCasesConcat(a: seq<TestCase>, b: seq<TestCase>)
    ensures OfCases(a + b) == Plus(OfCases(a), OfCases(b))
    decreases |b|
  {
    if b == [] {
      assert a + b == a;
      PlusZero(OfCases(a));
    } else {
      var init, last := b[..|b| - 1], b[|b| - 1];
      assert (a + b)[..|a + b| - 1] == a + init;
      OfCasesConcat(a, init);
      PlusAssociative(OfCases(a), OfCases(init), OfCase(last));
    }
  }

  /** The totals of the modules' own totals. */
  function Weigh(modules: seq<Module>): Totals {
    if modules == [] then Zero() else Plus(Weigh(modules[..|modules| - 1]), OfCases(modules[|modules| - 1].cases))
  }

  lemma {:induction false} WeighIs(modules: seq<Module>)
    ensures OfCases(CasesOf(modules)) == Weigh(modules)
  {
    if modules != [] {
      WeighIs(modules[..|modules| - 1]);
      OfCasesConcat(CasesOf(modules[..|modules| - 1]), modules[|modules| - 1].cases);
    }
  }

  lemma WeighSnoc(modules: seq<Module>, x: Module)
    ensures Weigh(modules + [x]) == Plus(Weigh(modules), OfCases(x.cases))
  {
    assert (modules + [x])[..|modules|] == modules;
  }

  /** The totals of some lists of modules. */
  function WeighAll(lists: seq<seq<Module>>): Totals {
    if lists == [] then Zero() else Plus(WeighAll(lists[..|lists| - 1]), Weigh(lists[|lists| - 1]))
  }

  lemma {:induction false} ReportTotals(lists: seq<seq<Module>>, count: nat)
    ensures OfReports(ReportsOf(lists, count)) == WeighAll(lists)
  {
    if lists != [] {
      var init := lists[..|lists| - 1];
      ReportTotals(init, count);
      assert ReportsOf(lists, count)[..|lists| - 1] == ReportsOf(init, count);
      WeighIs(lists[|lists| - 1]);
    }
  }

  lemma PlusLast(a: Totals, b: Totals, t: Totals)
    ensures Plus(a, Plus(b, t)) == Plus(Plus(a, b), t) && Plus(Plus(a, t), b) == Plus(Plus(a, b), t)
  {
  }

  lemma {:induction false} WeighAllAdds(lists: seq<seq<Module>>, k: nat, x: Module)
    requires k < |lists|
    ensures WeighAll(lists[k := lists[k] + [x]]) == Plus(WeighAll(lists), OfCases(x.cases))
  {
    var init, last := lists[..|lists| - 1], lists[|lists| - 1];
    var longer := lists[k := lists[k] + [x]];
    PlusLast(WeighAll(init), Weigh(last), OfCases(x.cases));
    if k == |lists| - 1 {
      assert longer[..|lists| - 1] == init;
      WeighSnoc(last, x);
    } else {
      assert longer[..|lists| - 1] == init[k := init[k] + [x]];
      WeighAllAdds(init, k, x);
    }
  }

  lemma {:induction false} WeighNothing(lists: seq<seq<Module>>)
    requires forall k :: 0 <= k < |lists| ==> lists[k] == []
    ensures WeighAll(lists) == Zero()
  {
    if lists != [] {
      WeighNothing(lists[..|lists| - 1]);
      var last := Weigh(lists[|lists| - 1]);
      assert last == Zero();
      PlusZero(last);
    }
  }

  lemma {:induction false} SuiteTotals(modules: seq<Module>, count: nat)
    requires count > 0
    ensures WeighAll(Slices(modules, count)) == Weigh(modules)
  {
    if modules == [] {
      WeighNothing(Slices(modules, count));
    } else {
      var init, x := modules[..|modules| - 1], modules[|modules| - 1];
      assert modules == init + [x];
      SuiteTotals(init, count);
      DealtInTurn(init, x, count);
      WeighAllAdds(Slices(init, count), |init| % count, x);
      WeighSnoc(init, x);
    }
  }

  /** The totals over all shard reports are those of the whole suite. */
  lemma ShardTotals(modules: seq<Module>, count: nat)
    requires count > 0
    ensures OfReports(ShardReports(modules, count)) == OfCases(CasesOf(modules))
  {
    ReportTotals(Slices(modules, count), count);
    SuiteTotals(modules, count);
    WeighIs(modules);
  }

  lemma ShardsAllPresent(modules: seq<Module>, count: nat)
    requires count > 0
    ensures AllPresent(ShardReports(modules, count), count) && ShardReports(modules, count) != []
  {
    forall i: nat | i < count ensures Present(ShardReports(modules, count), ShardName(i, count)) {
      assert ShardReports(modules, count)[i].name == ShardName(i, count);
    }
  }

  /** Judging the merged shards, each required to be there, is judging the one report of an
      unsharded run. */
  lemma ShardedVerdict(modules: seq<Module>, count: nat, limits: Option<Limits>, name: string)
    requires count > 0
    ensures Passes(ShardReports(modules, count), count, limits) <==> Passes([Report(name, CasesOf(modules))], 0, limits)
  {
    ShardTotals(modules, count);
    OneReport(Report(name, CasesOf(modules)));
    ShardsAllPresent(modules, count);
  }

  lemma OneReport(report: Report)
    ensures OfReports([report]) == OfCases(report.cases)
  {
    assert [report][..0] == [];
    assert OfReports([report]) == Plus(Zero(), OfCases(report.cases));
    PlusZero(OfCases(report.cases));
  }
}

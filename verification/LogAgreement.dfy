/** How the two readings of a log agree: on every log the fixture printer `_log` writes, and
    under any change of a failure block's body. */
module LogAgreement {
  import opened Text
  import opened TestLog

  // ---- the case names, one pass ----------------------------------------------------------------

  /** Both readings in one pass: whether the reader is in a block, the names and outcomes of
      the case lines outside every block, the counts, and whether a summary was seen. */
  datatype Reading = Reading(inside: bool, names: seq<(string, string)>, counts: Counts, summed: bool)

  const START: Reading := Reading(false, [], Counts(0, 0, 0, 0), false)

  predicate After(inside: bool, kind: Kind) { if kind.delimits then kind.opens else inside }

  function NameIn(inside: bool, kind: Kind): seq<(string, string)> {
    if !inside && kind.asCase.Some? then [kind.asCase.value] else []
  }

  function Step(r: Reading, kind: Kind): Reading {
    var inside := After(r.inside, kind);
    Reading(inside, r.names + NameIn(inside, kind), Add(r.counts, CountIn(kind)), r.summed || kind.asSummary.Some?)
  }

  function Read(r: Reading, kinds: seq<Kind>): Reading {
    if kinds == [] then r else Step(Read(r, kinds[..|kinds| - 1]), kinds[|kinds| - 1])
  }

  function Pairs(cases: seq<Case>): seq<(string, string)> {
    seq(|cases|, k requires 0 <= k < |cases| => (cases[k].name, cases[k].outcome))
  }

  lemma KindsPrefix(log: seq<Line>, n: nat)
    requires 0 < n <= |log|
    ensures Kinds(log[..n])[..n - 1] == Kinds(log[..n - 1]) && Kinds(log[..n])[n - 1] == KindOf(log[n - 1])
  {
  }

  lemma AfterLine(log: seq<Line>, n: nat)
    requires 0 < n <= |log|
    ensures Read(START, Kinds(log[..n])).inside == After(Read(START, Kinds(log[..n - 1])).inside, KindOf(log[n - 1]))
  {
    KindsPrefix(log, n);
  }

  lemma {:induction false} InsideIsAfter(log: seq<Line>, k: nat)
    requires k < |log| && !Delimits(log[k])
    ensures Inside(log, k) == Read(START, Kinds(log[..k + 1])).inside
    decreases k
  {
    AfterLine(log, k + 1);
    if k > 0 {
      if Delimits(log[k - 1]) { AfterLine(log, k); } else { InsideIsAfter(log, k - 1); }
    }
  }

  lemma DelimiterIsNoCase(line: Line)
    requires Delimits(line)
    ensures CaseOf(line).None?
  {
  }

  lemma {:induction false} CasesAreNames(log: seq<Line>, n: nat)
    requires n <= |log|
    ensures Pairs(CasesUpTo(log, n)) == Read(START, Kinds(log[..n])).names
  {
    if n > 0 {
      CasesAreNames(log, n - 1);
      KindsPrefix(log, n);
      if CaseOf(log[n - 1]).Some? {
        if Delimits(log[n - 1]) { DelimiterIsNoCase(log[n - 1]); } else { InsideIsAfter(log, n - 1); }
      }
      NamesSnoc(CasesUpTo(log, n - 1), CasesUpTo(log, n));
    }
  }

  lemma NamesSnoc(before: seq<Case>, after: seq<Case>)
    requires before <= after && |after| <= |before| + 1
    ensures Pairs(after) == Pairs(before) + (if |after| == |before| then []
                                             else [(after[|before|].name, after[|before|].outcome)])
  {
    assert |after| == |before| ==> after == before;
  }

  lemma {:induction false} CountsAreTotal(kinds: seq<Kind>)
    ensures Read(START, kinds).counts == Total(kinds)
  {
    if kinds != [] { CountsAreTotal(kinds[..|kinds| - 1]); }
  }

  lemma {:induction false} SummedIsHasSummary(kinds: seq<Kind>)
    ensures Read(START, kinds).summed <==> HasSummary(kinds)
  {
    if kinds != [] { SummedIsHasSummary(kinds[..|kinds| - 1]); }
  }

  /** One pass gives what the two readers give: the cases read are the case lines outside
      every block, and the counts those of every summary line. */
  lemma OnePass(log: seq<Line>)
    ensures var r := Read(START, Kinds(log));
            && Pairs(ReadCases(log)) == r.names && |ReadCases(log)| == |r.names|
            && CountResults(log) == if r.summed then Some(r.counts) else None
  {
    CasesAreNames(log, |log|);
    assert log[..|log|] == log;
    CountsAreTotal(Kinds(log));
    SummedIsHasSummary(Kinds(log));
  }

  lemma KindsConcat(a: seq<Line>, b: seq<Line>)
    ensures Kinds(a + b) == Kinds(a) + Kinds(b)
  {
  }

  lemma {:induction false} ReadConcat(r: Reading, a: seq<Kind>, b: seq<Kind>)
    ensures Read(r, a + b) == Read(Read(r, a), b)
    decreases |b|
  {
    if b == [] {
      assert a + b == a;
    } else {
      assert (a + b)[..|a + b| - 1] == a + b[..|b| - 1];
      ReadConcat(r, a, b[..|b| - 1]);
    }
  }

  /** The reading of a whole log, part by part. */
  lemma ReadParts(r: Reading, a: seq<Line>, b: seq<Line>)
    ensures Read(r, Kinds(a + b)) == Read(Read(r, Kinds(a)), Kinds(b))
  {
    KindsConcat(a, b);
    ReadConcat(r, Kinds(a), Kinds(b));
  }

  // ---- a block's body does not matter --------------------------------------------------------------

  /** No line ends the block the body is in. */
  ghost predicate StaysInBlock(body: seq<Kind>) { forall k :: 0 <= k < |body| ==> !body[k].delimits }

  /** The reading with some more counts, as if from summaries seen elsewhere. */
  function Plus(r: Reading, counts: Counts, summed: bool): Reading {
    r.(counts := Add(r.counts, counts), summed := r.summed || summed)
  }

  lemma {:induction false} BodyIsSummaries(r: Reading, body: seq<Kind>)
    requires r.inside && StaysInBlock(body)
    ensures Read(r, body) == Plus(r, Total(body), HasSummary(body))
  {
    if body != [] {
      var init := body[..|body| - 1];
      BodyIsSummaries(r, init);
      InsideStep(r, Total(init), HasSummary(init), body[|body| - 1]);
    }
  }

  lemma InsideStep(r: Reading, c: Counts, summed: bool, kind: Kind)
    requires r.inside && !kind.delimits
    ensures Step(Plus(r, c, summed), kind) == Plus(r, Add(c, CountIn(kind)), summed || kind.asSummary.Some?)
  {
  }

  lemma PlusStep(r: Reading, c: Counts, summed: bool, kind: Kind)
    ensures Step(Plus(r, c, summed), kind) == Plus(Step(r, kind), c, summed)
  {
  }

  lemma {:induction false} PlusRead(r: Reading, c: Counts, summed: bool, post: seq<Kind>)
    ensures Read(Plus(r, c, summed), post) == Plus(Read(r, post), c, summed)
  {
    if post != [] {
      PlusRead(r, c, summed, post[..|post| - 1]);
      PlusStep(Read(r, post[..|post| - 1]), c, summed, post[|post| - 1]);
    }
  }

  lemma OpenerEnters(r: Reading, pre: seq<Line>, opener: Line)
    requires BlockName(opener).Some?
    ensures Read(r, Kinds(pre + [opener])).inside
  {
    OpenerDelimits(opener);
    assert (pre + [opener])[..|pre| + 1] == pre + [opener];
    KindsPrefix(pre + [opener], |pre| + 1);
  }

  lemma SkipBody(head: seq<Line>, body: seq<Line>, post: seq<Line>)
    requires Read(START, Kinds(head)).inside && StaysInBlock(Kinds(body))
    ensures Read(START, Kinds(head + body + post))
         == Plus(Read(START, Kinds(head + post)), Total(Kinds(body)), HasSummary(Kinds(body)))
  {
    var r := Read(START, Kinds(head));
    ReadParts(START, head + body, post);
    ReadParts(START, head, body);
    BodyIsSummaries(r, Kinds(body));
    ReadParts(START, head, post);
    PlusRead(r, Total(Kinds(body)), HasSummary(Kinds(body)), Kinds(post));
  }

  /** Whatever a failing test printed into its block, case lines included, the case names and
      outcomes read are those of the log without it; the counts are too, exactly when the
      body's summary lines sum to nothing and are not the only ones of the log. */
  lemma BlockBodyEffect(pre: seq<Line>, opener: Line, body: seq<Line>, post: seq<Line>)
    requires BlockName(opener).Some? && StaysInBlock(Kinds(body))
    ensures var log, bare := pre + [opener] + body + post, pre + [opener] + post;
            && Pairs(ReadCases(log)) == Pairs(ReadCases(bare))
            && (CountResults(log) == CountResults(bare)
                <==> Total(Kinds(body)) == Counts(0, 0, 0, 0) && (HasSummary(Kinds(body)) ==> CountResults(bare).Some?))
  {
    OpenerEnters(START, pre, opener);
    SkipBody(pre + [opener], body, post);
    if !HasSummary(Kinds(body)) { NoSummaryNoTotal(Kinds(body)); }
    ComparePasses(pre + [opener] + body + post, pre + [opener] + post, Total(Kinds(body)), HasSummary(Kinds(body)));
  }

  /** What the two readers return of a log whose one-pass reading is `r`. */
  ghost predicate ReadsAs(log: seq<Line>, r: Reading) {
    Pairs(ReadCases(log)) == r.names && CountResults(log) == if r.summed then Some(r.counts) else None
  }

  lemma ComparePasses(log: seq<Line>, bare: seq<Line>, counts: Counts, summed: bool)
    requires Read(START, Kinds(log)) == Plus(Read(START, Kinds(bare)), counts, summed)
    requires !summed ==> counts == Counts(0, 0, 0, 0)
    ensures Pairs(ReadCases(log)) == Pairs(ReadCases(bare))
    ensures CountResults(log) == CountResults(bare)
            <==> counts == Counts(0, 0, 0, 0) && (summed ==> CountResults(bare).Some?)
  {
    var r := Read(START, Kinds(bare));
    assert ReadsAs(log, Plus(r, counts, summed)) by { OnePass(log); }
    assert ReadsAs(bare, r) by { OnePass(bare); }
    CompareReadings(log, bare, r, counts, summed);
  }

  lemma CompareReadings(log: seq<Line>, bare: seq<Line>, r: Reading, counts: Counts, summed: bool)
    requires ReadsAs(log, Plus(r, counts, summed)) && ReadsAs(bare, r)
    requires !summed ==> counts == Counts(0, 0, 0, 0)
    ensures Pairs(ReadCases(log)) == Pairs(ReadCases(bare))
    ensures CountResults(log) == CountResults(bare)
            <==> counts == Counts(0, 0, 0, 0) && (summed ==> CountResults(bare).Some?)
  {
  }

  lemma {:induction false} NoSummaryNoTotal(body: seq<Kind>)
    requires !HasSummary(body)
    ensures Total(body) == Counts(0, 0, 0, 0)
  {
    if body != [] { NoSummaryNoTotal(body[..|body| - 1]); }
  }

  // ---- the fixture printer -----------------------------------------------------------------------------

  const PASSES := "fixture::passes_"
  const SKIPS := "fixture::skips_"
  const FAILS := "fixture::fails_"

  function CaseLine(name: string, separator: string, outcome: string): Line { ["test", name, separator, outcome] }

  /** One per-case line for each of `n` cases of a kind. */
  function CaseLines(stem: string, separator: string, outcome: string, n: nat): seq<Line> {
    if n == 0 then []
    else CaseLines(stem, separator, outcome, n - 1) + [CaseLine(stem + Numeral(n - 1), separator, outcome)]
  }

  function FailureBlock(i: nat): seq<Line> {
    var name := FAILS + Numeral(i);
    [[""], ["----", name, "stdout", "----"],
     ["thread", "'" + name + "'", "panicked", "at", "crates/demo/src/lib.rs:7:5:"],
     ["assertion", "`left", "==", "right`", "failed"], ["", "", "left:", "1"], ["", "right:", "2"]]
  }

  function FailureBlocks(n: nat): seq<Line> {
    if n == 0 then [] else FailureBlocks(n - 1) + FailureBlock(n - 1)
  }

  function FailureNames(n: nat): seq<Line> {
    if n == 0 then [] else FailureNames(n - 1) + [["", "", "", "", FAILS + Numeral(n - 1)]]
  }

  /** The failures section, absent when nothing failed. */
  function Failures(failed: nat): seq<Line> {
    if failed == 0 then []
    else [[""], ["failures:"]] + FailureBlocks(failed) + [[""], ["failures:"]] + FailureNames(failed)
  }

  function SummaryLine(passed: nat, failed: nat, ignored: nat, filtered: nat): Line {
    SummaryTokens(Verdict(failed), Numeral(passed), Numeral(failed), Numeral(ignored), Numeral(0), Numeral(filtered))
  }

  function Preamble(dir: string, n: nat): seq<Line> {
    [["Executing", "tests", "from", dir], [""], ["running", Numeral(n), "tests"]]
  }

  function Separator(mangle: bool): string { if mangle then ".." else ELLIPSIS }

  function CaseSection(passed: nat, failed: nat, ignored: nat, separator: string): seq<Line> {
    CaseLines(PASSES, separator, "ok", passed) + CaseLines(SKIPS, separator, "ignored", ignored)
    + CaseLines(FAILS, separator, "FAILED", failed)
  }

  /** `_log`, mangled or not. */
  function LogOf(dir: string, passed: nat, failed: nat, ignored: nat, filtered: nat, mangle: bool): seq<Line> {
    Preamble(dir, passed + failed + ignored)
    + CaseSection(passed, failed, ignored, Separator(mangle))
    + Failures(failed)
    + Tail(SummaryLine(passed, failed, ignored, filtered))
  }

  /** A summary line of any verdict and numerals. */
  function SummaryTokens(v: string, p: string, f: string, i: string, m: string, x: string): Line {
    ["test", "result:", v, p, "passed;", f, "failed;", i, "ignored;", m, "measured;", x,
     "filtered", "out;", "finished", "in", "0.01s"]
  }

  function Verdict(failed: nat): string { if failed > 0 then "FAILED." else "ok." }

  // ---- what each part of the printed log is to the readers ---------------------------------------------

  /** The part holds no case line and no summary. */
  ghost predicate Idle(part: seq<Kind>) {
    forall k :: 0 <= k < |part| ==> part[k].asCase.None? && part[k].asSummary.None?
  }

  lemma {:induction false} IdleReadsNothing(r: Reading, part: seq<Kind>)
    requires Idle(part)
    ensures Read(r, part) == r.(inside := Read(r, part).inside)
  {
    if part != [] { IdleReadsNothing(r, part[..|part| - 1]); }
  }

  lemma NotATestLine(line: Line)
    requires line != [] && line[0] != "test"
    ensures KindOf(line).asCase.None? && KindOf(line).asSummary.None?
  {
  }

  /** No line of the part is a test line. */
  ghost predicate NoTestLine(part: seq<Line>) { forall k :: 0 <= k < |part| ==> part[k] != [] && part[k][0] != "test" }

  lemma NoTestLineIdle(part: seq<Line>)
    requires NoTestLine(part)
    ensures Idle(Kinds(part))
  {
    forall k | 0 <= k < |part| ensures KindOf(part[k]).asCase.None? && KindOf(part[k]).asSummary.None? {
      NotATestLine(part[k]);
    }
  }

  lemma {:induction false} FailureLinesNoTest(n: nat)
    ensures NoTestLine(FailureBlocks(n)) && NoTestLine(FailureNames(n))
  {
    if n > 0 { FailureLinesNoTest(n - 1); }
  }

  lemma FailuresIdle(failed: nat)
    ensures Idle(Kinds(Failures(failed)))
  {
    FailureLinesNoTest(failed);
    NoTestLineIdle(Failures(failed));
  }

  lemma PreambleReads(dir: string, n: nat)
    ensures Read(START, Kinds(Preamble(dir, n))) == START
  {
    NoTestLineIdle(Preamble(dir, n));
    IdleReadsNothing(START, Kinds(Preamble(dir, n)));
    NoDelimiterStays(START, Kinds(Preamble(dir, n)));
  }

  lemma {:induction false} NoDelimiterStays(r: Reading, part: seq<Kind>)
    requires forall k :: 0 <= k < |part| ==> !part[k].delimits
    ensures Read(r, part).inside == r.inside
  {
    if part != [] { NoDelimiterStays(r, part[..|part| - 1]); }
  }

  lemma CaseLineReads(name: string, outcome: string)
    requires name != "" && !IsSpace(name[0]) && outcome != "" && !IsSpace(outcome[|outcome| - 1])
    ensures KindOf(CaseLine(name, ELLIPSIS, outcome)) == Kind(Some((name, outcome)), None, false, false)
  {
    var line := CaseLine(name, ELLIPSIS, outcome);
    assert EllipsisFrom(line, 2) == 2;
    assert line[3..] == [outcome] && line[1..2] == [name];
  }

  lemma MangledLineReads(name: string, outcome: string)
    requires outcome != ELLIPSIS
    ensures KindOf(CaseLine(name, "..", outcome)).asCase.None? && KindOf(CaseLine(name, "..", outcome)).asSummary.None?
  {
    var line := CaseLine(name, "..", outcome);
    assert EllipsisFrom(line, 4) == 4 && EllipsisFrom(line, 3) == 4 && EllipsisFrom(line, 2) == 4;
  }

  /** Any string that neither starts nor ends with a blank. */
  predicate Trim(s: string) { s != "" && !IsSpace(s[0]) && !IsSpace(s[|s| - 1]) }

  /** The names a run of case lines spells. */
  function Spelled(stem: string, outcome: string, n: nat): seq<(string, string)> {
    if n == 0 then [] else Spelled(stem, outcome, n - 1) + [(stem + Numeral(n - 1), outcome)]
  }

  lemma {:induction false} SpelledLength(stem: string, outcome: string, n: nat)
    ensures |Spelled(stem, outcome, n)| == n
  {
    if n > 0 { SpelledLength(stem, outcome, n - 1); }
  }

  function WithNames(r: Reading, names: seq<(string, string)>): Reading { r.(names := r.names + names) }

  lemma WithNamesTwice(r: Reading, na: seq<(string, string)>, nb: seq<(string, string)>)
    ensures WithNames(WithNames(r, na), nb) == WithNames(r, na + nb)
  {
    assert r.names + na + nb == r.names + (na + nb);
  }

  /** Read outside a block, the part appends these names and does nothing else. */
  ghost predicate Appends(part: seq<Kind>, names: seq<(string, string)>) {
    forall r: Reading {:trigger WithNames(r, names)} :: !r.inside ==> Read(r, part) == WithNames(r, names)
  }

  lemma AppendsTo(r: Reading, part: seq<Kind>, names: seq<(string, string)>)
    requires Appends(part, names) && !r.inside
    ensures Read(r, part) == WithNames(r, names)
  {
  }

  lemma AppendsConcat(a: seq<Kind>, na: seq<(string, string)>, b: seq<Kind>, nb: seq<(string, string)>)
    requires Appends(a, na) && Appends(b, nb)
    ensures Appends(a + b, na + nb)
  {
    forall r: Reading | !r.inside ensures Read(r, a + b) == WithNames(r, na + nb) {
      AppendsTo(r, a, na);
      AppendsTo(Read(r, a), b, nb);
      ReadConcat(r, a, b);
      WithNamesTwice(r, na, nb);
    }
  }

  lemma OneAppends(kind: Kind, name: (string, string))
    requires kind == Kind(Some(name), None, false, false)
    ensures Appends([kind], [name])
  {
    assert [kind][..0] == [];
  }

  lemma KindsSnoc(init: seq<Line>, line: Line)
    ensures Kinds(init + [line]) == Kinds(init) + [KindOf(line)]
  {
  }

  lemma CaseLinesStep(stem: string, outcome: string, n: nat)
    requires Trim(stem) && Trim(outcome) && n > 0
    ensures Kinds(CaseLines(stem, ELLIPSIS, outcome, n))
         == Kinds(CaseLines(stem, ELLIPSIS, outcome, n - 1))
            + [Kind(Some((stem + Numeral(n - 1), outcome)), None, false, false)]
  {
    CaseLineReads(stem + Numeral(n - 1), outcome);
    KindsSnoc(CaseLines(stem, ELLIPSIS, outcome, n - 1), CaseLine(stem + Numeral(n - 1), ELLIPSIS, outcome));
  }

  lemma AppendsOneMore(init: seq<Kind>, names: seq<(string, string)>, name: (string, string))
    requires Appends(init, names)
    ensures Appends(init + [Kind(Some(name), None, false, false)], names + [name])
  {
    OneAppends(Kind(Some(name), None, false, false), name);
    AppendsConcat(init, names, [Kind(Some(name), None, false, false)], [name]);
  }

  lemma {:induction false} CaseLinesAppend(stem: string, outcome: string, n: nat)
    requires Trim(stem) && Trim(outcome)
    ensures Appends(Kinds(CaseLines(stem, ELLIPSIS, outcome, n)), Spelled(stem, outcome, n))
  {
    if n > 0 {
      CaseLinesAppend(stem, outcome, n - 1);
      AppendsOneMore(Kinds(CaseLines(stem, ELLIPSIS, outcome, n - 1)), Spelled(stem, outcome, n - 1),
                     (stem + Numeral(n - 1), outcome));
      CaseLinesStep(stem, outcome, n);
    } else {
      NothingAppends(Kinds([]));
    }
  }

  lemma NothingAppends(part: seq<Kind>)
    requires part == []
    ensures Appends(part, [])
  {
  }

  lemma {:induction false} MangledLinesIdle(stem: string, outcome: string, n: nat)
    requires outcome != ELLIPSIS
    ensures Idle(Kinds(CaseLines(stem, "..", outcome, n)))
  {
    if n > 0 {
      MangledLinesIdle(stem, outcome, n - 1);
      MangledLineReads(stem + Numeral(n - 1), outcome);
      KindsConcat(CaseLines(stem, "..", outcome, n - 1), [CaseLine(stem + Numeral(n - 1), "..", outcome)]);
    }
  }

  lemma SummaryTokensRead(v: string, p: string, f: string, i: string, m: string, x: string)
    requires IsVerdict(v) && IsDigits(p) && IsDigits(f) && IsDigits(i) && IsDigits(m) && IsDigits(x)
    ensures SummaryOf(SummaryTokens(v, p, f, i, m, x))
         == Some(Summary(ParseNat(p), ParseNat(f), ParseNat(i), ParseNat(m), ParseNat(x)))
  {
  }

  predicate NoDotStart(s: string) { s == "" || s[0] != '.' }

  lemma NoEllipsisNoCase(line: Line)
    requires forall k :: 0 <= k < |line| ==> NoDotStart(line[k])
    ensures CaseOf(line).None?
  {
    if |line| >= 4 { assert EllipsisFrom(line, 2) == |line|; }
  }

  lemma SummaryTokensNoCase(v: string, p: string, f: string, i: string, m: string, x: string)
    requires NoDotStart(v) && NoDotStart(p) && NoDotStart(f) && NoDotStart(i) && NoDotStart(m) && NoDotStart(x)
    ensures CaseOf(SummaryTokens(v, p, f, i, m, x)).None?
  {
    NoEllipsisNoCase(SummaryTokens(v, p, f, i, m, x));
  }

  lemma VerdictReads(failed: nat)
    ensures IsVerdict(Verdict(failed)) && NoDotStart(Verdict(failed))
  {
  }

  lemma SummaryReads(passed: nat, failed: nat, ignored: nat, filtered: nat)
    ensures var line := SummaryLine(passed, failed, ignored, filtered);
            SummaryOf(line) == Some(Summary(passed, failed, ignored, 0, filtered)) && CaseOf(line).None?
  {
    NumeralParses(passed);
    NumeralParses(failed);
    NumeralParses(ignored);
    NumeralParses(0);
    NumeralParses(filtered);
    VerdictReads(failed);
    SummaryTokensRead(Verdict(failed), Numeral(passed), Numeral(failed), Numeral(ignored), Numeral(0),
                      Numeral(filtered));
    SummaryTokensNoCase(Verdict(failed), Numeral(passed), Numeral(failed), Numeral(ignored), Numeral(0),
                        Numeral(filtered));
  }

  function Tail(line: Line): seq<Line> { [[""]] + [line] + [[""]] }

  /** Wherever it is read, the part adds these counts and no case. */
  ghost predicate Tallies(part: seq<Kind>, counts: Counts) {
    forall r: Reading :: var end := Read(r, part);
             end.names == r.names && end.summed && end.counts == Add(r.counts, counts)
  }

  lemma SummaryTallies(kind: Kind)
    requires kind.asSummary.Some? && kind.asCase.None?
    ensures Tallies([kind], CountIn(kind))
  {
  }

  lemma TalliesBetween(before: seq<Kind>, part: seq<Kind>, after: seq<Kind>, counts: Counts)
    requires Idle(before) && Tallies(part, counts) && Idle(after)
    ensures Tallies(before + part + after, counts)
  {
    forall r: Reading ensures var end := Read(r, before + part + after);
             end.names == r.names && end.summed && end.counts == Add(r.counts, counts) {
      ReadConcat(r, before, part);
      ReadConcat(r, before + part, after);
      IdleReadsNothing(r, before);
      IdleReadsNothing(Read(r, before + part), after);
    }
  }

  lemma TailKinds(line: Line)
    requires CaseOf(line).None?
    ensures exists blank :: Idle([blank]) && Kinds(Tail(line)) == [blank] + [KindOf(line)] + [blank]
  {
    NotATestLine([""]);
    var blank := KindOf([""]);
    assert Idle([blank]);
  }

  lemma SummaryBetweenBlanks(line: Line, counts: Counts)
    requires CaseOf(line).None? && SummaryOf(line).Some? && counts == CountIn(KindOf(line))
    ensures Tallies(Kinds(Tail(line)), counts)
  {
    TailKinds(line);
    var kind := KindOf(line);
    var blank :| Idle([blank]) && Kinds(Tail(line)) == [blank] + [kind] + [blank];
    SummaryTallies(kind);
    TalliesBetween([blank], [kind], [blank], counts);
  }

  lemma TailTallies(passed: nat, failed: nat, ignored: nat, filtered: nat)
    ensures Tallies(Kinds(Tail(SummaryLine(passed, failed, ignored, filtered))),
                    Counts(passed + failed, ignored, filtered, 0))
  {
    SummaryReads(passed, failed, ignored, filtered);
    SummaryBetweenBlanks(SummaryLine(passed, failed, ignored, filtered), Counts(passed + failed, ignored, filtered, 0));
  }

  function AllCases(passed: nat, failed: nat, ignored: nat): seq<(string, string)> {
    Spelled(PASSES, "ok", passed) + Spelled(SKIPS, "ignored", ignored) + Spelled(FAILS, "FAILED", failed)
  }

  lemma CaseSectionAppends(passed: nat, failed: nat, ignored: nat)
    ensures Appends(Kinds(CaseSection(passed, failed, ignored, ELLIPSIS)), AllCases(passed, failed, ignored))
  {
    CaseLinesAppend(PASSES, "ok", passed);
    CaseLinesAppend(SKIPS, "ignored", ignored);
    CaseLinesAppend(FAILS, "FAILED", failed);
    var a, b := Kinds(CaseLines(PASSES, ELLIPSIS, "ok", passed)), Kinds(CaseLines(SKIPS, ELLIPSIS, "ignored", ignored));
    AppendsConcat(a, Spelled(PASSES, "ok", passed), b, Spelled(SKIPS, "ignored", ignored));
    AppendsConcat(a + b, Spelled(PASSES, "ok", passed) + Spelled(SKIPS, "ignored", ignored),
                  Kinds(CaseLines(FAILS, ELLIPSIS, "FAILED", failed)), Spelled(FAILS, "FAILED", failed));
    SectionKinds(passed, failed, ignored, ELLIPSIS);
  }

  lemma SectionKinds(passed: nat, failed: nat, ignored: nat, separator: string)
    ensures Kinds(CaseSection(passed, failed, ignored, separator))
         == Kinds(CaseLines(PASSES, separator, "ok", passed)) + Kinds(CaseLines(SKIPS, separator, "ignored", ignored))
            + Kinds(CaseLines(FAILS, separator, "FAILED", failed))
  {
  }

  ghost predicate Caseless(part: seq<Line>) {
    Read(START, Kinds(part)) == START.(inside := Read(START, Kinds(part)).inside)
  }

  lemma MangledSectionReads(passed: nat, failed: nat, ignored: nat)
    ensures Caseless(CaseSection(passed, failed, ignored, Separator(true)))
  {
    var a, b, c := CaseLines(PASSES, "..", "ok", passed), CaseLines(SKIPS, "..", "ignored", ignored),
                   CaseLines(FAILS, "..", "FAILED", failed);
    MangledLinesIdle(PASSES, "ok", passed);
    MangledLinesIdle(SKIPS, "ignored", ignored);
    MangledLinesIdle(FAILS, "FAILED", failed);
    IdleReadsNothing(START, Kinds(a));
    ReadParts(START, a, b);
    IdleReadsNothing(Read(START, Kinds(a)), Kinds(b));
    ReadParts(START, a + b, c);
    IdleReadsNothing(Read(START, Kinds(a + b)), Kinds(c));
  }

  /** A log whose parts around the case section are idle but for the counts at its end. */
  lemma AroundCases(head: seq<Kind>, cases: seq<Kind>, fails: seq<Kind>, tail: seq<Kind>, mid: Reading, counts: Counts)
    requires Read(START, head) == START && Read(START, cases) == mid && mid.counts == START.counts
    requires Idle(fails) && Tallies(tail, counts)
    ensures var end := Read(START, head + cases + fails + tail);
            end.summed && end.counts == counts && end.names == mid.names
  {
    ReadConcat(START, head, cases);
    ReadConcat(START, head + cases, fails);
    IdleReadsNothing(mid, fails);
    ReadConcat(START, head + cases + fails, tail);
  }

  lemma KindsOfFour(a: seq<Line>, b: seq<Line>, c: seq<Line>, d: seq<Line>)
    ensures Kinds(a + b + c + d) == Kinds(a) + Kinds(b) + Kinds(c) + Kinds(d)
  {
  }

  lemma LogOfParts(head: seq<Line>, cases: seq<Line>, fails: seq<Line>, tail: seq<Line>, mid: Reading, counts: Counts)
    requires Read(START, Kinds(head)) == START && Read(START, Kinds(cases)) == mid && mid.counts == START.counts
    requires Idle(Kinds(fails)) && Tallies(Kinds(tail), counts)
    ensures var log := head + cases + fails + tail;
            CountResults(log) == Some(counts) && Pairs(ReadCases(log)) == mid.names && |ReadCases(log)| == |mid.names|
  {
    AroundCases(Kinds(head), Kinds(cases), Kinds(fails), Kinds(tail), mid, counts);
    KindsOfFour(head, cases, fails, tail);
    OnePass(head + cases + fails + tail);
  }

  /** What the printed log reads as, given what its case section does. */
  lemma PrintedLogReads(dir: string, n: nat, cases: seq<Line>, fails: nat, line: Line, mid: Reading, counts: Counts)
    requires Read(START, Kinds(cases)) == mid && mid.counts == START.counts
    requires Tallies(Kinds(Tail(line)), counts)
    ensures var log := Preamble(dir, n) + cases + Failures(fails) + Tail(line);
            CountResults(log) == Some(counts) && Pairs(ReadCases(log)) == mid.names && |ReadCases(log)| == |mid.names|
  {
    PreambleReads(dir, n);
    FailuresIdle(fails);
    LogOfParts(Preamble(dir, n), cases, Failures(fails), Tail(line), mid, counts);
  }

  lemma CasesLogReads(dir: string, n: nat, cases: seq<Line>, fails: nat, line: Line,
                      names: seq<(string, string)>, counts: Counts)
    requires Appends(Kinds(cases), names) && Tallies(Kinds(Tail(line)), counts)
    ensures var log := Preamble(dir, n) + cases + Failures(fails) + Tail(line);
            CountResults(log) == Some(counts) && Pairs(ReadCases(log)) == names && |ReadCases(log)| == |names|
  {
    AppendsTo(START, Kinds(cases), names);
    PrintedLogReads(dir, n, cases, fails, line, WithNames(START, names), counts);
  }

  lemma CaselessLogReads(dir: string, n: nat, cases: seq<Line>, fails: nat, line: Line, counts: Counts)
    requires Caseless(cases) && Tallies(Kinds(Tail(line)), counts)
    ensures var log := Preamble(dir, n) + cases + Failures(fails) + Tail(line);
            CountResults(log) == Some(counts) && ReadCases(log) == []
  {
    PrintedLogReads(dir, n, cases, fails, line, Read(START, Kinds(cases)), counts);
  }

  /** The two readings of a printed log agree: for all counts there is a summary, the cases
      read are exactly the passing, ignored and failing ones in order, and they number what
      the summary implies. */
  lemma ReadingsAgree(dir: string, passed: nat, failed: nat, ignored: nat, filtered: nat)
    ensures var log := LogOf(dir, passed, failed, ignored, filtered, false);
            && CountResults(log) == Some(Counts(passed + failed, ignored, filtered, 0))
            && Pairs(ReadCases(log)) == AllCases(passed, failed, ignored)
            && |ReadCases(log)| == Counts(passed + failed, ignored, filtered, 0).Lines()
  {
    CaseSectionAppends(passed, failed, ignored);
    TailTallies(passed, failed, ignored, filtered);
    CasesLogReads(dir, passed + failed + ignored, CaseSection(passed, failed, ignored, ELLIPSIS), failed,
                  SummaryLine(passed, failed, ignored, filtered), AllCases(passed, failed, ignored),
                  Counts(passed + failed, ignored, filtered, 0));
    AllCasesLength(passed, failed, ignored);
  }

  lemma AllCasesLength(passed: nat, failed: nat, ignored: nat)
    ensures |AllCases(passed, failed, ignored)| == passed + failed + ignored
  {
    SpelledLength(PASSES, "ok", passed);
    SpelledLength(SKIPS, "ignored", ignored);
    SpelledLength(FAILS, "FAILED", failed);
  }

  /** A changed separator leaves the summary readable and no case: the readings differ by
      every case the summary implies. */
  lemma MangledReadsNoCase(dir: string, passed: nat, failed: nat, ignored: nat, filtered: nat)
    ensures var log := LogOf(dir, passed, failed, ignored, filtered, true);
            CountResults(log) == Some(Counts(passed + failed, ignored, filtered, 0)) && ReadCases(log) == []
  {
    MangledSectionReads(passed, failed, ignored);
    TailTallies(passed, failed, ignored, filtered);
    CaselessLogReads(dir, passed + failed + ignored, CaseSection(passed, failed, ignored, Separator(true)), failed,
                     SummaryLine(passed, failed, ignored, filtered), Counts(passed + failed, ignored, filtered, 0));
  }
}

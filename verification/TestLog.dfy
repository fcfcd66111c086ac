/** The two readings of one libtest log: the summary counts and the per-case lines. A line is
    held as its pieces between single spaces, `line.split(" ")`. */
module TestLog {
  import opened Text

  type Line = seq<string>

  // ---- numerals ----------------------------------------------------------------------------

  function DigitChar(d: nat): char requires d < 10 { ['0', '1', '2', '3', '4', '5', '6', '7', '8', '9'][d] }

  function DigitValue(c: char): nat requires IsDigit(c) { c as nat - '0' as nat }

  function Numeral(n: nat): string {
    if n < 10 then [DigitChar(n)] else Numeral(n / 10) + [DigitChar(n % 10)]
  }

  function ParseNat(s: string): nat
    requires forall k :: 0 <= k < |s| ==> IsDigit(s[k])
  {
    if s == "" then 0 else ParseNat(s[..|s| - 1]) * 10 + DigitValue(s[|s| - 1])
  }

  lemma {:induction false} NumeralParses(n: nat)
    ensures IsDigits(Numeral(n)) && ParseNat(Numeral(n)) == n
  {
    if n < 10 {
      assert Numeral(n)[..0] == "";
    } else {
      NumeralParses(n / 10);
      var s := Numeral(n);
      assert s[..|s| - 1] == Numeral(n / 10);
    }
  }

  // ---- what a line is to each reader ----------------------------------------------------------

  datatype Summary = Summary(passed: nat, failed: nat, ignored: nat, measured: nat, filtered: nat)

  /** `\w+\.` */
  predicate IsVerdict(s: string) {
    |s| >= 2 && s[|s| - 1] == '.' && forall k :: 0 <= k < |s| - 1 ==> IsWordChar(s[k])
  }

  /** `RESULT_LINE`: a line may go on after `filtered out`. */
  function SummaryOf(line: Line): Option<Summary> {
    if |line| >= 14 && line[0] == "test" && line[1] == "result:" && IsVerdict(line[2])
       && IsDigits(line[3]) && line[4] == "passed;" && IsDigits(line[5]) && line[6] == "failed;"
       && IsDigits(line[7]) && line[8] == "ignored;" && IsDigits(line[9]) && line[10] == "measured;"
       && IsDigits(line[11]) && line[12] == "filtered" && "out" <= line[13]
    then Some(Summary(ParseNat(line[3]), ParseNat(line[5]), ParseNat(line[7]), ParseNat(line[9]), ParseNat(line[11])))
    else None
  }

  const ELLIPSIS := "..."

  /** The first ellipsis at or after a position, or the length. */
  function EllipsisFrom(line: Line, i: nat): (t: nat)
    requires i <= |line|
    ensures i <= t <= |line| && (t < |line| ==> line[t] == ELLIPSIS)
    ensures forall k :: i <= k < t ==> line[k] != ELLIPSIS
    decreases |line| - i
  {
    if i == |line| || line[i] == ELLIPSIS then i else EllipsisFrom(line, i + 1)
  }

  predicate IsSpace(c: char) { c == ' ' || c == '\t' || c == '\n' || c == '\r' }

  function StripBlanks(s: string): string {
    if |s| > 1 && (s[|s| - 1] == ' ' || s[|s| - 1] == '\t') then StripBlanks(s[..|s| - 1]) else s
  }

  /** `CASE_LINE`: `test <name> ... <outcome>`, split at the first ellipsis after the name. */
  function CaseOf(line: Line): Option<(string, string)> {
    if |line| < 4 || line[0] != "test" || line[1] == "" || IsSpace(line[1][0]) then None
    else
      var t := EllipsisFrom(line, 2);
      if t + 1 >= |line| then None
      else
        var outcome := Join(line[t + 1..], ' ');
        if outcome == "" then None else Some((Join(line[1..t], ' '), StripBlanks(outcome)))
  }

  /** The name in `---- <name> stdout ----`. */
  function BlockName(line: Line): Option<string> {
    var n := |line|;
    if n >= 4 && line[0] == "----" && line[n - 1] == "----" && (line[n - 2] == "stdout" || line[n - 2] == "stderr")
       && Join(line[1..n - 2], ' ') != ""
    then Some(Join(line[1..n - 2], ' '))
    else None
  }

  /** A failure block runs to the next such line. */
  predicate Delimits(line: Line) { (|line| >= 2 && line[0] == "----") || line == ["failures:"] }

  /** Everything the readers make of one line. */
  datatype Kind = Kind(asCase: Option<(string, string)>, asSummary: Option<Summary>, delimits: bool, opens: bool)

  function KindOf(line: Line): Kind { Kind(CaseOf(line), SummaryOf(line), Delimits(line), BlockName(line).Some?) }

  function Kinds(log: seq<Line>): seq<Kind> { seq(|log|, k requires 0 <= k < |log| => KindOf(log[k])) }

  // ---- failure blocks ---------------------------------------------------------------------------

  /** A block needs a line after its opening one. */
  predicate Opens(log: seq<Line>, k: nat)
    requires k < |log|
  {
    k + 1 < |log| && BlockName(log[k]).Some?
  }

  /** The line is part of a failure block: the last delimiter up to it opened one. */
  predicate Inside(log: seq<Line>, k: nat)
    requires k < |log|
  {
    if Delimits(log[k]) then Opens(log, k) else k > 0 && Inside(log, k - 1)
  }

  /** Where the block opened at `k` ends. */
  function BlockEnd(log: seq<Line>, k: nat): (e: nat)
    requires k <= |log|
    ensures k <= e <= |log| && (e < |log| ==> Delimits(log[e]))
    ensures forall j :: k <= j < e ==> !Delimits(log[j])
    decreases |log| - k
  {
    if k == |log| || Delimits(log[k]) then k else BlockEnd(log, k + 1)
  }

  // ---- the per-case reading ---------------------------------------------------------------------

  /** One case; its detail is the bodies of the failure blocks of its name. */
  datatype Case = Case(name: string, outcome: string, detail: seq<seq<Line>>) {
    predicate Failed() { "FAILED" <= outcome }
    predicate Skipped() { "ignored" <= outcome }
  }

  /** The bodies of the blocks opened before line `n`, under their names. */
  function Panics(log: seq<Line>, n: nat, name: string): seq<seq<Line>>
    requires n <= |log|
  {
    if n == 0 then []
    else
      Panics(log, n - 1, name)
      + (if Opens(log, n - 1) && BlockName(log[n - 1]).value == name
         then [log[n..BlockEnd(log, n)]] else [])
  }

  /** The cases of the first `n` lines: the case lines outside every block. */
  function CasesUpTo(log: seq<Line>, n: nat): seq<Case>
    requires n <= |log|
  {
    if n == 0 then []
    else
      CasesUpTo(log, n - 1)
      + (if CaseOf(log[n - 1]).Some? && !Inside(log, n - 1)
         then [Case(CaseOf(log[n - 1]).value.0, CaseOf(log[n - 1]).value.1,
                    Panics(log, |log|, CaseOf(log[n - 1]).value.0))]
         else [])
  }

  function ReadCases(log: seq<Line>): seq<Case> { CasesUpTo(log, |log|) }

  // ---- the summary reading -------------------------------------------------------------------------

  /** One target's summary, summed over the summary lines of its log. */
  datatype Counts = Counts(executed: nat, ignored: nat, filtered: nat, measured: nat) {
    /** How many per-case lines that summary implies. */
    function Lines(): nat { executed + ignored + measured }
  }

  function Add(c: Counts, d: Counts): Counts {
    Counts(c.executed + d.executed, c.ignored + d.ignored, c.filtered + d.filtered, c.measured + d.measured)
  }

  /** What one line adds: a failed case was executed too. */
  function CountIn(kind: Kind): Counts {
    match kind.asSummary
    case Some(s) => Counts(s.passed + s.failed, s.ignored, s.filtered, s.measured)
    case None => Counts(0, 0, 0, 0)
  }

  function Total(kinds: seq<Kind>): Counts {
    if kinds == [] then Counts(0, 0, 0, 0) else Add(Total(kinds[..|kinds| - 1]), CountIn(kinds[|kinds| - 1]))
  }

  predicate HasSummary(kinds: seq<Kind>) {
    kinds != [] && (HasSummary(kinds[..|kinds| - 1]) || kinds[|kinds| - 1].asSummary.Some?)
  }

  /** `count_results` of one log: `None` when it has no summary line. */
  function CountResults(log: seq<Line>): Option<Counts> {
    if HasSummary(Kinds(log)) then Some(Total(Kinds(log))) else None
  }

  // ---- the two loops of `read_cases` -----------------------------------------------------------------

  /** The ranges found in the first `n` lines cover exactly the lines inside a block. */
  ghost predicate RangesExact(log: seq<Line>, n: nat, ranges: seq<(nat, nat)>)
    requires n <= |log|
  {
    && (forall r :: r in ranges ==> r.1 <= n)
    && (forall k :: 0 <= k < n ==> (Inside(log, k) <==> Covered(ranges, k)))
    && (0 < n < |log| && !Delimits(log[n]) ==> !Inside(log, n - 1))
  }

  ghost predicate PanicsExact(log: seq<Line>, n: nat, panics: map<string, seq<seq<Line>>>)
    requires n <= |log|
  {
    forall name :: Row(panics, name) == Panics(log, n, name)
  }

  function Row(panics: map<string, seq<seq<Line>>>, name: string): seq<seq<Line>> {
    if name in panics then panics[name] else []
  }

  /** What the first pass finds: each block's range, and its body under its name. */
  method FindBlocks(log: seq<Line>) returns (ranges: seq<(nat, nat)>, panics: map<string, seq<seq<Line>>>)
    ensures RangesExact(log, |log|, ranges) && PanicsExact(log, |log|, panics)
  {
    ranges, panics := [], map[];
    var at := 0;
    while at < |log|
      invariant at <= |log|
      invariant RangesExact(log, at, ranges) && PanicsExact(log, at, panics)
      decreases |log| - at
    {
      if Opens(log, at) {
        var name := BlockName(log[at]).value;
        var end := BlockEnd(log, at + 1);
        OpenRanges(log, at, end, ranges);
        OpenPanics(log, at, end, panics);
        panics := panics[name := Row(panics, name) + [log[at + 1..end]]];
        ranges := ranges + [(at, end)];
        at := end;
      } else {
        SkipRanges(log, at, ranges);
        at := at + 1;
      }
    }
  }

  lemma OpenRanges(log: seq<Line>, at: nat, end: nat, ranges: seq<(nat, nat)>)
    requires at < |log| && Opens(log, at) && end == BlockEnd(log, at + 1) && RangesExact(log, at, ranges)
    ensures RangesExact(log, end, ranges + [(at, end)])
  {
    BlockIsRange(log, at, end);
    CoveredSnoc(ranges, (at, end));
  }

  lemma SkipRanges(log: seq<Line>, at: nat, ranges: seq<(nat, nat)>)
    requires at < |log| && !Opens(log, at) && RangesExact(log, at, ranges)
    ensures RangesExact(log, at + 1, ranges)
  {
    PastTheRanges(ranges, at);
  }

  lemma OpenPanics(log: seq<Line>, at: nat, end: nat, panics: map<string, seq<seq<Line>>>)
    requires at < |log| && Opens(log, at) && end == BlockEnd(log, at + 1) && PanicsExact(log, at, panics)
    ensures var name := BlockName(log[at]).value;
            PanicsExact(log, end, panics[name := Row(panics, name) + [log[at + 1..end]]])
  {
    OneBlock(log, at, end);
  }


  lemma PastTheRanges(ranges: seq<(nat, nat)>, k: nat)
    requires forall r :: r in ranges ==> r.1 <= k
    ensures !Covered(ranges, k)
  {
  }

  /** `read_cases`: the first pass finds the blocks, the second keeps the case lines no block
      covers. Together they are the one-pass reading. */
  method ReadCasesByRanges(log: seq<Line>) returns (cases: seq<Case>)
    ensures cases == ReadCases(log)
  {
    var ranges, panics := FindBlocks(log);
    cases := [];
    for k := 0 to |log|
      invariant cases == CasesUpTo(log, k)
    {
      var found := CaseOf(log[k]);
      CaseStep(log, k, ranges, panics);
      if found.Some? && !Covered(ranges, k) {
        cases := cases + [Case(found.value.0, found.value.1, Row(panics, found.value.0))];
      }
    }
  }

  lemma CaseStep(log: seq<Line>, k: nat, ranges: seq<(nat, nat)>, panics: map<string, seq<seq<Line>>>)
    requires k < |log| && RangesExact(log, |log|, ranges) && PanicsExact(log, |log|, panics)
    ensures CasesUpTo(log, k + 1) == CasesUpTo(log, k)
              + (if CaseOf(log[k]).Some? && !Covered(ranges, k)
                 then [Case(CaseOf(log[k]).value.0, CaseOf(log[k]).value.1, Row(panics, CaseOf(log[k]).value.0))]
                 else [])
  {
    assert Inside(log, k) <==> Covered(ranges, k);
    if CaseOf(log[k]).Some? {
      assert Row(panics, CaseOf(log[k]).value.0) == Panics(log, |log|, CaseOf(log[k]).value.0);
    }
  }

  predicate Covered(ranges: seq<(nat, nat)>, k: int) { exists r :: r in ranges && r.0 <= k < r.1 }

  lemma CoveredSnoc(ranges: seq<(nat, nat)>, r: (nat, nat))
    ensures forall k :: Covered(ranges + [r], k) <==> Covered(ranges, k) || r.0 <= k < r.1
  {
    forall k ensures Covered(ranges + [r], k) <==> Covered(ranges, k) || r.0 <= k < r.1 {
      assert forall q :: q in ranges + [r] <==> q in ranges || q == r;
    }
  }

  /** Every line of an opened block is inside. */
  lemma {:induction false} BlockIsRange(log: seq<Line>, at: nat, end: nat)
    requires at < end <= |log| && Opens(log, at)
    requires forall j :: at < j < end ==> !Delimits(log[j])
    ensures forall k :: at <= k < end ==> Inside(log, k)
    decreases end
  {
    OpenerDelimits(log[at]);
    if at + 1 < end { BlockIsRange(log, at, end - 1); }
  }

  lemma OpenerDelimits(line: Line)
    requires BlockName(line).Some?
    ensures Delimits(line)
  {
  }

  /** No other block opens between a block's opening line and its end. */
  lemma {:induction false} OneBlock(log: seq<Line>, at: nat, end: nat)
    requires at < end <= |log| && Opens(log, at) && forall j :: at < j < end ==> !Delimits(log[j])
    ensures forall name ::
              Panics(log, end, name) == Panics(log, at, name)
                + (if BlockName(log[at]).value == name then [log[at + 1..BlockEnd(log, at + 1)]] else [])
    decreases end
  {
    if at + 1 < end {
      OneBlock(log, at, end - 1);
      if BlockName(log[end - 1]).Some? { OpenerDelimits(log[end - 1]); }
    }
  }
}

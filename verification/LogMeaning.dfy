/** The readings of a libtest log in words: each pattern as the lines it matches, and the cases,
    their failure texts and the counts by the lines they come from. */
module LogMeaning {
  import opened Text
  import opened TestLog

  // ---- patterns ------------------------------------------------------------------------------------

  predicate WordCharacter(c: char) { 'a' <= c <= 'z' || 'A' <= c <= 'Z' || '0' <= c <= '9' || c == '_' }

  predicate DigitsOnly(s: string) { s != "" && forall k :: 0 <= k < |s| ==> '0' <= s[k] <= '9' }

  /** A word and a full stop. */
  predicate VerdictWord(v: string) {
    |v| >= 2 && v[|v| - 1] == '.' && forall k :: 0 <= k < |v| - 1 ==> WordCharacter(v[k])
  }

  /** `test result: <verdict> <n> passed; <n> failed; <n> ignored; <n> measured; <n> filtered out`,
      whatever follows. */
  predicate SummaryInWords(line: Line, s: Summary) {
    && |line| >= 14 && line[0] == "test" && line[1] == "result:" && VerdictWord(line[2])
    && line[4] == "passed;" && line[6] == "failed;" && line[8] == "ignored;" && line[10] == "measured;"
    && line[12] == "filtered" && "out" <= line[13]
    && CountIs(line[3], s.passed) && CountIs(line[5], s.failed) && CountIs(line[7], s.ignored)
    && CountIs(line[9], s.measured) && CountIs(line[11], s.filtered)
  }

  predicate CountIs(digits: string, n: nat) { DigitsOnly(digits) && ParseNat(digits) == n }

  lemma SummaryIs(line: Line, s: Summary)
    ensures SummaryOf(line) == Some(s) <==> SummaryInWords(line, s)
  {
  }

  /** A numeral with a zero before it is the same number. */
  lemma {:induction false} LeadingZero(s: string)
    requires DigitsOnly(s)
    ensures DigitsOnly("0" + s) && ParseNat("0" + s) == ParseNat(s)
  {
    var t := "0" + s;
    assert t[..|t| - 1] == "0" + s[..|s| - 1];
    if |s| > 1 { LeadingZero(s[..|s| - 1]); } else { assert "0" + s[..0] == "0" && "0"[..0] == ""; }
  }

  predicate IsBlankChar(c: char) { c == ' ' || c == '\t' }

  /** The text without the blanks after it, one character being left in any case. */
  ghost predicate Trimmed(s: string, o: string) {
    && o != "" && o <= s && (forall k :: |o| <= k < |s| ==> IsBlankChar(s[k]))
    && (|o| == 1 || !IsBlankChar(o[|o| - 1]))
  }

  lemma {:induction false} StripIs(s: string, o: string)
    requires s != ""
    ensures StripBlanks(s) == o <==> Trimmed(s, o)
  {
    if |s| > 1 && IsBlankChar(s[|s| - 1]) {
      var r := s[..|s| - 1];
      StripIs(r, o);
      assert s == r + [s[|s| - 1]];
      assert o <= s && |o| < |s| ==> o <= r;
    } else if Trimmed(s, o) {
      TrimmedWhole(s, o);
    }
  }

  lemma TrimmedWhole(s: string, o: string)
    requires s != "" && Trimmed(s, o) && (|s| == 1 || !IsBlankChar(s[|s| - 1]))
    ensures o == s
  {
  }

  /** `test <name> ... <outcome>`, at the first ellipsis after the name's first piece. */
  ghost predicate CasePieces(line: Line, t: int, name: string, outcome: string) {
    && 2 <= t < |line| - 1 && line[0] == "test" && line[1] != "" && line[1][0] !in {' ', '\t', '\n', '\r'}
    && line[t] == "..." && (forall k :: 2 <= k < t ==> line[k] != "...")
    && name == Join(line[1..t], ' ') && Trimmed(Join(line[t + 1..], ' '), outcome)
  }

  lemma CaseIs(line: Line, name: string, outcome: string)
    ensures CaseOf(line) == Some((name, outcome)) <==> exists t :: CasePieces(line, t, name, outcome)
  {
    if |line| >= 4 {
      var t := EllipsisFrom(line, 2);
      if t + 1 < |line| && Join(line[t + 1..], ' ') != "" { StripIs(Join(line[t + 1..], ' '), outcome); }
      if CaseOf(line) == Some((name, outcome)) { assert CasePieces(line, t, name, outcome); }
      forall u | CasePieces(line, u, name, outcome) ensures u == t { assert u == t || u < t || t < u; }
    }
  }

  /** `---- <name> stdout ----` or the same of stderr. */
  predicate BlockPieces(line: Line, name: string) {
    && |line| >= 4 && line[0] == "----" && line[|line| - 1] == "----"
    && line[|line| - 2] in {"stdout", "stderr"} && name == Join(line[1..|line| - 2], ' ') && name != ""
  }

  lemma BlockIs(line: Line, name: string)
    ensures BlockName(line) == Some(name) <==> BlockPieces(line, name)
    ensures Delimits(line) <==> (|line| >= 2 && line[0] == "----") || line == ["failures:"]
  {
  }

  // ---- blocks ---------------------------------------------------------------------------------------

  predicate Delimiter(line: Line) { (|line| >= 2 && line[0] == "----") || line == ["failures:"] }

  /** A block of this name is opened at the line, with a line after it. */
  ghost predicate OpensAt(log: seq<Line>, b: int, name: string) { 0 <= b < |log| - 1 && BlockPieces(log[b], name) }

  ghost predicate UndelimitedBetween(log: seq<Line>, b: int, k: int) {
    forall j :: 0 <= j < |log| && b < j <= k ==> !Delimiter(log[j])
  }

  /** The line lies in a block: the last delimiter up to it opens one. */
  ghost predicate InBlock(log: seq<Line>, k: int) {
    exists b, name :: b <= k && OpensAt(log, b, name) && UndelimitedBetween(log, b, k)
  }

  lemma OpensIs(log: seq<Line>, b: nat)
    requires b < |log|
    ensures Opens(log, b) <==> exists name :: OpensAt(log, b, name)
    ensures Opens(log, b) ==> OpensAt(log, b, BlockName(log[b]).value)
  {
    if Opens(log, b) {
      BlockIs(log[b], BlockName(log[b]).value);
      assert OpensAt(log, b, BlockName(log[b]).value);
    }
    if name :| OpensAt(log, b, name) { BlockIs(log[b], name); }
  }

  lemma {:induction false} InsideIs(log: seq<Line>, k: nat)
    requires k < |log|
    ensures Inside(log, k) <==> InBlock(log, k)
  {
    OpensIs(log, k);
    if Delimits(log[k]) {
      if Opens(log, k) { assert UndelimitedBetween(log, k, k); }
      if b, name :| b <= k && OpensAt(log, b, name) && UndelimitedBetween(log, b, k) {
        assert b == k || !Delimiter(log[k]);
      }
    } else {
      if k > 0 { InsideIs(log, k - 1); }
      if b, name :| b <= k && OpensAt(log, b, name) && UndelimitedBetween(log, b, k) {
        assert Delimiter(log[b]);
        assert b <= k - 1 && UndelimitedBetween(log, b, k - 1);
      }
      if k > 0 && InBlock(log, k - 1) {
        var b, name :| b <= k - 1 && OpensAt(log, b, name) && UndelimitedBetween(log, b, k - 1);
        assert UndelimitedBetween(log, b, k);
      }
    }
  }

  // ---- cases, by the lines they come from -----------------------------------------------------------------

  ghost predicate Increasing(at: seq<int>) { forall i, j :: 0 <= i < j < |at| ==> at[i] < at[j] }

  /** A case line outside every block. */
  ghost predicate CountsAsCase(log: seq<Line>, k: int) { 0 <= k < |log| && CaseOf(log[k]).Some? && !InBlock(log, k) }

  /** The lines a block's text runs over: up to the next delimiter or the end. */
  ghost predicate Body(log: seq<Line>, b: int, body: seq<Line>) {
    exists e :: RunsTo(log, b, e) && body == log[b + 1..e]
  }

  ghost predicate RunsTo(log: seq<Line>, b: int, e: int) {
    0 <= b < e <= |log| && UndelimitedBetween(log, b, e - 1) && (e == |log| || Delimiter(log[e]))
  }

  /** The texts of the blocks of a name, in order. */
  ghost predicate TextsOf(log: seq<Line>, name: string, detail: seq<seq<Line>>) {
    exists at: seq<int> ::
      && |at| == |detail| && Increasing(at) && (forall b :: b in at <==> OpensAt(log, b, name))
      && forall i :: 0 <= i < |at| ==> Body(log, at[i], detail[i])
  }

  lemma BodyIs(log: seq<Line>, b: nat)
    requires b + 1 <= |log|
    ensures Body(log, b, log[b + 1..BlockEnd(log, b + 1)])
  {
    var e := BlockEnd(log, b + 1);
    forall j | 0 <= j < |log| && b < j <= e - 1 ensures !Delimiter(log[j]) { assert !Delimits(log[j]); }
    assert RunsTo(log, b, e);
  }

  lemma OpensFor(log: seq<Line>, b: nat, name: string)
    requires b < |log|
    ensures OpensAt(log, b, name) <==> Opens(log, b) && BlockName(log[b]) == Some(name)
  {
    BlockIs(log[b], name);
  }

  lemma {:induction false} PanicsAre(log: seq<Line>, n: nat, name: string) returns (at: seq<int>)
    requires n <= |log|
    ensures |at| == |Panics(log, n, name)| && Increasing(at)
    ensures forall b :: b in at <==> b < n && OpensAt(log, b, name)
    ensures forall i :: 0 <= i < |at| ==> Body(log, at[i], Panics(log, n, name)[i])
  {
    at := [];
    if n > 0 {
      at := PanicsAre(log, n - 1, name);
      OpensFor(log, n - 1, name);
      if Opens(log, n - 1) && BlockName(log[n - 1]).value == name {
        BodyIs(log, n - 1);
        forall i | 0 <= i < |at| ensures at[i] < n - 1 { assert at[i] in at; }
        at := at + [n - 1];
      }
    }
  }

  lemma DetailIs(log: seq<Line>, name: string)
    ensures TextsOf(log, name, Panics(log, |log|, name))
  {
    var at := PanicsAre(log, |log|, name);
    assert forall b :: b in at <==> OpensAt(log, b, name);
  }

  /** The case of a line: its name and outcome, and the texts of the blocks of that name. */
  ghost predicate CaseFrom(log: seq<Line>, k: int, c: Case) {
    0 <= k < |log| && CaseOf(log[k]) == Some((c.name, c.outcome)) && TextsOf(log, c.name, c.detail)
  }

  /** The positions are those of the cases among the first lines. */
  ghost predicate CasesAt(log: seq<Line>, n: nat, cases: seq<Case>, at: seq<int>) {
    && |at| == |cases| && Increasing(at) && (forall k :: k in at <==> k < n && CountsAsCase(log, k))
    && forall i :: 0 <= i < |at| ==> CaseFrom(log, at[i], cases[i])
  }

  lemma CasesAtMore(log: seq<Line>, n: nat, cases: seq<Case>, at: seq<int>, c: Case)
    requires CasesAt(log, n, cases, at) && CountsAsCase(log, n) && CaseFrom(log, n, c)
    ensures CasesAt(log, n + 1, cases + [c], at + [n])
  {
    forall i | 0 <= i < |at| ensures at[i] < n { assert at[i] in at; }
  }

  lemma CasesAtSame(log: seq<Line>, n: nat, cases: seq<Case>, at: seq<int>)
    requires CasesAt(log, n, cases, at) && !CountsAsCase(log, n)
    ensures CasesAt(log, n + 1, cases, at)
  {
  }

  lemma CaseIsFrom(log: seq<Line>, k: nat)
    requires k < |log| && CaseOf(log[k]).Some?
    ensures var (name, outcome) := CaseOf(log[k]).value; CaseFrom(log, k, Case(name, outcome, Panics(log, |log|, name)))
  {
    DetailIs(log, CaseOf(log[k]).value.0);
  }

  lemma {:induction false} CasesAre(log: seq<Line>, n: nat) returns (at: seq<int>)
    requires n <= |log|
    ensures CasesAt(log, n, CasesUpTo(log, n), at)
  {
    if n == 0 {
      at := [];
    } else {
      at := CasesAre(log, n - 1);
      InsideIs(log, n - 1);
      if CaseOf(log[n - 1]).Some? && !Inside(log, n - 1) {
        CaseIsFrom(log, n - 1);
        var (name, outcome) := CaseOf(log[n - 1]).value;
        CasesAtMore(log, n - 1, CasesUpTo(log, n - 1), at, Case(name, outcome, Panics(log, |log|, name)));
        at := at + [n - 1];
      } else {
        CasesAtSame(log, n - 1, CasesUpTo(log, n - 1), at);
        assert CasesUpTo(log, n) == CasesUpTo(log, n - 1);
      }
    }
  }

  /** `read_cases`: the cases in the order of their lines, which are the case lines outside
      every block. */
  ghost predicate CasesInWords(log: seq<Line>, cases: seq<Case>) {
    exists at: seq<int> :: CasesAt(log, |log|, cases, at)
  }

  lemma ReadCasesInWords(log: seq<Line>)
    ensures CasesInWords(log, ReadCases(log))
  {
    var at := CasesAre(log, |log|);
  }

  // ---- counts ---------------------------------------------------------------------------------------------

  /** What each line says as a summary. */
  function Summaries(log: seq<Line>): seq<Option<Summary>> {
    seq(|log|, k requires 0 <= k < |log| => SummaryOf(log[k]))
  }

  /** What they sum up to. */
  function SumOf(said: seq<Option<Summary>>): Counts {
    if said == [] then Counts(0, 0, 0, 0) else AddSummary(SumOf(said[..|said| - 1]), said[|said| - 1])
  }

  function AddSummary(c: Counts, said: Option<Summary>): Counts {
    match said
    case None => c
    case Some(s) => Counts(c.executed + s.passed + s.failed, c.ignored + s.ignored, c.filtered + s.filtered,
                           c.measured + s.measured)
  }

  ghost predicate SaidBy(said: seq<Option<Summary>>, kinds: seq<Kind>) {
    |said| == |kinds| && forall k :: 0 <= k < |said| ==> said[k] == kinds[k].asSummary
  }

  lemma AddsAsKind(c: Counts, kind: Kind)
    ensures AddSummary(c, kind.asSummary) == Add(c, CountIn(kind))
  {
  }

  lemma {:induction false} TotalSums(said: seq<Option<Summary>>, kinds: seq<Kind>)
    requires SaidBy(said, kinds)
    ensures SumOf(said) == Total(kinds)
  {
    if said != [] {
      var n := |said| - 1;
      TotalSums(said[..n], kinds[..n]);
      AddsAsKind(SumOf(said[..n]), kinds[n]);
    }
  }

  ghost predicate SomeSaid(said: seq<Option<Summary>>) { exists k :: 0 <= k < |said| && said[k].Some? }

  lemma SomeSaidStep(said: seq<Option<Summary>>, n: nat)
    requires |said| == n + 1
    ensures SomeSaid(said) <==> SomeSaid(said[..n]) || said[n].Some?
  {
    assert forall k :: 0 <= k < n ==> said[..n][k] == said[k];
  }

  lemma {:induction false} SummariesFound(said: seq<Option<Summary>>, kinds: seq<Kind>)
    requires SaidBy(said, kinds)
    ensures HasSummary(kinds) <==> SomeSaid(said)
  {
    if said != [] {
      var n := |said| - 1;
      SummariesFound(said[..n], kinds[..n]);
      SomeSaidStep(said, n);
    }
  }

  /** `count_results` of a log: nothing without a summary line, else the sums of all of them. */
  lemma CountsInWords(log: seq<Line>)
    ensures CountResults(log).Some? <==> exists k :: 0 <= k < |log| && Summaries(log)[k].Some?
    ensures CountResults(log).Some? ==> CountResults(log).value == SumOf(Summaries(log))
  {
    TotalSums(Summaries(log), Kinds(log));
    SummariesFound(Summaries(log), Kinds(log));
  }
}

/** The printer `_rule` of one `--output=build` record, and the round trip: reading what it
    prints recovers what it was given. */
module BuildPrinter {
  import opened Text
  import opened BuildText

  /** One rule as the fixtures describe it. */
  datatype Rule = Rule(pkg: string, kind: string, name: string, crate: Option<string>,
                       features: Option<seq<string>>, deps: seq<string>, procMacro: seq<string>)

  predicate NoQuote(s: string) { '"' !in s }

  predicate NoQuotes(xs: seq<string>) { forall k :: 0 <= k < |xs| ==> NoQuote(xs[k]) }

  predicate AllOneLine(xs: seq<string>) { forall k :: 0 <= k < |xs| ==> OneLine(xs[k]) }

  /** The grammar's own demands: a package directory and a rule kind of their alphabets, and
      names and labels without an escape or a line end. */
  predicate WellFormed(r: Rule) {
    && IsWord(r.pkg) && IsKind(r.kind) && NoQuote(r.name) && OneLine(r.name)
    && (r.crate.Some? ==> NoQuote(r.crate.value) && OneLine(r.crate.value))
    && (r.features.Some? ==> NoQuotes(r.features.value) && AllOneLine(r.features.value))
    && NoQuotes(r.deps) && AllOneLine(r.deps) && NoQuotes(r.procMacro) && AllOneLine(r.procMacro)
  }

  function QuotedList(xs: seq<string>): string
    decreases |xs|, 0
  {
    if xs == [] then "" else "\"" + xs[0] + "\"" + Remaining(xs[1..])
  }

  function Remaining(xs: seq<string>): string
    decreases |xs|, 1
  {
    if xs == [] then "" else ", " + QuotedList(xs)
  }

  const INSTANTIATED := "# Rule instantiated at (most recent call last):"

  const HEADER_ROOT := "# /abs/path"
  const POSITION := "BUILD.bazel:9:13"

  /** `# /abs/path/crates/<pkg>/BUILD.bazel:9:13`. */
  function HeaderLine(pkg: string): string {
    HEADER_ROOT + ['/'] + ("crates" + ['/'] + (pkg + ['/'] + POSITION))
  }

  function AttrLine(key: string, value: string): string { "  " + (key + ([' '] + ("= " + value))) }

  function QuotedValue(v: string): string { ['"'] + (v + ['"'] + ",") }

  function ListValue(xs: seq<string>): string { "[" + QuotedList(xs) + "]," }

  function HeadLines(r: Rule): seq<string> {
    [HeaderLine(r.pkg), r.kind + "(", AttrLine(NAME, QuotedValue(r.name))]
  }

  /** The extra attribute lines, a crate and a feature list. */
  function OptionalLines(r: Rule): seq<string> { CrateLines(r) + FeaturesLines(r) }

  function CrateLines(r: Rule): seq<string> {
    if r.crate.Some? then [AttrLine(CRATE, QuotedValue(r.crate.value))] else []
  }

  function FeaturesLines(r: Rule): seq<string> {
    if r.features.Some? then [AttrLine(FEATURES, ListValue(r.features.value))] else []
  }

  function DepsLines(r: Rule): seq<string> { [AttrLine(DEPS, ListValue(r.deps))] }

  function ProcMacroLines(r: Rule): seq<string> {
    if r.procMacro != [] then [AttrLine(PROC_MACRO, ListValue(r.procMacro))] else []
  }

  function FootLines(): seq<string> { [")", INSTANTIATED] }

  /** `_rule`. */
  function Print(r: Rule): seq<string> {
    HeadLines(r) + OptionalLines(r) + DepsLines(r) + ProcMacroLines(r) + FootLines()
  }

  function PrintAll(rs: seq<Rule>): seq<string> {
    if rs == [] then [] else PrintAll(rs[..|rs| - 1]) + Print(rs[|rs| - 1])
  }

  /** The text of some records. */
  function PrintText(rs: seq<Rule>): string { Join(PrintAll(rs), '\n') }

  // ---- quoted strings -----------------------------------------------------------------------

  lemma LiteralsStep(pre: string, x: string, post: string)
    requires NoQuote(pre) && NoQuote(x)
    ensures Literals(pre + ['"'] + (x + ['"'] + post)) == [x] + Literals(post)
  {
    var rest := x + ['"'] + post;
    var s := pre + ['"'] + rest;
    IndexPast(pre, rest, '"');
    IndexPast(x, post, '"');
    assert s[|pre| + 1..] == rest;
    assert rest[..|x|] == x && rest[|x| + 1..] == post;
  }

  lemma LiteralsNone(s: string)
    requires NoQuote(s)
    ensures Literals(s) == []
  {
    IndexPast(s, "", '"');
  }

  /** A quotation mark without a second one begins no string. */
  lemma LiteralsUnclosed(pre: string, x: string)
    requires NoQuote(pre) && NoQuote(x)
    ensures Literals(pre + ['"'] + x) == []
  {
    IndexPast(pre, x, '"');
    IndexPast(x, "", '"');
    assert (pre + ['"'] + x)[|pre| + 1..] == x;
  }

  lemma Regroup(a: string, b: string, c: string, d: string, e: string, f: string)
    ensures a + (b + c + d + e) + f == a + b + (c + d + (e + f))
  {
  }

  lemma ListText(pre: string, xs: seq<string>, post: string)
    requires xs != []
    ensures pre + QuotedList(xs) + post == pre + ['"'] + (xs[0] + ['"'] + (Remaining(xs[1..]) + post))
  {
    Regroup(pre, "\"", xs[0], "\"", Remaining(xs[1..]), post);
  }

  /** The string literals of a printed list are the list. */
  lemma {:induction false} LiteralsOfList(pre: string, xs: seq<string>, post: string)
    requires NoQuote(pre) && NoQuotes(xs) && NoQuote(post)
    ensures Literals(pre + QuotedList(xs) + post) == xs
    decreases |xs|
  {
    if xs == [] {
      LiteralsNone(pre + QuotedList(xs) + post);
    } else {
      FirstLiteral(pre, xs, post);
      if |xs| == 1 {
        assert Remaining(xs[1..]) + post == post;
        LiteralsNone(post);
      } else {
        LiteralsOfList(", ", xs[1..], post);
      }
    }
  }

  lemma FirstLiteral(pre: string, xs: seq<string>, post: string)
    requires NoQuote(pre) && xs != [] && NoQuote(xs[0])
    ensures Literals(pre + QuotedList(xs) + post) == [xs[0]] + Literals(Remaining(xs[1..]) + post)
  {
    ListText(pre, xs, post);
    LiteralsStep(pre, xs[0], Remaining(xs[1..]) + post);
  }

  // ---- what each printed line is ----------------------------------------------------------

  /** Only a line starting with `# ` can be a header. */
  lemma HeaderStartsWithHash(line: string)
    requires HeaderPackage(line).Some?
    ensures "# " <= line
  {
    var segs := Split(line, '/');
    if segs[0] == "# crates" {
      JoinSplit(line, '/');
      assert line == "# crates" + ['/'] + Join(segs[1..], '/');
    }
  }

  lemma NoSlashNoHeader(line: string)
    requires '/' !in line
    ensures HeaderPackage(line).None?
  {
    SplitPlain(line, '/');
  }

  lemma IndentedNoHeader(line: string)
    requires line != "" && line[0] == ' '
    ensures HeaderPackage(line).None?
  {
    if HeaderPackage(line).Some? { HeaderStartsWithHash(line); }
  }

  lemma SplitTwo(a: string, b: string, sep: char)
    requires sep !in a && sep !in b
    ensures Split(a + [sep] + b, sep) == [a, b]
  {
    SplitConcat(a, b, sep);
    SplitPlain(a, sep);
    SplitPlain(b, sep);
  }

  lemma PositionFrom(seg: string, at: string)
    requires seg == BUILD_FILE + at
    requires IndexOf(at, ':') < |at| && IsDigits(at[..IndexOf(at, ':')]) && IsDigits(at[IndexOf(at, ':') + 1..])
    ensures IsPosition(seg)
  {
    assert seg[|BUILD_FILE|..] == at;
  }

  lemma PositionIsPosition()
    ensures IsPosition(POSITION)
  {
    var at := "9:13";
    IndexPast("9", "13", ':');
    assert at == "9" + [':'] + "13" && at[..1] == "9" && at[2..] == "13";
    PositionFrom(POSITION, at);
  }

  lemma HeaderSegments(root: string, pkg: string)
    requires IsWord(pkg)
    ensures Split(root + ['/'] + ("crates" + ['/'] + (pkg + ['/'] + POSITION)), '/')
         == Split(root, '/') + ["crates"] + [pkg, POSITION]
  {
    assert '/' !in pkg;
    SplitTwo(pkg, POSITION, '/');
    var tail := pkg + ['/'] + POSITION;
    SplitPlain("crates", '/');
    SplitConcat("crates", tail, '/');
    SplitConcat(root, "crates" + ['/'] + tail, '/');
    assert Split(root, '/') + (["crates"] + [pkg, POSITION]) == Split(root, '/') + ["crates"] + [pkg, POSITION];
  }

  lemma HeaderFromSegments(line: string, init: seq<string>, pkg: string, position: string)
    requires Split(line, '/') == init + ["crates"] + [pkg, position] && init != []
    requires IsWord(pkg) && IsPosition(position) && "# " <= line
    ensures Classify(line) == Header(pkg)
  {
  }

  lemma HeaderClassified(pkg: string)
    requires IsWord(pkg)
    ensures Classify(HeaderLine(pkg)) == Header(pkg)
  {
    PositionIsPosition();
    HeaderSegments(HEADER_ROOT, pkg);
    assert HeaderLine(pkg)[0] == '#' && HeaderLine(pkg)[1] == ' ';
    HeaderFromSegments(HeaderLine(pkg), Split(HEADER_ROOT, '/'), pkg, POSITION);
  }

  lemma OpenClassified(kind: string)
    requires IsKind(kind)
    ensures Classify(kind + "(") == Open(kind)
  {
    var line := kind + "(";
    NoSlashNoHeader(line);
    assert line[..|line| - 1] == kind;
  }

  lemma QuotedRead(v: string)
    requires NoQuote(v)
    ensures Quoted(QuotedValue(v)) == Some(v)
  {
    var rest := v + ['"'] + ",";
    assert QuotedValue(v)[1..] == rest;
    IndexPast(v, ",", '"');
    assert rest[|v| + 1..] == "," && rest[..|v|] == v;
  }

  lemma ListRead(xs: seq<string>)
    requires NoQuotes(xs)
    ensures Literals(ListValue(xs)) == xs
  {
    LiteralsOfList("[", xs, "],");
  }

  lemma AttributeRead(key: string, value: string)
    requires ' ' !in key
    ensures AttributeOf(AttrLine(key, value)) == Some(Attribute(key, value))
  {
    var line, tail := AttrLine(key, value), "= " + value;
    var rest := key + ([' '] + tail);
    assert line[2..] == rest;
    assert rest == key + [' '] + tail;
    IndexPast(key, tail, ' ');
    assert rest[|key|..] == [' '] + tail;
    assert rest[..|key|] == key && rest[|key| + 3..] == value;
  }

  /** A printed attribute is classified by its key alone. */
  lemma AttributeClassified(key: string, value: string)
    requires ' ' !in key && value != "" && value[|value| - 1] == ','
    ensures Classify(AttrLine(key, value)) == ClassifyAttribute(Attribute(key, value))
  {
    var line := AttrLine(key, value);
    AttributeRead(key, value);
    AttrLineEnds(key, value);
    IndentedAttribute(line, Attribute(key, value));
  }

  lemma AttrLineEnds(key: string, value: string)
    requires value != ""
    ensures var line := AttrLine(key, value);
            |line| >= 2 && line[0] == ' ' && line[|line| - 1] == value[|value| - 1]
  {
  }

  lemma IndentedAttribute(line: string, a: Attribute)
    requires |line| >= 2 && line[0] == ' ' && line[|line| - 1] == ',' && AttributeOf(line) == Some(a)
    ensures Classify(line) == ClassifyAttribute(a)
  {
    IndentedNoHeader(line);
  }

  lemma NameClassified(v: string)
    requires NoQuote(v)
    ensures Classify(AttrLine(NAME, QuotedValue(v))) == NameAttr(v)
  {
    AttributeClassified(NAME, QuotedValue(v));
    QuotedRead(v);
  }

  lemma CrateClassified(v: string)
    requires NoQuote(v)
    ensures Classify(AttrLine(CRATE, QuotedValue(v))) == CrateAttr(v)
  {
    AttributeClassified(CRATE, QuotedValue(v));
    QuotedRead(v);
  }

  lemma FeaturesClassified(xs: seq<string>)
    requires NoQuotes(xs)
    ensures Classify(AttrLine(FEATURES, ListValue(xs))) == FeaturesAttr(xs)
  {
    AttributeClassified(FEATURES, ListValue(xs));
    ListRead(xs);
  }

  lemma DepsClassified(xs: seq<string>)
    requires NoQuotes(xs)
    ensures Classify(AttrLine(DEPS, ListValue(xs))) == DepsAttr(xs)
  {
    AttributeClassified(DEPS, ListValue(xs));
    ListRead(xs);
  }

  lemma ProcMacroClassified(xs: seq<string>)
    requires NoQuotes(xs)
    ensures Classify(AttrLine(PROC_MACRO, ListValue(xs))) == DepsAttr(xs)
  {
    AttributeClassified(PROC_MACRO, ListValue(xs));
    ListRead(xs);
  }

  lemma CloseClassified()
    ensures Classify(")") == Close
  {
    NoSlashNoHeader(")");
  }

  lemma TrailerClassified()
    ensures Classify(INSTANTIATED) == Other
  {
    InstantiatedPlain();
    CommentClassified(INSTANTIATED);
  }

  lemma InstantiatedParts()
    ensures INSTANTIATED == "# Rule instantiated at " + "(most recent call last):"
  {
  }

  lemma FirstPartPlain(a: string)
    requires a == "# Rule instantiated at "
    ensures '/' !in a && OneLine(a) && |a| == 23 && a[0] == '#'
  {
  }

  lemma LastPartPlain(b: string)
    requires b == "(most recent call last):"
    ensures '/' !in b && OneLine(b) && |b| == 24 && b[23] == ':'
  {
  }

  lemma PlainParts(s: string, a: string, b: string)
    requires s == a + b && '/' !in a && '/' !in b && OneLine(a) && OneLine(b) && a != "" && b != ""
    ensures '/' !in s && OneLine(s) && s[0] == a[0] && s[|s| - 1] == b[|b| - 1]
  {
  }

  lemma InstantiatedPlain()
    ensures '/' !in INSTANTIATED && OneLine(INSTANTIATED) && |INSTANTIATED| >= 2
    ensures INSTANTIATED[0] == '#' && INSTANTIATED[|INSTANTIATED| - 1] == ':'
  {
    var a, b := "# Rule instantiated at ", "(most recent call last):";
    FirstPartPlain(a);
    LastPartPlain(b);
    InstantiatedParts();
    PlainParts(INSTANTIATED, a, b);
  }

  lemma CommentClassified(line: string)
    requires |line| >= 2 && line[0] == '#' && line[|line| - 1] == ':' && '/' !in line
    ensures Classify(line) == Other
  {
    NoSlashNoHeader(line);
  }

  // ---- the round trip -------------------------------------------------------------------------

  function CrateAttrs(r: Rule): seq<Line> { if r.crate.Some? then [CrateAttr(r.crate.value)] else [] }

  function FeaturesAttrs(r: Rule): seq<Line> {
    if r.features.Some? then [FeaturesAttr(r.features.value)] else []
  }

  function ProcMacroAttrs(r: Rule): seq<Line> { if r.procMacro != [] then [DepsAttr(r.procMacro)] else [] }

  function AttrsOf(r: Rule): seq<Line> {
    [NameAttr(r.name)] + CrateAttrs(r) + FeaturesAttrs(r) + [DepsAttr(r.deps)] + ProcMacroAttrs(r)
  }

  /** The record a printed rule reads as. */
  function BlockOf(r: Rule): Block { Block(Some(r.pkg), r.kind, AttrsOf(r), 1) }

  function BlocksOf(rs: seq<Rule>): seq<Block> {
    seq(|rs|, k requires 0 <= k < |rs| => BlockOf(rs[k]))
  }

  lemma ClassifyConcat(a: seq<string>, b: seq<string>)
    ensures ClassifyAll(a + b) == ClassifyAll(a) + ClassifyAll(b)
  {
  }

  lemma ClassifyOne(line: string, l: Line)
    requires Classify(line) == l
    ensures ClassifyAll([line]) == [l]
  {
  }

  lemma HeadClassified(r: Rule)
    requires WellFormed(r)
    ensures ClassifyAll(HeadLines(r)) == [Header(r.pkg), Open(r.kind), NameAttr(r.name)]
  {
    HeaderClassified(r.pkg);
    OpenClassified(r.kind);
    NameClassified(r.name);
    ClassifyOne(HeaderLine(r.pkg), Header(r.pkg));
    ClassifyOne(r.kind + "(", Open(r.kind));
    ClassifyOne(AttrLine(NAME, QuotedValue(r.name)), NameAttr(r.name));
    ClassifyThree(HeaderLine(r.pkg), r.kind + "(", AttrLine(NAME, QuotedValue(r.name)),
                  Header(r.pkg), Open(r.kind), NameAttr(r.name));
  }

  lemma ClassifyThree(a: string, b: string, c: string, la: Line, lb: Line, lc: Line)
    requires ClassifyAll([a]) == [la] && ClassifyAll([b]) == [lb] && ClassifyAll([c]) == [lc]
    ensures ClassifyAll([a, b, c]) == [la, lb, lc]
  {
    ClassifyConcat([a], [b]);
    ClassifyConcat([a] + [b], [c]);
    assert [a, b, c] == [a] + [b] + [c];
  }

  lemma OptionalClassified(r: Rule)
    requires WellFormed(r)
    ensures ClassifyAll(OptionalLines(r)) == CrateAttrs(r) + FeaturesAttrs(r)
  {
    ClassifyConcat(CrateLines(r), FeaturesLines(r));
    if r.crate.Some? {
      CrateClassified(r.crate.value);
      ClassifyOne(AttrLine(CRATE, QuotedValue(r.crate.value)), CrateAttr(r.crate.value));
    }
    if r.features.Some? {
      FeaturesClassified(r.features.value);
      ClassifyOne(AttrLine(FEATURES, ListValue(r.features.value)), FeaturesAttr(r.features.value));
    }
  }

  lemma DepsLinesClassified(r: Rule)
    requires WellFormed(r)
    ensures ClassifyAll(DepsLines(r)) == [DepsAttr(r.deps)]
    ensures ClassifyAll(ProcMacroLines(r)) == ProcMacroAttrs(r)
  {
    DepsClassified(r.deps);
    ClassifyOne(AttrLine(DEPS, ListValue(r.deps)), DepsAttr(r.deps));
    ProcMacroClassified(r.procMacro);
    ClassifyOne(AttrLine(PROC_MACRO, ListValue(r.procMacro)), DepsAttr(r.procMacro));
  }

  lemma FootClassified()
    ensures ClassifyAll(FootLines()) == [Close, Other]
  {
    CloseClassified();
    TrailerClassified();
    ClassifyOne(")", Close);
    ClassifyOne(INSTANTIATED, Other);
    ClassifyTwo(")", INSTANTIATED, Close, Other);
  }

  lemma ClassifyTwo(a: string, b: string, la: Line, lb: Line)
    requires ClassifyAll([a]) == [la] && ClassifyAll([b]) == [lb]
    ensures ClassifyAll([a, b]) == [la, lb]
  {
    ClassifyConcat([a], [b]);
    assert [a, b] == [a] + [b];
  }

  /** Every printed record reads, line by line, as the rule it was printed from. */
  lemma PrintClassified(r: Rule)
    requires WellFormed(r)
    ensures ClassifyAll(Print(r)) == BlockLines(BlockOf(r))
  {
    ClassifyFive(HeadLines(r), OptionalLines(r), DepsLines(r), ProcMacroLines(r), FootLines());
    HeadClassified(r);
    OptionalClassified(r);
    DepsLinesClassified(r);
    FootClassified();
    BlockLinesOf(r);
  }

  lemma ClassifyFive(a: seq<string>, b: seq<string>, c: seq<string>, d: seq<string>, e: seq<string>)
    ensures ClassifyAll(a + b + c + d + e)
         == ClassifyAll(a) + ClassifyAll(b) + ClassifyAll(c) + ClassifyAll(d) + ClassifyAll(e)
  {
    ClassifyConcat(a, b);
    ClassifyConcat(a + b, c);
    ClassifyConcat(a + b + c, d);
    ClassifyConcat(a + b + c + d, e);
  }

  lemma BlockLinesOf(r: Rule)
    ensures BlockLines(BlockOf(r)) ==
            [Header(r.pkg), Open(r.kind), NameAttr(r.name)] + (CrateAttrs(r) + FeaturesAttrs(r))
            + [DepsAttr(r.deps)] + ProcMacroAttrs(r) + [Close, Other]
  {
    assert seq(1, _ => Other) == [Other];
  }

  lemma {:induction false} PrintAllClassified(rs: seq<Rule>)
    requires forall k :: 0 <= k < |rs| ==> WellFormed(rs[k])
    ensures ClassifyAll(PrintAll(rs)) == TextOf(BlocksOf(rs))
  {
    if rs != [] {
      var init := rs[..|rs| - 1];
      PrintAllClassified(init);
      ClassifyConcat(PrintAll(init), Print(rs[|rs| - 1]));
      PrintClassified(rs[|rs| - 1]);
      assert BlocksOf(rs)[..|rs| - 1] == BlocksOf(init);
    }
  }

  lemma AttrsValid(r: Rule)
    ensures ValidBlock(BlockOf(r))
  {
  }

  lemma BodySnoc(attrs: seq<Line>, last: Line)
    ensures BodyOf(attrs + [last]) == AddAttr(BodyOf(attrs), last)
  {
    assert (attrs + [last])[..|attrs|] == attrs;
  }

  function CrateOf(r: Rule): string { if r.crate.Some? then r.crate.value else "" }

  function FeaturesOf(r: Rule): multiset<string> {
    if r.features.Some? then multiset(r.features.value) else multiset{}
  }

  lemma BodyHead(r: Rule)
    ensures BodyOf([NameAttr(r.name)] + CrateAttrs(r)) == Body(r.name, CrateOf(r), multiset{}, [])
  {
    var name := [NameAttr(r.name)];
    assert [] + [NameAttr(r.name)] == name;
    BodySnoc([], NameAttr(r.name));
    if r.crate.Some? { BodySnoc(name, CrateAttr(r.crate.value)); } else { assert name + CrateAttrs(r) == name; }
  }

  lemma BodyFeatures(r: Rule, before: seq<Line>)
    requires BodyOf(before) == Body(r.name, CrateOf(r), multiset{}, [])
    ensures BodyOf(before + FeaturesAttrs(r)) == Body(r.name, CrateOf(r), FeaturesOf(r), [])
  {
    if r.features.Some? {
      BodySnoc(before, FeaturesAttr(r.features.value));
    } else {
      assert before + FeaturesAttrs(r) == before;
    }
  }

  lemma BodyDeps(r: Rule, before: seq<Line>)
    requires BodyOf(before) == Body(r.name, CrateOf(r), FeaturesOf(r), [])
    ensures BodyOf(before + [DepsAttr(r.deps)] + ProcMacroAttrs(r))
         == Body(r.name, CrateOf(r), FeaturesOf(r), r.deps + r.procMacro)
  {
    BodySnoc(before, DepsAttr(r.deps));
    var deps := before + [DepsAttr(r.deps)];
    assert [] + r.deps == r.deps;
    if r.procMacro != [] {
      BodySnoc(deps, DepsAttr(r.procMacro));
    } else {
      assert deps + ProcMacroAttrs(r) == deps && r.deps + r.procMacro == r.deps;
    }
  }

  /** The body a printed rule's attributes amount to. */
  lemma BodyOfRule(r: Rule)
    ensures BodyOf(AttrsOf(r)) == Body(r.name, CrateOf(r), FeaturesOf(r), r.deps + r.procMacro)
  {
    BodyHead(r);
    BodyFeatures(r, [NameAttr(r.name)] + CrateAttrs(r));
    BodyDeps(r, [NameAttr(r.name)] + CrateAttrs(r) + FeaturesAttrs(r));
  }

  /** Rule `r` contributes label `l` to package `package`. */
  predicate RuleEdge(r: Rule, package: string, l: string) {
    package == Package(r.pkg) && l in r.deps + r.procMacro && IsDepLabel(l) && l != SelfLabel(r.pkg)
  }

  function TestsAmong(rs: seq<Rule>): nat {
    if rs == [] then 0 else TestsAmong(rs[..|rs| - 1]) + (if IsTestKind(rs[|rs| - 1].kind) then 1 else 0)
  }

  lemma {:induction false} BlockCounts(rs: seq<Rule>)
    ensures CountTests(BlocksOf(rs)) == TestsAmong(rs) && CountOrphans(BlocksOf(rs)) == 0
  {
    if rs != [] {
      BlockCounts(rs[..|rs| - 1]);
      assert BlocksOf(rs)[..|rs| - 1] == BlocksOf(rs[..|rs| - 1]);
    }
  }

  /** Reading what was printed gives the merged contributions of the rules printed. */
  lemma PrintedRead(rs: seq<Rule>)
    requires forall k :: 0 <= k < |rs| ==> WellFormed(rs[k])
    ensures Read(ClassifyAll(PrintAll(rs))) == MergeAll(BlocksOf(rs))
  {
    PrintAllClassified(rs);
    BlocksValid(rs);
    TextRead(BlocksOf(rs));
  }

  lemma BlocksValid(rs: seq<Rule>)
    ensures ValidBlocks(BlocksOf(rs))
  {
    forall k | 0 <= k < |rs| ensures ValidBlock(BlocksOf(rs)[k]) { AttrsValid(rs[k]); }
  }

  ghost predicate SomePackage(rs: seq<Rule>, p: string) { exists k :: 0 <= k < |rs| && p == Package(rs[k].pkg) }

  ghost predicate SomeEdge(rs: seq<Rule>, p: string, l: string) { exists k :: 0 <= k < |rs| && RuleEdge(rs[k], p, l) }

  /** What a reading must hold to have recovered the rules: the packages, the tallies, every
      package's labels minus exactly its own lib label and the labels outside the two
      dependency prefixes, and the two tables, a label's last rule giving its row. */
  ghost predicate Recovers(rs: seq<Rule>, read: BuildRead) {
    && read.targets == |rs| && read.rustTests == TestsAmong(rs) && read.orphans == 0
    && (forall p :: p in read.packages <==> SomePackage(rs, p))
    && (forall p, l :: (p, l) in read.edges <==> SomeEdge(rs, p, l))
    && (forall l :: Look(read.libFeatures, l) == LibraryRow(rs, l))
    && (forall l :: Look(read.docTests, l) == DocTestRow(rs, l))
  }

  // ---- the printed text, line by line -----------------------------------------------------------

  lemma {:induction false} QuotedListOneLine(xs: seq<string>)
    requires AllOneLine(xs)
    ensures OneLine(QuotedList(xs))
    decreases |xs|
  {
    if |xs| > 1 { QuotedListOneLine(xs[1..]); }
  }

  lemma AttrOneLine(key: string, value: string)
    requires OneLine(key) && OneLine(value)
    ensures OneLine(AttrLine(key, value))
  {
  }

  lemma ListValueOneLine(xs: seq<string>)
    requires AllOneLine(xs)
    ensures OneLine(ListValue(xs))
  {
    QuotedListOneLine(xs);
  }

  lemma HeadOneLine(r: Rule)
    requires WellFormed(r)
    ensures AllOneLine(HeadLines(r))
  {
    HeaderOneLine(r.pkg);
    OpenOneLine(r.kind);
    AttrOneLine(NAME, QuotedValue(r.name));
  }

  lemma HeaderOneLine(pkg: string)
    requires IsWord(pkg)
    ensures OneLine(HeaderLine(pkg))
  {
    assert OneLine(pkg) && OneLine(POSITION) && OneLine(HEADER_ROOT);
    OneLineConcat(pkg + ['/'], POSITION);
    OneLineConcat("crates" + ['/'], pkg + ['/'] + POSITION);
    OneLineConcat(HEADER_ROOT + ['/'], "crates" + ['/'] + (pkg + ['/'] + POSITION));
  }

  lemma OpenOneLine(kind: string)
    requires IsKind(kind)
    ensures OneLine(kind + "(")
  {
    assert OneLine(kind);
  }

  lemma AttrsOneLine(r: Rule)
    requires WellFormed(r)
    ensures AllOneLine(OptionalLines(r)) && AllOneLine(DepsLines(r)) && AllOneLine(ProcMacroLines(r))
  {
    if r.crate.Some? { AttrOneLine(CRATE, QuotedValue(r.crate.value)); }
    if r.features.Some? {
      ListValueOneLine(r.features.value);
      AttrOneLine(FEATURES, ListValue(r.features.value));
    }
    ListValueOneLine(r.deps);
    AttrOneLine(DEPS, ListValue(r.deps));
    ListValueOneLine(r.procMacro);
    AttrOneLine(PROC_MACRO, ListValue(r.procMacro));
  }

  lemma PrintOneLine(r: Rule)
    requires WellFormed(r)
    ensures AllOneLine(Print(r))
  {
    HeadOneLine(r);
    AttrsOneLine(r);
    InstantiatedPlain();
  }

  lemma {:induction false} PrintAllOneLine(rs: seq<Rule>)
    requires forall k :: 0 <= k < |rs| ==> WellFormed(rs[k])
    ensures AllOneLine(PrintAll(rs))
    ensures rs != [] ==> PrintAll(rs) != [] && PrintAll(rs)[|PrintAll(rs)| - 1] != ""
  {
    if rs != [] {
      PrintAllOneLine(rs[..|rs| - 1]);
      PrintOneLine(rs[|rs| - 1]);
    }
  }

  /** The round trip: reading the printed text recovers the rules it was printed from. */
  lemma RoundTrip(rs: seq<Rule>)
    requires forall k :: 0 <= k < |rs| ==> WellFormed(rs[k])
    ensures Recovers(rs, ReadText(PrintText(rs)))
  {
    PrintedTextRead(rs);
    MergedRecovers(rs, MergeAll(BlocksOf(rs)));
  }

  lemma PrintedTextRead(rs: seq<Rule>)
    requires forall k :: 0 <= k < |rs| ==> WellFormed(rs[k])
    ensures ReadText(PrintText(rs)) == MergeAll(BlocksOf(rs))
  {
    PrintAllOneLine(rs);
    SplitLinesJoin(PrintAll(rs));
    PrintedRead(rs);
  }

  lemma MergedRecovers(rs: seq<Rule>, read: BuildRead)
    requires read == MergeAll(BlocksOf(rs))
    ensures Recovers(rs, read)
  {
    TalliesRead(rs);
    forall p ensures p in read.packages <==> SomePackage(rs, p) { PackagesRead(rs, p); }
    forall p, l ensures (p, l) in read.edges <==> SomeEdge(rs, p, l) { EdgesRead(rs, p, l); }
    forall l ensures Look(read.libFeatures, l) == LibraryRow(rs, l) { LibrariesRead(rs, l); }
    forall l ensures Look(read.docTests, l) == DocTestRow(rs, l) { DocTestsRead(rs, l); }
  }

  lemma TalliesRead(rs: seq<Rule>)
    ensures var read := MergeAll(BlocksOf(rs));
            read.targets == |rs| && read.rustTests == TestsAmong(rs) && read.orphans == 0
  {
    MergedTallies(BlocksOf(rs));
    BlockCounts(rs);
  }

  lemma PackagesRead(rs: seq<Rule>, p: string)
    ensures p in MergeAll(BlocksOf(rs)).packages <==> SomePackage(rs, p)
  {
    var bs := BlocksOf(rs);
    MergedPackages(bs, p);
    assert forall k :: 0 <= k < |rs| ==> (InPackage(bs[k], p) <==> p == Package(rs[k].pkg));
  }

  lemma EdgesRead(rs: seq<Rule>, p: string, l: string)
    ensures (p, l) in MergeAll(BlocksOf(rs)).edges <==> SomeEdge(rs, p, l)
  {
    var bs := BlocksOf(rs);
    MergedEdges(bs, p, l);
    forall k | 0 <= k < |rs| ensures BlockEdge(bs[k], p, l) <==> RuleEdge(rs[k], p, l) { BodyOfRule(rs[k]); }
  }

  // ---- the two tables ---------------------------------------------------------------------------

  predicate IsLibrary(r: Rule, l: string) {
    r.kind == "rust_library" && r.name != "" && l == TargetLabel(r.pkg, r.name)
  }

  predicate IsDocTest(r: Rule, l: string) {
    r.kind == "rust_doc_test" && r.name != "" && l == TargetLabel(r.pkg, r.name)
  }

  /** The features of the last library rule of a label. */
  function LibraryRow(rs: seq<Rule>, l: string): Option<multiset<string>> {
    if rs == [] then None
    else if IsLibrary(rs[|rs| - 1], l) then Some(FeaturesOf(rs[|rs| - 1]))
    else LibraryRow(rs[..|rs| - 1], l)
  }

  /** The crate and features of the last doctest rule of a label. */
  function DocTestRow(rs: seq<Rule>, l: string): Option<(string, multiset<string>)> {
    if rs == [] then None
    else if IsDocTest(rs[|rs| - 1], l) then Some((CrateOf(rs[|rs| - 1]), FeaturesOf(rs[|rs| - 1])))
    else DocTestRow(rs[..|rs| - 1], l)
  }

  lemma ContributedTables(r: Rule, l: string)
    ensures Look(Contribution(BlockOf(r)).libFeatures, l) == (if IsLibrary(r, l) then Some(FeaturesOf(r)) else None)
    ensures Look(Contribution(BlockOf(r)).docTests, l)
         == (if IsDocTest(r, l) then Some((CrateOf(r), FeaturesOf(r))) else None)
  {
    BodyOfRule(r);
  }

  lemma {:induction false} LibrariesRead(rs: seq<Rule>, l: string)
    ensures LibraryRow(rs, l) == Look(MergeAll(BlocksOf(rs)).libFeatures, l)
  {
    if rs != [] {
      var init, last := rs[..|rs| - 1], rs[|rs| - 1];
      LibrariesRead(init, l);
      assert BlocksOf(rs)[..|rs| - 1] == BlocksOf(init);
      ContributedTables(last, l);
    }
  }

  lemma {:induction false} DocTestsRead(rs: seq<Rule>, l: string)
    ensures DocTestRow(rs, l) == Look(MergeAll(BlocksOf(rs)).docTests, l)
  {
    if rs != [] {
      var init, last := rs[..|rs| - 1], rs[|rs| - 1];
      DocTestsRead(init, l);
      assert BlocksOf(rs)[..|rs| - 1] == BlocksOf(init);
      ContributedTables(last, l);
    }
  }
}

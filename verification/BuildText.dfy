/** The `bazel query --output=build` reader of the BUILD drift gate: a line-driven state
    machine, the printer of one rule record, and how the two fit together. */
module BuildText {
  import opened Text

  // ---- lines -------------------------------------------------------------------------

  /** What one line of the output is to the reader. */
  datatype Line =
    | Header(pkg: string)
    | Open(kind: string)
    | Close
    | NameAttr(value: string)
    | CrateAttr(value: string)
    | FeaturesAttr(literals: seq<string>)
    | DepsAttr(literals: seq<string>)
    | Other

  predicate IsKindStart(c: char) { 'a' <= c <= 'z' || c == '_' }
  predicate IsKindChar(c: char) { IsKindStart(c) || '0' <= c <= '9' }

  predicate IsWord(s: string) { s != "" && forall k :: 0 <= k < |s| ==> IsWordChar(s[k]) }

  predicate IsKind(s: string) {
    s != "" && IsKindStart(s[0]) && forall k :: 0 <= k < |s| ==> IsKindChar(s[k])
  }

  /** `BUILD.bazel:<line>:<col>`. */
  predicate IsPosition(seg: string) {
    && BUILD_FILE <= seg
    && var at := seg[|BUILD_FILE|..];
       var colon := IndexOf(at, ':');
       colon < |at| && IsDigits(at[..colon]) && IsDigits(at[colon + 1..])
  }

  const BUILD_FILE := "BUILD.bazel:"

  /** The package a `# .../crates/<pkg>/BUILD.bazel:<line>:<col>` header names. */
  function HeaderPackage(line: string): Option<string> {
    var segs := Split(line, '/');
    var n := |segs|;
    if n >= 3 && IsPosition(segs[n - 1]) && IsWord(segs[n - 2])
       && ((n == 3 && segs[0] == "# crates") || (n > 3 && segs[n - 3] == "crates" && "# " <= line))
    then Some(segs[n - 2])
    else None
  }

  /** Every double-quoted string of a value, left to right. */
  function Literals(s: string): seq<string>
    decreases |s|
  {
    var i := IndexOf(s, '"');
    if i == |s| then []
    else
      var rest := s[i + 1..];
      var j := IndexOf(rest, '"');
      if j == |rest| then [] else [rest[..j]] + Literals(rest[j + 1..])
  }

  /** An attribute line, `  <key> = <value>`. */
  datatype Attribute = Attribute(key: string, value: string)

  function AttributeOf(line: string): Option<Attribute> {
    if !("  " <= line) then None
    else
      var rest := line[2..];
      var i := IndexOf(rest, ' ');
      if " = " <= rest[i..] then Some(Attribute(rest[..i], rest[i + 3..])) else None
  }

  /** A `"<text>"` value, with or without a trailing comma. */
  function Quoted(value: string): Option<string> {
    if value == "" || value[0] != '"' then None
    else
      var rest := value[1..];
      var j := IndexOf(rest, '"');
      if j < |rest| && (rest[j + 1..] == "" || rest[j + 1..] == ",") then Some(rest[..j]) else None
  }

  const NAME := "name"
  const CRATE := "crate"
  const FEATURES := "crate_features"
  const DEPS := "deps"
  const PROC_MACRO := "proc_macro_deps"

  function ClassifyAttribute(a: Attribute): Line {
    if a.key == NAME then (if Quoted(a.value).Some? then NameAttr(Quoted(a.value).value) else Other)
    else if a.key == CRATE then (if Quoted(a.value).Some? then CrateAttr(Quoted(a.value).value) else Other)
    else if a.key == FEATURES then FeaturesAttr(Literals(a.value))
    else if a.key == DEPS || a.key == PROC_MACRO then DepsAttr(Literals(a.value))
    else Other
  }

  /** The reader's patterns, tried in its order. */
  function Classify(line: string): Line {
    if HeaderPackage(line).Some? then Header(HeaderPackage(line).value)
    else if |line| >= 2 && line[|line| - 1] == '(' && IsKind(line[..|line| - 1]) then Open(line[..|line| - 1])
    else if line == ")" then Close
    else if AttributeOf(line).Some? then ClassifyAttribute(AttributeOf(line).value)
    else Other
  }

  function ClassifyAll(text: seq<string>): seq<Line> {
    seq(|text|, k requires 0 <= k < |text| => Classify(text[k]))
  }

  // ---- the reader ----------------------------------------------------------------------

  /** What one query yielded. The dependency table has a row for exactly the packages seen,
      so it is held as the set of its (package, label) entries; a sorted tuple of features
      is held as its multiset. */
  datatype BuildRead = BuildRead(
    edges: set<(string, string)>, packages: set<string>,
    targets: nat, rustTests: nat, orphans: nat,
    libFeatures: map<string, multiset<string>>,
    docTests: map<string, (string, multiset<string>)>)
  {
    /** `read.deps[package]`. */
    function Deps(package: string): set<string> { LabelsOf(edges, package) }
  }

  function LabelsOf(edges: set<(string, string)>, package: string): set<string> {
    set e | e in edges && e.0 == package :: e.1
  }

  const NOTHING_READ := BuildRead({}, {}, 0, 0, 0, map[], map[])

  /** The reader between two lines. */
  datatype Cursor = Cursor(read: BuildRead, package: Option<string>, kind: string, name: string,
                           crate: string, features: multiset<string>)

  const AT_START := Cursor(NOTHING_READ, None, "", "", "", multiset{})

  predicate IsTestKind(kind: string) { kind == "rust_test" || kind == "sh_test" }

  predicate IsDepLabel(s: string) { "@crates//" <= s || "//crates/" <= s }

  function Package(pkg: string): string { "crates/" + pkg }

  /** The package's own lib label, dropped inside that package. */
  function SelfLabel(pkg: string): string { "//" + Package(pkg) + ":" + pkg }

  /** The edges a dependency attribute adds: the package's own lib label and labels outside
      the two prefixes are not among them. */
  function KeptEdges(pkg: string, literals: seq<string>): set<(string, string)> {
    set k | 0 <= k < |literals| && IsDepLabel(literals[k]) && literals[k] != SelfLabel(pkg)
      :: (Package(pkg), literals[k])
  }

  function TargetLabel(pkg: string, name: string): string { "//" + Package(pkg) + ":" + name }

  /** One line of the loop body. The cursor holds the package by its directory name. */
  function Advance(c: Cursor, line: Line): Cursor {
    match line
    case Header(pkg) =>
      c.(package := Some(pkg), read := c.read.(packages := c.read.packages + {Package(pkg)}))
    case Open(kind) =>
      c.(kind := kind, name := "", crate := "", features := multiset{},
         read := c.read.(targets := c.read.targets + 1,
                         rustTests := c.read.rustTests + (if IsTestKind(kind) then 1 else 0),
                         orphans := c.read.orphans + (if c.package.None? then 1 else 0)))
    case Close => c.(package := None, read := Finish(c))
    case NameAttr(v) => c.(name := v)
    case CrateAttr(v) => c.(crate := v)
    case FeaturesAttr(ls) => c.(features := multiset(ls))
    case DepsAttr(ls) =>
      if c.package.None? then c
      else c.(read := c.read.(edges := c.read.edges + KeptEdges(c.package.value, ls)))
    case Other => c
  }

  /** What the closing `)` records: a library's features, or a doctest's crate and features. */
  function Finish(c: Cursor): BuildRead {
    if c.package.None? || c.name == "" then c.read
    else
      var l := TargetLabel(c.package.value, c.name);
      if c.kind == "rust_library" then c.read.(libFeatures := c.read.libFeatures[l := c.features])
      else if c.kind == "rust_doc_test" then c.read.(docTests := c.read.docTests[l := (c.crate, c.features)])
      else c.read
  }

  function AdvanceAll(c: Cursor, lines: seq<Line>): Cursor
    decreases |lines|
  {
    if lines == [] then c else AdvanceAll(Advance(c, lines[0]), lines[1..])
  }

  function Read(lines: seq<Line>): BuildRead { AdvanceAll(AT_START, lines).read }

  function ReadText(text: string): BuildRead { Read(ClassifyAll(SplitLines(text))) }

  lemma {:induction false} AdvanceAllConcat(c: Cursor, a: seq<Line>, b: seq<Line>)
    ensures AdvanceAll(c, a + b) == AdvanceAll(AdvanceAll(c, a), b)
    decreases |a|
  {
    if a == [] {
      assert a + b == b;
    } else {
      assert (a + b)[1..] == a[1..] + b;
      AdvanceAllConcat(Advance(c, a[0]), a[1..], b);
    }
  }

  /** `read_build_output`: the loop over the lines. */
  method ReadBuildOutput(text: string) returns (read: BuildRead)
    ensures read == ReadText(text)
  {
    var c := AT_START;
    var raws := SplitLines(text);
    ghost var lines := ClassifyAll(raws);
    for i := 0 to |raws|
      invariant AdvanceAll(AT_START, lines) == AdvanceAll(c, lines[i..])
    {
      var line := Classify(raws[i]);
      assert lines[i..][0] == line && lines[i..][1..] == lines[i + 1..];
      c := Advance(c, line);
    }
    read := c.read;
  }

  // ---- complete rule records -------------------------------------------------------------

  /** One rule as lines: its header if it has one, the opener, attribute lines, the closing
      parenthesis, and any lines that are nothing to the reader. */
  datatype Block = Block(header: Option<string>, kind: string, attrs: seq<Line>, trailing: nat)

  predicate IsAttr(line: Line) { !line.Header? && !line.Open? && !line.Close? }

  predicate ValidBlock(b: Block) { forall k :: 0 <= k < |b.attrs| ==> IsAttr(b.attrs[k]) }

  predicate ValidBlocks(bs: seq<Block>) { forall k :: 0 <= k < |bs| ==> ValidBlock(bs[k]) }

  function BlockLines(b: Block): seq<Line> {
    (if b.header.Some? then [Header(b.header.value)] else []) + [Open(b.kind)] + b.attrs + [Close]
    + seq(b.trailing, _ => Other)
  }

  function TextOf(bs: seq<Block>): seq<Line> {
    if bs == [] then [] else TextOf(bs[..|bs| - 1]) + BlockLines(bs[|bs| - 1])
  }

  /** The attributes of one rule, the last spelling of each winning. */
  datatype Body = Body(name: string, crate: string, features: multiset<string>, literals: seq<string>)

  function AddAttr(b: Body, line: Line): Body {
    match line
    case NameAttr(v) => b.(name := v)
    case CrateAttr(v) => b.(crate := v)
    case FeaturesAttr(ls) => b.(features := multiset(ls))
    case DepsAttr(ls) => b.(literals := b.literals + ls)
    case _ => b
  }

  function BodyOf(attrs: seq<Line>): Body {
    if attrs == [] then Body("", "", multiset{}, []) else AddAttr(BodyOf(attrs[..|attrs| - 1]), attrs[|attrs| - 1])
  }

  /** What one rule adds to a reading. */
  function Contribution(b: Block): BuildRead {
    var body := BodyOf(b.attrs);
    var tests := if IsTestKind(b.kind) then 1 else 0;
    match b.header
    case None => NOTHING_READ.(targets := 1, rustTests := tests, orphans := 1)
    case Some(pkg) =>
      var l := TargetLabel(pkg, body.name);
      var named := body.name != "";
      BuildRead(KeptEdges(pkg, body.literals), {Package(pkg)}, 1, tests, 0,
                if named && b.kind == "rust_library" then map[l := body.features] else map[],
                if named && b.kind == "rust_doc_test" then map[l := (body.crate, body.features)] else map[])
  }

  /** Two readings put together: label sets union, tallies add, later tables win. */
  function Merge(a: BuildRead, b: BuildRead): BuildRead {
    BuildRead(a.edges + b.edges,
              a.packages + b.packages, a.targets + b.targets, a.rustTests + b.rustTests, a.orphans + b.orphans,
              a.libFeatures + b.libFeatures, a.docTests + b.docTests)
  }

  function MergeAll(bs: seq<Block>): BuildRead {
    if bs == [] then NOTHING_READ else Merge(MergeAll(bs[..|bs| - 1]), Contribution(bs[|bs| - 1]))
  }

  lemma KeptConcat(pkg: string, a: seq<string>, b: seq<string>)
    ensures KeptEdges(pkg, a + b) == KeptEdges(pkg, a) + KeptEdges(pkg, b)
  {
    forall e | e in KeptEdges(pkg, a) ensures e in KeptEdges(pkg, a + b) {
      var k :| 0 <= k < |a| && a[k] == e.1;
      assert (a + b)[k] == e.1;
    }
    forall e | e in KeptEdges(pkg, b) ensures e in KeptEdges(pkg, a + b) {
      var k :| 0 <= k < |b| && b[k] == e.1;
      assert (a + b)[|a| + k] == e.1;
    }
  }

  /** The cursor inside a rule, in terms of the attributes read so far. */
  function Inside(c: Cursor, b: Body): Cursor {
    var c' := c.(name := b.name, crate := b.crate, features := b.features);
    if c.package.None? then c'
    else c'.(read := c.read.(edges := c.read.edges + KeptEdges(c.package.value, b.literals)))
  }

  lemma {:induction false} AttrsRead(c: Cursor, attrs: seq<Line>)
    requires c.name == "" && c.crate == "" && c.features == multiset{}
    requires forall k :: 0 <= k < |attrs| ==> IsAttr(attrs[k])
    ensures AdvanceAll(c, attrs) == Inside(c, BodyOf(attrs))
    decreases |attrs|
  {
    if attrs == [] {
      assert c.package.Some? ==> c.read.edges + KeptEdges(c.package.value, []) == c.read.edges;
    } else {
      var init, last := attrs[..|attrs| - 1], attrs[|attrs| - 1];
      AttrsRead(c, init);
      AdvanceAllConcat(c, init, [last]);
      assert attrs == init + [last];
      AdvanceOne(AdvanceAll(c, init), last);
      AttrStep(c, BodyOf(init), last);
    }
  }

  lemma AdvanceOne(c: Cursor, line: Line)
    ensures AdvanceAll(c, [line]) == Advance(c, line)
  {
    assert [line][1..] == [];
    assert AdvanceAll(Advance(c, line), []) == Advance(c, line);
  }

  lemma AttrStep(c: Cursor, b: Body, line: Line)
    requires IsAttr(line)
    ensures Advance(Inside(c, b), line) == Inside(c, AddAttr(b, line))
  {
    if line.DepsAttr? && c.package.Some? {
      KeptConcat(c.package.value, b.literals, line.literals);
      var pkg, e := c.package.value, c.read.edges;
      assert e + KeptEdges(pkg, b.literals) + KeptEdges(pkg, line.literals)
          == e + KeptEdges(pkg, b.literals + line.literals);
    }
  }

  lemma {:induction false} TrailingRead(c: Cursor, n: nat)
    ensures AdvanceAll(c, seq(n, _ => Other)) == c
  {
    if n > 0 {
      assert seq(n, _ => Other)[1..] == seq(n - 1, _ => Other);
      TrailingRead(c, n - 1);
    }
  }

  /** The cursor after a header and an opener. */
  function Opened(c: Cursor, b: Block): Cursor {
    Advance(if b.header.Some? then Advance(c, Header(b.header.value)) else c, Open(b.kind))
  }

  /** Reading one complete rule from between rules adds its contribution and ends between
      rules again. */
  lemma BlockRead(c: Cursor, b: Block)
    requires ValidBlock(b) && c.package.None?
    ensures AdvanceAll(c, BlockLines(b)).package.None?
    ensures AdvanceAll(c, BlockLines(b)).read == Merge(c.read, Contribution(b))
  {
    var head := (if b.header.Some? then [Header(b.header.value)] else []) + [Open(b.kind)];
    var tail := seq(b.trailing, _ => Other);
    var o := Opened(c, b);
    HeadRead(c, b, head);
    AttrsRead(o, b.attrs);
    var inside := Inside(o, BodyOf(b.attrs));
    assert BlockLines(b) == head + b.attrs + [Close] + tail;
    AdvanceAllConcat(c, head, b.attrs);
    AdvanceAllConcat(c, head + b.attrs, [Close]);
    AdvanceAllConcat(c, head + b.attrs + [Close], tail);
    AdvanceOne(inside, Close);
    TrailingRead(Advance(inside, Close), b.trailing);
    BlockTotals(c, b);
  }

  lemma HeadRead(c: Cursor, b: Block, head: seq<Line>)
    requires head == (if b.header.Some? then [Header(b.header.value)] else []) + [Open(b.kind)]
    ensures AdvanceAll(c, head) == Opened(c, b)
  {
    if b.header.Some? {
      AdvanceAllConcat(c, [Header(b.header.value)], [Open(b.kind)]);
      AdvanceOne(c, Header(b.header.value));
      AdvanceOne(Advance(c, Header(b.header.value)), Open(b.kind));
    } else {
      assert head == [Open(b.kind)];
      AdvanceOne(c, Open(b.kind));
    }
  }

  lemma BlockTotals(c: Cursor, b: Block)
    requires c.package.None?
    ensures Finish(Inside(Opened(c, b), BodyOf(b.attrs))) == Merge(c.read, Contribution(b))
  {
    var body, libs, docs := BodyOf(b.attrs), c.read.libFeatures, c.read.docTests;
    PlusEmpty(libs);
    PlusEmpty(docs);
    if b.header.Some? && body.name != "" {
      PlusOne(libs, TargetLabel(b.header.value, body.name), body.features);
      PlusOne(docs, TargetLabel(b.header.value, body.name), (body.crate, body.features));
    }
    if b.header.Some? { PlacedTotals(c, b); }
  }

  lemma PlusEmpty<K, V>(m: map<K, V>)
    ensures m + map[] == m && map[] + m == m
  {
  }

  lemma PlusOne<K, V>(m: map<K, V>, k: K, v: V)
    ensures m + map[k := v] == m[k := v]
  {
  }

  lemma PlusAssociative<K, V>(a: map<K, V>, b: map<K, V>, c: map<K, V>)
    ensures a + b + c == a + (b + c)
  {
  }


  lemma PlacedTotals(c: Cursor, b: Block)
    requires c.package.None? && b.header.Some?
    requires c.read.libFeatures + map[] == c.read.libFeatures && c.read.docTests + map[] == c.read.docTests
    requires var body := BodyOf(b.attrs);
             var l := TargetLabel(b.header.value, body.name);
             body.name != "" ==>
               && c.read.libFeatures + map[l := body.features] == c.read.libFeatures[l := body.features]
               && c.read.docTests + map[l := (body.crate, body.features)]
                  == c.read.docTests[l := (body.crate, body.features)]
    ensures Finish(Inside(Opened(c, b), BodyOf(b.attrs))) == Merge(c.read, Contribution(b))
  {
  }

  /** Reading is compositional over texts of complete rules. */
  lemma {:induction false} TextRead(bs: seq<Block>)
    requires ValidBlocks(bs)
    ensures AdvanceAll(AT_START, TextOf(bs)).package.None?
    ensures Read(TextOf(bs)) == MergeAll(bs)
  {
    if bs != [] {
      var init := bs[..|bs| - 1];
      TextRead(init);
      AdvanceAllConcat(AT_START, TextOf(init), BlockLines(bs[|bs| - 1]));
      BlockRead(AdvanceAll(AT_START, TextOf(init)), bs[|bs| - 1]);
    }
  }

  lemma MergeAssociative(a: BuildRead, b: BuildRead, c: BuildRead)
    ensures Merge(Merge(a, b), c) == Merge(a, Merge(b, c))
  {
    assert a.edges + b.edges + c.edges == a.edges + (b.edges + c.edges);
    assert a.packages + b.packages + c.packages == a.packages + (b.packages + c.packages);
    PlusAssociative(a.libFeatures, b.libFeatures, c.libFeatures);
    PlusAssociative(a.docTests, b.docTests, c.docTests);
  }

  lemma MergeNothing(a: BuildRead)
    ensures Merge(a, NOTHING_READ) == a && Merge(NOTHING_READ, a) == a
  {
    PlusEmpty(a.libFeatures);
    PlusEmpty(a.docTests);
  }

  lemma {:induction false} MergeAllConcat(a: seq<Block>, b: seq<Block>)
    ensures MergeAll(a + b) == Merge(MergeAll(a), MergeAll(b))
    decreases |b|
  {
    if b == [] {
      assert a + b == a;
      MergeNothing(MergeAll(a));
    } else {
      var init := b[..|b| - 1];
      assert (a + b)[..|a + b| - 1] == a + init;
      MergeAllConcat(a, init);
      MergeAssociative(MergeAll(a), MergeAll(init), Contribution(b[|b| - 1]));
    }
  }

  /** Two texts of complete rules read as their readings merged. */
  lemma ReadIsHomomorphic(a: seq<Block>, b: seq<Block>)
    requires ValidBlocks(a) && ValidBlocks(b)
    ensures Read(TextOf(a + b)) == Merge(Read(TextOf(a)), Read(TextOf(b)))
  {
    TextRead(a);
    TextRead(b);
    TextRead(a + b);
    MergeAllConcat(a, b);
  }

  // ---- what a merged reading holds ---------------------------------------------------------

  /** The rule is in the package, names the label, and the label is kept. */
  predicate BlockEdge(b: Block, package: string, l: string) {
    && b.header.Some? && package == Package(b.header.value)
    && l in BodyOf(b.attrs).literals && IsDepLabel(l) && l != SelfLabel(b.header.value)
  }

  /** A label is in a package's dependency set exactly when one of its rules keeps it. */
  lemma {:induction false} MergedEdges(bs: seq<Block>, package: string, l: string)
    ensures (package, l) in MergeAll(bs).edges <==> exists k :: 0 <= k < |bs| && BlockEdge(bs[k], package, l)
  {
    if bs != [] {
      var init, last := bs[..|bs| - 1], bs[|bs| - 1];
      MergedEdges(init, package, l);
      ContributedEdge(last, package, l);
      assert forall k :: 0 <= k < |init| ==> init[k] == bs[k];
    }
  }

  lemma ContributedEdge(b: Block, package: string, l: string)
    ensures (package, l) in Contribution(b).edges <==> BlockEdge(b, package, l)
  {
    if b.header.Some? { KeptIff(b.header.value, BodyOf(b.attrs).literals, l); }
  }

  lemma KeptIff(pkg: string, literals: seq<string>, l: string)
    ensures (Package(pkg), l) in KeptEdges(pkg, literals) <==> l in literals && IsDepLabel(l) && l != SelfLabel(pkg)
  {
    if l in literals {
      var k :| 0 <= k < |literals| && literals[k] == l;
      assert IsDepLabel(l) && l != SelfLabel(pkg) ==> (Package(pkg), literals[k]) in KeptEdges(pkg, literals);
    }
  }

  function CountTests(bs: seq<Block>): nat {
    if bs == [] then 0 else CountTests(bs[..|bs| - 1]) + (if IsTestKind(bs[|bs| - 1].kind) then 1 else 0)
  }

  function CountOrphans(bs: seq<Block>): nat {
    if bs == [] then 0 else CountOrphans(bs[..|bs| - 1]) + (if bs[|bs| - 1].header.None? then 1 else 0)
  }

  lemma {:induction false} MergedTallies(bs: seq<Block>)
    ensures MergeAll(bs).targets == |bs|
    ensures MergeAll(bs).rustTests == CountTests(bs)
    ensures MergeAll(bs).orphans == CountOrphans(bs)
  {
    if bs != [] { MergedTallies(bs[..|bs| - 1]); }
  }

  predicate InPackage(b: Block, package: string) { b.header.Some? && package == Package(b.header.value) }

  lemma {:induction false} MergedPackages(bs: seq<Block>, package: string)
    ensures package in MergeAll(bs).packages <==> exists k :: 0 <= k < |bs| && InPackage(bs[k], package)
  {
    if bs != [] {
      var init := bs[..|bs| - 1];
      MergedPackages(init, package);
      assert forall k :: 0 <= k < |init| ==> init[k] == bs[k];
    }
  }

  // ---- a missing header -----------------------------------------------------------------------

  lemma SplitMerge(pre: seq<Block>, b: Block, post: seq<Block>)
    ensures MergeAll(pre + [b] + post) == Merge(Merge(MergeAll(pre), Contribution(b)), MergeAll(post))
  {
    MergeAllConcat(pre + [b], post);
    assert (pre + [b])[..|pre|] == pre;
  }

  /** One rule's header is lost: exactly one more orphan, only that rule's own contribution
      gone, and no other package's edges and no other target's row changed. */
  ghost predicate HeaderLost(before: BuildRead, after: BuildRead, pkg: string, name: string,
                             own: set<(string, string)>)
  {
    && after.orphans == before.orphans + 1
    && after.targets == before.targets && after.rustTests == before.rustTests
    && before.packages == after.packages + {Package(pkg)}
    && before.edges == after.edges + own
    && (forall p :: p != Package(pkg) ==> before.Deps(p) == after.Deps(p))
    && AgreeBut(before.libFeatures, after.libFeatures, TargetLabel(pkg, name))
    && AgreeBut(before.docTests, after.docTests, TargetLabel(pkg, name))
  }

  /** Deleting one rule's header loses what that header carried and nothing else. */
  lemma MissingHeader(pre: seq<Block>, b: Block, post: seq<Block>)
    requires ValidBlocks(pre) && ValidBlock(b) && ValidBlocks(post) && b.header.Some?
    ensures HeaderLost(Read(TextOf(pre + [b] + post)), Read(TextOf(pre + [b.(header := None)] + post)),
                       b.header.value, BodyOf(b.attrs).name, Contribution(b).edges)
  {
    var bare := b.(header := None);
    TextRead(pre + [b] + post);
    TextRead(pre + [bare] + post);
    SplitMerge(pre, b, post);
    SplitMerge(pre, bare, post);
    MissingContribution(MergeAll(pre), b, MergeAll(post));
  }

  /** The two tables agree at every key but one. */
  ghost predicate AgreeBut<V(!new)>(a: map<string, V>, b: map<string, V>, key: string) {
    forall l :: l != key ==> (l in a <==> l in b) && (l in a && l in b ==> a[l] == b[l])
  }

  lemma MissingContribution(pre: BuildRead, b: Block, post: BuildRead)
    requires b.header.Some?
    ensures HeaderLost(Merge(Merge(pre, Contribution(b)), post),
                       Merge(Merge(pre, Contribution(b.(header := None))), post),
                       b.header.value, BodyOf(b.attrs).name, Contribution(b).edges)
  {
    var pkg, body, one := b.header.value, BodyOf(b.attrs), Contribution(b);
    assert pre.edges + one.edges + post.edges == pre.edges + {} + post.edges + one.edges;
    assert pre.packages + one.packages + post.packages == pre.packages + {} + post.packages + {Package(pkg)};
    forall p | p != Package(pkg)
      ensures LabelsOf(pre.edges + {} + post.edges + one.edges, p) == LabelsOf(pre.edges + {} + post.edges, p)
    {
    }
  }
}

/** What reading a printed build text recovers, and what a silent drift gate means, with every
    prefix, kind and label spelled out once more. */
module BuildMeaning {
  import opened Text
  import opened BuildText
  import opened BuildPrinter
  import opened DriftGate
  import L = LabelMap

  // ---- the words ------------------------------------------------------------------------------------

  /** The labels of a rule that are dependencies: of the two kinds, and not its own library. */
  predicate Kept(r: Rule, l: string) {
    && (l in r.deps || l in r.procMacro) && ("@crates//" <= l || "//crates/" <= l)
    && l != "//crates/" + r.pkg + ":" + r.pkg
  }

  predicate Dep(rs: seq<Rule>, p: string, l: string) {
    exists k :: 0 <= k < |rs| && p == "crates/" + rs[k].pkg && Kept(rs[k], l)
  }

  function TestsOf(rs: seq<Rule>): set<int> {
    set k | 0 <= k < |rs| && (rs[k].kind == "rust_test" || rs[k].kind == "sh_test")
  }

  /** The last rule of the kind and label. */
  predicate LastRule(rs: seq<Rule>, kind: string, l: string, k: int) {
    0 <= k < |rs| && Labelled(rs[k], kind, l) && forall j :: k < j < |rs| ==> !Labelled(rs[j], kind, l)
  }

  predicate Labelled(r: Rule, kind: string, l: string) {
    r.kind == kind && r.name != "" && l == "//crates/" + r.pkg + ":" + r.name
  }

  function Crate(r: Rule): string { if r.crate.Some? then r.crate.value else "" }

  function Features(r: Rule): multiset<string> { if r.features.Some? then multiset(r.features.value) else multiset{} }

  /** What a reading of the printed rules must hold. */
  ghost predicate ReadsAs(rs: seq<Rule>, read: BuildRead) {
    && read.targets == |rs| && read.rustTests == |TestsOf(rs)| && read.orphans == 0
    && (forall p :: p in read.packages <==> exists k :: 0 <= k < |rs| && p == "crates/" + rs[k].pkg)
    && (forall p, l :: l in read.Deps(p) <==> Dep(rs, p, l))
    && (forall l, v :: Look(read.libFeatures, l) == Some(v)
                  <==> exists k :: LastRule(rs, "rust_library", l, k) && v == Features(rs[k]))
    && (forall l, v :: Look(read.docTests, l) == Some(v)
                  <==> exists k :: LastRule(rs, "rust_doc_test", l, k) && v == (Crate(rs[k]), Features(rs[k])))
  }

  // ---- the words are the model's --------------------------------------------------------------------------

  lemma KeptIs(r: Rule, p: string, l: string)
    ensures RuleEdge(r, p, l) <==> p == "crates/" + r.pkg && Kept(r, l)
  {
    assert SelfLabel(r.pkg) == "//crates/" + r.pkg + ":" + r.pkg;
  }

  lemma DepIff(rs: seq<Rule>, p: string, l: string)
    ensures Dep(rs, p, l) <==> SomeEdge(rs, p, l)
  {
    forall k | 0 <= k < |rs| ensures RuleEdge(rs[k], p, l) <==> p == "crates/" + rs[k].pkg && Kept(rs[k], l) {
      KeptIs(rs[k], p, l);
    }
  }

  lemma {:induction false} TestsCounted(rs: seq<Rule>)
    ensures TestsAmong(rs) == |TestsOf(rs)|
  {
    if rs != [] {
      var init, last := rs[..|rs| - 1], rs[|rs| - 1];
      TestsCounted(init);
      var more := if last.kind == "rust_test" || last.kind == "sh_test" then {|rs| - 1} else {};
      assert TestsOf(rs) == TestsOf(init) + more;
    }
  }

  lemma LabelledIs(r: Rule, l: string)
    ensures IsLibrary(r, l) <==> Labelled(r, "rust_library", l)
    ensures IsDocTest(r, l) <==> Labelled(r, "rust_doc_test", l)
  {
    assert TargetLabel(r.pkg, r.name) == "//crates/" + r.pkg + ":" + r.name;
  }

  lemma {:induction false} LibraryRowIs(rs: seq<Rule>, l: string, v: multiset<string>)
    ensures LibraryRow(rs, l) == Some(v) <==> exists k :: LastRule(rs, "rust_library", l, k) && v == Features(rs[k])
  {
    if rs != [] {
      var init, last := rs[..|rs| - 1], rs[|rs| - 1];
      LabelledIs(last, l);
      LibraryRowIs(init, l, v);
      LastRuleStep(rs, "rust_library", l);
    }
  }

  lemma {:induction false} DocTestRowIs(rs: seq<Rule>, l: string, v: (string, multiset<string>))
    ensures DocTestRow(rs, l) == Some(v) <==>
              exists k :: LastRule(rs, "rust_doc_test", l, k) && v == (Crate(rs[k]), Features(rs[k]))
  {
    if rs != [] {
      var init, last := rs[..|rs| - 1], rs[|rs| - 1];
      LabelledIs(last, l);
      DocTestRowIs(init, l, v);
      LastRuleStep(rs, "rust_doc_test", l);
    }
  }

  lemma LastRuleStep(rs: seq<Rule>, kind: string, l: string)
    requires rs != []
    ensures var init, n := rs[..|rs| - 1], |rs| - 1;
            forall k :: LastRule(rs, kind, l, k)
                   <==> if Labelled(rs[n], kind, l) then k == n else LastRule(init, kind, l, k)
  {
  }

  lemma RecoveredReadsAs(rs: seq<Rule>, read: BuildRead)
    requires Recovers(rs, read)
    ensures ReadsAs(rs, read)
  {
    TestsCounted(rs);
    forall p ensures p in read.packages <==> exists k :: 0 <= k < |rs| && p == "crates/" + rs[k].pkg {
      assert p in read.packages <==> SomePackage(rs, p);
    }
    forall p, l ensures l in read.Deps(p) <==> Dep(rs, p, l) {
      DepIff(rs, p, l);
      assert (p, l) in read.edges <==> SomeEdge(rs, p, l);
    }
    forall l, v ensures Look(read.libFeatures, l) == Some(v)
        <==> exists k :: LastRule(rs, "rust_library", l, k) && v == Features(rs[k]) {
      LibraryRowIs(rs, l, v);
    }
    forall l, v ensures Look(read.docTests, l) == Some(v)
        <==> exists k :: LastRule(rs, "rust_doc_test", l, k) && v == (Crate(rs[k]), Features(rs[k])) {
      DocTestRowIs(rs, l, v);
    }
  }

  lemma {:induction false} UnopenedFrom(c: Cursor, lines: seq<Line>)
    requires c.kind == "" && forall k :: 0 <= k < |lines| ==> !lines[k].Open?
    ensures var read := AdvanceAll(c, lines).read;
            && read.targets == c.read.targets && read.rustTests == c.read.rustTests && read.orphans == c.read.orphans
            && read.libFeatures == c.read.libFeatures && read.docTests == c.read.docTests
    decreases |lines|
  {
    if lines != [] {
      assert forall k :: 0 <= k < |lines| - 1 ==> lines[1..][k] == lines[k + 1];
      UnopenedFrom(Advance(c, lines[0]), lines[1..]);
    }
  }

  /** Lines that open no rule are counted nowhere and fill no table, whatever else they hold. */
  lemma UnopenedTellsNoRule(lines: seq<Line>)
    requires forall k :: 0 <= k < |lines| ==> !lines[k].Open?
    ensures var read := Read(lines);
            && read.targets == 0 && read.rustTests == 0 && read.orphans == 0
            && read.libFeatures == map[] && read.docTests == map[]
  {
    UnopenedFrom(AT_START, lines);
  }

  /** Reading a printed text gives back each package's dependencies, the tallies and the two
      tables, in words. */
  lemma RoundTripInWords(rs: seq<Rule>)
    requires forall k :: 0 <= k < |rs| ==> WellFormed(rs[k])
    ensures ReadsAs(rs, ReadText(PrintText(rs)))
  {
    RoundTrip(rs);
    RecoveredReadsAs(rs, ReadText(PrintText(rs)));
  }

  // ---- the gate ------------------------------------------------------------------------------------------

  predicate LowerWord(s: string) {
    s != "" && forall k :: 0 <= k < |s| ==> 'a' <= s[k] <= 'z' || '0' <= s[k] <= '9' || s[k] == '_'
  }

  /** The Cargo name of a label: its row in the table, or the directory of `//crates/x:x`. */
  predicate CargoName(table: map<string, string>, l: string, n: string) {
    if l in table then table[l] == n else LowerWord(n) && l == "//crates/" + n + ":" + n
  }

  lemma ResolveIs(table: map<string, string>, l: string, n: string)
    ensures L.Resolve(l, table) == Some(n) <==> CargoName(table, l, n)
  {
    assert L.FirstParty(n) == "//crates/" + n + ":" + n;
    L.DirOfFirstParty(n);
  }

  /** Every doctest has the features of the library it names, and every library is named. */
  ghost predicate DocsInWords(rs: seq<Rule>) {
    && (forall doc, k :: LastRule(rs, "rust_doc_test", doc, k) ==>
          exists j :: LastRule(rs, "rust_library", Crate(rs[k]), j) && Features(rs[j]) == Features(rs[k]))
    && (forall library, j :: LastRule(rs, "rust_library", library, j) ==>
          exists doc, k :: LastRule(rs, "rust_doc_test", doc, k) && Crate(rs[k]) == library)
  }

  /** What a silent gate says of the rules. */
  ghost predicate StepInWords(g: Gate, rs: seq<Rule>) {
    && |g.cargo| >= g.cargoFloor && |set k | 0 <= k < |rs| :: "crates/" + rs[k].pkg| >= g.packageFloor
    && |rs| >= g.targetFloor && |TestsOf(rs)| == g.mapRows && DocsInWords(rs)
    && (forall l :: l in g.table && "@crates//" <= l ==> IsDep(rs, l))
    && (forall p, l :: Dep(rs, p, l) ==> exists n :: CargoName(g.table, l, n))
    && (forall p, n :: InCargo(g.cargo, p, n) <==> Needs(rs, g.table, p, n))
  }

  ghost predicate IsDep(rs: seq<Rule>, l: string) { exists p :: Dep(rs, p, l) }

  predicate InCargo(cargo: map<string, set<string>>, p: string, n: string) { p in cargo && n in cargo[p] }

  /** Some dependency of the package has that Cargo name. */
  ghost predicate Needs(rs: seq<Rule>, table: map<string, string>, p: string, n: string) {
    exists l :: Dep(rs, p, l) && CargoName(table, l, n)
  }

  lemma DocsAre(rs: seq<Rule>)
    ensures DocTestsAgree(rs) <==> DocsInWords(rs)
  {
    if DocTestsAgree(rs) { DocsToWords(rs); }
    if DocsInWords(rs) { DocsFromWords(rs); }
  }

  lemma DocsToWords(rs: seq<Rule>)
    requires DocTestsAgree(rs)
    ensures DocsInWords(rs)
  {
    forall doc, k | LastRule(rs, "rust_doc_test", doc, k)
      ensures exists j :: LastRule(rs, "rust_library", Crate(rs[k]), j) && Features(rs[j]) == Features(rs[k])
    {
      DocTestRowIs(rs, doc, (Crate(rs[k]), Features(rs[k])));
      LibraryRowIs(rs, Crate(rs[k]), Features(rs[k]));
    }
    forall library, j | LastRule(rs, "rust_library", library, j)
      ensures exists doc, k :: LastRule(rs, "rust_doc_test", doc, k) && Crate(rs[k]) == library
    {
      LibraryRowIs(rs, library, Features(rs[j]));
      var doc :| NamesCrate(rs, doc, library);
      DocTestRowIs(rs, doc, DocTestRow(rs, doc).value);
    }
  }

  lemma DocsFromWords(rs: seq<Rule>)
    requires DocsInWords(rs)
    ensures DocTestsAgree(rs)
  {
    forall doc | DocTestRow(rs, doc).Some?
      ensures LibraryRow(rs, DocTestRow(rs, doc).value.0) == Some(DocTestRow(rs, doc).value.1)
    {
      var row := DocTestRow(rs, doc).value;
      DocTestRowIs(rs, doc, row);
      LibraryRowIs(rs, row.0, row.1);
    }
    forall library | LibraryRow(rs, library).Some? ensures exists doc :: NamesCrate(rs, doc, library) {
      LibraryRowIs(rs, library, LibraryRow(rs, library).value);
      var j :| LastRule(rs, "rust_library", library, j);
      var doc, k :| LastRule(rs, "rust_doc_test", doc, k) && Crate(rs[k]) == library;
      DocTestRowIs(rs, doc, (Crate(rs[k]), Features(rs[k])));
      assert NamesCrate(rs, doc, library);
    }
  }

  lemma UsedIs(rs: seq<Rule>, l: string)
    ensures Used(rs, l) <==> IsDep(rs, l)
  {
    if p :| SomeEdge(rs, p, l) { DepIff(rs, p, l); }
    if p :| Dep(rs, p, l) { DepIff(rs, p, l); }
  }

  lemma ResolvesIs(rs: seq<Rule>, table: map<string, string>)
    ensures AllResolve(rs, table) <==> forall p, l :: Dep(rs, p, l) ==> exists n :: CargoName(table, l, n)
  {
    forall p, l ensures Dep(rs, p, l) <==> SomeEdge(rs, p, l) { DepIff(rs, p, l); }
    forall l ensures L.Resolve(l, table).Some? <==> exists n :: CargoName(table, l, n) {
      if L.Resolve(l, table).Some? { ResolveIs(table, l, L.Resolve(l, table).value); }
      if n :| CargoName(table, l, n) { ResolveIs(table, l, n); }
    }
  }

  lemma DependsIs(rs: seq<Rule>, table: map<string, string>, p: string, n: string)
    ensures DependsOn(rs, table, p, n) <==> Needs(rs, table, p, n)
  {
    if l :| SomeEdge(rs, p, l) && L.Resolve(l, table) == Some(n) {
      DepIff(rs, p, l);
      ResolveIs(table, l, n);
    }
    if l :| Dep(rs, p, l) && CargoName(table, l, n) {
      DepIff(rs, p, l);
      ResolveIs(table, l, n);
    }
  }

  lemma GraphIs(rs: seq<Rule>, cargo: map<string, set<string>>, table: map<string, string>)
    ensures SameGraph(rs, cargo, table) <==> forall p, n :: InCargo(cargo, p, n) <==> Needs(rs, table, p, n)
  {
    forall p, n ensures DependsOn(rs, table, p, n) <==> Needs(rs, table, p, n) { DependsIs(rs, table, p, n); }
    assert forall p, n :: n in L.At(cargo, p) <==> InCargo(cargo, p, n);
  }

  lemma StepIs(g: Gate, rs: seq<Rule>)
    ensures InStep(g, rs) <==> StepInWords(g, rs)
  {
    assert PackagesOf(rs) == set k | 0 <= k < |rs| :: "crates/" + rs[k].pkg;
    TestsCounted(rs);
    DocsAre(rs);
    forall l ensures Used(rs, l) <==> IsDep(rs, l) { UsedIs(rs, l); }
    ResolvesIs(rs, g.table);
    GraphIs(rs, g.cargo, g.table);
  }

  /** For any rules, printed and read back, the gate is silent exactly when, in words, they are in
      step with Cargo, the label table and the test map. */
  lemma SilentGateInWords(g: Gate, rs: seq<Rule>)
    requires forall k :: 0 <= k < |rs| ==> WellFormed(rs[k])
    ensures Silent(g, ReadText(PrintText(rs))) <==> StepInWords(g, rs)
  {
    SilentGateIff(g, rs);
    StepIs(g, rs);
  }

  // ---- each finding ----------------------------------------------------------------------------------------

  predicate Enough(g: Gate, read: BuildRead) { |read.packages| >= g.packageFloor && read.targets >= g.targetFloor }

  /** The package was seen and depends on the label. */
  predicate HasDep(read: BuildRead, p: string, l: string) { p in read.packages && (p, l) in read.edges }

  ghost predicate HasName(g: Gate, read: BuildRead, p: string, n: string) {
    exists l :: HasDep(read, p, l) && CargoName(g.table, l, n)
  }

  /** When each finding is raised, in words. */
  ghost predicate FindingInWords(g: Gate, read: BuildRead, f: Finding) {
    match f
    case Orphans(count) => count == read.orphans && read.orphans > 0
    case DocFeatures(doc) =>
      && doc in read.docTests
      && var (crate, features) := read.docTests[doc];
      && !(crate in read.libFeatures && read.libFeatures[crate] == features)
    case DocMissing(library) =>
      library in read.libFeatures && forall doc :: doc in read.docTests ==> read.docTests[doc].0 != library
    case CargoFloor(members) => members == |g.cargo| && |g.cargo| < g.cargoFloor
    case StaleRow(l) =>
      Enough(g, read) && l in g.table && "@crates//" <= l && forall p :: !HasDep(read, p, l)
    case Compared(ReaderFloor) => !Enough(g, read)
    case Compared(MapParity) => read.rustTests != g.mapRows
    case Compared(Unmapped(l)) => (exists p :: HasDep(read, p, l)) && forall n :: !CargoName(g.table, l, n)
    case Compared(SetDiffers(p)) => exists n :: InCargo(g.cargo, p, n) != HasName(g, read, p, n)
  }

  lemma NamesAre(g: Gate, read: BuildRead, p: string, n: string)
    ensures n in L.Mapped(L.At(DepsOf(read), p), g.table) <==> HasName(g, read, p, n)
  {
    var labels := L.At(DepsOf(read), p);
    L.MappedIff(labels, g.table, n);
    forall l ensures l in labels <==> HasDep(read, p, l) { }
    forall l ensures L.Resolve(l, g.table) == Some(n) <==> CargoName(g.table, l, n) { ResolveIs(g.table, l, n); }
  }

  lemma SetDiffersIs(g: Gate, read: BuildRead, p: string)
    ensures Drifts(g, read, L.SetDiffers(p)) <==> exists n :: InCargo(g.cargo, p, n) != HasName(g, read, p, n)
  {
    var mapped, declared := L.Mapped(L.At(DepsOf(read), p), g.table), L.At(g.cargo, p);
    forall n ensures n in mapped <==> HasName(g, read, p, n) { NamesAre(g, read, p, n); }
    assert forall n :: n in declared <==> InCargo(g.cargo, p, n);
    if n :| InCargo(g.cargo, p, n) != HasName(g, read, p, n) {
      assert mapped != declared;
      if HasName(g, read, p, n) { assert p in read.packages; }
    }
    if mapped != declared {
      var n :| (n in mapped) != (n in declared);
      assert InCargo(g.cargo, p, n) != HasName(g, read, p, n);
    }
  }

  lemma UnmappedIs(g: Gate, read: BuildRead, l: string)
    ensures Drifts(g, read, L.Unmapped(l)) <==>
              (exists p :: HasDep(read, p, l)) && forall n :: !CargoName(g.table, l, n)
  {
    if L.Resolve(l, g.table).Some? { ResolveIs(g.table, l, L.Resolve(l, g.table).value); }
    if n :| CargoName(g.table, l, n) { ResolveIs(g.table, l, n); }
    forall p ensures p in DepsOf(read) && l in DepsOf(read)[p] <==> HasDep(read, p, l) { }
  }

  lemma StaleIs(g: Gate, read: BuildRead, l: string)
    ensures l in StaleOf(g, read) <==>
              Enough(g, read) && l in g.table && "@crates//" <= l && forall p :: !HasDep(read, p, l)
  {
    assert l in Live(read) <==> exists p :: HasDep(read, p, l) by {
      if p :| HasDep(read, p, l) { assert (p, l) in read.edges; }
      if l in Live(read) {
        var e :| e in read.edges && e.0 in read.packages && e.1 == l;
        assert e == (e.0, l) && HasDep(read, e.0, l);
      }
    }
  }

  lemma FindingsInWords(g: Gate, read: BuildRead, f: Finding)
    ensures Raised(g, read, f) <==> FindingInWords(g, read, f)
  {
    match f
    case StaleRow(l) => StaleIs(g, read, l);
    case Compared(Unmapped(l)) => UnmappedIs(g, read, l);
    case Compared(SetDiffers(p)) => SetDiffersIs(g, read, p);
    case _ =>
  }
}

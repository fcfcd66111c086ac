/** The drift gate from end to end: `check_drift`, and what its silence says about the rules whose
    printed text was read. */
module DriftGate {
  import opened Text
  import opened BuildText
  import opened BuildPrinter
  import L = LabelMap

  /** What the gate is held to besides the reading: the Cargo graph, the label table, the rows
      of the test map, and the floors. */
  datatype Gate = Gate(cargo: map<string, set<string>>, table: map<string, string>, mapRows: nat,
                       cargoFloor: nat, packageFloor: nat, targetFloor: nat)

  datatype Finding =
    | Orphans(count: nat)
    | DocFeatures(doc: string)
    | DocMissing(library: string)
    | CargoFloor(members: nat)
    | StaleRow(name: string)
    | Compared(drift: L.Drift)

  /** The reading's label sets, package by package. */
  function DepsOf(read: BuildRead): map<string, set<string>> {
    map p | p in read.packages :: read.Deps(p)
  }

  function TalliedBy(g: Gate, read: BuildRead): L.Tallied {
    L.Tallied(|read.packages|, read.targets, read.rustTests, g.mapRows, g.packageFloor, g.targetFloor)
  }

  /** A doctest target whose features are not its library's. */
  predicate FeaturesDiffer(read: BuildRead, doc: string) {
    doc in read.docTests && Look(read.libFeatures, read.docTests[doc].0) != Some(read.docTests[doc].1)
  }

  /** Some doctest target names the library as its crate. */
  predicate Covered(read: BuildRead, library: string) {
    exists doc :: doc in read.docTests && read.docTests[doc].0 == library
  }

  function Live(read: BuildRead): set<string> { set e | e in read.edges && e.0 in read.packages :: e.1 }

  /** Exactly the findings of `check_drift`. Stale rows are judged only on a complete reading. */
  ghost predicate Raised(g: Gate, read: BuildRead, f: Finding) {
    match f
    case Orphans(count) => count == read.orphans && count > 0
    case DocFeatures(_) | DocMissing(_) => DocRaised(read, f)
    case CargoFloor(members) => members == |g.cargo| && members < g.cargoFloor
    case StaleRow(l) => l in StaleOf(g, read)
    case Compared(d) => Drifts(g, read, d)
  }

  function StaleOf(g: Gate, read: BuildRead): set<string> {
    if TalliedBy(g, read).EnoughRead() then L.StaleRows(g.table, Live(read)) else {}
  }

  ghost predicate Drifts(g: Gate, read: BuildRead, d: L.Drift) {
    L.Raised(g.cargo, DepsOf(read), g.table, TalliedBy(g, read), d)
  }

  predicate DocRaised(read: BuildRead, f: Finding) {
    match f
    case DocFeatures(doc) => FeaturesDiffer(read, doc)
    case DocMissing(library) => library in read.libFeatures && !Covered(read, library)
    case _ => false
  }

  // ---- the gate ----------------------------------------------------------------------------------------

  method DocFindings(read: BuildRead) returns (findings: seq<Finding>)
    ensures forall f :: f in findings <==> DocRaised(read, f)
  {
    findings := [];
    var docs := read.docTests.Keys;
    while docs != {}
      invariant docs <= read.docTests.Keys
      invariant forall f :: f in findings <==> f.DocFeatures? && f.doc !in docs && FeaturesDiffer(read, f.doc)
      decreases docs
    {
      var doc :| doc in docs;
      docs := docs - {doc};
      if Look(read.libFeatures, read.docTests[doc].0) != Some(read.docTests[doc].1) {
        findings := findings + [DocFeatures(doc)];
      }
    }
    var missing := read.libFeatures.Keys - set doc | doc in read.docTests :: read.docTests[doc].0;
    ghost var uncovered := missing;
    assert forall l :: l in uncovered <==> l in read.libFeatures && !Covered(read, l);
    while missing != {}
      invariant missing <= uncovered
      invariant forall f :: f in findings <==> DocRaised(read, f) && !(f.DocMissing? && f.library in missing)
      decreases missing
    {
      var l :| l in missing;
      missing := missing - {l};
      findings := findings + [DocMissing(l)];
    }
  }

  method StaleFindings(rows: set<string>) returns (findings: seq<Finding>)
    ensures forall f :: f in findings <==> f.StaleRow? && f.name in rows
  {
    findings := [];
    var rest := rows;
    while rest != {}
      invariant rest <= rows && forall f :: f in findings <==> f.StaleRow? && f.name in rows - rest
      decreases rest
    {
      var l :| l in rest;
      rest := rest - {l};
      findings := findings + [StaleRow(l)];
    }
  }

  method Compare(g: Gate, read: BuildRead) returns (findings: seq<Finding>)
    ensures forall f :: f in findings <==> f.Compared? && Raised(g, read, f)
  {
    var drifts := L.BuildDrift(g.cargo, DepsOf(read), g.table, TalliedBy(g, read));
    findings := seq(|drifts|, k requires 0 <= k < |drifts| => Compared(drifts[k]));
    forall f ensures f in findings <==> f.Compared? && f.drift in drifts {
      if f.Compared? && f.drift in drifts {
        var k :| 0 <= k < |drifts| && drifts[k] == f.drift;
        assert findings[k] == f;
      }
    }
  }

  /** `check_drift`: the findings are exactly the raised ones. */
  method CheckDrift(g: Gate, text: string) returns (findings: seq<Finding>)
    ensures forall f :: f in findings <==> Raised(g, ReadText(text), f)
  {
    var read := ReadBuildOutput(text);
    findings := Judge(g, read);
  }

  method Judge(g: Gate, read: BuildRead) returns (findings: seq<Finding>)
    ensures forall f :: f in findings <==> Raised(g, read, f)
  {
    var orphans := if read.orphans > 0 then [Orphans(read.orphans)] else [];
    var docs := DocFindings(read);
    var cargo := if |g.cargo| < g.cargoFloor then [CargoFloor(|g.cargo|)] else [];
    var stale := StaleFindings(StaleOf(g, read));
    var compared := Compare(g, read);
    findings := orphans + docs + cargo + stale + compared;
  }

  ghost predicate Silent(g: Gate, read: BuildRead) { forall f :: !Raised(g, read, f) }

  // ---- what silence says, clause by clause ------------------------------------------------------------------

  ghost predicate DocsRight(read: BuildRead) {
    && (forall doc :: !FeaturesDiffer(read, doc))
    && (forall library :: library in read.libFeatures ==> Covered(read, library))
  }

  ghost predicate NoDrift(g: Gate, read: BuildRead) { forall d :: !Drifts(g, read, d) }

  /** No clause has anything to say. */
  ghost predicate AllClear(g: Gate, read: BuildRead) {
    read.orphans == 0 && DocsRight(read) && |g.cargo| >= g.cargoFloor && StaleOf(g, read) == {} && NoDrift(g, read)
  }

  lemma SilentGives(g: Gate, read: BuildRead)
    requires Silent(g, read)
    ensures AllClear(g, read)
  {
    assert !Raised(g, read, Orphans(read.orphans)) && !Raised(g, read, CargoFloor(|g.cargo|));
    forall doc ensures !FeaturesDiffer(read, doc) { assert !Raised(g, read, DocFeatures(doc)); }
    forall library | library in read.libFeatures ensures Covered(read, library) {
      assert !Raised(g, read, DocMissing(library));
    }
    forall l ensures l !in StaleOf(g, read) { assert !Raised(g, read, StaleRow(l)); }
    forall d ensures !Drifts(g, read, d) { assert !Raised(g, read, Compared(d)); }
  }

  lemma SilentFrom(g: Gate, read: BuildRead)
    requires AllClear(g, read)
    ensures Silent(g, read)
  {
    forall f ensures !Raised(g, read, f) {
      match f
      case Compared(d) => assert !Drifts(g, read, d);
      case _ =>
    }
  }

  // ---- what silence says of the printed rules ---------------------------------------------------------------

  ghost predicate AllResolve(rs: seq<Rule>, table: map<string, string>) {
    forall p, l :: SomeEdge(rs, p, l) ==> L.Resolve(l, table).Some?
  }

  /** Some rule of the package depends on a label that is that Cargo name. */
  ghost predicate DependsOn(rs: seq<Rule>, table: map<string, string>, p: string, n: string) {
    exists l :: SomeEdge(rs, p, l) && L.Resolve(l, table) == Some(n)
  }

  ghost predicate SameGraph(rs: seq<Rule>, cargo: map<string, set<string>>, table: map<string, string>) {
    forall p, n :: n in L.At(cargo, p) <==> DependsOn(rs, table, p, n)
  }

  /** Some rule depends on the label. */
  ghost predicate Used(rs: seq<Rule>, l: string) { exists p :: SomeEdge(rs, p, l) }

  /** Each doctest rule has the features of the library it names, and each library is named by
      one; a label's last rule counts. */
  ghost predicate DocTestsAgree(rs: seq<Rule>) {
    && (forall doc :: DocTestRow(rs, doc).Some? ==>
                        LibraryRow(rs, DocTestRow(rs, doc).value.0) == Some(DocTestRow(rs, doc).value.1))
    && (forall library :: LibraryRow(rs, library).Some? ==> exists doc :: NamesCrate(rs, doc, library))
  }

  predicate NamesCrate(rs: seq<Rule>, doc: string, library: string) {
    DocTestRow(rs, doc).Some? && DocTestRow(rs, doc).value.0 == library
  }

  function PackagesOf(rs: seq<Rule>): set<string> { set k | 0 <= k < |rs| :: Package(rs[k].pkg) }

  /** What a silent gate means for the rules: enough of them, as many test rules as the map has
      rows, every doctest in step with its library, no table row unused, every dependency
      resolved, and the same dependency graph as Cargo's. */
  ghost predicate InStep(g: Gate, rs: seq<Rule>) {
    && |g.cargo| >= g.cargoFloor && |PackagesOf(rs)| >= g.packageFloor && |rs| >= g.targetFloor
    && TestsAmong(rs) == g.mapRows && DocTestsAgree(rs)
    && (forall l :: l in g.table && L.IsThirdParty(l) ==> Used(rs, l))
    && AllResolve(rs, g.table) && SameGraph(rs, g.cargo, g.table)
  }

  lemma EdgePackage(rs: seq<Rule>, p: string, l: string)
    requires SomeEdge(rs, p, l)
    ensures SomePackage(rs, p)
  {
    var k :| 0 <= k < |rs| && RuleEdge(rs[k], p, l);
    assert p == Package(rs[k].pkg);
  }

  lemma DepsAre(rs: seq<Rule>, read: BuildRead, p: string, l: string)
    requires Recovers(rs, read)
    ensures l in L.At(DepsOf(read), p) <==> SomeEdge(rs, p, l)
  {
    if SomeEdge(rs, p, l) {
      EdgePackage(rs, p, l);
      assert (p, l) in read.edges && p in read.packages;
    }
    if l in L.At(DepsOf(read), p) { assert (p, l) in read.edges; }
  }

  lemma ResolveSame(rs: seq<Rule>, read: BuildRead, table: map<string, string>)
    requires Recovers(rs, read)
    ensures L.AllResolve(DepsOf(read), table) <==> AllResolve(rs, table)
  {
    forall p, l ensures (p in DepsOf(read) && l in DepsOf(read)[p]) <==> SomeEdge(rs, p, l) { DepsAre(rs, read, p, l); }
  }

  lemma NamedSame(rs: seq<Rule>, read: BuildRead, table: map<string, string>, p: string, n: string)
    requires Recovers(rs, read)
    ensures L.NamedBy(DepsOf(read), table, p, n) <==> DependsOn(rs, table, p, n)
  {
    forall l ensures l in L.At(DepsOf(read), p) <==> SomeEdge(rs, p, l) { DepsAre(rs, read, p, l); }
  }

  lemma PackagesSame(rs: seq<Rule>, read: BuildRead)
    requires Recovers(rs, read)
    ensures read.packages == PackagesOf(rs)
  {
    forall p ensures p in read.packages <==> p in PackagesOf(rs) { }
  }

  lemma LiveSame(rs: seq<Rule>, read: BuildRead, l: string)
    requires Recovers(rs, read)
    ensures l in Live(read) <==> Used(rs, l)
  {
    if Used(rs, l) {
      var p :| SomeEdge(rs, p, l);
      EdgePackage(rs, p, l);
      assert (p, l) in read.edges;
    }
    if l in Live(read) {
      var e :| e in read.edges && e.0 in read.packages && e.1 == l;
      assert SomeEdge(rs, e.0, l);
    }
  }

  lemma StaleSame(rs: seq<Rule>, read: BuildRead, table: map<string, string>)
    requires Recovers(rs, read)
    ensures L.StaleRows(table, Live(read)) == {} <==> (forall l :: l in table && L.IsThirdParty(l) ==> Used(rs, l))
  {
    forall l ensures l in Live(read) <==> Used(rs, l) { LiveSame(rs, read, l); }
    assert forall l :: l in L.StaleRows(table, Live(read)) <==> l in table && L.IsThirdParty(l) && l !in Live(read);
  }

  lemma DocsSame(rs: seq<Rule>, read: BuildRead)
    requires Recovers(rs, read)
    ensures DocsRight(read) <==> DocTestsAgree(rs)
  {
    forall doc ensures FeaturesDiffer(read, doc)
        <==> DocTestRow(rs, doc).Some?
             && LibraryRow(rs, DocTestRow(rs, doc).value.0) != Some(DocTestRow(rs, doc).value.1) {
      RowsSame(rs, read, doc);
      if DocTestRow(rs, doc).Some? { RowsSame(rs, read, DocTestRow(rs, doc).value.0); }
    }
    forall library ensures library in read.libFeatures <==> LibraryRow(rs, library).Some? {
      RowsSame(rs, read, library);
    }
    forall library ensures Covered(read, library) <==> exists doc :: NamesCrate(rs, doc, library) {
      CoveredSame(rs, read, library);
    }
  }

  lemma RowsSame(rs: seq<Rule>, read: BuildRead, l: string)
    requires Recovers(rs, read)
    ensures Look(read.libFeatures, l) == LibraryRow(rs, l) && Look(read.docTests, l) == DocTestRow(rs, l)
  {
  }

  lemma CoveredSame(rs: seq<Rule>, read: BuildRead, library: string)
    requires Recovers(rs, read)
    ensures Covered(read, library) <==> exists doc :: NamesCrate(rs, doc, library)
  {
    if Covered(read, library) {
      var doc :| doc in read.docTests && read.docTests[doc].0 == library;
      RowsSame(rs, read, doc);
      assert NamesCrate(rs, doc, library);
    }
    if doc :| NamesCrate(rs, doc, library) { RowsSame(rs, read, doc); }
  }

  lemma NoDriftIs(g: Gate, read: BuildRead)
    ensures NoDrift(g, read) <==>
              && TalliedBy(g, read).EnoughRead() && read.rustTests == g.mapRows
              && L.AllResolve(DepsOf(read), g.table) && L.EdgesAgree(g.cargo, DepsOf(read), g.table)
  {
    L.DriftFree(g.cargo, DepsOf(read), g.table, TalliedBy(g, read));
    forall d ensures Drifts(g, read, d) <==> L.Raised(g.cargo, DepsOf(read), g.table, TalliedBy(g, read), d) { }
    if NoDrift(g, read) {
      forall d ensures !L.Raised(g.cargo, DepsOf(read), g.table, TalliedBy(g, read), d) { assert !Drifts(g, read, d); }
    }
  }

  lemma GraphSame(rs: seq<Rule>, read: BuildRead, cargo: map<string, set<string>>, table: map<string, string>)
    requires Recovers(rs, read)
    ensures L.EdgesAgree(cargo, DepsOf(read), table) <==> SameGraph(rs, cargo, table)
  {
    forall p, n ensures L.NamedBy(DepsOf(read), table, p, n) <==> DependsOn(rs, table, p, n) {
      NamedSame(rs, read, table, p, n);
    }
  }

  lemma ComparedSame(g: Gate, rs: seq<Rule>, read: BuildRead)
    requires Recovers(rs, read)
    ensures NoDrift(g, read) <==>
              && |PackagesOf(rs)| >= g.packageFloor && |rs| >= g.targetFloor && TestsAmong(rs) == g.mapRows
              && AllResolve(rs, g.table) && SameGraph(rs, g.cargo, g.table)
  {
    NoDriftIs(g, read);
    PackagesSame(rs, read);
    ResolveSame(rs, read, g.table);
    GraphSame(rs, read, g.cargo, g.table);
  }

  lemma SilentIff(g: Gate, rs: seq<Rule>, read: BuildRead)
    requires Recovers(rs, read)
    ensures Silent(g, read) <==> InStep(g, rs)
  {
    ClearIff(g, rs, read);
    if Silent(g, read) { SilentGives(g, read); }
    if AllClear(g, read) { SilentFrom(g, read); }
  }

  lemma ClearIff(g: Gate, rs: seq<Rule>, read: BuildRead)
    requires Recovers(rs, read)
    ensures AllClear(g, read) <==> InStep(g, rs)
  {
    ComparedSame(g, rs, read);
    DocsSame(rs, read);
    StaleSame(rs, read, g.table);
    PackagesSame(rs, read);
  }

  /** For any rules, printed and read back as text, the gate is silent exactly when the rules
      are in step with Cargo, the label table and the test map. */
  lemma SilentGateIff(g: Gate, rs: seq<Rule>)
    requires forall k :: 0 <= k < |rs| ==> WellFormed(rs[k])
    ensures Silent(g, ReadText(PrintText(rs))) <==> InStep(g, rs)
  {
    RoundTrip(rs);
    SilentIff(g, rs, ReadText(PrintText(rs)));
  }
}

/** The label table of the BUILD drift gate: its derivation, its fallback rule, and the
    comparison of each package's Bazel labels with its Cargo dependencies. */
module LabelMap {
  import opened Text

  predicate IsThirdParty(l: string) { "@crates//" <= l }

  /** The label's text after its first colon; `None` is the source's index error. */
  function StemOf(l: string): Option<string> {
    if l == "" then None else if l[0] == ':' then Some(l[1..]) else StemOf(l[1..])
  }

  const FIRST_PARTY_PREFIX := "//crates/"

  /** `//crates/<dir>:<dir>`. */
  function FirstParty(dir: string): string { FIRST_PARTY_PREFIX + dir + ":" + dir }

  /** The directory a first-party label would be about, read off its length. */
  function DirOf(l: string): string {
    if |l| < 10 then "" else l[9..9 + (|l| - 10) / 2]
  }

  predicate IsLowerWord(s: string) {
    s != "" && forall k :: 0 <= k < |s| ==> 'a' <= s[k] <= 'z' || '0' <= s[k] <= '9' || s[k] == '_'
  }

  lemma DirOfFirstParty(dir: string)
    ensures DirOf(FirstParty(dir)) == dir
    ensures !IsThirdParty(FirstParty(dir))
  {
    var l := FirstParty(dir);
    assert |l| == 10 + 2 * |dir|;
    assert l[9..9 + |dir|] == dir;
    assert l[0] == '/';
  }

  /** `resolve_label`: the table first, then the `//crates/x:x` fallback. */
  function Resolve(l: string, table: map<string, string>): Option<string> {
    if l in table then Some(table[l])
    else if l == FirstParty(DirOf(l)) && IsLowerWord(DirOf(l)) then Some(DirOf(l))
    else None
  }

  // ---- the derivation --------------------------------------------------------------------

  /** What the derivation is given: the labels some package depends on, the resolved packages
      by `<name>-<version>`, the workspace members' names by directory, and the old table. */
  datatype Inputs = Inputs(live: set<string>, byStem: map<string, string>,
                           members: map<string, string>, existing: map<string, string>)
  {
    predicate Splits() { forall l :: l in live && IsThirdParty(l) ==> StemOf(l).Some? }

    /** The row of a third-party label: the package of that exact stem, or the kept row. */
    function ThirdPartyRow(l: string): Option<string>
      requires StemOf(l).Some?
    {
      if StemOf(l).value in byStem then Some(byStem[StemOf(l).value])
      else if l in existing then Some(existing[l])
      else None
    }

    predicate Underivable(l: string) {
      l in live && IsThirdParty(l) && StemOf(l).Some? && ThirdPartyRow(l).None?
    }

    /** The row a table must hold for a label, if any. */
    function RowFor(l: string): Option<string> {
      if IsThirdParty(l) then (if l in live && StemOf(l).Some? then ThirdPartyRow(l) else None)
      else if DirOf(l) in members && l == FirstParty(DirOf(l)) && DirOf(l) != members[DirOf(l)] then
        Some(members[DirOf(l)])
      else None
    }

    /** Exactly the derived rows. */
    ghost predicate IsDerived(table: map<string, string>) {
      forall l :: (l in table <==> RowFor(l).Some?) && (l in table ==> Some(table[l]) == RowFor(l))
    }
  }

  // ---- the derivation in words ---------------------------------------------------------------------

  /** The text after the first colon. */
  ghost predicate AfterColon(l: string, stem: string) { exists pre :: ':' !in pre && l == pre + ":" + stem }

  lemma {:induction false} StemAt(l: string)
    ensures var k := IndexOf(l, ':'); StemOf(l) == if k == |l| then None else Some(l[k + 1..])
  {
    if l != "" && l[0] != ':' { StemAt(l[1..]); }
  }

  lemma StemIs(l: string)
    ensures StemOf(l).None? <==> ':' !in l
    ensures forall stem :: StemOf(l) == Some(stem) <==> AfterColon(l, stem)
  {
    StemAt(l);
    var k := IndexOf(l, ':');
    assert k == |l| ==> l[..k] == l;
    if k < |l| { assert l == l[..k] + ":" + l[k + 1..]; }
    forall stem | AfterColon(l, stem) ensures StemOf(l) == Some(stem) {
      var pre :| ':' !in pre && l == pre + ":" + stem;
      IndexPast(pre, stem, ':');
      assert l == pre + [':'] + stem && l[|pre| + 1..] == stem;
    }
  }

  /** The row of a third-party label: in use, with the package of its stem, or else as it was. */
  ghost predicate ThirdPartyInWords(i: Inputs, l: string, row: string) {
    l in i.live && exists stem :: AfterColon(l, stem) && StemRow(i, l, stem, row)
  }

  predicate StemRow(i: Inputs, l: string, stem: string, row: string) {
    if stem in i.byStem then row == i.byStem[stem] else l in i.existing && row == i.existing[l]
  }

  /** The row of a member whose name is not its directory. */
  predicate MemberRow(i: Inputs, l: string, dir: string, row: string) {
    dir in i.members && l == "//crates/" + dir + ":" + dir && row == i.members[dir] && row != dir
  }

  ghost predicate RowInWords(i: Inputs, l: string, row: string) {
    if "@crates//" <= l then ThirdPartyInWords(i, l, row) else exists dir :: MemberRow(i, l, dir, row)
  }

  lemma MemberRowIs(i: Inputs, l: string, dir: string, row: string)
    ensures MemberRow(i, l, dir, row) <==>
              && dir == DirOf(l) && dir in i.members && l == FirstParty(dir)
              && dir != i.members[dir] && row == i.members[dir]
  {
    assert FirstParty(dir) == "//crates/" + dir + ":" + dir;
    DirOfFirstParty(dir);
  }

  /** The rows a table must hold, in words. */
  lemma RowIsInWords(i: Inputs, l: string, row: string)
    ensures i.RowFor(l) == Some(row) <==> RowInWords(i, l, row)
  {
    StemIs(l);
    if !IsThirdParty(l) {
      forall dir
        ensures MemberRow(i, l, dir, row) <==>
                  && dir == DirOf(l) && dir in i.members && l == FirstParty(dir)
                  && dir != i.members[dir] && row == i.members[dir]
      {
        MemberRowIs(i, l, dir, row);
      }
    }
  }

  /** A live third-party label no package and no old row is for. */
  ghost predicate LeftOver(i: Inputs, l: string) {
    l in i.live && "@crates//" <= l && l !in i.existing && exists stem :: AfterColon(l, stem) && stem !in i.byStem
  }

  lemma LeftOverIs(i: Inputs, l: string)
    ensures i.Underivable(l) <==> LeftOver(i, l)
    ensures l in i.live && IsThirdParty(l) && StemOf(l).None? <==> l in i.live && "@crates//" <= l && ':' !in l
  {
    StemIs(l);
  }

  /** `derive_label_map`. */
  method DeriveLabelMap(i: Inputs)
      returns (raised: bool, table: map<string, string>, findings: set<string>)
    ensures raised <==> exists l :: l in i.live && "@crates//" <= l && ':' !in l
    ensures !raised ==> i.IsDerived(table) && forall l, row :: Look(table, l) == Some(row) <==> RowInWords(i, l, row)
    ensures !raised ==> forall l :: l in findings <==> LeftOver(i, l)
  {
    forall l, row ensures i.RowFor(l) == Some(row) <==> RowInWords(i, l, row) { RowIsInWords(i, l, row); }
    forall l
      ensures i.Underivable(l) <==> LeftOver(i, l)
      ensures l in i.live && IsThirdParty(l) && StemOf(l).None? <==> l in i.live && "@crates//" <= l && ':' !in l
    {
      LeftOverIs(i, l);
    }
    table, findings := map[], {};
    var labels := i.live;
    while labels != {}
      invariant labels <= i.live
      invariant forall l :: l in i.live - labels && IsThirdParty(l) ==> StemOf(l).Some?
      invariant forall l :: l in table <==> l in i.live - labels && IsThirdParty(l) && i.RowFor(l).Some?
      invariant forall l :: l in table ==> Some(table[l]) == i.RowFor(l)
      invariant findings == set l | l in i.live - labels && i.Underivable(l)
      decreases labels
    {
      var l :| l in labels;
      labels := labels - {l};
      if IsThirdParty(l) {
        if StemOf(l).None? { return true, map[], {}; }
        var stem := StemOf(l).value;
        if stem in i.byStem {
          table := table[l := i.byStem[stem]];
        } else if l in i.existing {
          table := table[l := i.existing[l]];
        } else {
          findings := findings + {l};
        }
      }
    }
    var dirs := i.members.Keys;
    while dirs != {}
      invariant dirs <= i.members.Keys
      invariant forall l :: l in table <==> i.RowFor(l).Some? && (IsThirdParty(l) || DirOf(l) !in dirs)
      invariant forall l :: l in table ==> Some(table[l]) == i.RowFor(l)
      decreases dirs
    {
      var dir :| dir in dirs;
      dirs := dirs - {dir};
      DirOfFirstParty(dir);
      if dir != i.members[dir] { table := table[FirstParty(dir) := i.members[dir]]; }
    }
    raised := false;
  }

  // ---- what a derived table guarantees -------------------------------------------------------

  /** `stale_map_rows`: third-party rows nothing depends on. */
  function StaleRows(table: map<string, string>, live: set<string>): set<string> {
    set l | l in table && IsThirdParty(l) && l !in live
  }

  /** A derived table has no stale row, and every live third-party label without a finding
      has one. */
  lemma DerivedIsExact(i: Inputs, table: map<string, string>)
    requires i.Splits() && i.IsDerived(table)
    ensures StaleRows(table, i.live) == {}
    ensures forall l :: l in i.live && IsThirdParty(l) ==> (l in table <==> !i.Underivable(l))
  {
    forall l | l in table && IsThirdParty(l) ensures l in i.live {
      DirOfFirstParty(DirOf(l));
    }
  }

  /** Deriving again from the derived table changes nothing. */
  lemma DerivedIsFixpoint(i: Inputs, table: map<string, string>, again: map<string, string>)
    requires i.Splits() && i.IsDerived(table)
    requires i.(existing := table).IsDerived(again)
    ensures again == table
    ensures forall l :: i.Underivable(l) <==> i.(existing := table).Underivable(l)
  {
    var j := i.(existing := table);
    forall l ensures i.RowFor(l) == j.RowFor(l) {
      if l in i.live && IsThirdParty(l) { assert l in table ==> Some(table[l]) == i.RowFor(l); }
    }
  }

  /** With the fallback, a derived table answers a member's label with the member's package
      name exactly when the directory is in the fallback's alphabet or differs from the
      name. */
  lemma ResolveAgrees(i: Inputs, table: map<string, string>, dir: string)
    requires i.IsDerived(table) && dir in i.members
    ensures Resolve(FirstParty(dir), table) == Some(i.members[dir]) <==> IsLowerWord(dir) || dir != i.members[dir]
  {
    DirOfFirstParty(dir);
  }

  // ---- the comparator ---------------------------------------------------------------------------

  /** One package's labels as Cargo names. */
  function Mapped(labels: set<string>, table: map<string, string>): set<string> {
    set l | l in labels && Resolve(l, table).Some? :: Resolve(l, table).value
  }

  function At(m: map<string, set<string>>, p: string): set<string> { if p in m then m[p] else {} }

  /** How much was read, and the floors it is held to. */
  datatype Tallied = Tallied(packages: nat, targets: nat, tests: nat, mapRows: nat,
                             packageFloor: nat, targetFloor: nat)
  {
    predicate EnoughRead() { packages >= packageFloor && targets >= targetFloor }
  }

  datatype Drift = ReaderFloor | MapParity | Unmapped(name: string) | SetDiffers(package: string)

  /** Exactly the findings. */
  ghost predicate Raised(cargo: map<string, set<string>>, build: map<string, set<string>>,
                         table: map<string, string>, tallied: Tallied, d: Drift)
  {
    match d
    case ReaderFloor => !tallied.EnoughRead()
    case MapParity => tallied.tests != tallied.mapRows
    case Unmapped(l) => exists p :: p in build && l in build[p] && Resolve(l, table).None?
    case SetDiffers(p) => p in cargo.Keys + build.Keys && Mapped(At(build, p), table) != At(cargo, p)
  }

  /** `build_drift`: the two counts, then the loop over the packages of either side. */
  method BuildDrift(cargo: map<string, set<string>>, build: map<string, set<string>>,
                    table: map<string, string>, tallied: Tallied)
      returns (findings: seq<Drift>)
    ensures forall d :: d in findings <==> Raised(cargo, build, table, tallied, d)
  {
    findings := [];
    if tallied.packages < tallied.packageFloor || tallied.targets < tallied.targetFloor {
      findings := findings + [ReaderFloor];
    }
    if tallied.tests != tallied.mapRows { findings := findings + [MapParity]; }
    var sets := SetDrift(cargo, build, table);
    findings := findings + sets;
  }

  method SetDrift(cargo: map<string, set<string>>, build: map<string, set<string>>, table: map<string, string>)
      returns (findings: seq<Drift>)
    ensures forall d :: d in findings <==> RaisedIn(cargo, build, table, cargo.Keys + build.Keys, d)
  {
    findings := [];
    var rest := cargo.Keys + build.Keys;
    ghost var all := rest;
    while rest != {}
      invariant rest <= all
      invariant forall d :: d in findings <==> RaisedIn(cargo, build, table, all - rest, d)
      decreases rest
    {
      var p :| p in rest;
      var labels := At(build, p);
      var mapped: set<string> := {};
      var more: seq<Drift> := [];
      var todo := labels;
      while todo != {}
        invariant todo <= labels
        invariant mapped == Mapped(labels - todo, table)
        invariant forall d :: d in more <==> d.Unmapped? && d.name in labels - todo && Resolve(d.name, table).None?
        decreases todo
      {
        var l :| l in todo;
        todo := todo - {l};
        var name := Resolve(l, table);
        if name.None? { more := more + [Unmapped(l)]; } else { mapped := mapped + {name.value}; }
      }
      assert labels - todo == labels;
      if mapped != At(cargo, p) { more := more + [SetDiffers(p)]; }
      assert all - (rest - {p}) == (all - rest) + {p};
      rest := rest - {p};
      findings := findings + more;
    }
    assert all - rest == all;
  }

  /** The findings of the packages handled so far. */
  ghost predicate RaisedIn(cargo: map<string, set<string>>, build: map<string, set<string>>,
                           table: map<string, string>, packages: set<string>, d: Drift)
  {
    match d
    case ReaderFloor | MapParity => false
    case Unmapped(l) => exists p :: p in packages && p in build && l in build[p] && Resolve(l, table).None?
    case SetDiffers(p) => p in packages && Mapped(At(build, p), table) != At(cargo, p)
  }

  ghost predicate AllResolve(build: map<string, set<string>>, table: map<string, string>) {
    forall p, l :: p in build && l in build[p] ==> Resolve(l, table).Some?
  }

  /** Some label of the package is that Cargo name. */
  ghost predicate NamedBy(build: map<string, set<string>>, table: map<string, string>, p: string, n: string) {
    exists l :: l in At(build, p) && Resolve(l, table) == Some(n)
  }

  ghost predicate EdgesAgree(cargo: map<string, set<string>>, build: map<string, set<string>>,
                             table: map<string, string>)
  {
    forall p, n :: n in At(cargo, p) <==> NamedBy(build, table, p, n)
  }

  lemma MappedAgrees(cargo: map<string, set<string>>, build: map<string, set<string>>,
                     table: map<string, string>, p: string)
    ensures Mapped(At(build, p), table) == At(cargo, p) <==>
              (forall n :: n in At(cargo, p) <==> NamedBy(build, table, p, n))
  {
    forall n ensures n in Mapped(At(build, p), table) <==> NamedBy(build, table, p, n) {
      MappedIff(At(build, p), table, n);
    }
  }

  /** A finding-free comparison means that enough was read, the test targets are the map's rows,
      every label resolves, and the two graphs agree edge for edge, each package's Cargo
      dependencies being the resolved names of its labels. */
  lemma DriftFree(cargo: map<string, set<string>>, build: map<string, set<string>>, table: map<string, string>,
                  tallied: Tallied)
    ensures (forall d :: !Raised(cargo, build, table, tallied, d))
            <==> && tallied.EnoughRead() && tallied.tests == tallied.mapRows
                 && AllResolve(build, table) && EdgesAgree(cargo, build, table)
  {
    forall p
      ensures Mapped(At(build, p), table) == At(cargo, p) <==>
                (forall n :: n in At(cargo, p) <==> NamedBy(build, table, p, n))
    {
      MappedAgrees(cargo, build, table, p);
    }
    if && tallied.EnoughRead() && tallied.tests == tallied.mapRows
       && AllResolve(build, table) && EdgesAgree(cargo, build, table) {
      forall d ensures !Raised(cargo, build, table, tallied, d) {}
    }
    if forall d :: !Raised(cargo, build, table, tallied, d) {
      assert !Raised(cargo, build, table, tallied, ReaderFloor) && !Raised(cargo, build, table, tallied, MapParity);
      forall p, l | p in build && l in build[p] ensures Resolve(l, table).Some? {
        assert !Raised(cargo, build, table, tallied, Unmapped(l));
      }
      forall p ensures Mapped(At(build, p), table) == At(cargo, p) {
        assert !Raised(cargo, build, table, tallied, SetDiffers(p));
      }
    }
  }

  lemma MappedIff(labels: set<string>, table: map<string, string>, n: string)
    ensures n in Mapped(labels, table) <==> exists l :: l in labels && Resolve(l, table) == Some(n)
  {
  }
}

/** `check_tags` in full: the clauses that decide what may be cached, and beside them the stage,
    sweep, shared-group and hand-declared clauses. */
module SuiteGuard {
  import opened Text
  import opened Reachability
  import opened InputClosure
  import opened TagGuard
  import opened CacheRuns
  import opened ShadowedRuns
  import ImportReads

  const SUITE_INPUTS := "//test:suite_inputs"

  datatype Stage = Stage(universe: string, minimum: nat)

  /** What the shared group must hold, the reads kept by hand for each module, and what reading
      an input also reads. */
  datatype Demands = Demands(files: set<string>, dirs: set<string>, floor: nat,
                             hand: map<string, set<string>>, implied: map<string, set<string>>)

  datatype GuardFinding =
    | OfCache(finding: Finding)
    | UniverseOverride
    | StageUnknown
    | Sweeper(rule: string)
    | GroupAbsent
    | GroupFiles(missing: set<string>)
    | GroupDirs(missing: set<string>)
    | GroupFloor(count: nat)
    | HandUnknown(name: string)
    | HandUnreviewed(rule: string)
    | HandUndeclared(rule: string, missing: set<string>)

  // ---- what the path derivation cannot follow -----------------------------------------------------------

  /** The directory directly under `test/` a tracked file lies in, if it lies in one. */
  function TestDir(file: string): Option<string> {
    var parts := Split(file, '/');
    if AMBIENT_PREFIX <= file && |parts| >= 3 then Some(parts[1]) else None
  }

  function TestDirs(tracked: set<string>): set<string> {
    set file | file in tracked && TestDir(file).Some? :: TestDir(file).value
  }

  /** Those of the directories that hold no member of the shared group. */
  function MovedOut(tracked: set<string>, group: set<string>): set<string> {
    set d | d in TestDirs(tracked) && !(exists path :: path in group && AMBIENT_PREFIX + d + "/" <= path)
  }

  function PlainParts(parts: seq<string>): seq<string> {
    if parts == [] then []
    else (if parts[0] in {"", ".", ".."} then [] else [parts[0]]) + PlainParts(parts[1..])
  }

  function PathParts(value: string): seq<string> {
    var parts := PlainParts(Split(value, '/'));
    if parts != [] && parts[0] == "test" then parts[1..] else parts
  }

  /** A string literal that launches `task` or names a path under a moved-out directory. */
  predicate IsHint(value: string, moved: set<string>) {
    value == "task" || "task " <= value || (|PathParts(value)| >= 2 && PathParts(value)[0] in moved)
  }

  // ---- what the guard is given ------------------------------------------------------------------------------

  /** The whole input of `check_tags`: `sweepers` are the modules whose globs match modules, and
      `literals` the string literals of each source file, docstrings skipped. */
  datatype Guard = Guard(records: seq<RuleRecord>, derived: map<string, set<string>>, uncachedModules: set<string>,
                         tracked: set<string>, stage: Option<Stage>, queried: Option<string>,
                         sweepers: set<string>, literals: map<string, set<string>>, demands: Demands)
  {
    function Core(): Config {
      Config(records, derived, uncachedModules, tracked, if stage.Some? then stage.value.minimum else 0)
    }

    predicate HasAcceptance() { Core().Acceptance() != {} }

    predicate HasGroup() { SUITE_INPUTS in Core().Rules() }

    ghost function Group(): set<string> { if HasGroup() then Core().Closure(SUITE_INPUTS) else {} }

    /** Where a module's reads are looked for: its own file and its derived paths. */
    function Reach(name: string): set<string> {
      {ImportReads.MODULE_DIR + name} + if name in derived then derived[name] else {}
    }

    predicate HintAt(name: string, moved: set<string>, path: string) {
      path in Reach(name) && path in literals && exists value :: value in literals[path] && IsHint(value, moved)
    }

    predicate Hinted(name: string, moved: set<string>) {
      exists path :: path in Reach(name) && HintAt(name, moved, path)
    }

    /** What a module's target must have among its inputs. */
    function Required(name: string, inputs: set<string>): set<string> {
      (if name in demands.hand then demands.hand[name] else {})
      + set input, read | input in demands.implied && input in inputs && read in demands.implied[input] :: read
    }

    ghost predicate GroupRaised(f: GuardFinding) {
      match f
      case GroupAbsent => !HasGroup()
      case GroupFiles(missing) => HasGroup() && missing == demands.files - Group() && missing != {}
      case GroupDirs(missing) => HasGroup() && missing == MissingDirs(demands.dirs, Group()) && missing != {}
      case GroupFloor(count) => HasGroup() && count == |Group()| && count < demands.floor
      case _ => false
    }

    ghost predicate HandRaised(f: GuardFinding) {
      match f
      case HandUnknown(name) => name in demands.hand && !Core().IsModule(name)
      case HandUnreviewed(rule) =>
        Core().IsAcceptance(rule) && ModuleOf(rule) !in demands.hand
        && Hinted(ModuleOf(rule), MovedOut(tracked, ClosurePaths(Group())))
      case HandUndeclared(rule, missing) =>
        Core().IsAcceptance(rule) && missing != {}
        && missing == Required(ModuleOf(rule), Core().Closure(rule)) - Core().Closure(rule)
      case _ => false
    }

    predicate StageRaised(f: GuardFinding) {
      match f
      case UniverseOverride => stage.Some? && queried.Some? && queried.value != stage.value.universe
      case StageUnknown => stage.None?
      case _ => false
    }

    predicate SweepRaised(f: GuardFinding) {
      f.Sweeper? && Core().IsAcceptance(f.rule) && exists name :: name in sweepers && f.rule == SweptBy(name)
    }

    /** Exactly the findings of `check_tags`. */
    ghost predicate Raised(f: GuardFinding) {
      match f
      case OfCache(finding) => Core().Raised(finding)
      case UniverseOverride | StageUnknown => StageRaised(f)
      case Sweeper(_) => SweepRaised(f)
      case GroupAbsent | GroupFiles(_) | GroupDirs(_) | GroupFloor(_) => HasAcceptance() && GroupRaised(f)
      case HandUnknown(_) | HandUnreviewed(_) | HandUndeclared(_, _) => HasAcceptance() && HandRaised(f)
    }

    ghost predicate Silent() { forall f :: !Raised(f) }
  }

  /** The target of a sweeping module, its suffix cut off by length. */
  function SweptBy(name: string): string {
    ACCEPTANCE_PACKAGE + if |name| >= |MODULE_SUFFIX| then name[..|name| - |MODULE_SUFFIX|] else ""
  }

  function MissingDirs(dirs: set<string>, group: set<string>): set<string> {
    set d | d in dirs && !(exists member :: member in group && ACCEPTANCE_PACKAGE + d <= member)
  }

  // ---- the checker ----------------------------------------------------------------------------------------

  method StageFindings(g: Guard) returns (findings: seq<GuardFinding>)
    ensures forall f :: f in findings <==> g.StageRaised(f)
  {
    findings := [];
    if g.stage.Some? && g.queried.Some? && g.queried.value != g.stage.value.universe {
      findings := findings + [UniverseOverride];
    }
    if g.stage.None? { findings := findings + [StageUnknown]; }
  }

  /** `sweep_findings` */
  method SweepFindings(g: Guard) returns (findings: seq<GuardFinding>)
    ensures forall f :: f in findings <==> g.SweepRaised(f)
  {
    findings := [];
    var rest := g.sweepers;
    while rest != {}
      invariant rest <= g.sweepers
      invariant forall f :: f in findings <==>
                  && f.Sweeper? && g.Core().IsAcceptance(f.rule)
                  && exists name :: name in g.sweepers - rest && f.rule == SweptBy(name)
      decreases rest
    {
      var name :| name in rest;
      assert g.sweepers - (rest - {name}) == (g.sweepers - rest) + {name};
      rest := rest - {name};
      if SweptBy(name) in g.Core().Acceptance() { findings := findings + [Sweeper(SweptBy(name))]; }
    }
    assert g.sweepers - rest == g.sweepers;
  }

  /** `suite_inputs_findings` */
  method GroupFindings(g: Guard, closure: map<string, set<string>>) returns (findings: seq<GuardFinding>)
    requires Exact(g.Core(), closure)
    ensures forall f :: f in findings <==> g.GroupRaised(f)
  {
    if !g.HasGroup() { return [GroupAbsent]; }
    var members := closure[SUITE_INPUTS];
    findings := [];
    var files := g.demands.files - members;
    if files != {} { findings := findings + [GroupFiles(files)]; }
    var dirs := MissingDirs(g.demands.dirs, members);
    if dirs != {} { findings := findings + [GroupDirs(dirs)]; }
    if |members| < g.demands.floor { findings := findings + [GroupFloor(|members|)]; }
  }

  ghost predicate Exact(c: Config, closure: map<string, set<string>>) {
    forall rule :: rule in c.Rules() ==> rule in closure && closure[rule] == c.Closure(rule)
  }

  /** `hand_read_findings` */
  method HandFindings(g: Guard, closure: map<string, set<string>>) returns (findings: seq<GuardFinding>)
    requires Exact(g.Core(), closure)
    ensures forall f :: f in findings <==> g.HandRaised(f)
  {
    var unknown := UnknownHands(g);
    var group := if g.HasGroup() then closure[SUITE_INPUTS] else {};
    var unreviewed := Unreviewed(g, MovedOut(g.tracked, ClosurePaths(group)));
    var undeclared := Undeclared(g, closure);
    findings := unknown + unreviewed + undeclared;
  }

  method UnknownHands(g: Guard) returns (findings: seq<GuardFinding>)
    ensures forall f :: f in findings <==> f.HandUnknown? && f.name in g.demands.hand && !g.Core().IsModule(f.name)
  {
    findings := [];
    var rest := set name | name in g.demands.hand && !g.Core().IsModule(name);
    ghost var all := rest;
    while rest != {}
      invariant rest <= all && forall f :: f in findings <==> f.HandUnknown? && f.name in all - rest
      decreases rest
    {
      var name :| name in rest;
      rest := rest - {name};
      findings := findings + [HandUnknown(name)];
    }
  }

  /** A module with a hint and no entry kept by hand. */
  predicate Unseen(g: Guard, rule: string, moved: set<string>) {
    ModuleOf(rule) !in g.demands.hand && g.Hinted(ModuleOf(rule), moved)
  }

  method Unreviewed(g: Guard, moved: set<string>) returns (findings: seq<GuardFinding>)
    ensures forall f :: f in findings
              <==> f.HandUnreviewed? && g.Core().IsAcceptance(f.rule) && Unseen(g, f.rule, moved)
  {
    findings := [];
    var rest := g.Core().Acceptance();
    while rest != {}
      invariant rest <= g.Core().Acceptance()
      invariant forall f :: f in findings
                  <==> f.HandUnreviewed? && f.rule in g.Core().Acceptance() - rest && Unseen(g, f.rule, moved)
      decreases rest
    {
      var rule :| rule in rest;
      rest := rest - {rule};
      if ModuleOf(rule) in g.demands.hand { continue; }
      if g.Hinted(ModuleOf(rule), moved) { findings := findings + [HandUnreviewed(rule)]; }
    }
  }

  method Undeclared(g: Guard, closure: map<string, set<string>>) returns (findings: seq<GuardFinding>)
    requires Exact(g.Core(), closure)
    ensures forall f :: f in findings <==> f.HandUndeclared? && g.HandRaised(f)
  {
    findings := [];
    var rest := g.Core().Acceptance();
    while rest != {}
      invariant rest <= g.Core().Acceptance()
      invariant forall f :: f in findings <==> f.HandUndeclared? && g.HandRaised(f) && f.rule !in rest
      decreases rest
    {
      var rule :| rule in rest;
      rest := rest - {rule};
      var required := RequiredOf(g, ModuleOf(rule), closure[rule]);
      var missing := required - closure[rule];
      if missing != {} { findings := findings + [HandUndeclared(rule, missing)]; }
    }
  }

  /** The loop over the implied reads. */
  method RequiredOf(g: Guard, name: string, inputs: set<string>) returns (required: set<string>)
    ensures required == g.Required(name, inputs)
  {
    var own := if name in g.demands.hand then g.demands.hand[name] else {};
    required := own;
    var rest := g.demands.implied.Keys;
    while rest != {}
      invariant rest <= g.demands.implied.Keys
      invariant required == own + set input, read | input in g.demands.implied.Keys - rest && input in inputs
                                                    && read in g.demands.implied[input] :: read
      decreases rest
    {
      var input :| input in rest;
      rest := rest - {input};
      if input in inputs { required := required + g.demands.implied[input]; }
    }
    assert g.demands.implied.Keys - rest == g.demands.implied.Keys;
  }

  method OfCacheFindings(c: Config) returns (findings: seq<GuardFinding>)
    ensures forall f :: f in findings <==> f.OfCache? && c.Raised(f.finding)
  {
    var cache := CacheFindings(c);
    findings := seq(|cache|, k requires 0 <= k < |cache| => OfCache(cache[k]));
    forall f ensures f in findings <==> f.OfCache? && f.finding in cache {
      if f.OfCache? && f.finding in cache {
        var k :| 0 <= k < |cache| && cache[k] == f.finding;
        assert findings[k] == f;
      }
    }
  }

  /** `check_tags`: the findings are exactly the raised ones, of every clause. */
  method CheckTags(g: Guard) returns (findings: seq<GuardFinding>)
    ensures forall f :: f in findings <==> g.Raised(f)
  {
    var closure := Closures(g.Core());
    var stage := StageFindings(g);
    var sweep := SweepFindings(g);
    var group, hand := [], [];
    if g.HasAcceptance() {
      group := GroupFindings(g, closure);
      hand := HandFindings(g, closure);
    }
    var cache := OfCacheFindings(g.Core());
    findings := stage + sweep + group + hand + cache;
  }

  // ---- what silence means ------------------------------------------------------------------------------------

  lemma SilentCore(g: Guard)
    requires g.Silent()
    ensures g.Core().Silent()
  {
    forall fd ensures !g.Core().Raised(fd) { assert !g.Raised(OfCache(fd)); }
  }

  /** The labels a target needs whatever its source names: the binary, the compose file and the
      anchor, and the reads kept by hand or implied by an input. */
  ghost function Needed(g: Guard, rule: string): set<string> {
    ACCEPTANCE_INPUTS + g.Required(ModuleOf(rule), g.Core().Closure(rule))
  }

  /** The labels and everything they are built from. */
  ghost function Expanded(c: Config, names: set<string>): set<string> {
    names + set l, m | l in names && m in c.Closure(l) :: m
  }

  predicate Sweeps(g: Guard, rule: string) { exists name :: name in g.sweepers && rule == SweptBy(name) }

  ghost function Moved(g: Guard): set<string> { MovedOut(g.tracked, ClosurePaths(g.Group())) }

  /** What else a target may read: the files it needs, expanded; every module if its own sweeps
      them; and anything at all if a hint in its sources was not reviewed. */
  ghost function OtherReads(g: Guard, rule: string): set<string> {
    (set file | file in g.tracked && file in ClosurePaths(Expanded(g.Core(), Needed(g, rule))))
    + (if Sweeps(g, rule) then set file | file in g.tracked && ImportReads.MODULE_DIR <= file else {})
    + (if Unseen(g, rule, Moved(g)) then g.tracked else {})
  }

  ghost function FullReads(g: Guard): MayRead {
    map rule | rule in g.Core().Acceptance() :: OwnReads(g.Core(), rule) + OtherReads(g, rule)
  }

  lemma ExpandedInClosure(c: Config, rule: string, names: set<string>)
    requires names <= c.Closure(rule)
    ensures Expanded(c, names) <= c.Closure(rule)
  {
    var graph := RuleGraph(c.records);
    forall l, m | l in names && m in c.Closure(l) ensures m in c.Closure(rule) {
      ReachSetIff(graph, rule, l);
      ReachSetIff(graph, l, m);
      ReachesTransitive(graph, rule, l, m);
      ReachSetIff(graph, rule, m);
    }
  }

  lemma PathsGrow(a: set<string>, b: set<string>)
    requires a <= b
    ensures ClosurePaths(a) <= ClosurePaths(b)
  {
  }

  lemma SilentClauses(g: Guard, rule: string, f: GuardFinding)
    requires g.Silent() && g.Core().IsAcceptance(rule)
    ensures !g.HandRaised(f) && !g.SweepRaised(f)
  {
    assert rule in g.Core().Acceptance();
    assert !g.Raised(f);
  }

  lemma SilentRequired(g: Guard, rule: string)
    requires g.Silent() && g.Core().IsAcceptance(rule)
    ensures g.Required(ModuleOf(rule), g.Core().Closure(rule)) <= g.Core().Closure(rule)
  {
    var required, inputs := g.Required(ModuleOf(rule), g.Core().Closure(rule)), g.Core().Closure(rule);
    SilentClauses(g, rule, HandUndeclared(rule, required - inputs));
    assert required - inputs == {};
    assert forall l :: l in required ==> l in inputs || l in required - inputs;
  }

  lemma SilentWatched(g: Guard, rule: string)
    requires g.Silent() && g.Core().IsAcceptance(rule)
    ensures !Sweeps(g, rule) && !Unseen(g, rule, Moved(g))
  {
    SilentClauses(g, rule, Sweeper(rule));
    SilentClauses(g, rule, HandUnreviewed(rule));
  }

  /** On a silent guard a cached target declares all it needs, sweeps nothing and hides no hint. */
  lemma SilentNeeds(g: Guard, rule: string)
    requires g.Silent() && Cached(g.Core(), rule)
    ensures Needed(g, rule) <= g.Core().Closure(rule) && !Sweeps(g, rule) && !Unseen(g, rule, Moved(g))
  {
    SilentCore(g);
    SilentClauseOne(g.Core(), rule);
    SilentRequired(g, rule);
    SilentWatched(g, rule);
  }

  lemma OtherReadsCovered(g: Guard, rule: string)
    requires g.Silent() && Cached(g.Core(), rule)
    ensures OtherReads(g, rule) <= g.Core().Members(rule)
  {
    SilentNeeds(g, rule);
    ExpandedInClosure(g.Core(), rule, Needed(g, rule));
    PathsGrow(Expanded(g.Core(), Needed(g, rule)), g.Core().Closure(rule));
  }

  /** No stale green, for the whole guard: with no finding of any clause, every run of every
      suite that reads its own modules, what was derived, what every target needs and what the
      other clauses watch for serves only fresh verdicts, if and only if no cached target has a
      derived directory shadowed by a closure label and each declares its own module. */
  lemma NoStaleGreenInFull(g: Guard)
    requires g.Silent()
    ensures NeverStale(g.Core(), FullReads(g)) <==> Unhidden(g.Core())
  {
    var c := g.Core();
    SilentCore(g);
    assert Fits(c, FullReads(g));
    NeverStaleIff(c, FullReads(g));
    forall rule | Cached(c, rule)
      ensures rule in FullReads(g)
      ensures (FullReads(g)[rule] <= c.Members(rule) <==> !Shadowed(c, rule) && OwnDeclared(c, rule))
    {
      assert rule in c.Acceptance();
      SilentCoveredIff(c, rule);
      OtherReadsCovered(g, rule);
    }
  }

  // ---- the condition is needed -------------------------------------------------------------------------------

  function GrownGuard(g: Guard, rule: string, dir: string, file: string): Guard {
    var c := Grown(g.Core(), rule, dir, file);
    g.(derived := c.derived, tracked := c.tracked)
  }

  lemma SameHints(g: Guard, rule: string, dir: string, file: string, name: string, moved: set<string>)
    requires ModuleOf(rule) in g.derived && dir !in g.literals
    ensures GrownGuard(g, rule, dir, file).Hinted(name, moved) <==> g.Hinted(name, moved)
  {
    var d := GrownGuard(g, rule, dir, file);
    forall path ensures d.HintAt(name, moved, path) <==> g.HintAt(name, moved, path) { }
  }

  lemma SameHand(g: Guard, rule: string, dir: string, file: string, f: GuardFinding)
    requires ModuleOf(rule) in g.derived && dir !in g.literals && TestDirs(g.tracked + {file}) == TestDirs(g.tracked)
    ensures GrownGuard(g, rule, dir, file).HandRaised(f) <==> g.HandRaised(f)
  {
    var d := GrownGuard(g, rule, dir, file);
    SameRules(g.Core(), rule, dir, file);
    assert d.Core() == Grown(g.Core(), rule, dir, file);
    assert Moved(d) == Moved(g);
    if f.HandUnreviewed? { SameHints(g, rule, dir, file, ModuleOf(f.rule), Moved(g)); }
  }

  /** The condition is needed for the whole guard too: growing a silent one at a directory
      spelled like a closure label, that is no source file and opens no new directory under
      `test/`, raises nothing anywhere, and then a stale verdict is served. */
  lemma SilentGuardCanBeStaleInFull(g: Guard, rule: string, dir: string, file: string)
    requires g.Silent() && Cached(g.Core(), rule) && ShadowSpot(g.Core(), rule, dir, file)
    requires dir !in g.literals && TestDirs(g.tracked + {file}) == TestDirs(g.tracked)
    ensures var d := GrownGuard(g, rule, dir, file);
            d.Silent() && d.records == g.records && !NeverStale(d.Core(), FullReads(d))
  {
    var d := GrownGuard(g, rule, dir, file);
    SilentCore(g);
    SilentGuardCanBeStale(g.Core(), rule, dir, file);
    ListedExactlyWhereUndeclared(g.Core(), rule);
    assert d.Core() == Grown(g.Core(), rule, dir, file);
    SameRules(g.Core(), rule, dir, file);
    forall f ensures !d.Raised(f) {
      assert !g.Raised(f);
      SameHand(g, rule, dir, file, f);
      SameElsewhere(g, d, f);
    }
    NoStaleGreen(d.Core());
    NoStaleGreenInFull(d);
  }

  lemma SameElsewhere(g: Guard, d: Guard, f: GuardFinding)
    requires d == g.(derived := d.derived, tracked := d.tracked) && !g.Raised(f) && d.Core().Silent()
    requires d.HandRaised(f) <==> g.HandRaised(f)
    requires d.Core().Rules() == g.Core().Rules() && d.Core().Acceptance() == g.Core().Acceptance()
    requires forall r :: d.Core().IsAcceptance(r) == g.Core().IsAcceptance(r)
    requires forall r :: d.Core().Closure(r) == g.Core().Closure(r)
    ensures !d.Raised(f)
  {
  }

  // ---- every silent guard has such a directory ---------------------------------------------------------------

  /** The path the binary every cached target must declare is spelled like. */
  const BINARY_DIR := "crates/ocx_cli/ocx"

  lemma LabelPathAt(package: string, target: string)
    requires ':' !in package && package != ""
    ensures LabelPath("//" + package + ":" + target) == Some(package + "/" + target)
  {
    var name := "//" + package + ":" + target;
    var rest := name[2..];
    assert rest == package + [':'] + target;
    IndexPast(package, target, ':');
    assert rest[..|package|] == package && rest[|package| + 1..] == target;
  }

  lemma BinaryPath(name: string)
    requires name == "//crates/ocx_cli:ocx"
    ensures LabelPath(name) == Some(BINARY_DIR)
  {
    var package, target := "crates/ocx_cli", "ocx";
    assert name == "//" + package + ":" + target;
    assert package + "/" + target == BINARY_DIR;
    LabelPathAt(package, target);
  }

  lemma BinaryDirIsMember(c: Config, rule: string)
    requires c.Silent() && Cached(c, rule)
    ensures BINARY_DIR in c.Members(rule)
  {
    SilentClauseOne(c, rule);
    var name :| name in ACCEPTANCE_INPUTS && name == "//crates/ocx_cli:ocx";
    BinaryPath(name);
    assert name in c.Closure(rule);
  }

  /** A text longer than every one of some texts. */
  lemma Longer(s: set<string>) returns (n: nat)
    ensures forall x :: x in s ==> |x| < n
  {
    n := 0;
    var rest := s;
    while rest != {}
      invariant rest <= s && forall x :: x in s - rest ==> |x| < n
      decreases rest
    {
      var x :| x in rest;
      rest := rest - {x};
      n := if |x| < n then n else |x| + 1;
    }
  }

  function Long(n: nat): string { seq(n, _ => 'x') }

  /** No path derived for any module is the directory or lies above it. */
  ghost predicate NoneAbove(c: Config, dir: string) {
    forall name, path :: name in c.derived && path in c.derived[name] ==> !AtOrUnder(dir, path)
  }

  lemma UnderOnlyThrough(dir: string, tail: string, path: string)
    requires path + "/" <= dir + "/" + tail
    ensures AtOrUnder(dir, path) || '/' in tail
  {
    var file := dir + "/" + tail;
    assert file[|path|] == (path + "/")[|path|] == '/';
    if |path| > |dir| {
      assert tail[|path| - |dir| - 1] == file[|path|];
    } else if |path| == |dir| {
      assert path == file[..|path|] == dir;
    } else {
      assert path + "/" == file[..|path| + 1] == dir[..|path| + 1];
    }
  }

  function AllDerived(c: Config): set<string> { set name, path | name in c.derived && path in c.derived[name] :: path }

  /** Some file under the directory is in no closure and under no derived path. */
  lemma FreshFile(c: Config, rule: string, dir: string) returns (file: string)
    requires NoneAbove(c, dir)
    ensures dir + "/" <= file && file !in c.Members(rule)
    ensures forall name, path :: name in c.derived && path in c.derived[name] ==> !AtOrUnder(file, path)
  {
    var n := Longer(c.Members(rule) + AllDerived(c));
    file := dir + "/" + Long(n);
    assert |file| >= n;
    forall name, path | name in c.derived && path in c.derived[name] ensures !AtOrUnder(file, path) {
      assert path in AllDerived(c);
      if path + "/" <= file { UnderOnlyThrough(dir, Long(n), path); }
    }
  }

  lemma NoTestDir(tracked: set<string>, file: string)
    requires !(AMBIENT_PREFIX <= file)
    ensures TestDirs(tracked + {file}) == TestDirs(tracked)
  {
    assert TestDir(file).None?;
  }

  /** A directory that could be a label's path: not empty, not climbing, not absolute, and not
      where the suite lies. */
  predicate Ordinary(dir: string) { |dir| >= 5 && dir[0] !in {'.', '/', 't'} }

  lemma GrowsAt(g: Guard, rule: string, dir: string) returns (file: string)
    requires g.Silent() && Cached(g.Core(), rule) && dir in g.Core().Members(rule)
    requires Ordinary(dir) && NoneAbove(g.Core(), dir) && dir !in g.literals
    ensures var d := GrownGuard(g, rule, dir, file);
            d.Silent() && d.records == g.records && !NeverStale(d.Core(), FullReads(d))
  {
    file := FreshFile(g.Core(), rule, dir);
    assert file[0] == (dir + "/")[0] == dir[0];
    NoTestDir(g.tracked, file);
    SilentGuardCanBeStaleInFull(g, rule, dir, file);
  }

  /** Every silent guard with a cached target can come to this, unless some module already names
      the directory or one above it: one more walked directory and one more tracked file, not
      one finding, and a stale verdict. The binary the guard itself demands gives the label. */
  lemma EverySilentGuardGrows(g: Guard, rule: string) returns (file: string)
    requires g.Silent() && Cached(g.Core(), rule) && NoneAbove(g.Core(), BINARY_DIR) && BINARY_DIR !in g.literals
    ensures var d := GrownGuard(g, rule, BINARY_DIR, file);
            d.Silent() && d.records == g.records && !NeverStale(d.Core(), FullReads(d))
  {
    SilentCore(g);
    BinaryDirIsMember(g.Core(), rule);
    file := GrowsAt(g, rule, BINARY_DIR);
  }
}

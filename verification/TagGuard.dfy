/** The verdict of the tag guard: which paths a closure declares, the uncached-module
    clause, the acceptance clauses of `check_tags`, and the comparator `tag_guard`. */
module TagGuard {
  import opened Text
  import opened Reachability
  import opened InputClosure

  const INSUFFICIENT: set<Tag> := {NoCache, NoRemoteCache, NoRemote, Local}
  const ACCEPTANCE_PACKAGE := "//test:"
  const AMBIENT_PREFIX := "test/"
  const MODULE_SUFFIX := ".py"
  const ACCEPTANCE_INPUTS: set<string> :=
    {"//crates/ocx_cli:ocx", "//test:docker-compose.yml", "//test:suite_anchor"}

  /** The finding codes, `tag-` prefix and all, in the order the source raises them. */
  datatype Code =
    | UncachedUnknown | UncachedUnread | UncachedUnlisted | UncachedRot | UncachedUntagged
    | AcceptanceSerialised | AcceptanceSuppressed
    | ReaderFloor | NoSandbox | Stamp
    | AcceptanceUndeclared | CacheInsufficient

  /** Which clause of the guard raises a code. */
  datatype Clause = Uncached | AcceptanceTags | Floor | Sandbox | Stamping

  function ClauseOf(code: Code): Clause {
    match code
    case UncachedUnknown | UncachedUnread | UncachedUnlisted | UncachedRot | UncachedUntagged => Uncached
    case AcceptanceSerialised | AcceptanceSuppressed => AcceptanceTags
    case ReaderFloor => Floor
    case NoSandbox | AcceptanceUndeclared | CacheInsufficient => Sandbox
    case Stamp => Stamping
  }

  datatype Finding = Finding(code: Code, subject: string)

  predicate IsTestRule(ruleClass: string) { EndsWith(ruleClass, "_test") }

  /** The one tag measured to keep this kind of action's result from being reused. */
  function CreditedTag(ruleClass: string): Tag {
    if IsTestRule(ruleClass) then External else NoRemoteCache
  }

  // ---- labels and paths ----------------------------------------------------------

  /** `label_path`: `//website:src/a.md` is `website/src/a.md`. */
  function LabelPath(name: string): Option<string> {
    if !("//" <= name) then None
    else
      var rest := name[2..];
      var colon := IndexOf(rest, ':');
      var package := rest[..colon];
      var target := if colon < |rest| then rest[colon + 1..] else "";
      Some(if package != "" then package + "/" + target else target)
  }

  function ClosurePaths(members: set<string>): set<string> {
    set m | m in members && LabelPath(m).Some? && LabelPath(m).value != "" :: LabelPath(m).value
  }

  predicate AtOrUnder(file: string, path: string) { file == path || path + "/" <= file }

  function TrackedUnder(path: string, tracked: set<string>): set<string> {
    set file | file in tracked && AtOrUnder(file, path)
  }

  /** `declared`: a file is declared when it is a member, a directory when every tracked
      file under it is; generated output inside the test package counts as declared. */
  predicate Declared(path: string, members: set<string>, tracked: set<string>) {
    if path == "" || ".." <= path || "/" <= path then false
    else if path in members then true
    else
      var under := TrackedUnder(path, tracked);
      if under == {} && AMBIENT_PREFIX <= path then true
      else under != {} && under <= members
  }

  /** `Path(s).name`: the last component that is neither empty nor a dot. */
  function PathName(s: string): string { LastPart(Split(s, '/')) }

  function LastPart(parts: seq<string>): string {
    if parts == [] then ""
    else if parts[|parts| - 1] !in {"", "."} then parts[|parts| - 1]
    else LastPart(parts[..|parts| - 1])
  }

  /** `Path(s).stem`: the name without its last suffix. */
  function Stem(s: string): string {
    var name := PathName(s);
    var dot := LastDot(name);
    if 0 < dot < |name| - 1 then name[..dot] else name
  }

  /** The position of the last dot, or -1. */
  function LastDot(s: string): (i: int)
    ensures -1 <= i < |s|
  {
    if s == "" then -1 else if s[|s| - 1] == '.' then |s| - 1 else LastDot(s[..|s| - 1])
  }

  // ---- what the guard is given ----------------------------------------------------

  /** The query's records, each module's derived paths, the entries of `UNCACHED_MODULES`,
      the tracked files and the stage's reader floor. */
  datatype Config = Config(records: seq<RuleRecord>, derived: map<string, set<string>>,
                           uncachedModules: set<string>, tracked: set<string>, floor: nat) {

    function Rules(): map<string, RuleRecord> { ByLabel(records) }

    predicate IsNoSandbox(rule: string) { rule in Rules() && NoSandboxTag in Rules()[rule].tags }

    /** The narrowed subject: a no-sandbox test of the acceptance package. */
    predicate IsAcceptance(rule: string) {
      IsNoSandbox(rule) && ACCEPTANCE_PACKAGE <= rule && IsTestRule(Rules()[rule].ruleClass)
    }

    function Acceptance(): set<string> { set rule | rule in Rules() && IsAcceptance(rule) }

    /** The names the uncached clause works with. */
    function Uncached(): set<string> { set m | m in uncachedModules :: PathName(m) }

    ghost function Closure(rule: string): set<string> { ReachSet(RuleGraph(records), rule) }

    ghost function Members(rule: string): set<string> { ClosurePaths(Closure(rule)) }

    predicate Carries(rule: string, tag: Tag) { rule in Rules() && tag in Rules()[rule].tags }

    /** A derived path the target's closure does not cover. */
    ghost predicate UndeclaredRead(rule: string, path: string) {
      && ModuleOf(rule) in derived && path in derived[ModuleOf(rule)]
      && !Declared(path, Members(rule), tracked)
    }

    ghost predicate ReadsUndeclared(rule: string) { exists path :: UndeclaredRead(rule, path) }

    /** Credited on clause 1: its kind's tag, or the acceptance declaration. */
    ghost predicate CacheExcluded(rule: string) {
      && rule in Rules()
      && (|| CreditedTag(Rules()[rule].ruleClass) in Rules()[rule].tags
          || (IsAcceptance(rule) && ACCEPTANCE_INPUTS <= Closure(rule)))
    }

    /** `label in listed`, through the stem of each uncached name. */
    predicate Listed(rule: string) {
      exists u :: u in Uncached() && rule == ACCEPTANCE_PACKAGE + Stem(u)
    }

    predicate Suppressed(rule: string) {
      || (exists tag :: tag in INSUFFICIENT && Carries(rule, tag))
      || (Carries(rule, External) && !Listed(rule))
    }

    predicate StampExcused(rule: string) {
      exists k :: 0 <= k < |records| && records[k].name == rule
                  && (records[k].stampZero || NoRemoteCache in records[k].tags)
    }

    predicate IsRustBinary(rule: string) { BinaryAmong(rule, |records|) }

    predicate BinaryAmong(rule: string, n: nat)
      requires n <= |records|
    {
      exists k :: 0 <= k < n && records[k].name == rule && records[k].ruleClass == "rust_binary"
    }

    /** Exactly the findings the modelled clauses raise. */
    ghost predicate Raised(fd: Finding) {
      match fd.code
      case UncachedUnknown =>
        Acceptance() != {} && fd.subject in Uncached() && !IsModule(fd.subject)
      case UncachedUnread => IsAcceptance(fd.subject) && ModuleOf(fd.subject) !in derived
      case UncachedUnlisted =>
        IsAcceptance(fd.subject) && ModuleOf(fd.subject) in derived
        && ReadsUndeclared(fd.subject) && ModuleOf(fd.subject) !in Uncached()
      case UncachedRot =>
        IsAcceptance(fd.subject) && ModuleOf(fd.subject) in derived
        && !ReadsUndeclared(fd.subject) && ModuleOf(fd.subject) in Uncached()
      case UncachedUntagged =>
        IsAcceptance(fd.subject) && ModuleOf(fd.subject) in derived
        && ModuleOf(fd.subject) in Uncached() && !Carries(fd.subject, External)
      case AcceptanceSerialised => IsAcceptance(fd.subject) && Carries(fd.subject, Exclusive)
      case AcceptanceSuppressed => IsAcceptance(fd.subject) && Suppressed(fd.subject)
      case ReaderFloor => fd.subject == "" && |records| < floor
      case NoSandbox => IsNoSandbox(fd.subject) && !CacheExcluded(fd.subject)
      case Stamp =>
        IsRustBinary(fd.subject) && !CacheExcluded(fd.subject) && !StampExcused(fd.subject)
      case AcceptanceUndeclared => IsAcceptance(fd.subject) && !CacheExcluded(fd.subject)
      case CacheInsufficient =>
        IsNoSandbox(fd.subject) && !IsAcceptance(fd.subject) && !CacheExcluded(fd.subject)
    }

    predicate IsModule(name: string) { exists rule :: rule in Acceptance() && name == ModuleOf(rule) }

    ghost predicate Silent() { forall fd :: !Raised(fd) }
  }

  /** The module file an acceptance label stands for. */
  function ModuleOf(rule: string): string {
    (if |rule| >= |ACCEPTANCE_PACKAGE| then rule[|ACCEPTANCE_PACKAGE|..] else "") + MODULE_SUFFIX
  }

  // ---- the stem of a module's file name --------------------------------------------

  lemma {:induction false} LastPartIsPart(parts: seq<string>)
    requires forall k :: 0 <= k < |parts| ==> '/' !in parts[k]
    ensures '/' !in LastPart(parts)
  {
    if parts != [] { LastPartIsPart(parts[..|parts| - 1]); }
  }

  lemma PathNameHasNoSlash(s: string)
    ensures '/' !in PathName(s)
  {
    SplitFree(s, '/');
    LastPartIsPart(Split(s, '/'));
  }

  lemma LastDotAppend(base: string)
    ensures LastDot(base + MODULE_SUFFIX) == |base|
  {
    var s := base + MODULE_SUFFIX;
    assert s[..|s| - 1] == base + ".p" && (base + ".p")[..|s| - 2] == base + ".";
    assert LastDot(base + ".") == |base|;
    assert LastDot(base + ".p") == |base|;
  }

  /** For a slash-free, non-empty base, the stem of `<base>.py` is the base. */
  lemma StemOfModule(base: string)
    requires base != "" && '/' !in base
    ensures Stem(base + MODULE_SUFFIX) == base
  {
    var s := base + MODULE_SUFFIX;
    SplitPlain(s, '/');
    assert |s| >= 4;
    assert PathName(s) == s;
    LastDotAppend(base);
  }

  // ---- the equivalence a silent guard enforces ---------------------------------------

  /** On a silent guard, an acceptance target carries `external` exactly when its module is
      listed, and its module is listed exactly when it reads something undeclared. */
  lemma ExternalExactlyWhereUndeclared(c: Config, rule: string)
    requires c.Silent() && c.IsAcceptance(rule)
    ensures ModuleOf(rule) in c.derived
    ensures c.Carries(rule, External) <==> ModuleOf(rule) in c.Uncached()
    ensures ModuleOf(rule) in c.Uncached() <==> c.ReadsUndeclared(rule)
  {
    ListedExactlyWhereUndeclared(c, rule);
    if c.Carries(rule, External) { ExternalIsListed(c, rule); }
  }

  lemma ListedExactlyWhereUndeclared(c: Config, rule: string)
    requires c.Silent() && c.IsAcceptance(rule)
    ensures ModuleOf(rule) in c.derived
    ensures ModuleOf(rule) in c.Uncached() <==> c.ReadsUndeclared(rule)
    ensures ModuleOf(rule) in c.Uncached() ==> c.Carries(rule, External)
  {
    assert !c.Raised(Finding(UncachedUnread, rule));
    assert !c.Raised(Finding(UncachedUnlisted, rule));
    assert !c.Raised(Finding(UncachedRot, rule));
    assert !c.Raised(Finding(UncachedUntagged, rule));
  }

  lemma ExternalIsListed(c: Config, rule: string)
    requires c.Silent() && c.IsAcceptance(rule) && c.Carries(rule, External)
    ensures ModuleOf(rule) in c.Uncached()
  {
    assert !c.Raised(Finding(AcceptanceSuppressed, rule));
    var u :| u in c.Uncached() && rule == ACCEPTANCE_PACKAGE + Stem(u);
    ListedIsModule(c, rule, u);
  }

  /** A name that lists a target through its stem is that target's own module. */
  lemma ListedIsModule(c: Config, rule: string, u: string)
    requires c.Silent() && c.IsAcceptance(rule) && u in c.Uncached() && rule == ACCEPTANCE_PACKAGE + Stem(u)
    ensures u == ModuleOf(rule)
  {
    var r := ListedModule(c, rule, u);
    if r == ACCEPTANCE_PACKAGE { NamelessIsNotListed(c, rule); }
    ModuleStem(r);
  }

  lemma ListedModule(c: Config, rule: string, u: string) returns (r: string)
    requires c.Silent() && c.IsAcceptance(rule) && u in c.Uncached()
    ensures c.IsAcceptance(r) && u == ModuleOf(r) && '/' !in u
  {
    assert rule in c.Acceptance();
    assert !c.Raised(Finding(UncachedUnknown, u));
    r :| r in c.Acceptance() && u == ModuleOf(r);
    var m :| m in c.uncachedModules && u == PathName(m);
    PathNameHasNoSlash(m);
  }

  /** The target with no name of its own cannot have its module listed: it would have to carry
      `external`, and no listed module has an empty stem. */
  lemma NamelessIsNotListed(c: Config, rule: string)
    requires c.Silent() && c.IsAcceptance(rule) && c.IsAcceptance(ACCEPTANCE_PACKAGE)
    ensures ModuleOf(ACCEPTANCE_PACKAGE) !in c.Uncached()
  {
    var nameless := ACCEPTANCE_PACKAGE;
    if ModuleOf(nameless) in c.Uncached() {
      ListedExactlyWhereUndeclared(c, nameless);
      assert !c.Raised(Finding(AcceptanceSuppressed, nameless));
      var u :| u in c.Uncached() && nameless == ACCEPTANCE_PACKAGE + Stem(u);
      var r := ListedModule(c, rule, u);
      StemNonEmpty(u);
      assert false;
    }
  }

  lemma PlainName(u: string)
    requires '/' !in u && |u| > 1
    ensures PathName(u) == u
  {
    SplitPlain(u, '/');
  }

  lemma StemNonEmpty(u: string)
    requires '/' !in u && EndsWith(u, MODULE_SUFFIX)
    ensures Stem(u) != ""
  {
    PlainName(u);
  }

  lemma ModuleStem(rule: string)
    requires ACCEPTANCE_PACKAGE <= rule && rule != ACCEPTANCE_PACKAGE && '/' !in ModuleOf(rule)
    ensures rule == ACCEPTANCE_PACKAGE + Stem(ModuleOf(rule))
  {
    var base := rule[|ACCEPTANCE_PACKAGE|..];
    assert rule == ACCEPTANCE_PACKAGE + base && ModuleOf(rule) == base + MODULE_SUFFIX;
    assert forall k :: 0 <= k < |base| ==> base[k] == ModuleOf(rule)[k];
    StemOfModule(base);
  }

  /** On a silent guard, every no-sandbox test is uncached or an acceptance target whose
      closure holds the binary, the compose file and the anchor; every no-sandbox build
      action stays off the remote cache. */
  lemma SilentClauseOne(c: Config, rule: string)
    requires c.Silent() && c.IsNoSandbox(rule)
    ensures IsTestRule(c.Rules()[rule].ruleClass) && !c.Carries(rule, External) ==>
              c.IsAcceptance(rule) && ACCEPTANCE_INPUTS <= c.Closure(rule)
    ensures !IsTestRule(c.Rules()[rule].ruleClass) ==> c.Carries(rule, NoRemoteCache)
  {
    assert !c.Raised(Finding(NoSandbox, rule));
  }

  lemma StemIsNamePrefix(u: string)
    ensures Stem(u) <= PathName(u)
  {
  }

  lemma StemHasNoSlash(u: string)
    ensures '/' !in Stem(u)
  {
    PathNameHasNoSlash(u);
    StemIsNamePrefix(u);
    assert forall k :: 0 <= k < |Stem(u)| ==> Stem(u)[k] == PathName(u)[k];
  }

  /** A name lists its own module through its stem exactly when it is slash-free and more than
      a bare `.py`. */
  lemma StemLookupIff(u: string)
    ensures ModuleOf(ACCEPTANCE_PACKAGE + Stem(u)) == u
       <==> '/' !in u && EndsWith(u, MODULE_SUFFIX) && |u| > |MODULE_SUFFIX|
  {
    assert ModuleOf(ACCEPTANCE_PACKAGE + Stem(u)) == Stem(u) + MODULE_SUFFIX by {
      assert (ACCEPTANCE_PACKAGE + Stem(u))[|ACCEPTANCE_PACKAGE|..] == Stem(u);
    }
    if '/' !in u && EndsWith(u, MODULE_SUFFIX) && |u| > |MODULE_SUFFIX| {
      var base := u[..|u| - |MODULE_SUFFIX|];
      assert u == base + MODULE_SUFFIX;
      assert forall k :: 0 <= k < |base| ==> base[k] == u[k];
      StemOfModule(base);
    } else if Stem(u) + MODULE_SUFFIX == u {
      OwnStem(u);
    }
  }

  lemma OwnStem(u: string)
    requires Stem(u) + MODULE_SUFFIX == u
    ensures '/' !in u && EndsWith(u, MODULE_SUFFIX) && |u| > |MODULE_SUFFIX|
  {
    StemHasNoSlash(u);
    assert u[|u| - |MODULE_SUFFIX|..] == MODULE_SUFFIX;
    NoSlashConcat(Stem(u), MODULE_SUFFIX);
    StemNonEmpty(u);
  }

  lemma NoSlashConcat(a: string, b: string)
    requires '/' !in a && '/' !in b
    ensures '/' !in a + b
  {
  }

  /** Two names that list another's target: one with a slash, one without the suffix. */
  lemma NamesThatListAnother()
    ensures ModuleOf(ACCEPTANCE_PACKAGE + Stem("a/b.py")) != "a/b.py"
    ensures ModuleOf(ACCEPTANCE_PACKAGE + Stem("b.txt")) != "b.txt"
  {
    StemLookupIff("a/b.py");
    StemLookupIff("b.txt");
    assert "a/b.py"[1] == '/' && "b.txt"[2..] == "txt";
  }

  // ---- the checker -------------------------------------------------------------------

  /** `uncached_findings`: the loop over the acceptance modules. */
  method UncachedFindings(c: Config, closure: map<string, set<string>>) returns (findings: seq<Finding>)
    requires forall rule :: rule in c.Rules() ==> rule in closure && closure[rule] == c.Closure(rule)
    requires c.Acceptance() != {}
    ensures forall fd :: fd in findings <==> c.Raised(fd) && ClauseOf(fd.code) == Uncached
  {
    findings := [];
    var unknown := set name | name in c.Uncached() && !c.IsModule(name);
    while unknown != {}
      invariant unknown <= set name | name in c.Uncached() && !c.IsModule(name)
      invariant forall fd :: fd in findings <==>
                  fd.code == UncachedUnknown && c.Raised(fd) && fd.subject !in unknown
      decreases unknown
    {
      var name :| name in unknown;
      unknown := unknown - {name};
      findings := findings + [Finding(UncachedUnknown, name)];
    }
    var rest := c.Acceptance();
    while rest != {}
      invariant rest <= c.Acceptance()
      invariant forall fd :: fd in findings <==>
                  c.Raised(fd) && ClauseOf(fd.code) == Uncached
                  && (fd.code == UncachedUnknown || fd.subject !in rest)
      decreases rest
    {
      var rule :| rule in rest;
      rest := rest - {rule};
      var more := ModuleFindings(c, rule, closure[rule]);
      findings := findings + more;
    }
  }

  /** One module's turn. */
  method ModuleFindings(c: Config, rule: string, members: set<string>) returns (findings: seq<Finding>)
    requires c.IsAcceptance(rule) && members == c.Closure(rule)
    ensures forall fd :: fd in findings <==>
              c.Raised(fd) && fd.subject == rule && ClauseOf(fd.code) == Uncached && fd.code != UncachedUnknown
  {
    var name := ModuleOf(rule);
    if name !in c.derived {
      return [Finding(UncachedUnread, rule)];
    }
    var paths := ClosurePaths(members);
    var undeclared := set p | p in c.derived[name] && !Declared(p, paths, c.tracked);
    assert undeclared != {} <==> c.ReadsUndeclared(rule) by {
      if undeclared != {} { var p :| p in undeclared; assert c.UndeclaredRead(rule, p); }
      if c.ReadsUndeclared(rule) { var p :| c.UndeclaredRead(rule, p); assert p in undeclared; }
    }
    var listed := name in c.Uncached();
    findings := [];
    if undeclared != {} && !listed { findings := findings + [Finding(UncachedUnlisted, rule)]; }
    if listed && undeclared == {} { findings := findings + [Finding(UncachedRot, rule)]; }
    if listed && External !in c.Rules()[rule].tags { findings := findings + [Finding(UncachedUntagged, rule)]; }
  }

  /** The loop of `check_tags` over the tags an acceptance target must not carry. */
  method AcceptanceTagFindings(c: Config) returns (findings: seq<Finding>)
    ensures forall fd :: fd in findings <==> c.Raised(fd) && ClauseOf(fd.code) == AcceptanceTags
  {
    findings := [];
    var rest := c.Acceptance();
    while rest != {}
      invariant rest <= c.Acceptance()
      invariant forall fd :: fd in findings <==>
                  c.Raised(fd) && ClauseOf(fd.code) == AcceptanceTags && fd.subject !in rest
      decreases rest
    {
      var rule :| rule in rest;
      rest := rest - {rule};
      var more := TagFindings(c, rule);
      findings := findings + more;
    }
  }

  /** One target's turn: `external` is admitted on a listed module and nowhere else. */
  method TagFindings(c: Config, rule: string) returns (findings: seq<Finding>)
    requires c.IsAcceptance(rule)
    ensures forall fd :: fd in findings <==>
              c.Raised(fd) && ClauseOf(fd.code) == AcceptanceTags && fd.subject == rule
  {
    var serialised := Exclusive in c.Rules()[rule].tags;
    var forbidden := CarriesForbidden(c, rule);
    findings := [];
    if serialised { findings := findings + [Finding(AcceptanceSerialised, rule)]; }
    if forbidden { findings := findings + [Finding(AcceptanceSuppressed, rule)]; }
  }

  method CarriesForbidden(c: Config, rule: string) returns (yes: bool)
    requires c.IsAcceptance(rule)
    ensures yes <==> c.Suppressed(rule)
  {
    var forbidden := INSUFFICIENT + (if c.Listed(rule) then {} else {External});
    var present := c.Rules()[rule].tags * forbidden;
    yes := present != {};
  }

  /** Clause 1 of `tag_guard`, and beside each red the finding that names the tag to add. */
  method SandboxFindings(c: Config, excluded: set<string>) returns (findings: seq<Finding>)
    requires forall rule :: rule in excluded <==> c.CacheExcluded(rule)
    ensures forall fd :: fd in findings <==> c.Raised(fd) && ClauseOf(fd.code) == Sandbox
  {
    var red := (set rule | rule in c.Rules() && c.IsNoSandbox(rule)) - excluded;
    findings := [];
    var rest := red;
    while rest != {}
      invariant rest <= red
      invariant forall fd :: fd in findings <==>
                  c.Raised(fd) && ClauseOf(fd.code) == Sandbox && fd.subject !in rest
      decreases rest
    {
      var rule :| rule in rest;
      rest := rest - {rule};
      var beside := if c.IsAcceptance(rule) then AcceptanceUndeclared else CacheInsufficient;
      findings := findings + [Finding(NoSandbox, rule), Finding(beside, rule)];
    }
  }

  /** Clause 2 of `tag_guard`. */
  method StampFindings(c: Config, excluded: set<string>) returns (findings: seq<Finding>)
    requires forall rule :: rule in excluded <==> c.CacheExcluded(rule)
    ensures forall fd :: fd in findings <==> c.Raised(fd) && ClauseOf(fd.code) == Stamping
  {
    findings := [];
    for i := 0 to |c.records|
      invariant forall fd :: fd in findings <==>
                  c.Raised(fd) && fd.code == Stamp && c.BinaryAmong(fd.subject, i)
    {
      var r := c.records[i];
      if r.ruleClass == "rust_binary" && r.name !in excluded && !c.StampExcused(r.name) {
        findings := findings + [Finding(Stamp, r.name)];
      }
    }
  }

  /** The part of `check_tags` that decides what may be cached: its findings are exactly the
      raised ones. */
  method CacheFindings(c: Config) returns (findings: seq<Finding>)
    ensures forall fd :: fd in findings <==> c.Raised(fd)
  {
    var closure := Closures(c);
    var uncached, tags := [], [];
    if c.Acceptance() != {} {
      uncached := UncachedFindings(c, closure);
      tags := AcceptanceTagFindings(c);
    } else {
      NoAcceptance(c);
    }
    var floor := if |c.records| < c.floor then [Finding(ReaderFloor, "")] else [];
    var excluded := Excluded(c, closure);
    var sandbox := SandboxFindings(c, excluded);
    var stamp := StampFindings(c, excluded);
    findings := uncached + tags + floor + stamp + sandbox;
  }

  method Closures(c: Config) returns (closure: map<string, set<string>>)
    ensures forall rule :: rule in c.Rules() ==> rule in closure && closure[rule] == c.Closure(rule)
  {
    closure := InputClosure.InputClosure(c.records);
    forall rule | rule in c.Rules() ensures rule in closure && closure[rule] == c.Closure(rule) {
      ByLabelKeys(c.records, rule);
    }
  }

  /** `cache_excluded` of `check_tags`, the acceptance narrowing included. */
  method Excluded(c: Config, closure: map<string, set<string>>) returns (excluded: set<string>)
    requires forall rule :: rule in c.Rules() ==> rule in closure && closure[rule] == c.Closure(rule)
    ensures forall rule :: rule in excluded <==> c.CacheExcluded(rule)
  {
    excluded := set rule | rule in c.Rules() && CreditedTag(c.Rules()[rule].ruleClass) in c.Rules()[rule].tags;
    excluded := excluded + set rule | rule in c.Acceptance() && ACCEPTANCE_INPUTS <= closure[rule];
  }

  lemma NoAcceptance(c: Config)
    requires c.Acceptance() == {}
    ensures forall fd :: c.Raised(fd) ==> ClauseOf(fd.code) != Uncached && ClauseOf(fd.code) != AcceptanceTags
  {
    forall rule ensures !c.IsAcceptance(rule) {
      assert rule in c.Rules() && c.IsAcceptance(rule) ==> rule in c.Acceptance();
    }
  }
}

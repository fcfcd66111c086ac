/** Silent guards exist, with any number of cached targets and whatever the tables kept by hand
    demand: targets that declare all they need, of files alone. */
module PlainGuards {
  import opened Reachability
  import opened InputClosure
  import opened TagGuard
  import opened CacheRuns
  import opened SuiteGuard

  /** No rule is an input of a rule, and none is a binary. */
  ghost predicate Flat(records: seq<RuleRecord>) {
    && (forall k :: 0 <= k < |records| ==> records[k].ruleClass != "rust_binary")
    && forall j, k :: 0 <= j < |records| && 0 <= k < |records| ==> records[j].name !in records[k].inputs
  }

  /** A target that may be cached: its module was read and names only files among its inputs, and
      all that is needed of it is among them too. */
  predicate PlainTarget(g: Guard, r: RuleRecord) {
    && ACCEPTANCE_PACKAGE <= r.name && IsTestRule(r.ruleClass) && r.tags == {NoSandboxTag}
    && ModuleOf(r.name) in g.derived && (forall path :: path in g.derived[ModuleOf(r.name)] ==> Plainly(path, r.inputs))
    && ACCEPTANCE_INPUTS <= r.inputs && g.Required(ModuleOf(r.name), r.inputs) <= r.inputs
  }

  predicate Plainly(path: string, inputs: set<string>) {
    path in ClosurePaths(inputs) && !(".." <= path) && !("/" <= path)
  }

  /** A shared group that meets the demands on it. */
  predicate PlainGroup(g: Guard, group: RuleRecord) {
    && group.tags == {} && g.demands.files <= group.inputs
    && MissingDirs(g.demands.dirs, group.inputs) == {} && |group.inputs| >= g.demands.floor
  }

  ghost predicate Plain(g: Guard) {
    && Flat(g.records) && g.uncachedModules == {} && g.sweepers == {} && g.literals == map[]
    && g.stage.Some? && g.queried.None? && g.stage.value.minimum <= |g.records|
    && g.HasGroup() && PlainGroup(g, g.Core().Rules()[SUITE_INPUTS])
    && (forall rule :: g.Core().IsNoSandbox(rule) ==> PlainTarget(g, g.Core().Rules()[rule]))
    && forall name :: name in g.demands.hand ==> g.Core().IsModule(name)
  }

  /** A node none of whose successors is a node reaches exactly them. */
  lemma FlatReach(g: Graph, x: string)
    requires x in g && forall y :: y in g[x] ==> y !in g
    ensures ReachSet(g, x) == g[x]
  {
    ClosedContainsReach(g, x, g[x]);
    forall y | y in g[x] ensures y in ReachSet(g, x) {
      EdgeReaches(g, x, y);
      ReachSetIff(g, x, y);
    }
  }

  lemma FlatClosure(c: Config, rule: string)
    requires Flat(c.records) && rule in c.Rules()
    ensures c.Rules()[rule].name == rule && c.Closure(rule) == c.Rules()[rule].inputs
  {
    var g := RuleGraph(c.records);
    ByLabelKeys(c.records, rule);
    var k :| 0 <= k < |c.records| && c.records[k] == c.Rules()[rule];
    forall y | y in g[rule] ensures y !in g {
      ByLabelKeys(c.records, y);
    }
    FlatReach(g, rule);
  }

  /** What a plain target is to the clauses. */
  lemma PlainTargetIs(g: Guard, rule: string)
    requires Plain(g) && g.Core().IsNoSandbox(rule)
    ensures var c := g.Core();
            && Cached(c, rule) && c.CacheExcluded(rule) && !c.Suppressed(rule) && !c.Carries(rule, Exclusive)
            && ModuleOf(rule) in c.derived && !c.ReadsUndeclared(rule)
  {
    FlatClosure(g.Core(), rule);
    OnlySandboxTag(g.Core(), rule);
  }

  lemma OnlySandboxTag(c: Config, rule: string)
    requires rule in c.Rules() && c.Rules()[rule].tags == {NoSandboxTag}
    ensures !c.Suppressed(rule) && !c.Carries(rule, Exclusive) && !c.Carries(rule, External)
  {
  }

  lemma PlainCoreSilent(g: Guard, fd: Finding)
    requires Plain(g)
    ensures !g.Core().Raised(fd)
  {
    var c := g.Core();
    assert c.Uncached() == {};
    assert !c.IsRustBinary(fd.subject);
    if c.IsNoSandbox(fd.subject) { PlainTargetIs(g, fd.subject); }
  }

  lemma PlainGroupSilent(g: Guard, f: GuardFinding)
    requires Plain(g)
    ensures !g.GroupRaised(f)
  {
    FlatClosure(g.Core(), SUITE_INPUTS);
  }

  lemma PlainHandSilent(g: Guard, f: GuardFinding)
    requires Plain(g)
    ensures !g.HandRaised(f)
  {
    if f.HandUndeclared? && g.Core().IsAcceptance(f.rule) { FlatClosure(g.Core(), f.rule); }
  }

  /** A plain guard raises nothing, and every no-sandbox target of it is cached. */
  lemma PlainIsSilent(g: Guard)
    requires Plain(g)
    ensures g.Silent() && forall rule :: g.Core().IsNoSandbox(rule) ==> Cached(g.Core(), rule)
  {
    forall f ensures !g.Raised(f) {
      PlainGroupSilent(g, f);
      PlainHandSilent(g, f);
      if f.OfCache? { PlainCoreSilent(g, f.finding); }
    }
    forall rule | g.Core().IsNoSandbox(rule) ensures Cached(g.Core(), rule) { PlainTargetIs(g, rule); }
  }
}

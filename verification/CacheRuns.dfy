/** Runs of the cached acceptance stage: tracked files are edited, targets are run, and a
    result is reused when the contents of the target's declared closure are the same as
    when it was recorded. The guard's purpose is that a reused verdict is never stale. */
module CacheRuns {
  import opened InputClosure
  import opened TagGuard
  import ImportReads

  /** The content of every tracked file. */
  type World = map<string, string>

  /** What a target's run reports on a world. */
  type Verdict = (string, World) -> bool

  /** The tracked files each acceptance target may read. */
  type MayRead = map<string, set<string>>

  datatype State = State(world: World, cache: map<(string, World), bool>)

  datatype Step = Edit(file: string, content: string) | Fresh(rule: string) | Reuse(rule: string)

  /** The states of a run, latest outermost. */
  datatype Trace = Init(state: State) | Then(before: Trace, step: Step, state: State)

  /** The cache key of a target: the contents of the tracked files its closure declares. */
  ghost function CacheKey(c: Config, rule: string, w: World): World {
    map file | file in w && file in c.Members(rule) :: w[file]
  }

  /** An acceptance target whose result Bazel may reuse. */
  ghost predicate Cached(c: Config, rule: string) {
    c.IsAcceptance(rule) && !c.Carries(rule, External)
  }

  ghost predicate Next(c: Config, verdict: Verdict, s: State, step: Step, s': State) {
    match step
    case Edit(file, content) => file in c.tracked && s' == s.(world := s.world[file := content])
    case Fresh(rule) =>
      && c.IsAcceptance(rule)
      && s' == s.(cache := s.cache[(rule, CacheKey(c, rule, s.world)) := verdict(rule, s.world)])
    case Reuse(rule) => Cached(c, rule) && (rule, CacheKey(c, rule, s.world)) in s.cache && s' == s
  }

  ghost predicate IsTrace(c: Config, verdict: Verdict, t: Trace) {
    match t
    case Init(s) => s.world.Keys == c.tracked && s.cache == map[]
    case Then(before, step, s) => IsTrace(c, verdict, before) && Next(c, verdict, before.state, step, s)
  }

  /** The verdict a reuse serves, against the one a run would report now. */
  ghost predicate ServesFresh(c: Config, verdict: Verdict, t: Trace)
    requires IsTrace(c, verdict, t)
  {
    t.Then? && t.step.Reuse? ==>
      t.state.cache[(t.step.rule, CacheKey(c, t.step.rule, t.state.world))] == verdict(t.step.rule, t.state.world)
  }

  ghost predicate Agree(w1: World, w2: World, files: set<string>) {
    forall file :: file in files && file in w1 && file in w2 ==> w1[file] == w2[file]
  }

  /** The assumption on the suite: a verdict depends on the tracked files only through those
      its target may read. */
  ghost predicate ReadsOnly(c: Config, may: MayRead, verdict: Verdict) {
    forall rule, w1: World, w2: World ::
      rule in may && w1.Keys == c.tracked && w2.Keys == c.tracked && Agree(w1, w2, may[rule])
      ==> verdict(rule, w1) == verdict(rule, w2)
  }

  /** The table names the acceptance targets and tracked files. */
  ghost predicate Fits(c: Config, may: MayRead) {
    may.Keys == c.Acceptance() && forall rule :: rule in may ==> may[rule] <= c.tracked
  }

  /** No run of any suite that meets the assumption ever serves a stale verdict. */
  ghost predicate NeverStale(c: Config, may: MayRead) {
    forall verdict: Verdict, t: Trace :: ReadsOnly(c, may, verdict) && IsTrace(c, verdict, t)
                                         ==> ServesFresh(c, verdict, t)
  }

  /** Everything a cached target may read is in its closure. */
  ghost predicate AllCovered(c: Config, may: MayRead) {
    forall rule :: Cached(c, rule) ==> rule in may && may[rule] <= c.Members(rule)
  }

  // ---- covered targets are never stale ---------------------------------------------

  /** Every recorded verdict of a cached target is the verdict of every world with the
      recorded key. */
  ghost predicate CacheSound(c: Config, verdict: Verdict, s: State) {
    && s.world.Keys == c.tracked
    && forall rule, key, w: World ::
         (rule, key) in s.cache && Cached(c, rule) && w.Keys == c.tracked && CacheKey(c, rule, w) == key
         ==> s.cache[(rule, key)] == verdict(rule, w)
  }

  lemma SameKeySameVerdict(c: Config, may: MayRead, verdict: Verdict, rule: string, w1: World, w2: World)
    requires ReadsOnly(c, may, verdict) && rule in may && may[rule] <= c.Members(rule)
    requires w1.Keys == c.tracked && w2.Keys == c.tracked && CacheKey(c, rule, w1) == CacheKey(c, rule, w2)
    ensures verdict(rule, w1) == verdict(rule, w2)
  {
    forall file | file in may[rule] && file in w1 && file in w2 ensures w1[file] == w2[file] {
      assert file in CacheKey(c, rule, w1) && file in CacheKey(c, rule, w2);
    }
    assert Agree(w1, w2, may[rule]);
  }

  lemma StepKeepsSound(c: Config, may: MayRead, verdict: Verdict, s: State, step: Step, s': State)
    requires ReadsOnly(c, may, verdict) && AllCovered(c, may)
    requires CacheSound(c, verdict, s) && Next(c, verdict, s, step, s')
    ensures CacheSound(c, verdict, s')
  {
    if step.Fresh? {
      var now := (step.rule, CacheKey(c, step.rule, s.world));
      forall rule, key, w: World | (rule, key) in s'.cache && Cached(c, rule) && w.Keys == c.tracked
                                   && CacheKey(c, rule, w) == key
        ensures s'.cache[(rule, key)] == verdict(rule, w)
      {
        if (rule, key) == now { SameKeySameVerdict(c, may, verdict, rule, s.world, w); }
      }
    }
  }

  lemma {:induction false} TraceSound(c: Config, may: MayRead, verdict: Verdict, t: Trace)
    requires ReadsOnly(c, may, verdict) && IsTrace(c, verdict, t) && AllCovered(c, may)
    ensures CacheSound(c, verdict, t.state)
  {
    if t.Then? {
      TraceSound(c, may, verdict, t.before);
      StepKeepsSound(c, may, verdict, t.before.state, t.step, t.state);
    }
  }

  lemma CoveredIsFresh(c: Config, may: MayRead, verdict: Verdict, t: Trace)
    requires ReadsOnly(c, may, verdict) && IsTrace(c, verdict, t) && AllCovered(c, may)
    ensures ServesFresh(c, verdict, t)
  {
    TraceSound(c, may, verdict, t);
  }

  // ---- an uncovered target can be stale ----------------------------------------------

  /** Run, edit the uncovered file, reuse. */
  lemma UncoveredIsStale(c: Config, may: MayRead, rule: string)
    requires Fits(c, may) && Cached(c, rule) && rule in may && !(may[rule] <= c.Members(rule))
    ensures !NeverStale(c, may)
  {
    var file :| file in may[rule] && file !in c.Members(rule);
    var verdict: Verdict := (r, w: World) => r == rule && file in w && w[file] == "old";
    OneFileVerdict(c, may, rule, file, verdict);
    var t := StaleTrace(c, rule, file, verdict);
  }

  lemma StaleTrace(c: Config, rule: string, file: string, verdict: Verdict) returns (t: Trace)
    requires Cached(c, rule) && file in c.tracked && file !in c.Members(rule)
    requires forall r, w: World :: verdict(r, w) <==> r == rule && file in w && w[file] == "old"
    ensures IsTrace(c, verdict, t) && !ServesFresh(c, verdict, t)
  {
    var w0: World := map f | f in c.tracked :: "old";
    var w1: World := w0[file := "new"];
    var key := CacheKey(c, rule, w0);
    assert CacheKey(c, rule, w1) == key;
    var cache := map[(rule, key) := true];
    var start := Init(State(w0, map[]));
    var ran := Then(start, Fresh(rule), State(w0, cache));
    assert IsTrace(c, verdict, ran) by { assert verdict(rule, w0); }
    var edited := Then(ran, Edit(file, "new"), State(w1, cache));
    assert IsTrace(c, verdict, edited);
    t := Then(edited, Reuse(rule), State(w1, cache));
  }

  lemma OneFileVerdict(c: Config, may: MayRead, rule: string, file: string, verdict: Verdict)
    requires rule in may && file in may[rule]
    requires forall r, w: World :: verdict(r, w) <==> r == rule && file in w && w[file] == "old"
    ensures ReadsOnly(c, may, verdict)
  {
  }

  /** Whatever the targets may read, no verdict is ever stale if and only if each cached
      target's reads are in its closure. */
  lemma NeverStaleIff(c: Config, may: MayRead)
    requires Fits(c, may)
    ensures NeverStale(c, may) <==> AllCovered(c, may)
  {
    if AllCovered(c, may) {
      forall verdict: Verdict, t: Trace | ReadsOnly(c, may, verdict) && IsTrace(c, verdict, t)
        ensures ServesFresh(c, verdict, t)
      {
        CoveredIsFresh(c, may, verdict, t);
      }
    } else {
      var rule :| Cached(c, rule) && !(rule in may && may[rule] <= c.Members(rule));
      UncoveredIsStale(c, may, rule);
    }
  }

  // ---- the derived reads ------------------------------------------------------------------

  /** The file of the target's own module. The derivation never names it. */
  function OwnFile(rule: string): string { ImportReads.MODULE_DIR + ModuleOf(rule) }

  ghost predicate DerivedCovers(c: Config, rule: string, file: string) {
    ModuleOf(rule) in c.derived && exists path :: path in c.derived[ModuleOf(rule)] && AtOrUnder(file, path)
  }

  /** The tracked files that are the target's own module or at or under a path derived for it. */
  ghost function OwnReads(c: Config, rule: string): set<string> {
    set file | file in c.tracked && (file == OwnFile(rule) || DerivedCovers(c, rule, file))
  }

  ghost function DerivedReads(c: Config): MayRead { map rule | rule in c.Acceptance() :: OwnReads(c, rule) }

  /** A derived path that is itself a closure path, so `declared` accepts it outright, while
      some tracked file under it is not in the closure. */
  ghost predicate Shadowed(c: Config, rule: string) {
    ModuleOf(rule) in c.derived
    && exists path :: path in c.derived[ModuleOf(rule)] && ShadowedBy(c, rule, path)
  }

  ghost predicate ShadowedBy(c: Config, rule: string, path: string) {
    path in c.Members(rule) && !(TrackedUnder(path, c.tracked) <= c.Members(rule))
  }

  /** The target declares its own module, if that is tracked. */
  ghost predicate OwnDeclared(c: Config, rule: string) {
    OwnFile(rule) in c.tracked ==> OwnFile(rule) in c.Members(rule)
  }

  /** Where the guard is silent, a cached target's possible reads are in its closure unless a
      derived directory is shadowed by a closure label of the same path or the module's own
      file is not declared. */
  lemma SilentCoveredIff(c: Config, rule: string)
    requires c.Silent() && Cached(c, rule)
    ensures OwnReads(c, rule) <= c.Members(rule) <==> !Shadowed(c, rule) && OwnDeclared(c, rule)
  {
    ExternalExactlyWhereUndeclared(c, rule);
    var members := c.Members(rule);
    if Shadowed(c, rule) {
      var path :| path in c.derived[ModuleOf(rule)] && ShadowedBy(c, rule, path);
      var file :| file in TrackedUnder(path, c.tracked) && file !in members;
      assert DerivedCovers(c, rule, file) && file in OwnReads(c, rule);
    } else {
      forall file | file in OwnReads(c, rule) && file != OwnFile(rule) ensures file in members {
        var path :| path in c.derived[ModuleOf(rule)] && AtOrUnder(file, path);
        assert file in TrackedUnder(path, c.tracked);
        assert !c.UndeclaredRead(rule, path) && !ShadowedBy(c, rule, path);
      }
      if !OwnDeclared(c, rule) { assert OwnFile(rule) in OwnReads(c, rule); }
    }
  }

  /** Nothing a cached target reads is hidden from its key. */
  ghost predicate Unhidden(c: Config) {
    forall rule :: Cached(c, rule) ==> !Shadowed(c, rule) && OwnDeclared(c, rule)
  }

  /** No stale green: with a silent guard, every run of every suite that reads only its own
      module and what was derived serves only fresh verdicts, if and only if no cached target
      has a derived directory shadowed by a closure label and each declares its own module. */
  lemma NoStaleGreen(c: Config)
    requires c.Silent()
    ensures NeverStale(c, DerivedReads(c)) <==> Unhidden(c)
  {
    NeverStaleIff(c, DerivedReads(c));
    forall rule | Cached(c, rule)
      ensures rule in DerivedReads(c)
      ensures (DerivedReads(c)[rule] <= c.Members(rule) <==> !Shadowed(c, rule) && OwnDeclared(c, rule))
    {
      assert rule in c.Acceptance();
      SilentCoveredIff(c, rule);
    }
  }

  /** No clause asks a target to declare its own module: a silent guard with one that does not
      serves a stale verdict once the module is edited. */
  lemma UndeclaredModuleIsStale(c: Config, rule: string)
    requires c.Silent() && Cached(c, rule) && OwnFile(rule) in c.tracked && OwnFile(rule) !in c.Members(rule)
    ensures !NeverStale(c, DerivedReads(c))
  {
    NoStaleGreen(c);
  }
}

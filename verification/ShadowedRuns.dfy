/** The condition of the cache theorem is needed: any silent configuration with a cached target
    can be grown, without a finding, into one that serves a stale verdict. */
module ShadowedRuns {
  import opened TagGuard
  import opened CacheRuns

  /** The module also walks a directory, and one more file is tracked; the rules are the same. */
  function Grown(c: Config, rule: string, dir: string, file: string): Config {
    var name := ModuleOf(rule);
    c.(derived := c.derived[name := (if name in c.derived then c.derived[name] else {}) + {dir}],
       tracked := c.tracked + {file})
  }

  /** A directory spelled like a label of the target's closure, and a file under it that is
      not in the closure and under no path derived so far. */
  ghost predicate ShadowSpot(c: Config, rule: string, dir: string, file: string) {
    && dir in c.Members(rule) && dir != "" && !(".." <= dir) && !("/" <= dir)
    && dir + "/" <= file && file !in c.Members(rule)
    && forall name, path :: name in c.derived && path in c.derived[name] ==> !AtOrUnder(file, path)
  }

  lemma SameUnder(path: string, tracked: set<string>, file: string)
    requires !AtOrUnder(file, path)
    ensures TrackedUnder(path, tracked + {file}) == TrackedUnder(path, tracked)
  {
  }

  lemma SameRules(c: Config, rule: string, dir: string, file: string)
    ensures var d := Grown(c, rule, dir, file);
            && d.Rules() == c.Rules() && d.Uncached() == c.Uncached() && d.Acceptance() == c.Acceptance()
            && (forall r :: d.IsAcceptance(r) == c.IsAcceptance(r) && d.IsNoSandbox(r) == c.IsNoSandbox(r))
            && (forall r :: d.Closure(r) == c.Closure(r) && d.Members(r) == c.Members(r))
  {
  }

  lemma ModuleOfInjective(r: string, s: string)
    requires ACCEPTANCE_PACKAGE <= r && ACCEPTANCE_PACKAGE <= s && ModuleOf(r) == ModuleOf(s)
    ensures r == s
  {
    var n := |ACCEPTANCE_PACKAGE|;
    assert ModuleOf(r)[..|r| - n] == r[n..] && ModuleOf(s)[..|s| - n] == s[n..];
    assert r == r[..n] + r[n..] && s == s[..n] + s[n..];
  }

  /** What an acceptance module reads undeclared is the same: old paths are judged on the same
      files, and the new one is declared by the label spelled like it. */
  lemma SameUndeclared(c: Config, rule: string, dir: string, file: string, r: string, path: string)
    requires ShadowSpot(c, rule, dir, file) && c.IsAcceptance(rule) && c.IsAcceptance(r) && ModuleOf(rule) in c.derived
    ensures Grown(c, rule, dir, file).UndeclaredRead(r, path) <==> c.UndeclaredRead(r, path)
  {
    var d := Grown(c, rule, dir, file);
    SameRules(c, rule, dir, file);
    if ModuleOf(r) == ModuleOf(rule) { ModuleOfInjective(r, rule); }
    if ModuleOf(r) in c.derived && path in c.derived[ModuleOf(r)] { SameUnder(path, c.tracked, file); }
  }

  lemma SameReads(c: Config, rule: string, dir: string, file: string, r: string)
    requires ShadowSpot(c, rule, dir, file) && c.IsAcceptance(rule) && c.IsAcceptance(r) && ModuleOf(rule) in c.derived
    ensures Grown(c, rule, dir, file).ReadsUndeclared(r) <==> c.ReadsUndeclared(r)
  {
    forall path ensures Grown(c, rule, dir, file).UndeclaredRead(r, path) <==> c.UndeclaredRead(r, path) {
      SameUndeclared(c, rule, dir, file, r, path);
    }
  }

  /** No clause notices. */
  lemma GrownSilent(c: Config, rule: string, dir: string, file: string)
    requires c.Silent() && c.IsAcceptance(rule) && ShadowSpot(c, rule, dir, file)
    ensures Grown(c, rule, dir, file).Silent() && ModuleOf(rule) in c.derived
  {
    var d := Grown(c, rule, dir, file);
    ListedExactlyWhereUndeclared(c, rule);
    SameRules(c, rule, dir, file);
    forall fd ensures !d.Raised(fd) {
      assert !c.Raised(fd);
      if c.IsAcceptance(fd.subject) { SameReads(c, rule, dir, file, fd.subject); }
      SameOtherClauses(c, d, fd);
    }
  }

  lemma SameOtherClauses(c: Config, d: Config, fd: Finding)
    requires d.records == c.records && d.uncachedModules == c.uncachedModules && d.floor == c.floor
    requires d.derived.Keys == c.derived.Keys && !c.Raised(fd)
    requires c.IsAcceptance(fd.subject) ==> (d.ReadsUndeclared(fd.subject) <==> c.ReadsUndeclared(fd.subject))
    ensures !d.Raised(fd)
  {
  }

  /** A silent guard alone does not rule out a stale green: wherever a closure label is spelled
      like a directory, the module may come to walk that directory and a file may come to lie
      under it with no finding raised, and then a run, an edit and a reuse serve a stale
      verdict. */
  lemma SilentGuardCanBeStale(c: Config, rule: string, dir: string, file: string)
    requires c.Silent() && Cached(c, rule) && ShadowSpot(c, rule, dir, file)
    ensures var d := Grown(c, rule, dir, file);
            d.Silent() && Cached(d, rule) && d.records == c.records && !NeverStale(d, DerivedReads(d))
  {
    var d := Grown(c, rule, dir, file);
    GrownSilent(c, rule, dir, file);
    SameRules(c, rule, dir, file);
    assert file in TrackedUnder(dir, d.tracked);
    assert ShadowedBy(d, rule, dir);
    assert Shadowed(d, rule);
    NoStaleGreen(d);
  }
}

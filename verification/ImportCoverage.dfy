/** The import derivation and the tag guard together: with the derived paths the guard is given
    being those of the suite, a cached target's closure holds every tracked file its module
    reaches by import. */
module ImportCoverage {
  import opened ImportReads
  import opened TagGuard
  import opened CacheRuns

  /** The guard's derived paths are what `named_paths_by_module` gives for the suite. */
  ghost predicate DerivedFrom(c: Config, suite: Suite) {
    && c.derived.Keys == suite.sources.Keys
    && forall name :: name in suite.sources ==> c.derived[name] == suite.Reads(name)
  }

  /** A file a module reaches by import, or that governs it. */
  ghost predicate Reached(suite: Suite, rule: string, file: string) {
    file in suite.ChargedFiles(ImportReads.MODULE_DIR + ModuleOf(rule))
  }

  /** On a silent guard a cached target's closure holds every tracked file its module reaches by
      import, whether or not a directory of its is shadowed. */
  lemma ImportsAreInputs(c: Config, suite: Suite, rule: string, file: string)
    requires DerivedFrom(c, suite) && c.Silent() && Cached(c, rule)
    requires Reached(suite, rule, file) && file in c.tracked
    ensures file in c.Members(rule)
  {
    ExternalExactlyWhereUndeclared(c, rule);
    assert file in c.derived[ModuleOf(rule)];
    assert !c.UndeclaredRead(rule, file);
    assert file in TrackedUnder(file, c.tracked);
  }

  /** So an edit of an imported file always moves the cache key: no result recorded before it
      is reused after it. */
  lemma ImportEditMovesKey(c: Config, suite: Suite, rule: string, file: string, w: World, w': World)
    requires DerivedFrom(c, suite) && c.Silent() && Cached(c, rule) && Reached(suite, rule, file) && file in c.tracked
    requires file in w && file in w' && w[file] != w'[file]
    ensures CacheKey(c, rule, w) != CacheKey(c, rule, w')
  {
    ImportsAreInputs(c, suite, rule, file);
    assert file in CacheKey(c, rule, w) && CacheKey(c, rule, w)[file] == w[file];
    assert file in CacheKey(c, rule, w') && CacheKey(c, rule, w')[file] == w'[file];
  }

  /** Conversely an imported tracked file outside the closure makes the target carry `external`. */
  lemma UndeclaredImportIsExternal(c: Config, suite: Suite, rule: string, file: string)
    requires DerivedFrom(c, suite) && c.Silent() && c.IsAcceptance(rule)
    requires Reached(suite, rule, file) && file in c.tracked && file !in c.Members(rule)
    ensures c.Carries(rule, InputClosure.External)
  {
    if !c.Carries(rule, InputClosure.External) { ImportsAreInputs(c, suite, rule, file); }
  }

  /** What the derivation returns meets the assumption. */
  method DeriveFor(suite: Suite, c: Config) returns (d: Config)
    requires suite.Valid()
    ensures DerivedFrom(d, suite) && d == c.(derived := d.derived)
  {
    var derived := NamedPathsByModule(suite);
    d := c.(derived := derived);
  }
}

/** What a silent guard means, both ways, on the query's records, the derived paths and the
    tracked files alone: labels, tags and prefixes are spelled out here once more. */
module GuardMeaning {
  import opened Text
  import opened Reachability
  import opened InputClosure
  import opened TagGuard

  // ---- the words -----------------------------------------------------------------------------------

  /** The record a label stands for. */
  ghost predicate Stands(records: seq<RuleRecord>, rule: string, r: RuleRecord) {
    exists k :: LastOfName(records, k) && records[k].name == rule && records[k] == r
  }

  predicate TestClass(ruleClass: string) { |ruleClass| >= 5 && ruleClass[|ruleClass| - 5..] == "_test" }

  ghost predicate Tagged(records: seq<RuleRecord>, rule: string, tag: Tag) {
    exists r :: Stands(records, rule, r) && tag in r.tags
  }

  ghost predicate TestTarget(records: seq<RuleRecord>, rule: string) {
    exists r :: Stands(records, rule, r) && TestClass(r.ruleClass)
  }

  /** A test of the acceptance package that runs outside the sandbox. */
  ghost predicate Accepts(records: seq<RuleRecord>, rule: string) {
    "//test:" <= rule && Tagged(records, rule, NoSandboxTag) && TestTarget(records, rule)
  }

  /** A label and the path it spells: `//package:target` is `package/target`. */
  ghost predicate Spells(name: string, path: string) {
    path != "" && exists package, target :: SpeltBy(name, package, target) && path == PathOf(package, target)
  }

  predicate SpeltBy(name: string, package: string, target: string) {
    ':' !in package && (name == "//" + package + ":" + target || (target == "" && name == "//" + package))
  }

  function PathOf(package: string, target: string): string {
    if package == "" then target else package + "/" + target
  }

  /** Some label the rule is built from spells the path. */
  ghost predicate Holds(records: seq<RuleRecord>, rule: string, path: string) {
    exists name :: BuiltFrom(records, rule, name) && Spells(name, path)
  }

  ghost predicate Beneath(file: string, path: string) { file == path || exists tail :: file == path + "/" + tail }

  /** The rule accounts for a read of the path: it holds it, or it holds every tracked file
      beneath it, or nothing is tracked there and the path lies in the test package. */
  ghost predicate Accounts(c: Config, rule: string, path: string) {
    && path != "" && !(".." <= path) && !("/" <= path)
    && (|| Holds(c.records, rule, path)
        || if exists file :: file in c.tracked && Beneath(file, path)
           then forall file :: file in c.tracked && Beneath(file, path) ==> Holds(c.records, rule, file)
           else "test/" <= path)
  }

  /** The label is the target of the module file. */
  ghost predicate TargetOf(rule: string, name: string) {
    exists stem :: rule == "//test:" + stem && name == stem + ".py"
  }

  /** The file names of the entries of `UNCACHED_MODULES`. */
  ghost predicate Named(c: Config, name: string) {
    exists entry :: entry in c.uncachedModules && name == PathName(entry)
  }

  /** The result stays where it was made: by the tag of its kind, or by what it is built from. */
  ghost predicate Credited(c: Config, rule: string) {
    || (TestTarget(c.records, rule) && Tagged(c.records, rule, External))
    || (!TestTarget(c.records, rule) && Tagged(c.records, rule, NoRemoteCache))
    || (&& Accepts(c.records, rule)
        && BuiltFrom(c.records, rule, "//crates/ocx_cli:ocx")
        && BuiltFrom(c.records, rule, "//test:docker-compose.yml")
        && BuiltFrom(c.records, rule, "//test:suite_anchor"))
  }

  ghost predicate Unstamped(c: Config, rule: string) {
    exists k :: 0 <= k < |c.records| && c.records[k].name == rule
                && (c.records[k].stampZero || NoRemoteCache in c.records[k].tags)
  }

  // ---- the words are the model's ---------------------------------------------------------------------

  lemma StandsIff(c: Config, rule: string, r: RuleRecord)
    ensures Stands(c.records, rule, r) <==> rule in c.Rules() && c.Rules()[rule] == r
  {
    if Stands(c.records, rule, r) {
      var k :| LastOfName(c.records, k) && c.records[k].name == rule && c.records[k] == r;
      ByLabelIsLast(c.records, k);
    }
    if rule in c.Rules() && c.Rules()[rule] == r {
      var k := LastExists(c.records, rule);
      ByLabelIsLast(c.records, k);
    }
  }

  lemma TaggedIff(c: Config, rule: string, tag: Tag)
    ensures Tagged(c.records, rule, tag) <==> c.Carries(rule, tag)
  {
    if Tagged(c.records, rule, tag) {
      var r :| Stands(c.records, rule, r) && tag in r.tags;
      StandsIff(c, rule, r);
    }
    if c.Carries(rule, tag) { StandsIff(c, rule, c.Rules()[rule]); }
  }

  lemma TestTargetIff(c: Config, rule: string)
    ensures TestTarget(c.records, rule) <==> rule in c.Rules() && IsTestRule(c.Rules()[rule].ruleClass)
  {
    if TestTarget(c.records, rule) {
      var r :| Stands(c.records, rule, r) && TestClass(r.ruleClass);
      StandsIff(c, rule, r);
    }
    if rule in c.Rules() { StandsIff(c, rule, c.Rules()[rule]); }
  }

  lemma AcceptsIff(c: Config, rule: string)
    ensures Accepts(c.records, rule) <==> c.IsAcceptance(rule)
  {
    TaggedIff(c, rule, NoSandboxTag);
    TestTargetIff(c, rule);
  }

  lemma SpellsIff(name: string, path: string)
    ensures Spells(name, path) <==> LabelPath(name) == Some(path) && path != ""
  {
    if Spells(name, path) {
      var package, target :| SpeltBy(name, package, target) && path == PathOf(package, target);
      LabelPathOf(name, package, target);
    }
    if LabelPath(name) == Some(path) && path != "" {
      var package, target := PartsOf(name);
      assert SpeltBy(name, package, target) && path == PathOf(package, target);
    }
  }

  lemma LabelPathOf(name: string, package: string, target: string)
    requires SpeltBy(name, package, target)
    ensures LabelPath(name) == Some(PathOf(package, target))
  {
    IndexPast(package, target, ':');
    if name == "//" + package + ":" + target {
      assert name[2..] == package + [':'] + target;
      assert name[2..][..|package|] == package && name[2..][|package| + 1..] == target;
    } else {
      assert name[2..] == package && package[..|package|] == package;
    }
  }

  lemma PartsOf(name: string) returns (package: string, target: string)
    requires LabelPath(name).Some?
    ensures SpeltBy(name, package, target) && LabelPath(name) == Some(PathOf(package, target))
  {
    var rest := name[2..];
    var colon := IndexOf(rest, ':');
    package := rest[..colon];
    assert name == "//" + rest;
    if colon < |rest| {
      target := rest[colon + 1..];
      assert rest == package + ":" + target;
    } else {
      target := "";
      assert rest == package;
    }
  }

  lemma HoldsIff(c: Config, rule: string, path: string)
    ensures Holds(c.records, rule, path) <==> path in c.Members(rule)
  {
    if Holds(c.records, rule, path) {
      var name :| BuiltFrom(c.records, rule, name) && Spells(name, path);
      ReachIsBuiltFrom(c.records, rule, name);
      SpellsIff(name, path);
    }
    if path in c.Members(rule) {
      var name :| name in c.Closure(rule) && LabelPath(name) == Some(path) && path != "";
      ReachIsBuiltFrom(c.records, rule, name);
      SpellsIff(name, path);
    }
  }

  lemma BeneathIff(file: string, path: string)
    ensures Beneath(file, path) <==> AtOrUnder(file, path)
  {
    if path + "/" <= file {
      var tail := file[|path| + 1..];
      assert file == path + "/" + tail;
    }
  }

  lemma UnderAre(c: Config, path: string)
    ensures TrackedUnder(path, c.tracked) != {} <==> exists file :: file in c.tracked && Beneath(file, path)
    ensures forall file :: file in TrackedUnder(path, c.tracked) <==> file in c.tracked && Beneath(file, path)
  {
    forall file ensures file in TrackedUnder(path, c.tracked) <==> file in c.tracked && Beneath(file, path) {
      BeneathIff(file, path);
    }
  }

  /** `declared`, in words. */
  lemma AccountsIff(c: Config, rule: string, path: string)
    ensures Accounts(c, rule, path) <==> Declared(path, c.Members(rule), c.tracked)
  {
    UnderAre(c, path);
    HoldsIff(c, rule, path);
    forall file ensures Holds(c.records, rule, file) <==> file in c.Members(rule) { HoldsIff(c, rule, file); }
  }

  lemma ModuleIff(rule: string, name: string)
    requires "//test:" <= rule
    ensures TargetOf(rule, name) <==> name == ModuleOf(rule)
  {
    var stem := rule[7..];
    assert rule == "//test:" + stem;
    if TargetOf(rule, name) {
      var s :| rule == "//test:" + s && name == s + ".py";
      assert s == rule[7..];
    }
  }

  lemma NamedIff(c: Config, name: string)
    ensures Named(c, name) <==> name in c.Uncached()
  {
  }

  lemma ListedIff(c: Config, rule: string)
    ensures c.Listed(rule) <==> exists u :: Named(c, u) && rule == "//test:" + Stem(u)
  {
    if c.Listed(rule) {
      var u :| u in c.Uncached() && rule == ACCEPTANCE_PACKAGE + Stem(u);
      NamedIff(c, u);
    }
    if u :| Named(c, u) && rule == "//test:" + Stem(u) { NamedIff(c, u); }
  }

  lemma SuppressedIff(c: Config, rule: string)
    ensures c.Suppressed(rule) <==>
              || c.Carries(rule, NoCache) || c.Carries(rule, NoRemoteCache) || c.Carries(rule, NoRemote)
              || c.Carries(rule, Local) || (c.Carries(rule, External) && !c.Listed(rule))
  {
    assert NoCache in INSUFFICIENT && NoRemoteCache in INSUFFICIENT;
    assert NoRemote in INSUFFICIENT && Local in INSUFFICIENT;
  }

  lemma CreditedIff(c: Config, rule: string)
    requires rule in c.Rules()
    ensures Credited(c, rule) <==> c.CacheExcluded(rule)
  {
    TestTargetIff(c, rule);
    TaggedIff(c, rule, External);
    TaggedIff(c, rule, NoRemoteCache);
    AcceptsIff(c, rule);
    ReachIsBuiltFrom(c.records, rule, "//crates/ocx_cli:ocx");
    ReachIsBuiltFrom(c.records, rule, "//test:docker-compose.yml");
    ReachIsBuiltFrom(c.records, rule, "//test:suite_anchor");
  }

  lemma UnreadIff(c: Config, rule: string)
    requires ModuleOf(rule) in c.derived
    ensures c.ReadsUndeclared(rule) <==> exists path :: path in c.derived[ModuleOf(rule)] && !Accounts(c, rule, path)
  {
    if c.ReadsUndeclared(rule) {
      var path :| c.UndeclaredRead(rule, path);
      AccountsIff(c, rule, path);
    }
    if path :| path in c.derived[ModuleOf(rule)] && !Accounts(c, rule, path) {
      AccountsIff(c, rule, path);
      assert c.UndeclaredRead(rule, path);
    }
  }

  // ---- each finding ------------------------------------------------------------------------------------

  /** When each code is raised, in words. */
  ghost predicate InWords(c: Config, fd: Finding) {
    var rule := fd.subject;
    match fd.code
    case UncachedUnknown =>
      && (exists r :: Accepts(c.records, r)) && Named(c, fd.subject)
      && !exists r :: Accepts(c.records, r) && TargetOf(r, fd.subject)
    case UncachedUnread => Accepts(c.records, rule) && !exists name :: TargetOf(rule, name) && name in c.derived
    case UncachedUnlisted => ReadAs(c, rule, false, false)
    case UncachedRot => ReadAs(c, rule, true, true)
    case UncachedUntagged =>
      !Tagged(c.records, rule, External) && (ReadAs(c, rule, true, true) || ReadAs(c, rule, true, false))
    case AcceptanceSerialised => Accepts(c.records, rule) && Tagged(c.records, rule, Exclusive)
    case AcceptanceSuppressed =>
      && Accepts(c.records, rule)
      && (|| Tagged(c.records, rule, NoCache) || Tagged(c.records, rule, NoRemoteCache)
          || Tagged(c.records, rule, NoRemote) || Tagged(c.records, rule, Local)
          || (Tagged(c.records, rule, External) && !exists u :: Named(c, u) && rule == "//test:" + Stem(u)))
    case ReaderFloor => fd.subject == "" && |c.records| < c.floor
    case NoSandbox => Tagged(c.records, rule, NoSandboxTag) && !Credited(c, rule)
    case Stamp => Stampable(c, rule) && !Credited(c, rule) && !Unstamped(c, rule)
    case AcceptanceUndeclared => Accepts(c.records, rule) && !Credited(c, rule)
    case CacheInsufficient =>
      Tagged(c.records, rule, NoSandboxTag) && !Accepts(c.records, rule) && !Credited(c, rule)
  }

  /** An acceptance target whose module was read: whether it is uncached by name, and whether
      all its reads are accounted for. */
  ghost predicate ReadAs(c: Config, rule: string, named: bool, accounted: bool) {
    Accepts(c.records, rule) && exists name :: TargetOf(rule, name) && ModuleReadAs(c, rule, name, named, accounted)
  }

  ghost predicate ModuleReadAs(c: Config, rule: string, name: string, named: bool, accounted: bool) {
    && name in c.derived && named == Named(c, name)
    && accounted == (forall path :: path in c.derived[name] ==> Accounts(c, rule, path))
  }

  ghost predicate Stampable(c: Config, rule: string) {
    exists k :: 0 <= k < |c.records| && c.records[k].name == rule && c.records[k].ruleClass == "rust_binary"
  }

  lemma ReadAsIff(c: Config, rule: string, named: bool, accounted: bool)
    ensures ReadAs(c, rule, named, accounted) <==>
              && c.IsAcceptance(rule) && ModuleOf(rule) in c.derived && named == (ModuleOf(rule) in c.Uncached())
              && accounted != c.ReadsUndeclared(rule)
  {
    var name := ModuleOf(rule);
    AcceptsIff(c, rule);
    if c.IsAcceptance(rule) {
      forall n ensures TargetOf(rule, n) <==> n == name { ModuleIff(rule, n); }
      NamedIff(c, name);
      if name in c.derived { UnreadIff(c, rule); }
      assert ReadAs(c, rule, named, accounted) <==> ModuleReadAs(c, rule, name, named, accounted);
    }
  }

  lemma ModulesIff(c: Config, name: string)
    ensures c.IsModule(name) <==> exists r :: Accepts(c.records, r) && TargetOf(r, name)
  {
    if c.IsModule(name) {
      var r :| r in c.Acceptance() && name == ModuleOf(r);
      AcceptsIff(c, r);
      ModuleIff(r, name);
    }
    if r :| Accepts(c.records, r) && TargetOf(r, name) {
      AcceptsIff(c, r);
      ModuleIff(r, name);
      assert r in c.Acceptance();
    }
  }

  lemma SomeAccepts(c: Config)
    ensures c.Acceptance() != {} <==> exists r :: Accepts(c.records, r)
  {
    if c.Acceptance() != {} {
      var r :| r in c.Acceptance();
      AcceptsIff(c, r);
    }
    if r :| Accepts(c.records, r) {
      AcceptsIff(c, r);
      assert r in c.Acceptance();
    }
  }

  lemma UncachedInWords(c: Config, fd: Finding)
    requires ClauseOf(fd.code) == Uncached
    ensures c.Raised(fd) <==> InWords(c, fd)
  {
    var rule := fd.subject;
    ReadAsIff(c, rule, false, false);
    ReadAsIff(c, rule, true, true);
    ReadAsIff(c, rule, true, false);
    TaggedIff(c, rule, External);
    match fd.code {
      case UncachedUnknown =>
        SomeAccepts(c);
        NamedIff(c, rule);
        ModulesIff(c, rule);
      case UncachedUnread =>
        AcceptsIff(c, rule);
        if c.IsAcceptance(rule) {
          forall n ensures TargetOf(rule, n) <==> n == ModuleOf(rule) { ModuleIff(rule, n); }
        }
      case _ =>
    }
  }

  lemma TagsInWords(c: Config, fd: Finding)
    requires ClauseOf(fd.code) == AcceptanceTags
    ensures c.Raised(fd) <==> InWords(c, fd)
  {
    AcceptsIff(c, fd.subject);
    TagsAre(c, fd.subject);
    SuppressedIff(c, fd.subject);
    ListedIff(c, fd.subject);
  }

  lemma ClausesInWords(c: Config, fd: Finding)
    requires ClauseOf(fd.code) in {Floor, Sandbox, Stamping}
    ensures c.Raised(fd) <==> InWords(c, fd)
  {
    var rule := fd.subject;
    TaggedIff(c, rule, NoSandboxTag);
    AcceptsIff(c, rule);
    assert Stampable(c, rule) <==> c.IsRustBinary(rule);
    assert Unstamped(c, rule) <==> c.StampExcused(rule);
    if c.IsNoSandbox(rule) { CreditedIff(c, rule); }
    if c.IsRustBinary(rule) {
      ByLabelKeys(c.records, rule);
      CreditedIff(c, rule);
    }
  }

  /** Every finding of these clauses, in words. */
  lemma RaisedInWords(c: Config, fd: Finding)
    ensures c.Raised(fd) <==> InWords(c, fd)
  {
    match ClauseOf(fd.code)
    case Uncached => UncachedInWords(c, fd);
    case AcceptanceTags => TagsInWords(c, fd);
    case _ => ClausesInWords(c, fd);
  }

  lemma TagsAre(c: Config, rule: string)
    ensures Tagged(c.records, rule, External) <==> c.Carries(rule, External)
    ensures Tagged(c.records, rule, Exclusive) <==> c.Carries(rule, Exclusive)
    ensures Tagged(c.records, rule, NoCache) <==> c.Carries(rule, NoCache)
    ensures Tagged(c.records, rule, NoRemoteCache) <==> c.Carries(rule, NoRemoteCache)
    ensures Tagged(c.records, rule, NoRemote) <==> c.Carries(rule, NoRemote)
    ensures Tagged(c.records, rule, Local) <==> c.Carries(rule, Local)
  {
    TaggedIff(c, rule, External);
    TaggedIff(c, rule, Exclusive);
    TaggedIff(c, rule, NoCache);
    TaggedIff(c, rule, NoRemoteCache);
    TaggedIff(c, rule, NoRemote);
    TaggedIff(c, rule, Local);
  }

  // ---- what silence says of a read ------------------------------------------------------------------------

  /** On a silent guard every path derived for a target that is not tagged `external` is held by
      it, has tracked files beneath it, all held, or lies in the test package with none. */
  lemma SilentReadsAccounted(c: Config, rule: string, name: string, path: string)
    requires c.Silent() && Accepts(c.records, rule) && !Tagged(c.records, rule, External)
    requires TargetOf(rule, name) && name in c.derived && path in c.derived[name]
    ensures Accounts(c, rule, path)
  {
    AcceptsIff(c, rule);
    ModuleIff(rule, name);
    TaggedIff(c, rule, External);
    ExternalExactlyWhereUndeclared(c, rule);
    UnreadIff(c, rule);
  }

  /** A read of an untracked path outside the test package that the target does not hold is
      reported, unless its module is uncached by name. */
  lemma UntrackedReadIsReported(c: Config, rule: string, name: string, path: string)
    requires Accepts(c.records, rule) && TargetOf(rule, name) && name in c.derived && path in c.derived[name]
    requires !("test/" <= path) && !Holds(c.records, rule, path) && !Named(c, name)
    requires forall file :: file in c.tracked ==> !Beneath(file, path)
    ensures c.Raised(Finding(UncachedUnlisted, rule))
  {
    assert !Accounts(c, rule, path);
    assert ModuleReadAs(c, rule, name, false, false);
    RaisedInWords(c, Finding(UncachedUnlisted, rule));
  }

  /** Reads of nothing but untracked paths in the test package are not reported. */
  lemma GeneratedReadsPass(c: Config, rule: string, name: string)
    requires Accepts(c.records, rule) && TargetOf(rule, name) && name in c.derived
    requires forall path :: path in c.derived[name] ==> "test/" <= path
    requires forall path, file :: path in c.derived[name] && file in c.tracked ==> !Beneath(file, path)
    ensures !c.Raised(Finding(UncachedUnlisted, rule))
  {
    forall path | path in c.derived[name] ensures Accounts(c, rule, path) { assert path[0] == "test/"[0]; }
    AcceptsIff(c, rule);
    ModuleIff(rule, name);
    UnreadIff(c, rule);
  }

  // ---- file names and stems ------------------------------------------------------------------------------------

  lemma {:induction false} LastPartEnds(parts: seq<string>, part: string)
    ensures LastPart(parts + [part]) == if part == "" || part == "." then LastPart(parts) else part
  {
    assert (parts + [part])[..|parts|] == parts;
  }

  /** The name of a path is what follows its last slash; a slash or a dot after it changes
      nothing. */
  lemma PathNameIs(s: string, name: string)
    requires '/' !in name && name != "" && name != "."
    ensures PathName(name) == name && PathName(s + "/" + name) == name
    ensures PathName(s + "/") == PathName(s) && PathName(s + "/.") == PathName(s)
    ensures PathName("") == "" && PathName(".") == ""
  {
    SplitPlain(name, '/');
    SplitPlain("", '/');
    SplitPlain(".", '/');
    NameAfter(s, name);
    NameAfter(s, "");
    NameAfter(s, ".");
    assert s + "/" + "" == s + "/" && s + "/" + "." == s + "/.";
    LastPartEnds([], name);
    LastPartEnds([], "");
    LastPartEnds([], ".");
    assert [] + [name] == [name] && [] + [""] == [""] && [] + ["."] == ["."];
  }

  lemma NameAfter(s: string, last: string)
    requires '/' !in last
    ensures PathName(s + "/" + last) == if last == "" || last == "." then PathName(s) else last
  {
    assert s + "/" + last == s + ['/'] + last;
    SplitConcat(s, last, '/');
    SplitPlain(last, '/');
    LastPartEnds(Split(s, '/'), last);
  }

  lemma {:induction false} LastDotIs(a: string, b: string)
    requires '.' !in b
    ensures LastDot(a + "." + b) == |a|
    decreases |b|
  {
    var s := a + "." + b;
    if b != "" {
      assert s[..|s| - 1] == a + "." + b[..|b| - 1];
      LastDotIs(a, b[..|b| - 1]);
    }
  }

  lemma {:induction false} NoDot(s: string)
    requires '.' !in s
    ensures LastDot(s) == -1
  {
    if s != "" { NoDot(s[..|s| - 1]); }
  }

  /** The stem of a file name is what is before its last dot, unless the dot is its first or
      last character or there is none. */
  lemma StemIs(a: string, b: string)
    requires '.' !in b && '/' !in a + "." + b && a + "." + b != "."
    ensures Stem(a + "." + b) == if a != "" && b != "" then a else a + "." + b
    ensures '/' !in b && b != "" ==> Stem(b) == b
  {
    var s := a + "." + b;
    LastDotIs(a, b);
    SplitPlain(s, '/');
    assert PathName(s) == s;
    if '/' !in b && b != "" {
      SplitPlain(b, '/');
      NoDot(b);
    }
  }
}

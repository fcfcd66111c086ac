/** The stage, sweep, shared-group and hand-declared findings in words: labels, directories and
    hints spelled out once more, on the records and tables alone. */
module SuiteMeaning {
  import opened Text
  import opened Reachability
  import opened InputClosure
  import opened TagGuard
  import opened GuardMeaning
  import opened SuiteGuard

  // ---- the words -----------------------------------------------------------------------------------

  predicate PlainPart(part: string) { part != "" && part != "." && part != ".." }

  /** The first plain part at or after a position. */
  predicate FirstPlain(parts: seq<string>, from: int, i: int) {
    0 <= from <= i < |parts| && PlainPart(parts[i]) && forall k :: from <= k < i ==> !PlainPart(parts[k])
  }

  predicate PlainAfter(parts: seq<string>, i: int) { exists j :: i < j < |parts| && 0 <= j && PlainPart(parts[j]) }

  /** The parts name something under directory `d`, with or without a leading `test`. */
  ghost predicate PartsUnder(parts: seq<string>, d: string) {
    (exists i :: StartsAt(parts, d, i)) || (exists h, i :: StartsPast(parts, d, h, i))
  }

  /** `d` is the first plain part, with another after it. */
  predicate StartsAt(parts: seq<string>, d: string, i: int) {
    FirstPlain(parts, 0, i) && parts[i] != "test" && parts[i] == d && PlainAfter(parts, i)
  }

  /** `test` is the first plain part, and `d` the next, with another after it. */
  predicate StartsPast(parts: seq<string>, d: string, h: int, i: int) {
    && FirstPlain(parts, 0, h) && parts[h] == "test"
    && FirstPlain(parts, h + 1, i) && parts[i] == d && PlainAfter(parts, i)
  }

  /** Some tracked file lies under `test/<d>/`, and no member of the shared group does. */
  ghost predicate OutOfGroup(g: Guard, d: string) {
    && '/' !in d && (exists file, rest :: file in g.tracked && file == "test/" + d + "/" + rest)
    && !exists path :: Holds(g.records, "//test:suite_inputs", path) && "test/" + d + "/" <= path
  }

  /** A literal that launches `task`, or names a path under such a directory. */
  ghost predicate Hints(g: Guard, value: string) {
    value == "task" || "task " <= value || exists d :: OutOfGroup(g, d) && PartsUnder(Split(value, '/'), d)
  }

  /** The module's own file, or a path derived for it, has such a literal in its source. */
  ghost predicate HasHint(g: Guard, name: string) {
    exists path, value :: && (path == "test/tests/" + name || (name in g.derived && path in g.derived[name]))
                          && path in g.literals && value in g.literals[path] && Hints(g, value)
  }

  /** A label the target must have among its inputs: kept by hand, or implied by an input. */
  ghost predicate MustHave(g: Guard, rule: string, l: string) {
    || (exists name :: TargetOf(rule, name) && name in g.demands.hand && l in g.demands.hand[name])
    || (exists input :: && input in g.demands.implied && BuiltFrom(g.records, rule, input)
                        && l in g.demands.implied[input])
  }

  ghost predicate InGroup(g: Guard, l: string) { BuiltFrom(g.records, "//test:suite_inputs", l) }

  ghost predicate IsGroup(g: Guard, members: set<string>) { forall l :: l in members <==> InGroup(g, l) }

  ghost predicate GroupKnown(g: Guard) {
    exists k :: 0 <= k < |g.records| && g.records[k].name == "//test:suite_inputs"
  }

  ghost predicate AnyTarget(g: Guard) { exists rule :: Accepts(g.records, rule) }

  /** When each finding is raised, in words. */
  ghost predicate GuardInWords(g: Guard, f: GuardFinding) {
    match f
    case OfCache(finding) =>
      InWords(Config(g.records, g.derived, g.uncachedModules, g.tracked,
                     if g.stage.Some? then g.stage.value.minimum else 0), finding)
    case UniverseOverride => g.stage.Some? && g.queried.Some? && g.queried.value != g.stage.value.universe
    case StageUnknown => g.stage.None?
    case Sweeper(rule) =>
      Accepts(g.records, rule) && exists name :: name in g.sweepers && CutsTo(name, rule)
    case GroupAbsent => AnyTarget(g) && !GroupKnown(g)
    case GroupFiles(missing) =>
      && AnyTarget(g) && GroupKnown(g) && missing != {}
      && forall l :: l in missing <==> l in g.demands.files && !InGroup(g, l)
    case GroupDirs(missing) =>
      && AnyTarget(g) && GroupKnown(g) && missing != {}
      && forall d :: d in missing <==> d in g.demands.dirs && !exists l :: InGroup(g, l) && "//test:" + d <= l
    case GroupFloor(count) =>
      && AnyTarget(g) && GroupKnown(g) && count < g.demands.floor
      && exists members: set<string> :: IsGroup(g, members) && count == |members|
    case HandUnknown(name) =>
      AnyTarget(g) && name in g.demands.hand && !exists rule :: Accepts(g.records, rule) && TargetOf(rule, name)
    case HandUnreviewed(rule) =>
      && Accepts(g.records, rule)
      && exists name :: TargetOf(rule, name) && name !in g.demands.hand && HasHint(g, name)
    case HandUndeclared(rule, missing) =>
      && Accepts(g.records, rule) && missing != {}
      && forall l :: l in missing <==> MustHave(g, rule, l) && !BuiltFrom(g.records, rule, l)
  }

  /** The target is the module's name without its last three characters. */
  ghost predicate CutsTo(name: string, rule: string) {
    (exists stem, suffix :: |suffix| == 3 && name == stem + suffix && rule == "//test:" + stem)
    || (|name| < 3 && rule == "//test:")
  }

  // ---- hints ------------------------------------------------------------------------------------------

  lemma {:induction false} PlainPartsFrom(parts: seq<string>, i: int)
    requires FirstPlain(parts, 0, i)
    ensures PlainParts(parts) == [parts[i]] + PlainParts(parts[i + 1..])
  {
    if i > 0 {
      assert forall k :: 0 <= k < |parts| - 1 ==> parts[1..][k] == parts[k + 1];
      PlainPartsFrom(parts[1..], i - 1);
      assert parts[1..][i..] == parts[i + 1..];
    }
  }

  lemma {:induction false} NoPlainParts(parts: seq<string>)
    ensures PlainParts(parts) == [] <==> forall k :: 0 <= k < |parts| ==> !PlainPart(parts[k])
  {
    if parts != [] {
      NoPlainParts(parts[1..]);
      assert forall k :: 0 <= k < |parts| - 1 ==> parts[1..][k] == parts[k + 1];
    }
  }

  lemma {:induction false} SomeFirstPlain(parts: seq<string>, from: nat, k: nat) returns (i: int)
    requires from <= k < |parts| && PlainPart(parts[k])
    ensures FirstPlain(parts, from, i)
    decreases k
  {
    if j :| from <= j < k && PlainPart(parts[j]) { i := SomeFirstPlain(parts, from, j); } else { i := k; }
  }

  lemma FirstPlainShift(parts: seq<string>, h: nat, i: int)
    requires h < |parts|
    ensures FirstPlain(parts, h + 1, i) <==> FirstPlain(parts[h + 1..], 0, i - h - 1)
  {
    var rest := parts[h + 1..];
    assert forall k :: 0 <= k < |rest| ==> rest[k] == parts[k + h + 1];
    assert forall k :: h + 1 <= k < |parts| ==> parts[k] == rest[k - h - 1];
  }

  lemma PlainAfterIs(parts: seq<string>, i: nat)
    requires i < |parts|
    ensures PlainAfter(parts, i) <==> PlainParts(parts[i + 1..]) != []
  {
    var rest := parts[i + 1..];
    NoPlainParts(rest);
    assert forall k :: 0 <= k < |rest| ==> rest[k] == parts[k + i + 1];
    assert forall k :: i < k < |parts| ==> parts[k] == rest[k - i - 1];
  }

  /** The plain parts past a leading `test`. */
  function Cut(p: seq<string>): seq<string> { if p != [] && p[0] == "test" then p[1..] else p }

  predicate CutStarts(p: seq<string>, d: string) { |Cut(p)| >= 2 && Cut(p)[0] == d }

  lemma CutAt(d: string, rest: seq<string>)
    requires d != "test"
    ensures CutStarts([d] + rest, d) <==> rest != []
  {
  }

  lemma CutPast(d: string, rest: seq<string>)
    ensures CutStarts(["test"] + ([d] + rest), d) <==> rest != []
  {
    assert Cut(["test"] + ([d] + rest)) == [d] + rest;
  }

  lemma AtGives(parts: seq<string>, d: string, i: int)
    requires StartsAt(parts, d, i)
    ensures CutStarts(PlainParts(parts), d)
  {
    PlainPartsFrom(parts, i);
    PlainAfterIs(parts, i);
    CutAt(d, PlainParts(parts[i + 1..]));
  }

  lemma PastParts(parts: seq<string>, h: int, i: int)
    requires FirstPlain(parts, 0, h) && FirstPlain(parts, h + 1, i)
    ensures PlainParts(parts) == [parts[h]] + ([parts[i]] + PlainParts(parts[i + 1..]))
  {
    var rest := parts[h + 1..];
    PlainPartsFrom(parts, h);
    FirstPlainShift(parts, h, i);
    PlainPartsFrom(rest, i - h - 1);
    assert rest[i - h..] == parts[i + 1..];
  }

  lemma PastGives(parts: seq<string>, d: string, h: int, i: int)
    requires StartsPast(parts, d, h, i)
    ensures CutStarts(PlainParts(parts), d)
  {
    PastParts(parts, h, i);
    PlainAfterIs(parts, i);
    CutPast(d, PlainParts(parts[i + 1..]));
  }

  lemma GivesAt(parts: seq<string>, d: string, h: int)
    requires FirstPlain(parts, 0, h) && parts[h] != "test" && CutStarts(PlainParts(parts), d)
    ensures StartsAt(parts, d, h)
  {
    PlainPartsFrom(parts, h);
    CutAt(parts[h], PlainParts(parts[h + 1..]));
    PlainAfterIs(parts, h);
  }

  lemma SecondPlain(parts: seq<string>, h: int) returns (i: int)
    requires FirstPlain(parts, 0, h) && PlainParts(parts[h + 1..]) != []
    ensures FirstPlain(parts, h + 1, i)
  {
    var rest := parts[h + 1..];
    NoPlainParts(rest);
    var m :| 0 <= m < |rest| && PlainPart(rest[m]);
    i := SomeFirstPlain(parts, h + 1, m + h + 1);
  }

  lemma GivesPast(parts: seq<string>, d: string, h: int)
    requires FirstPlain(parts, 0, h) && parts[h] == "test" && CutStarts(PlainParts(parts), d)
    ensures exists i :: StartsPast(parts, d, h, i)
  {
    PlainPartsFrom(parts, h);
    var tail := PlainParts(parts[h + 1..]);
    assert Cut(["test"] + tail) == tail;
    var i := SecondPlain(parts, h);
    PastParts(parts, h, i);
    CutPast(parts[i], PlainParts(parts[i + 1..]));
    PlainAfterIs(parts, i);
    assert Cut(["test"] + ([parts[i]] + PlainParts(parts[i + 1..])))[0] == parts[i];
    assert StartsPast(parts, d, h, i);
  }

  lemma GivesUnder(parts: seq<string>, d: string)
    requires CutStarts(PlainParts(parts), d)
    ensures PartsUnder(parts, d)
  {
    NoPlainParts(parts);
    var k :| 0 <= k < |parts| && PlainPart(parts[k]);
    var h := SomeFirstPlain(parts, 0, k);
    if parts[h] == "test" { GivesPast(parts, d, h); } else { GivesAt(parts, d, h); }
  }

  lemma UnderGives(parts: seq<string>, d: string)
    requires PartsUnder(parts, d)
    ensures CutStarts(PlainParts(parts), d)
  {
    if i :| StartsAt(parts, d, i) {
      AtGives(parts, d, i);
    } else {
      var h, i :| StartsPast(parts, d, h, i);
      PastGives(parts, d, h, i);
    }
  }

  lemma UnderIs(value: string, moved: set<string>)
    ensures |PathParts(value)| >= 2 && PathParts(value)[0] in moved <==>
              exists d :: d in moved && PartsUnder(Split(value, '/'), d)
  {
    var parts := Split(value, '/');
    assert PathParts(value) == Cut(PlainParts(parts));
    if |PathParts(value)| >= 2 { GivesUnder(parts, PathParts(value)[0]); }
    if d :| d in moved && PartsUnder(parts, d) { UnderGives(parts, d); }
  }

  lemma SplitThree(a: string, d: string, rest: string)
    requires '/' !in a && '/' !in d
    ensures Split(a + "/" + d + "/" + rest, '/') == [a, d] + Split(rest, '/')
  {
    assert a + "/" + d + "/" + rest == a + ['/'] + (d + ['/'] + rest);
    SplitConcat(a, d + ['/'] + rest, '/');
    SplitConcat(d, rest, '/');
    SplitPlain(a, '/');
    SplitPlain(d, '/');
  }

  lemma JoinThree(parts: seq<string>)
    requires |parts| >= 3
    ensures Join(parts, '/') == parts[0] + "/" + (parts[1] + "/" + Join(parts[2..], '/'))
  {
    var rest := parts[1..];
    assert rest[0] == parts[1] && rest[1..] == parts[2..];
    assert Join(rest, '/') == rest[0] + ['/'] + Join(rest[1..], '/');
  }

  lemma TestDirAt(d: string, rest: string)
    requires '/' !in d
    ensures TestDir("test/" + d + "/" + rest) == Some(d)
  {
    var file := "test" + "/" + d + "/" + rest;
    assert file == "test/" + d + "/" + rest && "test/" <= file;
    SplitThree("test", d, rest);
  }

  lemma TestDirGives(file: string) returns (rest: string)
    requires TestDir(file).Some?
    ensures '/' !in TestDir(file).value && file == "test/" + TestDir(file).value + "/" + rest
  {
    var parts := Split(file, '/');
    SplitFree(file, '/');
    JoinSplit(file, '/');
    FirstIsTest(file, parts);
    JoinThree(parts);
    rest := Join(parts[2..], '/');
    assert file == "test" + "/" + (parts[1] + "/" + rest);
  }

  lemma TestDirIs(file: string, d: string)
    ensures TestDir(file) == Some(d) <==> '/' !in d && exists rest :: file == "test/" + d + "/" + rest
  {
    if rest :| '/' !in d && file == "test/" + d + "/" + rest { TestDirAt(d, rest); }
    if TestDir(file) == Some(d) { var rest := TestDirGives(file); }
  }

  lemma FirstIsTest(file: string, parts: seq<string>)
    requires parts == Split(file, '/') && "test/" <= file && |parts| >= 1
    ensures parts[0] == "test"
  {
    var rest := file[5..];
    assert file == "test" + ['/'] + rest;
    SplitConcat("test", rest, '/');
    SplitPlain("test", '/');
  }

  lemma GroupPathsAre(g: Guard, path: string)
    ensures path in ClosurePaths(g.Group()) <==> Holds(g.records, "//test:suite_inputs", path)
  {
    HoldsIff(g.Core(), SUITE_INPUTS, path);
    if !g.HasGroup() { NoGroupNoPaths(g); }
  }

  lemma NoGroupNoPaths(g: Guard)
    requires !g.HasGroup()
    ensures g.Core().Closure(SUITE_INPUTS) == {}
  {
    var graph := RuleGraph(g.records);
    forall y | y in ReachSet(graph, SUITE_INPUTS) ensures false {
      ReachSetIff(graph, SUITE_INPUTS, y);
      ReachesIsNode(graph, SUITE_INPUTS, y);
    }
  }

  lemma MovedIs(g: Guard, d: string)
    ensures d in Moved(g) <==> OutOfGroup(g, d)
  {
    forall path ensures path in ClosurePaths(g.Group()) <==> Holds(g.records, "//test:suite_inputs", path) {
      GroupPathsAre(g, path);
    }
    forall file ensures TestDir(file) == Some(d) <==> '/' !in d && exists rest :: file == "test/" + d + "/" + rest {
      TestDirIs(file, d);
    }
    assert d in TestDirs(g.tracked) <==> exists file :: file in g.tracked && TestDir(file) == Some(d);
  }

  lemma HintIs(g: Guard, value: string)
    ensures IsHint(value, Moved(g)) <==> Hints(g, value)
  {
    UnderIs(value, Moved(g));
    forall d ensures d in Moved(g) <==> OutOfGroup(g, d) { MovedIs(g, d); }
  }

  lemma HintedIs(g: Guard, name: string)
    ensures g.Hinted(name, Moved(g)) <==> HasHint(g, name)
  {
    forall value ensures IsHint(value, Moved(g)) <==> Hints(g, value) { HintIs(g, value); }
    if g.Hinted(name, Moved(g)) {
      var path :| path in g.Reach(name) && g.HintAt(name, Moved(g), path);
      var value :| value in g.literals[path] && IsHint(value, Moved(g));
    }
    if HasHint(g, name) {
      var path, value :| && (path == "test/tests/" + name || (name in g.derived && path in g.derived[name]))
                         && path in g.literals && value in g.literals[path] && Hints(g, value);
      assert path in g.Reach(name) && g.HintAt(name, Moved(g), path);
    }
  }

  // ---- the findings ------------------------------------------------------------------------------------

  lemma AnyTargetIs(g: Guard)
    ensures g.HasAcceptance() <==> AnyTarget(g)
  {
    SomeAccepts(g.Core());
  }

  lemma GroupKnownIs(g: Guard)
    ensures g.HasGroup() <==> GroupKnown(g)
  {
    ByLabelKeys(g.records, SUITE_INPUTS);
  }

  lemma InGroupIs(g: Guard, l: string)
    ensures l in g.Group() <==> InGroup(g, l)
  {
    ReachIsBuiltFrom(g.records, SUITE_INPUTS, l);
    if !g.HasGroup() { NoGroupNoPaths(g); }
  }

  lemma GroupFilesIs(g: Guard, missing: set<string>)
    ensures g.HasAcceptance() && g.GroupRaised(GroupFiles(missing)) <==> GuardInWords(g, GroupFiles(missing))
  {
    AnyTargetIs(g);
    GroupKnownIs(g);
    forall l ensures l in g.Group() <==> InGroup(g, l) { InGroupIs(g, l); }
  }

  lemma GroupDirsIs(g: Guard, missing: set<string>)
    ensures g.HasAcceptance() && g.GroupRaised(GroupDirs(missing)) <==> GuardInWords(g, GroupDirs(missing))
  {
    AnyTargetIs(g);
    GroupKnownIs(g);
    forall l ensures l in g.Group() <==> InGroup(g, l) { InGroupIs(g, l); }
    forall d
      ensures d in MissingDirs(g.demands.dirs, g.Group())
         <==> d in g.demands.dirs && !exists l :: InGroup(g, l) && "//test:" + d <= l
    {
    }
  }

  lemma GroupIs(g: Guard)
    ensures IsGroup(g, g.Group())
    ensures forall members: set<string> :: IsGroup(g, members) ==> members == g.Group()
  {
    forall l ensures l in g.Group() <==> InGroup(g, l) { InGroupIs(g, l); }
  }

  lemma GroupFloorIs(g: Guard, count: nat)
    ensures g.HasAcceptance() && g.GroupRaised(GroupFloor(count)) <==> GuardInWords(g, GroupFloor(count))
  {
    AnyTargetIs(g);
    GroupKnownIs(g);
    GroupIs(g);
  }

  lemma RequiredIs(g: Guard, rule: string, l: string)
    requires Accepts(g.records, rule)
    ensures l in g.Required(ModuleOf(rule), g.Core().Closure(rule)) <==> MustHave(g, rule, l)
  {
    var name := ModuleOf(rule);
    forall n ensures TargetOf(rule, n) <==> n == name { ModuleIff(rule, n); }
    forall input ensures input in g.Core().Closure(rule) <==> BuiltFrom(g.records, rule, input) {
      ReachIsBuiltFrom(g.records, rule, input);
    }
  }

  lemma HandUndeclaredIs(g: Guard, rule: string, missing: set<string>)
    ensures g.HandRaised(HandUndeclared(rule, missing)) <==> GuardInWords(g, HandUndeclared(rule, missing))
  {
    AcceptsIff(g.Core(), rule);
    if Accepts(g.records, rule) {
      var lacking := g.Required(ModuleOf(rule), g.Core().Closure(rule)) - g.Core().Closure(rule);
      forall l ensures l in lacking <==> MustHave(g, rule, l) && !BuiltFrom(g.records, rule, l) {
        RequiredIs(g, rule, l);
        ReachIsBuiltFrom(g.records, rule, l);
      }
    }
  }

  lemma HandUnreviewedIs(g: Guard, rule: string)
    ensures g.HandRaised(HandUnreviewed(rule)) <==> GuardInWords(g, HandUnreviewed(rule))
  {
    AcceptsIff(g.Core(), rule);
    if Accepts(g.records, rule) {
      forall n ensures TargetOf(rule, n) <==> n == ModuleOf(rule) { ModuleIff(rule, n); }
      HintedIs(g, ModuleOf(rule));
    }
  }

  lemma CutsIs(name: string, rule: string)
    ensures rule == SweptBy(name) <==> CutsTo(name, rule)
  {
    if |name| >= 3 {
      var stem, suffix := name[..|name| - 3], name[|name| - 3..];
      assert name == stem + suffix;
    }
    if stem, suffix :| |suffix| == 3 && name == stem + suffix && rule == "//test:" + stem {
      assert name[..|name| - 3] == stem;
    }
  }

  lemma SweeperIs(g: Guard, rule: string)
    ensures g.SweepRaised(Sweeper(rule)) <==> GuardInWords(g, Sweeper(rule))
  {
    AcceptsIff(g.Core(), rule);
    forall name ensures rule == SweptBy(name) <==> CutsTo(name, rule) { CutsIs(name, rule); }
  }

  lemma AcceptsSome(g: Guard, rule: string)
    requires g.Core().IsAcceptance(rule)
    ensures g.HasAcceptance()
  {
    assert rule in g.Core().Acceptance();
  }

  /** Every finding of `check_tags`, in words. */
  lemma GuardRaisedInWords(g: Guard, f: GuardFinding)
    ensures g.Raised(f) <==> GuardInWords(g, f)
  {
    match f
    case OfCache(finding) => RaisedInWords(g.Core(), finding);
    case UniverseOverride =>
    case StageUnknown =>
    case Sweeper(rule) => SweeperIs(g, rule);
    case GroupAbsent =>
      AnyTargetIs(g);
      GroupKnownIs(g);
    case GroupFiles(missing) => GroupFilesIs(g, missing);
    case GroupDirs(missing) => GroupDirsIs(g, missing);
    case GroupFloor(count) => GroupFloorIs(g, count);
    case HandUnknown(name) =>
      AnyTargetIs(g);
      ModulesIff(g.Core(), name);
    case HandUnreviewed(rule) =>
      HandUnreviewedIs(g, rule);
      if g.Core().IsAcceptance(rule) { AcceptsSome(g, rule); }
    case HandUndeclared(rule, missing) =>
      HandUndeclaredIs(g, rule, missing);
      if g.Core().IsAcceptance(rule) { AcceptsSome(g, rule); }
  }
}

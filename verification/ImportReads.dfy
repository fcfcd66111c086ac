/** `named_paths_by_module` of the tag guard: the paths each acceptance module is charged
    with, its own and those of every file it reaches by import. */
module ImportReads {
  import opened Text
  import opened Reachability
  import opened InputClosure

  /** One Python file as the derivation reads it: the repo paths it names and the dotted
      names it imports. */
  datatype Source = Source(named: set<string>, imports: set<string>)

  const TEST_PREFIX := "test/"
  const INIT := "__init__"
  const MODULE_DIR := "test/tests/"

  function RemovePrefix(s: string, prefix: string): string {
    if prefix <= s then s[|prefix|..] else s
  }

  function RemoveSuffix(s: string, suffix: string): string {
    if EndsWith(s, suffix) then s[..|s| - |suffix|] else s
  }

  /** The path segments a file under `test/` is imported by: those of its directory for an
      `__init__.py`, else with its own name. */
  function Segments(path: string): seq<string> {
    DropInit(Split(RemoveSuffix(RemovePrefix(path, TEST_PREFIX), ".py"), '/'))
  }

  function DropInit(all: seq<string>): seq<string>
    requires all != []
  {
    if all[|all| - 1] == INIT then all[..|all| - 1] else all
  }

  /** `_dotted_names`: how `import` can spell one file under `test/`. */
  function DottedNames(path: string): set<string> {
    var parts := Segments(path);
    (if parts != [] then {Join(parts, '.')} else {})
    + (if |parts| > 1 && parts[0] == "src" then {Join(parts[1..], '.')} else {})
    + (if |parts| == 2 && parts[0] == "tests" then {parts[1]} else {})
  }

  lemma StripEnds(inner: string)
    ensures RemoveSuffix(RemovePrefix(TEST_PREFIX + inner + ".py", TEST_PREFIX), ".py") == inner
  {
    assert RemovePrefix(TEST_PREFIX + inner + ".py", TEST_PREFIX) == inner + ".py";
  }

  lemma JoinedSegments(all: seq<string>)
    requires all != [] && forall k :: 0 <= k < |all| ==> '/' !in all[k]
    ensures Segments(TEST_PREFIX + Join(all, '/') + ".py") == DropInit(all)
  {
    StripEnds(Join(all, '/'));
    SplitJoin(all, '/');
  }

  /** Reading a module's segments undoes joining them. */
  lemma SegmentsRead(segments: seq<string>)
    requires segments != [] && segments[|segments| - 1] != INIT
    requires forall k :: 0 <= k < |segments| ==> '/' !in segments[k]
    ensures Segments(TEST_PREFIX + Join(segments, '/') + ".py") == segments
  {
    JoinedSegments(segments);
  }

  /** A package's `__init__.py` reads as the package. */
  lemma PackageSegmentsRead(segments: seq<string>)
    requires forall k :: 0 <= k < |segments| ==> '/' !in segments[k]
    ensures Segments(TEST_PREFIX + Join(segments + [INIT], '/') + ".py") == segments
  {
    JoinedSegments(segments + [INIT]);
    assert (segments + [INIT])[..|segments|] == segments;
  }

  /** `posixpath.dirname` of a path with no doubled slash. */
  function DirName(path: string): string {
    var parts := Split(path, '/');
    Join(parts[..|parts| - 1], '/')
  }

  predicate IsConftest(path: string) { EndsWith(path, "conftest.py") }

  /** pytest loads a `conftest.py` for every module under its directory. */
  predicate Governs(conftest: string, path: string) { DirName(conftest) + "/" <= path }

  function Spelled(path: string): map<string, string> { map name | name in DottedNames(path) :: path }

  /** The acceptance modules by basename, the importable helpers by path, and the order in
      which the files are listed. */
  datatype Suite = Suite(sources: map<string, Source>, helpers: map<string, Source>, order: seq<string>) {

    function Siblings(): map<string, Source> {
      map path | path in (set name | name in sources :: MODULE_DIR + name) :: sources[path[|MODULE_DIR|..]]
    }

    function Files(): map<string, Source> { helpers + Siblings() }

    ghost predicate Valid() { forall path :: path in order <==> path in Files() }

    /** Which file a dotted name resolves to: the last listed one that can be spelled so. */
    function ByName(): map<string, string> { ByNameUpTo(|order|) }

    function ByNameUpTo(n: nat): map<string, string>
      requires n <= |order|
    {
      if n == 0 then map[]
      else
        ByNameUpTo(n - 1) + Spelled(order[n - 1])
    }

    /** The files a file imports. */
    function Imported(path: string): set<string>
      requires path in Files()
    {
      set name | name in Files()[path].imports && name in ByName() :: ByName()[name]
    }

    /** `helper_edges`: the import graph, self-imports dropped. */
    function ImportGraph(): Graph {
      map path | path in Files() :: Imported(path) - {path}
    }

    function Conftests(path: string): set<string> {
      set c | c in helpers && IsConftest(c) && Governs(c, path)
    }

    /** The files a module is charged with besides itself: its governing conftests, and
        everything reachable by import from it or from one of them. */
    ghost predicate Charged(path: string, file: string) {
      && file != path
      && (|| file in Conftests(path)
          || Reaches(ImportGraph(), path, file)
          || exists c :: c in Conftests(path) && Reaches(ImportGraph(), c, file))
    }

    ghost function ChargedFiles(path: string): set<string> {
      set file | file in Files() && Charged(path, file)
    }

    /** A module's reads: its own named paths, every charged file, and the paths those files
        name, the bare root excepted. */
    ghost function Reads(name: string): set<string>
      requires name in sources
    {
      var path := MODULE_DIR + name;
      sources[name].named + ChargedFiles(path)
      + set file, p | file in ChargedFiles(path) && p in Files()[file].named && p != "" :: p
    }

    lemma ModuleIsFile(name: string)
      requires name in sources
      ensures MODULE_DIR + name in Files() && Files()[MODULE_DIR + name] == sources[name]
    {
      assert (MODULE_DIR + name)[|MODULE_DIR|..] == name;
    }

    lemma {:induction false} ByNameIsFile(n: nat)
      requires Valid() && n <= |order|
      ensures forall name :: name in ByNameUpTo(n) ==> ByNameUpTo(n)[name] in Files()
    {
      if n > 0 {
        ByNameIsFile(n - 1);
        assert order[n - 1] in order;
      }
    }

    lemma ImportsAreFiles()
      requires Valid()
      ensures forall z, y :: z in Files() && y in Imported(z) ==> y in Files()
    {
      ByNameIsFile(|order|);
    }
  }


  ghost predicate FromSeeds(g: Graph, seeds: set<string>, y: string) {
    y in seeds || exists s :: s in seeds && Reaches(g, s, y)
  }

  /** The worklist: exactly the module and what the seeds reach without passing through it. */
  method ImportWalk(g: Graph, path: string, seeds: seq<string>) returns (seen: set<string>)
    requires path in g && forall y :: y in seeds ==> y in g
    requires forall z, y :: z in g && y in g[z] ==> y in g
    ensures seen <= g.Keys
    ensures forall y :: y in seen <==> y == path || FromSeeds(g - {path}, (set s | s in seeds), y)
  {
    seen := {path};
    var queue := seeds;
    ghost var all := set s | s in seeds;
    while queue != []
      invariant path in seen && seen <= g.Keys
      invariant forall y :: y in queue ==> y in g
      invariant forall y :: y in seeds ==> y in seen || y in queue
      invariant forall y :: y in seen || y in queue ==> y == path || FromSeeds(g - {path}, all, y)
      invariant forall z, y :: z in seen && z != path && y in g[z] ==> y in seen || y in queue
      decreases g.Keys - seen, |queue|
    {
      var helper := queue[|queue| - 1];
      ghost var before := queue;
      queue := queue[..|queue| - 1];
      assert before == queue + [helper];
      assert helper in before;
      if helper !in seen {
        seen := seen + {helper};
        forall y | y in g[helper] ensures FromSeeds(g - {path}, all, y) { SeedStep(g - {path}, all, helper, y); }
        var more := Elements(g[helper]);
        queue := queue + more;
      }
    }
    SeedsStay(g - {path}, all, seen);
  }

  lemma SeedStep(g: Graph, seeds: set<string>, helper: string, y: string)
    requires FromSeeds(g, seeds, helper) && y in Succ(g, helper)
    ensures FromSeeds(g, seeds, y)
  {
    EdgeReaches(g, helper, y);
    if helper !in seeds {
      var s :| s in seeds && Reaches(g, s, helper);
      ReachesTransitive(g, s, helper, y);
    }
  }

  /** A set that holds the seeds and is closed under edges holds all they reach. */
  lemma SeedsStay(g: Graph, seeds: set<string>, seen: set<string>)
    requires seeds <= seen && forall z :: z in seen ==> Succ(g, z) <= seen
    ensures forall y :: FromSeeds(g, seeds, y) ==> y in seen
  {
    forall y | FromSeeds(g, seeds, y) ensures y in seen {
      if y !in seeds {
        var s :| s in seeds && Reaches(g, s, y);
        ClosedContainsReach(g, s, seen);
        ReachSetIff(g, s, y);
      }
    }
  }

  /** What is reached around a file is reached. */
  lemma FromSeedsAround(g: Graph, path: string, seeds: set<string>, y: string)
    requires FromSeeds(g - {path}, seeds, y)
    ensures FromSeeds(g, seeds, y)
  {
    if y !in seeds {
      var s :| s in seeds && Reaches(g - {path}, s, y);
      var p :| IsPath(g - {path}, p) && p[0] == s && p[|p| - 1] == y;
      assert IsPath(g, p);
    }
  }

  /** The files one module is charged with. */
  method ImportClosure(suite: Suite, name: string) returns (imported: set<string>)
    requires suite.Valid() && name in suite.sources
    ensures imported == suite.ChargedFiles(MODULE_DIR + name)
  {
    var path := MODULE_DIR + name;
    var g := suite.ImportGraph();
    suite.ModuleIsFile(name);
    suite.ImportsAreFiles();
    var direct := Elements(suite.Imported(path));
    var governing := Elements(suite.Conftests(path));
    var seen := ImportWalk(g, path, direct + governing);
    ghost var seeds := set s | s in direct + governing;
    assert seeds == suite.Imported(path) + suite.Conftests(path);
    WalkIsExact(suite, path, seeds, seen);
    imported := seen - {path};
  }

  /** What is reached around the module from its imports and conftests is what it is charged
      with. */
  lemma WalkIsExact(suite: Suite, path: string, seeds: set<string>, seen: set<string>)
    requires suite.Valid() && path in suite.Files() && seen <= suite.Files().Keys
    requires seeds == suite.Imported(path) + suite.Conftests(path)
    requires forall y :: y in seen <==> y == path || FromSeeds(suite.ImportGraph() - {path}, seeds, y)
    ensures seen - {path} == suite.ChargedFiles(path)
  {
    var g := suite.ImportGraph();
    forall y | y in seen && y != path ensures suite.Charged(path, y) {
      FromSeedsAround(g, path, seeds, y);
      SeedsCharged(suite, path, seeds, y);
    }
    WalkIsClosed(g, path, seeds, seen);
    WalkIsComplete(suite, path, seen);
  }

  lemma WalkIsClosed(g: Graph, path: string, seeds: set<string>, seen: set<string>)
    requires path in g && g[path] <= seeds
    requires forall y :: y in seen <==> y == path || FromSeeds(g - {path}, seeds, y)
    ensures forall z :: z in seen ==> Succ(g, z) <= seen
  {
    forall z | z in seen ensures Succ(g, z) <= seen {
      forall y | y in Succ(g, z) && z != path ensures y in seen { SeedStep(g - {path}, seeds, z, y); }
    }
  }

  /** What the direct imports and the conftests reach is what the module is charged with. */
  lemma SeedsCharged(suite: Suite, path: string, seeds: set<string>, y: string)
    requires path in suite.Files() && seeds <= suite.Imported(path) + suite.Conftests(path)
    requires y != path && FromSeeds(suite.ImportGraph(), seeds, y)
    ensures suite.Charged(path, y)
  {
    var g := suite.ImportGraph();
    var s := if y in seeds then y else var r :| r in seeds && Reaches(g, r, y); r;
    if s in suite.Conftests(path) {
    } else if s != path {
      EdgeReaches(g, path, s);
      if s != y { ReachesTransitive(g, path, s, y); }
    }
  }

  lemma WalkIsComplete(suite: Suite, path: string, seen: set<string>)
    requires suite.Valid() && path in suite.Files() && path in seen && seen <= suite.Files().Keys
    requires forall y :: y in seen ==> y == path || suite.Charged(path, y)
    requires Succ(suite.ImportGraph(), path) <= seen && suite.Conftests(path) <= seen
    requires forall z :: z in seen ==> Succ(suite.ImportGraph(), z) <= seen
    ensures seen - {path} == suite.ChargedFiles(path)
  {
    var g := suite.ImportGraph();
    forall y | y in suite.ChargedFiles(path) ensures y in seen {
      if y in suite.Conftests(path) {
      } else if Reaches(g, path, y) {
        ClosedContainsReach(g, path, seen);
        ReachSetIff(g, path, y);
      } else {
        var c :| c in suite.Conftests(path) && Reaches(g, c, y);
        ClosedContainsReach(g, c, seen);
        ReachSetIff(g, c, y);
      }
    }
  }

  /** The union of the charged files' named paths, added one file after another. */
  method ReadsOf(suite: Suite, name: string, imported: set<string>) returns (charged: set<string>)
    requires name in suite.sources && imported == suite.ChargedFiles(MODULE_DIR + name)
    ensures charged == suite.Reads(name)
  {
    charged := suite.sources[name].named + imported;
    var todo := imported;
    while todo != {}
      invariant todo <= imported
      invariant charged == suite.sources[name].named + imported
                         + set h, p | h in imported - todo && p in suite.Files()[h].named && p != "" :: p
      decreases todo
    {
      var helper :| helper in todo;
      todo := todo - {helper};
      charged := charged + set p | p in suite.Files()[helper].named && p != "";
    }
    assert imported - todo == imported;
  }

  ghost predicate RowsRight(suite: Suite, result: map<string, set<string>>) {
    forall name :: name in result ==> name in suite.sources && result[name] == suite.Reads(name)
  }


  /** `named_paths_by_module`: for every module read, exactly its charged reads, whatever
      the import graph, cycles back to the module included. */
  method NamedPathsByModule(suite: Suite) returns (result: map<string, set<string>>)
    requires suite.Valid()
    ensures result.Keys == suite.sources.Keys
    ensures forall name :: name in result ==> result[name] == suite.Reads(name)
  {
    result := map[];
    var todo := suite.sources.Keys;
    while todo != {}
      invariant todo <= suite.sources.Keys && result.Keys == suite.sources.Keys - todo && RowsRight(suite, result)
      decreases todo
    {
      var name :| name in todo;
      todo := todo - {name};
      var imported := ImportClosure(suite, name);
      var charged := ReadsOf(suite, name, imported);
      result := result[name := charged];
    }
  }
}

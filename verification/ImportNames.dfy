/** Which import spellings reach which file, which modules a conftest governs, and which edges the
    import graph has, in words. */
module ImportNames {
  import opened Text
  import opened Reachability
  import opened ImportReads

  ghost predicate SlashFree(segs: seq<string>) { forall k :: 0 <= k < |segs| ==> '/' !in segs[k] }

  /** How a file or package with these segments under `test/` can be imported: from `test/`; from
      `test/src` when it lies there; by its bare name when it lies directly in `test/tests`. */
  predicate SpelledBy(segs: seq<string>, name: string) {
    || (segs != [] && name == Join(segs, '.'))
    || (|segs| > 1 && segs[0] == "src" && name == Join(segs[1..], '.'))
    || (|segs| == 2 && segs[0] == "tests" && name == segs[1])
  }

  lemma NamesOf(path: string, segs: seq<string>, name: string)
    requires Segments(path) == segs
    ensures name in DottedNames(path) <==> SpelledBy(segs, name)
  {
  }

  lemma ModuleNames(segs: seq<string>, name: string)
    requires segs != [] && segs[|segs| - 1] != "__init__" && SlashFree(segs)
    ensures name in DottedNames("test/" + Join(segs, '/') + ".py") <==> SpelledBy(segs, name)
  {
    SegmentsRead(segs);
    NamesOf("test/" + Join(segs, '/') + ".py", segs, name);
  }

  lemma PackageNames(segs: seq<string>, name: string)
    requires SlashFree(segs)
    ensures name in DottedNames("test/" + Join(segs + ["__init__"], '/') + ".py") <==> SpelledBy(segs, name)
  {
    PackageSegmentsRead(segs);
    NamesOf("test/" + Join(segs + ["__init__"], '/') + ".py", segs, name);
  }

  /** A conftest governs exactly the files under its own directory. */
  lemma GovernsIs(dir: string, base: string, path: string)
    requires '/' !in base
    ensures Governs(dir + "/" + base, path) <==> dir + "/" <= path
    ensures IsConftest(dir + "/" + base) <==> |base| >= 11 && base[|base| - 11..] == "conftest.py"
  {
    var conftest := dir + ['/'] + base;
    assert conftest == dir + "/" + base;
    SplitConcat(dir, base, '/');
    SplitPlain(base, '/');
    var parts := Split(conftest, '/');
    assert parts[..|parts| - 1] == Split(dir, '/');
    JoinSplit(dir, '/');
    ConftestTail(dir, base);
  }

  lemma ConftestTail(dir: string, base: string)
    requires '/' !in base
    ensures EndsWith(dir + "/" + base, "conftest.py") <==> |base| >= 11 && base[|base| - 11..] == "conftest.py"
  {
    var s := dir + "/" + base;
    if |base| >= 11 {
      assert s[|s| - 11..] == base[|base| - 11..];
    } else if |s| >= 11 {
      assert s[|s| - 11..][10 - |base|] == '/';
    }
  }

  /** The listed files a name can spell, by position. */
  function Spellers(suite: Suite, name: string): set<int> {
    set k | 0 <= k < |suite.order| && name in DottedNames(suite.order[k])
  }

  ghost predicate LastIn(can: set<int>, n: nat, i: int) {
    i in can && 0 <= i < n && forall j :: i < j < n ==> j !in can
  }

  /** The name resolves to the last listed file it can spell. */
  ghost predicate ResolvesAt(suite: Suite, name: string, i: int) { LastIn(Spellers(suite, name), |suite.order|, i) }

  lemma ByNameStep(suite: Suite, n: nat, name: string)
    requires 0 < n <= |suite.order|
    ensures Look(suite.ByNameUpTo(n), name)
         == if n - 1 in Spellers(suite, name) then Some(suite.order[n - 1]) else Look(suite.ByNameUpTo(n - 1), name)
  {
  }

  /** What looking a name up among the first files says of them. */
  ghost predicate Known(order: seq<string>, can: set<int>, n: nat, look: Option<string>, i: int) {
    match look
    case None => forall j :: 0 <= j < n ==> j !in can
    case Some(path) => LastIn(can, n, i) && i < |order| && path == order[i]
  }

  lemma KnownStep(order: seq<string>, can: set<int>, n: nat, look: Option<string>, look': Option<string>, i: int)
    returns (i': int)
    requires 0 < n <= |order| && Known(order, can, n - 1, look, i)
    requires look' == if n - 1 in can then Some(order[n - 1]) else look
    ensures Known(order, can, n, look', i')
  {
    i' := if n - 1 in can then n - 1 else i;
  }

  /** The answers to one name as the files are listed, one by one. */
  ghost predicate Answers(order: seq<string>, can: set<int>, looks: seq<Option<string>>) {
    && |looks| == |order| + 1 && looks[0] == None
    && forall k :: 0 <= k < |order| ==> AnswerStep(order, can, looks, k)
  }

  ghost predicate AnswerStep(order: seq<string>, can: set<int>, looks: seq<Option<string>>, k: int)
    requires 0 <= k < |order| && |looks| == |order| + 1
  {
    looks[k + 1] == if k in can then Some(order[k]) else looks[k]
  }

  lemma {:induction false} AnswersKnown(order: seq<string>, can: set<int>, looks: seq<Option<string>>, n: nat)
    returns (i: int)
    requires Answers(order, can, looks) && n <= |order|
    ensures Known(order, can, n, looks[n], i)
  {
    if n == 0 {
      i := 0;
    } else {
      i := AnswersKnown(order, can, looks, n - 1);
      assert AnswerStep(order, can, looks, n - 1);
      i := KnownStep(order, can, n, looks[n - 1], looks[n], i);
    }
  }

  lemma ByNameAnswers(suite: Suite, name: string) returns (looks: seq<Option<string>>)
    ensures Answers(suite.order, Spellers(suite, name), looks) && looks[|suite.order|] == Look(suite.ByName(), name)
  {
    var n := |suite.order|;
    looks := seq(n + 1, k requires 0 <= k <= n => Look(suite.ByNameUpTo(k), name));
    forall k | 0 <= k < n ensures AnswerStep(suite.order, Spellers(suite, name), looks, k) {
      ByNameStep(suite, k + 1, name);
    }
  }

  lemma ByNameIs(suite: Suite, name: string) returns (i: int)
    ensures Known(suite.order, Spellers(suite, name), |suite.order|, Look(suite.ByName(), name), i)
  {
    var looks := ByNameAnswers(suite, name);
    i := AnswersKnown(suite.order, Spellers(suite, name), looks, |suite.order|);
  }

  lemma LastOnce(order: seq<string>, can: set<int>, n: nat, look: Option<string>, k: int, i: int)
    requires Known(order, can, n, look, k) && LastIn(can, n, i) && n <= |order|
    ensures look == Some(order[i])
  {
    assert k == i || k < i || i < k;
  }

  lemma ResolvesOnce(suite: Suite, name: string, i: int)
    requires ResolvesAt(suite, name, i)
    ensures Look(suite.ByName(), name) == Some(suite.order[i])
  {
    var k := ByNameIs(suite, name);
    LastOnce(suite.order, Spellers(suite, name), |suite.order|, Look(suite.ByName(), name), k, i);
  }

  /** The imports of a file: the files its dotted names resolve to. */
  ghost predicate ImportsFile(suite: Suite, path: string, y: string)
    requires path in suite.Files()
  {
    exists name, i :: && name in suite.Files()[path].imports && ResolvesAt(suite, name, i)
                      && y == suite.order[i]
  }

  lemma ImportGives(suite: Suite, path: string, y: string, name: string)
    requires path in suite.Files() && name in suite.Files()[path].imports && Look(suite.ByName(), name) == Some(y)
    ensures ImportsFile(suite, path, y)
  {
    var i := ByNameIs(suite, name);
    assert ResolvesAt(suite, name, i);
  }

  lemma ImportsAre(suite: Suite, path: string, y: string)
    requires path in suite.Files()
    ensures y in suite.Imported(path) <==> ImportsFile(suite, path, y)
    ensures y in Succ(suite.ImportGraph(), path) <==> y != path && ImportsFile(suite, path, y)
  {
    var names, table := suite.Files()[path].imports, suite.ByName();
    if y in suite.Imported(path) {
      var name :| name in names && name in table && table[name] == y;
      ImportGives(suite, path, y, name);
    }
    if ImportsFile(suite, path, y) {
      var name, i :| name in names && ResolvesAt(suite, name, i) && y == suite.order[i];
      ResolvesOnce(suite, name, i);
    }
  }

  /** What the suite's files are: the helpers, and every module under `test/tests/`. */
  lemma FilesAre(suite: Suite, path: string)
    ensures path in suite.Files()
       <==> path in suite.helpers || exists name :: name in suite.sources && path == "test/tests/" + name
    ensures forall name :: name in suite.sources ==>
              "test/tests/" + name in suite.Files() && suite.Files()["test/tests/" + name] == suite.sources[name]
  {
    forall name | name in suite.sources
      ensures "test/tests/" + name in suite.Files() && suite.Files()["test/tests/" + name] == suite.sources[name]
    {
      suite.ModuleIsFile(name);
    }
  }

  // ---- what a module is charged with -------------------------------------------------------------------

  /** Each file of the chain imports the next, which is another one. */
  ghost predicate ImportChain(suite: Suite, p: seq<string>) {
    |p| >= 2 && forall i :: 0 <= i < |p| - 1 ==> ImportStep(suite, p[i], p[i + 1])
  }

  ghost predicate ImportStep(suite: Suite, x: string, y: string) {
    x in suite.Files() && y != x && ImportsFile(suite, x, y)
  }

  ghost predicate ReachedFrom(suite: Suite, x: string, y: string) {
    exists p :: ImportChain(suite, p) && p[0] == x && p[|p| - 1] == y
  }

  lemma StepIs(suite: Suite, x: string, y: string)
    ensures ImportStep(suite, x, y) <==> y in Succ(suite.ImportGraph(), x)
  {
    if x in suite.Files() { ImportsAre(suite, x, y); }
  }

  lemma ReachedIs(suite: Suite, x: string, y: string)
    ensures Reaches(suite.ImportGraph(), x, y) <==> ReachedFrom(suite, x, y)
  {
    var g := suite.ImportGraph();
    if Reaches(g, x, y) {
      var p :| IsPath(g, p) && p[0] == x && p[|p| - 1] == y;
      forall i | 0 <= i < |p| - 1 ensures ImportStep(suite, p[i], p[i + 1]) { StepIs(suite, p[i], p[i + 1]); }
      assert ImportChain(suite, p);
    }
    if ReachedFrom(suite, x, y) {
      var p :| ImportChain(suite, p) && p[0] == x && p[|p| - 1] == y;
      forall i | 0 <= i < |p| - 1 ensures p[i + 1] in Succ(g, p[i]) { StepIs(suite, p[i], p[i + 1]); }
      assert IsPath(g, p);
    }
  }

  /** A conftest among the helpers in a directory above the file. */
  ghost predicate ConftestOf(suite: Suite, c: string, path: string) {
    && c in suite.helpers
    && exists dir, base :: && c == dir + "/" + base && '/' !in base && |base| >= 11
                           && base[|base| - 11..] == "conftest.py" && dir + "/" <= path
  }

  lemma {:induction false} CutAtSlash(c: string) returns (dir: string, base: string)
    requires '/' in c
    ensures c == dir + "/" + base && '/' !in base
  {
    var last := c[|c| - 1];
    var init := c[..|c| - 1];
    assert c == init + [last];
    if last == '/' {
      dir, base := init, "";
    } else {
      dir, base := CutAtSlash(init);
      base := base + [last];
    }
  }

  lemma SameCut(dir: string, base: string, d: string, b: string)
    requires dir + "/" + base == d + "/" + b && '/' !in base && '/' !in b
    ensures d == dir && b == base
  {
    LastPart(dir, base);
    LastPart(d, b);
    assert dir == (dir + "/" + base)[..|dir|] && d == (d + "/" + b)[..|d|];
  }

  lemma LastPart(dir: string, base: string)
    requires '/' !in base
    ensures var parts := Split(dir + "/" + base, '/'); parts[|parts| - 1] == base
  {
    assert dir + "/" + base == dir + ['/'] + base;
    SplitConcat(dir, base, '/');
    SplitPlain(base, '/');
  }

  lemma ConftestIs(suite: Suite, c: string, path: string)
    requires !("/" <= path)
    ensures c in suite.Conftests(path) <==> ConftestOf(suite, c, path)
  {
    if '/' in c {
      var dir, base := CutAtSlash(c);
      GovernsIs(dir, base, path);
      forall d, b | c == d + "/" + b && '/' !in b ensures d == dir && b == base { SameCut(dir, base, d, b); }
    } else {
      SplitPlain(c, '/');
      assert DirName(c) == "";
    }
  }

  /** The files a module is charged with: those it reaches by import, the conftests over it, and
      what these reach. */
  ghost predicate ChargedInWords(suite: Suite, path: string, file: string) {
    && file in suite.Files() && file != path
    && (|| ReachedFrom(suite, path, file) || ConftestOf(suite, file, path)
        || exists c :: ConftestOf(suite, c, path) && ReachedFrom(suite, c, file))
  }

  lemma ChargedIs(suite: Suite, path: string, file: string)
    requires !("/" <= path)
    ensures file in suite.ChargedFiles(path) <==> ChargedInWords(suite, path, file)
  {
    ReachedIs(suite, path, file);
    forall c ensures c in suite.Conftests(path) <==> ConftestOf(suite, c, path) {
      ConftestIs(suite, c, path);
    }
    forall c ensures Reaches(suite.ImportGraph(), c, file) <==> ReachedFrom(suite, c, file) {
      ReachedIs(suite, c, file);
    }
  }

  /** What `named_paths_by_module` gives a module: the paths it names, the files it is charged
      with, and the paths those name, but for the root. */
  lemma ReadsInWords(suite: Suite, name: string, p: string)
    requires name in suite.sources
    ensures p in suite.Reads(name) <==>
              || p in suite.sources[name].named || ChargedInWords(suite, "test/tests/" + name, p)
              || exists file :: && ChargedInWords(suite, "test/tests/" + name, file)
                                && p in suite.Files()[file].named && p != ""
  {
    var path := "test/tests/" + name;
    assert path[0] == 't';
    forall file ensures file in suite.ChargedFiles(path) <==> ChargedInWords(suite, path, file) {
      ChargedIs(suite, path, file);
    }
  }
}

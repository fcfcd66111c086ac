/** Which path an expression evaluates to: the laws of every evaluating form, with the names the
    evaluator knows spelled out. Each form is told in terms of `/` and `.parent`, and those two in
    terms of the characters of the path. */
module EvaluatorValues {
  import opened Text
  import opened Paths
  import opened PathEvaluator

  // ---- the two primitive forms --------------------------------------------------------------------

  function Slash(e: Expr, s: string): Expr { BinOp(0, e, Div, Str(0, s)) }

  function Up(e: Expr): Expr { Attribute(0, e, "parent") }

  function SlashEach(e: Expr, segs: seq<string>): Expr
    decreases |segs|
  {
    if segs == [] then e else Slash(SlashEach(e, segs[..|segs| - 1]), segs[|segs| - 1])
  }

  function UpTimes(e: Expr, n: nat): Expr { if n == 0 then e else Up(UpTimes(e, n - 1)) }

  /** A path with one more segment, in characters. */
  function Below(path: string, seg: string): string { if path == "" then seg else path + "/" + seg }

  lemma {:induction false} JoinSnoc(segs: seq<string>, seg: string)
    ensures Join(segs + [seg], '/') == if segs == [] then seg else Join(segs, '/') + "/" + seg
  {
    if segs != [] { JoinConcat(segs, [seg], '/'); }
  }

  /** `e / "s"` adds the characters of a plain segment to the value of `e`. */
  lemma SlashValue(f: File, env: Env, e: Expr, s: string, path: string)
    requires Eval(f, env, e) == Path(path) && IsNormal(path) && !("/" <= path) && Paths.Plain(s)
    ensures Eval(f, env, Slash(e, s)) == Path(Below(path, s))
  {
    SlashIsJoin(f, env, e, 0, 0, s);
    JoinIsBelow(path, s);
  }

  lemma SlashIsJoin(f: File, env: Env, e: Expr, id: nat, id': nat, s: string)
    ensures Eval(f, env, BinOp(id, e, Div, Str(id', s)))
         == match Eval(f, env, e) case Path(p) => Path(JoinPath(p, s)) case o => o
  {
    var texts := Texts([Str(id', s)]);
    assert texts == [s];
    forall p: string ensures JoinEach(p, texts) == JoinPath(p, s) { assert texts[..0] == [] && JoinEach(p, []) == p; }
  }

  /** A relative path in normal shape is its segments joined. */
  lemma RelativeSegments(path: string)
    requires IsNormal(path) && !("/" <= path)
    ensures Parse(path).slashes == 0 && path == Join(Parse(path).segs, '/') && (path == "" <==> Parse(path).segs == [])
  {
    var c := Parse(path);
    IsNormalIffFixed(path);
    NormalIsShowParse(path);
    ParseProper(path);
    var ups: nat :| UpsThenPlain(c.segs, ups) && (c.slashes > 0 ==> ups == 0);
    ShowHead(c.segs, ups);
    assert c.slashes == 0 by { assert path == "" || path[0] != '/'; }
  }

  lemma JoinedSegments(path: string, s: string)
    requires Paths.Plain(s) && Parse(path).slashes == 0
    ensures JoinPath(path, s) == Join(Parse(path).segs + [s], '/')
  {
    var j := JoinPath(path, s);
    ParseJoinPlain(path, s);
    ExtendPlain(Parse(path), s);
    JoinNormalBase(path, s);
    NormalIdempotent(PosixJoin(path, s));
    NormalIsShowParse(j);
  }

  lemma JoinIsBelow(path: string, s: string)
    requires IsNormal(path) && !("/" <= path) && Paths.Plain(s)
    ensures JoinPath(path, s) == Below(path, s)
  {
    RelativeSegments(path);
    JoinedSegments(path, s);
    JoinSnoc(Parse(path).segs, s);
  }

  /** `.parent` takes the characters of the last plain segment off again, and goes up from the
      root without end. */
  lemma UpValue(f: File, env: Env, e: Expr, s: string, path: string)
    requires IsNormal(path) && !("/" <= path) && Paths.Plain(s)
    ensures Eval(f, env, e) == Path(Below(path, s)) ==> Eval(f, env, Up(e)) == Path(path)
  {
    JoinIsBelow(path, s);
    ParentUndoesJoin(path, s);
    IsNormalIffFixed(path);
    UpIsParent(f, env, e, 0);
  }

  lemma UpIsParent(f: File, env: Env, e: Expr, id: nat)
    ensures Eval(f, env, Attribute(id, e, "parent"))
         == match Eval(f, env, e) case Path(p) => Path(Parent(p)) case o => o
  {
    forall p: string ensures Ancestor(p, 1) == Parent(p) { assert Ancestor(Parent(p), 0) == Parent(p); }
  }

  function Ups(n: nat): string { if n == 0 then "" else Below(Ups(n - 1), "..") }

  function UpSegs(n: nat): seq<string> { seq(n, _ => "..") }

  lemma {:induction false} UpsAre(n: nat)
    ensures Ups(n) == Join(UpSegs(n), '/')
  {
    if n > 0 {
      UpsAre(n - 1);
      assert UpSegs(n) == UpSegs(n - 1) + [".."];
      JoinSnoc(UpSegs(n - 1), "..");
      if n > 1 { assert UpSegs(n - 1)[0] == ".."; ShowHead(UpSegs(n - 1), n - 1); }
    }
  }

  lemma ParseUps(n: nat)
    ensures Parse(Ups(n)) == Canon(0, UpSegs(n))
  {
    var c := Canon(0, UpSegs(n));
    assert UpsThenPlain(c.segs, n);
    assert Proper(c) && Show(c) == Join(c.segs, '/');
    UpsAre(n);
    ParseShow(c);
  }

  lemma ParentOfUps(n: nat)
    ensures Parent(Ups(n)) == Ups(n + 1)
  {
    if n > 0 {
      ParseUps(n);
      UpsAre(n + 1);
      UpsEnd(n);
      ParentExtends(Ups(n));
      SplitPlain("..", '/');
      PushAllOne(false, UpSegs(n), "..");
      assert UpSegs(n) + [".."] == UpSegs(n + 1);
    }
  }

  lemma UpsEnd(n: nat)
    requires n > 0
    ensures Ups(n) != "" && !EndsWith(Ups(n), "/")
  {
  }

  lemma UpFromRoot(f: File, env: Env, e: Expr, n: nat)
    requires Eval(f, env, e) == Path(Ups(n))
    ensures Eval(f, env, Up(e)) == Path(Ups(n + 1))
  {
    ParentOfUps(n);
    UpIsParent(f, env, e, 0);
  }

  // ---- the other forms, in terms of these -------------------------------------------------------------

  /** `e.parents[n]` is `.parent` taken n + 1 times, whatever `e` does. */
  lemma {:induction false} AncestorIsUps(f: File, env: Env, e: Expr, n: nat)
    ensures Eval(f, env, UpTimes(e, n)) == ParentOf(Eval(f, env, e), n)
  {
    if n > 0 {
      AncestorIsUps(f, env, e, n - 1);
      UpIsParent(f, env, UpTimes(e, n - 1), 0);
      if Eval(f, env, e).Path? { AncestorSnoc(Eval(f, env, e).path, n - 1); }
    }
  }

  lemma {:induction false} AncestorSnoc(path: string, n: nat)
    ensures Ancestor(path, n + 1) == Parent(Ancestor(path, n))
    decreases n
  {
    if n > 0 { AncestorSnoc(Parent(path), n - 1); }
  }

  lemma ParentsValue(f: File, env: Env, e: Expr, n: nat, a: nat, b: nat, c: nat)
    ensures Eval(f, env, Subscript(a, Attribute(b, e, "parents"), Int(c, n))) == Eval(f, env, UpTimes(e, n + 1))
  {
    AncestorIsUps(f, env, e, n + 1);
  }

  /** `e + "/s"` is `e / "s"`; without the slash it names nothing. */
  lemma PlusValue(f: File, env: Env, e: Expr, s: string, a: nat, b: nat)
    ensures Eval(f, env, BinOp(a, e, Add, Str(b, "/" + s))) == Eval(f, env, Slash(e, s))
    ensures !("/" <= s) ==> Eval(f, env, BinOp(a, e, Add, Str(b, s))) == Nothing
  {
    assert ("/" + s)[1..] == s;
    SlashIsJoin(f, env, e, a, b, s);
    SlashIsJoin(f, env, e, 0, 0, s);
  }

  /** The call goes by this name and no function of the file has taken the name. */
  predicate Called(env: Env, func: Expr, name: string) {
    (func.Attribute? && func.attr == name) || (func.Name? && func.ident == name && name !in env.functions)
  }

  lemma {:induction false} SlashEachValue(f: File, env: Env, e: Expr, segs: seq<string>)
    ensures Eval(f, env, SlashEach(e, segs))
         == match Eval(f, env, e) case Path(p) => Path(JoinEach(p, segs)) case o => o
    decreases |segs|
  {
    if segs != [] {
      SlashEachValue(f, env, e, segs[..|segs| - 1]);
      SlashIsJoin(f, env, SlashEach(e, segs[..|segs| - 1]), 0, 0, segs[|segs| - 1]);
    }
  }

  /** `e.joinpath("a", "b")` is `e / "a" / "b"`, */
  lemma JoinpathValue(f: File, env: Env, e: Expr, args: seq<Expr>, a: nat, b: nat)
    requires AllLiterals(args)
    ensures Eval(f, env, Call(a, Attribute(b, e, "joinpath"), args)) == Eval(f, env, SlashEach(e, Texts(args)))
  {
    SlashEachValue(f, env, e, Texts(args));
  }

  /** and so is `join(e, "a", "b")`. */
  lemma JoinCallValue(f: File, env: Env, e: Expr, func: Expr, args: seq<Expr>, a: nat)
    requires AllLiterals(args) && Called(env, func, "join")
    ensures Eval(f, env, Call(a, func, [e] + args)) == Eval(f, env, SlashEach(e, Texts(args)))
  {
    var all := [e] + args;
    assert all[0] == e && all[1..] == args;
    JoinCallIs(f, env, func, all, a);
    SlashEachValue(f, env, e, Texts(args));
  }

  lemma JoinCallIs(f: File, env: Env, func: Expr, all: seq<Expr>, a: nat)
    requires all != [] && Called(env, func, "join")
    ensures Eval(f, env, Call(a, func, all)) == JoinOnto(Eval(f, env, all[0]), all[1..])
  {
  }

  /** One argument that is no string literal, and nothing is joined. */
  lemma UnknownSegment(f: File, env: Env, e: Expr, func: Expr, args: seq<Expr>, a: nat, b: nat, k: nat)
    requires k < |args| && !args[k].Str? && Eval(f, env, e).Path?
    ensures Eval(f, env, Call(a, Attribute(b, e, "joinpath"), args)) == Nothing
    ensures Called(env, func, "join") ==> Eval(f, env, Call(a, func, [e] + args)) == Nothing
  {
    var all := [e] + args;
    assert all[0] == e && all[1..] == args;
    if Called(env, func, "join") { JoinCallIs(f, env, func, all, a); }
  }

  /** `dirname(e)` is `e.parent`. */
  lemma DirnameValue(f: File, env: Env, e: Expr, func: Expr, a: nat)
    requires Called(env, func, "dirname")
    ensures Eval(f, env, Call(a, func, [e])) == Eval(f, env, Up(e))
  {
  }

  /** `cwd()` and `getcwd()` are the directory the runner starts in. */
  lemma CwdValue(f: File, env: Env, func: Expr, a: nat)
    requires Called(env, func, "cwd") || Called(env, func, "getcwd")
    ensures Eval(f, env, Call(a, func, [])) == Path("test")
  {
  }

  predicate CalledAny(env: Env, func: Expr, names: set<string>) {
    exists name :: name in names && Called(env, func, name)
  }

  /** A relative literal handed to a constructor or to `open` is joined onto that directory, an
      absolute one names nothing; anything else is what it is, except to `open`. */
  lemma ConstructorValue(f: File, env: Env, func: Expr, first: Expr, rest: seq<Expr>, a: nat)
    requires CalledAny(env, func, {"Path", "PurePath", "PosixPath", "PurePosixPath", "str", "fspath", "open"})
    ensures first.Str? && !("/" <= first.text) ==>
              Eval(f, env, Call(a, func, [first] + rest)) == Path(JoinPath("test", first.text))
    ensures first.Str? && "/" <= first.text ==> Eval(f, env, Call(a, func, [first] + rest)) == Nothing
    ensures !first.Str? && Called(env, func, "open") ==> Eval(f, env, Call(a, func, [first] + rest)) == Nothing
    ensures !first.Str? && !Called(env, func, "open") ==>
              Eval(f, env, Call(a, func, [first] + rest)) == Eval(f, env, first)
  {
    assert ([first] + rest)[0] == first;
  }

  /** A relative literal of plain segments lies under `test/`, character for character. */
  lemma {:induction false} LiteralUnderTest(segs: seq<string>)
    requires segs != [] && forall k :: 0 <= k < |segs| ==> Paths.Plain(segs[k])
    ensures JoinPath("test", Join(segs, '/')) == "test/" + Join(segs, '/')
  {
    var path := "test/" + Join(segs, '/');
    var all := ["test"] + segs;
    assert Join(all, '/') == path by { JoinConcat(["test"], segs, '/'); }
    assert UpsThenPlain(all, 0);
    assert Proper(Canon(0, all)) && Show(Canon(0, all)) == path;
    assert IsNormal(path);
    IsNormalIffFixed(path);
    ShowHead(segs, 0);
    assert UpsThenPlain(segs, 0);
  }

  /** `e.resolve()`, `realpath(e)` and their like are `e`. */
  lemma IdentityValue(f: File, env: Env, func: Expr, args: seq<Expr>, a: nat)
    requires CalledAny(env, func, {"resolve", "absolute", "expanduser", "abspath", "realpath"})
    ensures args != [] ==> Eval(f, env, Call(a, func, args)) == Eval(f, env, args[0])
    ensures args == [] && func.Attribute? ==> Eval(f, env, Call(a, func, args)) == Eval(f, env, func.value)
    ensures args == [] && func.Name? ==> Eval(f, env, Call(a, func, args)) == Nothing
  {
  }

  /** `__file__`, the exported root, and a call of a function of the file. */
  lemma BaseValues(f: File, env: Env, e: Expr, name: string, args: seq<Expr>, a: nat, b: nat)
    ensures Eval(f, env, Name(a, "__file__")) == Path(f.path)
    ensures Eval(f, env, Attribute(a, e, "PROJECT_ROOT")) == Path("")
    ensures name in env.functions ==> Eval(f, env, Call(a, Name(b, name), args)) == Path(env.functions[name])
  {
  }

  /** The innermost of the scopes that binds the name. */
  ghost predicate BoundAt(names: map<Key, string>, chain: seq<nat>, name: string, k: int) {
    0 <= k < |chain| && (chain[k], name) in names && forall j :: 0 <= j < k ==> (chain[j], name) !in names
  }

  lemma {:induction false} LookupIs(names: map<Key, string>, chain: seq<nat>, name: string) returns (k: int)
    ensures Lookup(names, chain, name) == Nothing ==> forall j :: 0 <= j < |chain| ==> (chain[j], name) !in names
    ensures Lookup(names, chain, name) != Nothing ==>
              BoundAt(names, chain, name, k) && Lookup(names, chain, name) == Path(names[(chain[k], name)])
  {
    k := 0;
    if chain != [] && (chain[0], name) !in names {
      var rest := chain[1..];
      var j := LookupIs(names, rest, name);
      assert forall i :: 1 <= i < |chain| ==> chain[i] == rest[i - 1];
      k := j + 1;
    }
  }

  /** A name is what its innermost binding scope binds it to, a node without scopes being the
      module's, and names nothing without one. */
  lemma NameValue(f: File, env: Env, a: nat, name: string) returns (k: int)
    requires name != "__file__"
    ensures var chain := if a in f.scopes then f.scopes[a] else [0];
            if exists j :: 0 <= j < |chain| && (chain[j], name) in env.names
            then BoundAt(env.names, chain, name, k) && Eval(f, env, Name(a, name)) == Path(env.names[(chain[k], name)])
            else Eval(f, env, Name(a, name)) == Nothing
  {
    k := LookupIs(env.names, if a in f.scopes then f.scopes[a] else [0], name);
  }

  const CALLS: set<string> :=
    {"cwd", "getcwd", "open", "Path", "PurePath", "PosixPath", "PurePosixPath", "str", "fspath", "dirname", "join",
     "joinpath", "resolve", "absolute", "expanduser", "abspath", "realpath"}

  /** What evaluates: a name, `.parent`, the exported root, `.parents[n]`, a literal joined by `/`
      or `+`, and the calls above. Nothing else does. */
  predicate Evaluable(env: Env, e: Expr) {
    match e
    case Name(_, _) => true
    case Attribute(_, _, attr) => attr == "parent" || attr == "PROJECT_ROOT"
    case Subscript(_, value, index) => value.Attribute? && value.attr == "parents" && index.Int?
    case BinOp(_, _, op, right) => right.Str? && (op == Div || (op == Add && "/" <= right.text))
    case Call(_, func, _) =>
      CalledAny(env, func, CALLS) || (func.Name? && func.ident in env.functions)
    case _ => false
  }

  lemma NothingElseEvaluates(f: File, env: Env, e: Expr)
    requires !Evaluable(env, e)
    ensures Eval(f, env, e) == Nothing
  {
    if e.Call? { OtherCall(f, env, e); }
  }

  lemma OtherCall(f: File, env: Env, call: Expr)
    requires call.Call? && !Evaluable(env, call)
    ensures EvalCall(f, env, call) == Nothing
  {
    var name := CallName(call.func);
    if name.Some? { assert Called(env, call.func, name.value); }
    assert name.Some? ==> name.value !in CALLS;
  }

  /** The idiom of the suite: three directories up from its own file, a module finds the root. */
  lemma RootIdiom(f: File, env: Env, path: Expr, resolve: Expr, ids: (nat, nat, nat, nat))
    requires Called(env, path, "Path") && resolve.Attribute? && resolve.attr == "resolve"
    requires resolve.value == Call(ids.0, path, [Name(ids.1, "__file__")])
    requires exists dir, sub, file :: Paths.Plain(dir) && Paths.Plain(sub) && Paths.Plain(file)
                                      && f.path == dir + "/" + sub + "/" + file
    ensures Eval(f, env, Subscript(ids.2, Attribute(ids.3, Call(0, resolve, []), "parents"), Int(0, 2))) == Path("")
  {
    var dir, sub, file :| Paths.Plain(dir) && Paths.Plain(sub) && Paths.Plain(file)
                          && f.path == dir + "/" + sub + "/" + file;
    var e := Call(0, resolve, []);
    ConstructorValue(f, env, path, Name(ids.1, "__file__"), [], ids.0);
    assert [Name(ids.1, "__file__")] + [] == [Name(ids.1, "__file__")];
    IdentityValue(f, env, resolve, [], 0);
    assert Eval(f, env, e) == Path(f.path);
    ThreeUp(f, env, e, dir, sub, file);
    ParentsValue(f, env, e, 2, ids.2, ids.3, 0);
  }

  lemma ThreeUp(f: File, env: Env, e: Expr, dir: string, sub: string, file: string)
    requires Paths.Plain(dir) && Paths.Plain(sub) && Paths.Plain(file)
    requires Eval(f, env, e) == Path(dir + "/" + sub + "/" + file)
    ensures Eval(f, env, UpTimes(e, 3)) == Path("")
  {
    NormalShape("");
    NormalBelow("", dir);
    NormalBelow(dir, sub);
    UpValue(f, env, e, file, Below(dir, sub));
    UpValue(f, env, Up(e), sub, dir);
    UpValue(f, env, Up(Up(e)), dir, "");
    assert UpTimes(e, 3) == Up(Up(Up(e))) by { assert UpTimes(e, 1) == Up(e) && UpTimes(e, 2) == Up(Up(e)); }
  }

  lemma NormalBelow(path: string, s: string)
    requires IsNormal(path) && !("/" <= path) && Paths.Plain(s)
    ensures IsNormal(Below(path, s)) && !("/" <= Below(path, s))
  {
    JoinIsBelow(path, s);
    JoinAndParentNormal(path, s);
  }

  // ---- what a binder binds ---------------------------------------------------------------------------

  /** The targets that are names and were free are bound to the value; all else stays. */
  ghost predicate Binds(f: File, env: Env, targets: seq<Expr>, path: string, next: Env) {
    && next.functions == env.functions
    && forall key :: if key in env.names then key in next.names && next.names[key] == env.names[key]
                     else if IsTargetKey(f, targets, key) then key in next.names && next.names[key] == path
                     else key !in next.names
  }

  /** The key of a target that is a name: its innermost scope and the name. */
  ghost predicate IsTargetKey(f: File, targets: seq<Expr>, key: Key) {
    exists k :: 0 <= k < |targets| && targets[k].Name? && key.1 == targets[k].ident
                && key.0 == InnermostScope(f, targets[k].id)
  }

  function InnermostScope(f: File, id: nat): nat { if id in f.scopes && f.scopes[id] != [] then f.scopes[id][0] else 0 }

  lemma {:induction false} TargetsBind(f: File, env: Env, targets: seq<Expr>, path: string)
    ensures Binds(f, env, targets, path, BindTargets(f, env, targets, path))
    decreases |targets|
  {
    if targets != [] {
      var rest, e := targets[1..], targets[0];
      var next := if e.Name? && KeyOf(f, e) !in env.names then env.(names := env.names[KeyOf(f, e) := path]) else env;
      TargetsBind(f, next, rest, path);
      forall key
        ensures IsTargetKey(f, targets, key) <==> (e.Name? && key == KeyOf(f, e)) || IsTargetKey(f, rest, key)
      {
        TargetKeySplits(f, targets, key);
      }
    }
  }

  lemma TargetKeySplits(f: File, targets: seq<Expr>, key: Key)
    requires targets != []
    ensures IsTargetKey(f, targets, key) <==>
              (targets[0].Name? && key == KeyOf(f, targets[0])) || IsTargetKey(f, targets[1..], key)
  {
    var rest := targets[1..];
    assert forall k :: 1 <= k < |targets| ==> targets[k] == rest[k - 1];
    assert forall k :: 0 <= k < |rest| ==> rest[k] == targets[k + 1];
    if IsTargetKey(f, rest, key) {
      var k :| 0 <= k < |rest| && rest[k].Name? && key.1 == rest[k].ident && key.0 == InnermostScope(f, rest[k].id);
      assert targets[k + 1].Name?;
    }
  }

  /** An assignment binds its value; a bare annotation nothing; a loop over `e.parents` the root,
      when `e` evaluates; any other loop nothing. */
  lemma AssignmentBinds(f: File, env: Env, targets: seq<Expr>, e: Expr, path: string)
    requires Eval(f, env, e) == Path(path)
    ensures var b := BindOne(f, env, Assign(targets, e));
            b.Some? && Binds(f, env, targets, path, b.value)
  {
    TargetsBind(f, env, targets, path);
  }

  lemma AnnotatedBinds(f: File, env: Env, target: Expr, e: Expr, path: string)
    ensures BindOne(f, env, AnnAssign(target, None)) == Some(env)
    ensures Eval(f, env, e) == Path(path) ==>
              var b := BindOne(f, env, AnnAssign(target, Some(e)));
              b.Some? && Binds(f, env, [target], path, b.value)
  {
    TargetsBind(f, env, [target], path);
  }

  lemma LoopBinds(f: File, env: Env, target: Expr, e: Expr, a: nat, iter: Expr)
    ensures Eval(f, env, e).Path? ==>
              var b := BindOne(f, env, Loop(target, Attribute(a, e, "parents")));
              b.Some? && Binds(f, env, [target], "", b.value)
    ensures Eval(f, env, e) == Nothing ==> BindOne(f, env, Loop(target, Attribute(a, e, "parents"))) == Some(env)
    ensures !(iter.Attribute? && iter.attr == "parents") ==> BindOne(f, env, Loop(target, iter)) == Some(env)
  {
    TargetsBind(f, env, [target], "");
  }

  /** What does not evaluate binds nothing. */
  lemma NothingBinds(f: File, env: Env, targets: seq<Expr>, target: Expr, e: Expr)
    requires Eval(f, env, e) == Nothing
    ensures BindOne(f, env, Assign(targets, e)) == Some(env) && BindOne(f, env, AnnAssign(target, Some(e))) == Some(env)
  {
  }

  /** The first return value that evaluates, none before it raising. */
  ghost predicate ReturnsFirst(f: File, env: Env, results: seq<Expr>, k: int, path: string) {
    && 0 <= k < |results| && Eval(f, env, results[k]) == Path(path)
    && forall j :: 0 <= j < k ==> Eval(f, env, results[j]) == Nothing
  }

  lemma {:induction false} FirstReturnIs(f: File, env: Env, results: seq<Expr>, k: int, path: string)
    requires ReturnsFirst(f, env, results, k, path)
    ensures FirstReturn(f, env, results) == Path(path)
  {
    if k > 0 {
      assert forall j :: 1 <= j < |results| ==> results[1..][j - 1] == results[j];
      FirstReturnIs(f, env, results[1..], k - 1, path);
    }
  }

  /** A function that is not bound yet is bound to that value; a bound one stays. */
  lemma FunctionBinds(f: File, env: Env, name: string, results: seq<Expr>, k: int, path: string)
    ensures name in env.functions ==> BindOne(f, env, Function(name, results)) == Some(env)
    ensures name !in env.functions && ReturnsFirst(f, env, results, k, path) ==>
              BindOne(f, env, Function(name, results)) == Some(env.(functions := env.functions[name := path]))
  {
    if ReturnsFirst(f, env, results, k, path) { FirstReturnIs(f, env, results, k, path); }
  }
}

/** `_PathEvaluator` as the object it is: bindings filled in over rounds, then a memo keyed
    by node identity that every later `eval` goes through. */
module EvaluatorObject {
  import opened Text
  import opened Paths
  import opened PathEvaluator
  import opened BindingLoop

  /** `e` and every expression below it are the tree's nodes under their own identities. */
  ghost predicate Registered(nodes: map<nat, Expr>, e: Expr) {
    && e.id in nodes && nodes[e.id] == e
    && match e
       case Attribute(_, value, _) => Registered(nodes, value)
       case Subscript(_, value, index) => Registered(nodes, value) && Registered(nodes, index)
       case BinOp(_, left, _, right) => Registered(nodes, left) && Registered(nodes, right)
       case Call(_, func, args) =>
         Registered(nodes, func) && forall k :: 0 <= k < |args| ==> Registered(nodes, args[k])
       case Other(_, parts) => forall k :: 0 <= k < |parts| ==> Registered(nodes, parts[k])
       case _ => true
  }

  /** The expressions a binder evaluates are nodes of the tree. */
  ghost predicate BinderRegistered(nodes: map<nat, Expr>, b: Binder) {
    match b
    case Assign(_, value) => Registered(nodes, value)
    case AnnAssign(_, annotated) => annotated.Some? ==> Registered(nodes, annotated.value)
    case Loop(_, iter) => Registered(nodes, iter)
    case Function(_, results) => forall k :: 0 <= k < |results| ==> Registered(nodes, results[k])
  }

  class Evaluator {
    const f: File
    const binders: seq<Binder>
    ghost const nodes: map<nat, Expr>
    var env: Env
    var memo: Option<map<nat, Outcome>>

    ghost predicate Valid()
      reads this
    {
      && (forall b :: b in binders ==> BinderRegistered(nodes, b))
      && (memo.Some? ==>
            forall id :: id in memo.value ==> id in nodes && memo.value[id] == Eval(f, env, nodes[id]))
    }

    /** The state before the first round: the exported root and the import aliases of it. */
    constructor (file: File, bs: seq<Binder>, rootAliases: set<Key>, ghost tree: map<nat, Expr>)
      requires forall b :: b in bs ==> BinderRegistered(tree, b)
      ensures Valid() && f == file && binders == bs && nodes == tree && memo == None
      ensures env == Env(map k | k in rootAliases + {(MODULE_SCOPE, ROOT_NAME)} :: "", map[])
    {
      f, binders, nodes := file, bs, tree;
      env, memo := Env(map k | k in rootAliases + {(MODULE_SCOPE, ROOT_NAME)} :: "", map[]), None;
    }

    /** `eval`: with or without the memo, the answer is `_eval`'s. */
    method Evaluate(e: Expr) returns (o: Outcome)
      requires Valid() && Registered(nodes, e)
      modifies this`memo
      ensures Valid() && memo.Some? == old(memo.Some?)
      ensures o == Eval(f, env, e)
      decreases e, 2
    {
      if memo.Some? && e.id in memo.value {
        return memo.value[e.id];
      }
      o := EvalNode(e);
      if memo.Some? && !o.Raises? {
        memo := Some(memo.value[e.id := o]);
      }
    }

    /** `_eval`. */
    method EvalNode(e: Expr) returns (o: Outcome)
      requires Valid() && Registered(nodes, e)
      modifies this`memo
      ensures Valid() && memo.Some? == old(memo.Some?)
      ensures o == Eval(f, env, e)
      decreases e, 1
    {
      match e
      case Name(id, ident) =>
        if ident == "__file__" { return Path(f.path); }
        o := LookUp(ident, ScopesOf(f, id));
      case Attribute(_, inner, attr) =>
        if attr == "parent" {
          var base := Evaluate(inner);
          return ParentOf(base, 1);
        }
        return if attr == ROOT_NAME then Path("") else Nothing;
      case Subscript(_, Attribute(_, inner, "parents"), Int(_, n)) =>
        var base := Evaluate(inner);
        o := ParentOf(base, n + 1);
      case BinOp(_, left, Div, Str(_, _)) =>
        var base := Evaluate(left);
        o := JoinOnto(base, [e.right]);
      case BinOp(_, left, Add, Str(id, tail)) =>
        if !("/" <= tail) { return Nothing; }
        var base := Evaluate(left);
        o := JoinOnto(base, [Str(id, tail[1..])]);
      case Call(_, _, _) => o := EvalCallNode(e);
      case _ => o := Nothing;
    }

    /** The scan over the enclosing scopes, innermost first. */
    method LookUp(ident: string, chain: seq<nat>) returns (o: Outcome)
      ensures o == Lookup(env.names, chain, ident)
    {
      for i := 0 to |chain|
        invariant Lookup(env.names, chain, ident) == Lookup(env.names, chain[i..], ident)
      {
        if (chain[i], ident) in env.names { return Path(env.names[(chain[i], ident)]); }
        assert chain[i..][1..] == chain[i + 1..];
      }
      o := Nothing;
    }

    /** `_call`. */
    method EvalCallNode(call: Expr) returns (o: Outcome)
      requires Valid() && Registered(nodes, call) && call.Call?
      modifies this`memo
      ensures Valid() && memo.Some? == old(memo.Some?)
      ensures o == EvalCall(f, env, call)
      decreases call, 0
    {
      var func, args := call.func, call.args;
      if CallName(func).None? { return Nothing; }
      var name := CallName(func).value;
      if func.Name? && name in env.functions { return Path(env.functions[name]); }
      if name in {"cwd", "getcwd"} && args == [] { return Path(AMBIENT_DIR); }
      if (IsConstructor(name) || name == "open") && args != [] {
        if args[0].Str? {
          return if "/" <= args[0].text then Nothing else Path(JoinPath(AMBIENT_DIR, args[0].text));
        }
        if name == "open" { return Nothing; }
        o := Evaluate(args[0]);
      } else if name == "dirname" && |args| == 1 {
        var base := Evaluate(args[0]);
        o := ParentOf(base, 1);
      } else if IsIdentity(name) {
        if args != [] {
          o := Evaluate(args[0]);
        } else if func.Attribute? {
          o := Evaluate(func.value);
        } else {
          o := Nothing;
        }
      } else if name == "joinpath" {
        if !func.Attribute? { return Raises; }
        var base := Evaluate(func.value);
        o := JoinOnto(base, args);
      } else if name == "join" && args != [] {
        var base := Evaluate(args[0]);
        o := JoinOnto(base, args[1..]);
      } else {
        o := Nothing;
      }
    }

    /** The value one assignment or loop binds. */
    method ValueOf(b: Binder) returns (o: Outcome)
      requires Valid() && BinderRegistered(nodes, b) && !b.Function?
      modifies this`memo
      ensures Valid() && memo.Some? == old(memo.Some?)
      ensures o == BoundValue(f, env, b)
    {
      match b
      case Assign(_, value) => o := Evaluate(value);
      case AnnAssign(_, Some(value)) => o := Evaluate(value);
      case Loop(_, Attribute(_, inner, "parents")) =>
        o := Evaluate(inner);
        if o.Path? { o := Path(""); }
      case _ => o := Nothing;
    }

    /** The first return value inside a function that evaluates. */
    method ReturnOf(results: seq<Expr>) returns (o: Outcome)
      requires Valid() && forall k :: 0 <= k < |results| ==> Registered(nodes, results[k])
      modifies this`memo
      ensures Valid() && memo.Some? == old(memo.Some?)
      ensures o == FirstReturn(f, env, results)
    {
      for i := 0 to |results|
        invariant Valid() && memo.Some? == old(memo.Some?)
        invariant FirstReturn(f, env, results) == FirstReturn(f, env, results[i..])
      {
        o := Evaluate(results[i]);
        if !o.Nothing? { return; }
        assert results[i..][1..] == results[i + 1..];
      }
      o := Nothing;
    }

    /** The loop over an assignment's targets. */
    method SetTargets(targets: seq<Expr>, value: string) returns (grew: bool)
      requires Valid() && memo.None?
      modifies this`env
      ensures Valid()
      ensures env == BindTargets(f, old(env), targets, value) && (grew <==> env != old(env))
    {
      grew := false;
      for i := 0 to |targets|
        invariant BindTargets(f, old(env), targets, value) == BindTargets(f, env, targets[i..], value)
        invariant Extends(old(env), env) && (grew <==> env != old(env))
      {
        assert targets[i..][1..] == targets[i + 1..];
        if targets[i].Name? {
          var key := KeyOf(f, targets[i]);
          if key !in env.names {
            env := env.(names := env.names[key := value]);
            grew := true;
            assert key in env.names && key !in old(env).names;
          }
        }
      }
    }

    /** `_bind`: one round over the binders. */
    method Bind() returns (grew: bool, raised: bool)
      requires Valid() && memo.None?
      modifies this
      ensures raised <==> Round(f, old(env), binders).None?
      ensures !raised ==> Valid() && memo.None?
      ensures !raised ==> Round(f, old(env), binders) == Some(env) && (grew <==> env != old(env))
    {
      grew := false;
      for i := 0 to |binders|
        invariant Valid() && memo.None?
        invariant Round(f, old(env), binders) == Round(f, env, binders[i..])
        invariant Extends(old(env), env) && (grew <==> env != old(env))
      {
        var b := binders[i];
        assert binders[i..][0] == b && binders[i..][1..] == binders[i + 1..];
        ghost var before := env;
        assert BinderRegistered(nodes, b);
        if b.Function? {
          if b.name !in env.functions {
            var o := ReturnOf(b.results);
            if o.Raises? { return grew, true; }
            if o.Path? {
              env := env.(functions := env.functions[b.name := o.path]);
              grew := true;
              assert b.name in env.functions && b.name !in before.functions;
            }
          }
        } else {
          var o := ValueOf(b);
          if o.Raises? { return grew, true; }
          if o.Path? {
            BindTargetsExtends(f, env, Targets(b), o.path);
            var more := SetTargets(Targets(b), o.path);
            if more && !grew { grew := true; }
            if !more { assert env == before; }
          }
        }
        GrowsOnce(old(env), before, env);
      }
      raised := false;
    }

    /** The constructor's loop and what follows it: up to 64 rounds, then an empty memo. */
    method Settle() returns (raised: bool, ghost run: Run)
      requires Valid() && memo.None?
      modifies this
      ensures !raised ==> Valid() && memo == Some(map[])
      ensures !raised ==> CappedRun(f, binders, 64, run) && run.First() == old(env) && run.env == env
      ensures raised ==> IsRun(f, binders, run) && run.First() == old(env) && run.Length() < 64
                         && Round(f, run.env, binders).None?
      ensures !raised && KeySpaceOf(f, binders).Unbound(old(env)) <= 64 ==> AllSettled(f, env, binders)
    {
      run := Start(env);
      var rounds, grew := 0, true;
      raised := false;
      while rounds < ROUND_CAP && grew
        invariant Valid() && memo.None?
        invariant IsRun(f, binders, run) && run.First() == old(env) && run.env == env
        invariant run.Length() <= rounds <= ROUND_CAP
        invariant grew ==> run.Length() == rounds
        invariant !grew ==> Round(f, env, binders) == Some(env)
        decreases ROUND_CAP - rounds
      {
        ghost var before := env;
        grew, raised := Bind();
        if raised { return; }
        if grew {
          run := Then(run, env);
        }
        rounds := rounds + 1;
      }
      memo := Some(map[]);
      if KeySpaceOf(f, binders).Unbound(old(env)) <= ROUND_CAP { CapReachesFixpoint(f, binders, ROUND_CAP, run); }
    }
  }

  /** Along a chain of extensions, the ends differ exactly when some step changed. */
  lemma GrowsOnce(a: Env, b: Env, c: Env)
    requires Extends(a, b) && Extends(b, c)
    ensures Extends(a, c) && (a != c <==> a != b || b != c)
  {
    if a == c { ExtendsAntisymmetric(a, b); }
  }
}

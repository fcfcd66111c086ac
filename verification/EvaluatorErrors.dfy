/** When evaluating raises: exactly where the expression evaluated first is a call of the bare
    name `joinpath`, whose receiver the source reads without checking. */
module EvaluatorErrors {
  import opened PathEvaluator

  /** Following the operands the evaluator evaluates, a call of the bare name `joinpath` is
      reached. Only the names of the bound functions matter, no bound value does. */
  predicate Bare(functions: set<string>, e: Expr)
    decreases e, 1
  {
    match e
    case Attribute(_, inner, attr) => attr == "parent" && Bare(functions, inner)
    case Subscript(_, Attribute(_, inner, attr), Int(_, _)) => attr == "parents" && Bare(functions, inner)
    case BinOp(_, left, Div, Str(_, _)) => Bare(functions, left)
    case BinOp(_, left, Add, Str(_, tail)) => "/" <= tail && Bare(functions, left)
    case Call(_, _, _) => BareCall(functions, e)
    case _ => false
  }

  predicate BareCall(functions: set<string>, call: Expr)
    requires call.Call?
    decreases call, 0
  {
    var func, args := call.func, call.args;
    match CallName(func)
    case None => false
    case Some(name) =>
      if (func.Name? && name in functions) || (name in {"cwd", "getcwd"} && args == []) then false
      else if (IsConstructor(name) || name == "open") && args != [] then
        !args[0].Str? && name != "open" && Bare(functions, args[0])
      else if name == "dirname" && |args| == 1 then Bare(functions, args[0])
      else if IsIdentity(name) then
        if args != [] then Bare(functions, args[0]) else func.Attribute? && Bare(functions, func.value)
      else if name == "joinpath" then func.Name? || (func.Attribute? && Bare(functions, func.value))
      else name == "join" && args != [] && Bare(functions, args[0])
  }

  lemma {:induction false} LookupNeverRaises(names: map<Key, string>, chain: seq<nat>, ident: string)
    ensures !Lookup(names, chain, ident).Raises?
  {
    if chain != [] { LookupNeverRaises(names, chain[1..], ident); }
  }

  /** Evaluating an expression raises exactly when it is bare in this sense. */
  lemma {:induction false} RaisesIffBare(f: File, env: Env, e: Expr)
    ensures Eval(f, env, e).Raises? <==> Bare(env.functions.Keys, e)
    decreases e
  {
    match e
    case Name(id, ident) => LookupNeverRaises(env.names, ScopesOf(f, id), ident);
    case Attribute(_, inner, _) => RaisesIffBare(f, env, inner);
    case Subscript(_, Attribute(_, inner, _), _) => RaisesIffBare(f, env, inner);
    case BinOp(_, left, _, _) => RaisesIffBare(f, env, left);
    case Call(_, func, args) =>
      if func.Attribute? { RaisesIffBare(f, env, func.value); }
      if args != [] { RaisesIffBare(f, env, args[0]); }
      CallRaises(f, env, e);
    case _ =>
  }

  lemma CallRaises(f: File, env: Env, call: Expr)
    requires call.Call?
    requires call.func.Attribute? ==>
               (Eval(f, env, call.func.value).Raises? <==> Bare(env.functions.Keys, call.func.value))
    requires call.args != [] ==> (Eval(f, env, call.args[0]).Raises? <==> Bare(env.functions.Keys, call.args[0]))
    ensures EvalCall(f, env, call).Raises? <==> BareCall(env.functions.Keys, call)
  {
  }

  /** The instance: a bare `joinpath(...)`, whatever its arguments, raises unless a function of
      that name is bound. */
  lemma BareJoinpathRaises(f: File, env: Env, id: nat, at: nat, args: seq<Expr>)
    ensures Eval(f, env, Call(id, Name(at, "joinpath"), args)).Raises? <==> "joinpath" !in env.functions
  {
    RaisesIffBare(f, env, Call(id, Name(at, "joinpath"), args));
  }
}

/** `_PathEvaluator` of the tag guard: an abstract evaluator of one file's path
    expressions, its scoped bindings, the bounded binding loop and the memo.

    Expressions carry the identity of their syntax node, because the source keys its scope
    table and its memo by node identity. */
module PathEvaluator {
  import opened Text
  import opened Paths

  datatype Op = Div | Add | OtherOp

  datatype Expr =
    | Name(id: nat, ident: string)
    | Attribute(id: nat, value: Expr, attr: string)
    | Subscript(id: nat, value: Expr, index: Expr)
    | Str(id: nat, text: string)
    | Int(id: nat, n: nat)
    | BinOp(id: nat, left: Expr, op: Op, right: Expr)
    | Call(id: nat, func: Expr, args: seq<Expr>)
    | Other(id: nat, parts: seq<Expr>)

  /** What evaluating can do: a path, `None`, or the attribute error of a bare-name
      `joinpath(...)` call, whose receiver the source reads without checking. */
  datatype Outcome = Path(path: string) | Nothing | Raises

  type Key = (nat, string)

  /** What stays fixed for one file: its own path, and the scopes enclosing each node,
      innermost first, the module last. */
  datatype File = File(path: string, scopes: map<nat, seq<nat>>)

  /** What has been bound so far. */
  datatype Env = Env(names: map<Key, string>, functions: map<string, string>)

  const ROOT_NAME := "PROJECT_ROOT"
  const AMBIENT_DIR := "test"
  const MODULE_SCOPE: nat := 0

  predicate IsConstructor(name: string) {
    name in {"Path", "PurePath", "PosixPath", "PurePosixPath", "str", "fspath"}
  }

  predicate IsIdentity(name: string) {
    name in {"resolve", "absolute", "expanduser", "abspath", "realpath"}
  }

  function CallName(func: Expr): Option<string> {
    match func
    case Attribute(_, _, attr) => Some(attr)
    case Name(_, ident) => Some(ident)
    case _ => None
  }

  function ScopesOf(f: File, id: nat): seq<nat> {
    if id in f.scopes then f.scopes[id] else [MODULE_SCOPE]
  }

  /** The innermost scope that binds the name wins. */
  function Lookup(names: map<Key, string>, chain: seq<nat>, ident: string): Outcome {
    if chain == [] then Nothing
    else if (chain[0], ident) in names then Path(names[(chain[0], ident)])
    else Lookup(names, chain[1..], ident)
  }

  function ParentOf(o: Outcome, steps: nat): Outcome {
    match o
    case Path(p) => Path(Ancestor(p, steps))
    case _ => o
  }

  predicate AllLiterals(segments: seq<Expr>) {
    forall k :: 0 <= k < |segments| ==> segments[k].Str?
  }

  function Texts(segments: seq<Expr>): seq<string>
    requires AllLiterals(segments)
  {
    seq(|segments|, k requires 0 <= k < |segments| => segments[k].text)
  }

  /** Joining string literals onto an evaluated base; anything else joined is `None`. */
  function JoinOnto(o: Outcome, segments: seq<Expr>): Outcome {
    match o
    case Path(base) => if AllLiterals(segments) then Path(JoinEach(base, Texts(segments))) else Nothing
    case _ => o
  }

  /** `_eval`. */
  function Eval(f: File, env: Env, e: Expr): Outcome
    decreases e, 1
  {
    match e
    case Name(id, ident) =>
      if ident == "__file__" then Path(f.path) else Lookup(env.names, ScopesOf(f, id), ident)
    case Attribute(_, inner, attr) =>
      if attr == "parent" then ParentOf(Eval(f, env, inner), 1)
      else if attr == ROOT_NAME then Path("")
      else Nothing
    case Subscript(_, Attribute(_, inner, "parents"), Int(_, n)) => ParentOf(Eval(f, env, inner), n + 1)
    case BinOp(_, left, Div, Str(_, _)) => JoinOnto(Eval(f, env, left), [e.right])
    case BinOp(_, left, Add, Str(id, tail)) =>
      if "/" <= tail then JoinOnto(Eval(f, env, left), [Str(id, tail[1..])]) else Nothing
    case Call(_, _, _) => EvalCall(f, env, e)
    case _ => Nothing
  }

  /** `_call`. */
  function EvalCall(f: File, env: Env, call: Expr): Outcome
    requires call.Call?
    decreases call, 0
  {
    var func, args := call.func, call.args;
    match CallName(func)
    case None => Nothing
    case Some(name) =>
      if func.Name? && name in env.functions then Path(env.functions[name])
      else if name in {"cwd", "getcwd"} && args == [] then Path(AMBIENT_DIR)
      else if (IsConstructor(name) || name == "open") && args != [] then
        if args[0].Str? then
          if "/" <= args[0].text then Nothing else Path(JoinPath(AMBIENT_DIR, args[0].text))
        else if name != "open" then Eval(f, env, args[0])
        else Nothing
      else if name == "dirname" && |args| == 1 then ParentOf(Eval(f, env, args[0]), 1)
      else if IsIdentity(name) then
        if args != [] then Eval(f, env, args[0])
        else if func.Attribute? then Eval(f, env, func.value)
        else Nothing
      else if name == "joinpath" then
        if func.Attribute? then JoinOnto(Eval(f, env, func.value), args) else Raises
      else if name == "join" && args != [] then JoinOnto(Eval(f, env, args[0]), args[1..])
      else Nothing
  }

  // ---- bindings ----------------------------------------------------------------

  /** A node that can bind, in the order the tree walk meets them. A function carries the
      values of the return statements inside it, in walk order. */
  datatype Binder =
    | Assign(targets: seq<Expr>, value: Expr)
    | AnnAssign(target: Expr, annotated: Option<Expr>)
    | Loop(target: Expr, iter: Expr)
    | Function(name: string, results: seq<Expr>)

  function Targets(b: Binder): seq<Expr> {
    match b
    case Assign(targets, _) => targets
    case AnnAssign(target, _) => [target]
    case Loop(target, _) => [target]
    case Function(_, _) => []
  }

  /** The value an assignment or a loop gives its targets: a loop over `<path>.parents`
      gives the repository root. */
  function BoundValue(f: File, env: Env, b: Binder): Outcome {
    match b
    case Assign(_, value) => Eval(f, env, value)
    case AnnAssign(_, Some(value)) => Eval(f, env, value)
    case Loop(_, Attribute(_, inner, "parents")) =>
      (match Eval(f, env, inner) case Path(_) => Path("") case o => o)
    case _ => Nothing
  }

  function KeyOf(f: File, target: Expr): Key
    requires target.Name?
  {
    var chain := ScopesOf(f, target.id);
    (if chain == [] then MODULE_SCOPE else chain[0], target.ident)
  }

  function TargetKeys(f: File, targets: seq<Expr>): set<Key> {
    set k | 0 <= k < |targets| && targets[k].Name? :: KeyOf(f, targets[k])
  }

  /** The first binding of a key stays. */
  function BindTargets(f: File, env: Env, targets: seq<Expr>, value: string): Env
    decreases |targets|
  {
    if targets == [] then env
    else
      var next :=
        if targets[0].Name? && KeyOf(f, targets[0]) !in env.names
        then env.(names := env.names[KeyOf(f, targets[0]) := value])
        else env;
      BindTargets(f, next, targets[1..], value)
  }

  /** The first return value that evaluates. */
  function FirstReturn(f: File, env: Env, results: seq<Expr>): Outcome {
    if results == [] then Nothing
    else if Eval(f, env, results[0]).Nothing? then FirstReturn(f, env, results[1..])
    else Eval(f, env, results[0])
  }

  /** One binder's turn in `_bind`; `None` when evaluating raises. */
  function BindOne(f: File, env: Env, b: Binder): Option<Env> {
    match b
    case Function(name, results) =>
      if name in env.functions then Some(env)
      else
        (match FirstReturn(f, env, results)
         case Path(p) => Some(env.(functions := env.functions[name := p]))
         case Nothing => Some(env)
         case Raises => None)
    case _ =>
      (match BoundValue(f, env, b)
       case Path(p) => Some(BindTargets(f, env, Targets(b), p))
       case Nothing => Some(env)
       case Raises => None)
  }

  /** One call of `_bind`: every binder once, each seeing what the earlier ones bound. */
  function Round(f: File, env: Env, binders: seq<Binder>): Option<Env>
    decreases |binders|
  {
    if binders == [] then Some(env)
    else match BindOne(f, env, binders[0])
      case None => None
      case Some(next) => Round(f, next, binders[1..])
  }

  /** The environments the binding loop goes through, latest outermost. */
  datatype Run = Start(env: Env) | Then(before: Run, env: Env) {
    function First(): Env { match this case Start(e) => e case Then(b, _) => b.First() }
    function Length(): nat { match this case Start(_) => 0 case Then(b, _) => b.Length() + 1 }
  }

  /** Productive rounds, each from where the last one ended. */
  ghost predicate IsRun(f: File, binders: seq<Binder>, run: Run) {
    match run
    case Start(_) => true
    case Then(before, env) =>
      IsRun(f, binders, before) && Round(f, before.env, binders) == Some(env) && env != before.env
  }

  /** What the binding loop does: it runs until the cap is used up or a round would bind
      nothing. */
  ghost predicate CappedRun(f: File, binders: seq<Binder>, cap: nat, run: Run) {
    && IsRun(f, binders, run) && run.Length() <= cap
    && (run.Length() < cap ==> Round(f, run.env, binders) == Some(run.env))
  }

  const ROUND_CAP: nat := 64

  // ---- what a round keeps ------------------------------------------------------

  /** Nothing bound is lost or overwritten. */
  ghost predicate Extends(env: Env, env': Env) {
    && (forall k :: k in env.names ==> k in env'.names && env'.names[k] == env.names[k])
    && (forall n :: n in env.functions ==> n in env'.functions && env'.functions[n] == env.functions[n])
  }

  /** The keys of one environment are keys of the other; the values may differ. */
  ghost predicate Covers(env: Env, env': Env) {
    && env.names.Keys <= env'.names.Keys
    && env.functions.Keys <= env'.functions.Keys
  }

  lemma {:induction false} LookupCovers(names: map<Key, string>, names': map<Key, string>, chain: seq<nat>,
                                        ident: string)
    requires names.Keys <= names'.Keys
    ensures Lookup(names, chain, ident).Path? ==> Lookup(names', chain, ident).Path?
    ensures !Lookup(names', chain, ident).Raises?
  {
    if chain != [] { LookupCovers(names, names', chain[1..], ident); }
  }

  /** Whether an expression evaluates depends on which keys are bound, not on their
      values, and binding more keys never stops one evaluating. */
  lemma {:induction false} EvalMonotone(f: File, env: Env, env': Env, e: Expr)
    requires Covers(env, env')
    ensures Eval(f, env, e).Path? ==> Eval(f, env', e).Path?
    ensures Eval(f, env', e).Raises? ==> Eval(f, env, e).Raises?
    decreases e
  {
    match e
    case Name(id, ident) => LookupCovers(env.names, env'.names, ScopesOf(f, id), ident);
    case Attribute(_, inner, _) => EvalMonotone(f, env, env', inner);
    case Subscript(_, Attribute(_, inner, _), _) => EvalMonotone(f, env, env', inner);
    case BinOp(_, left, _, _) => EvalMonotone(f, env, env', left);
    case Call(_, func, args) =>
      if func.Attribute? { EvalMonotone(f, env, env', func.value); }
      if args != [] { EvalMonotone(f, env, env', args[0]); }
      CallMonotone(f, env, env', e);
    case _ =>
  }

  lemma CallMonotone(f: File, env: Env, env': Env, call: Expr)
    requires Covers(env, env') && call.Call?
    requires call.func.Attribute? && Eval(f, env, call.func.value).Path? ==> Eval(f, env', call.func.value).Path?
    requires call.func.Attribute? && Eval(f, env', call.func.value).Raises? ==> Eval(f, env, call.func.value).Raises?
    requires call.args != [] && Eval(f, env, call.args[0]).Path? ==> Eval(f, env', call.args[0]).Path?
    requires call.args != [] && Eval(f, env', call.args[0]).Raises? ==> Eval(f, env, call.args[0]).Raises?
    ensures EvalCall(f, env, call).Path? ==> EvalCall(f, env', call).Path?
    ensures EvalCall(f, env', call).Raises? ==> EvalCall(f, env, call).Raises?
  {
  }

  lemma {:induction false} FirstReturnMonotone(f: File, env: Env, env': Env, results: seq<Expr>)
    requires Covers(env, env')
    ensures FirstReturn(f, env, results).Path? ==> FirstReturn(f, env', results).Path?
  {
    if results != [] {
      EvalMonotone(f, env, env', results[0]);
      FirstReturnMonotone(f, env, env', results[1..]);
    }
  }

  lemma {:induction false} BindTargetsExtends(f: File, env: Env, targets: seq<Expr>, value: string)
    ensures Extends(env, BindTargets(f, env, targets, value))
    ensures BindTargets(f, env, targets, value).names.Keys == env.names.Keys + TargetKeys(f, targets)
    ensures BindTargets(f, env, targets, value).functions == env.functions
    decreases |targets|
  {
    if targets != [] {
      var next :=
        if targets[0].Name? && KeyOf(f, targets[0]) !in env.names
        then env.(names := env.names[KeyOf(f, targets[0]) := value])
        else env;
      BindTargetsExtends(f, next, targets[1..], value);
      TargetKeysStep(f, targets);
    }
  }

  lemma TargetKeysStep(f: File, targets: seq<Expr>)
    requires targets != []
    ensures TargetKeys(f, targets) ==
            TargetKeys(f, targets[1..]) + (if targets[0].Name? then {KeyOf(f, targets[0])} else {})
  {
    var rest := targets[1..];
    forall key | key in TargetKeys(f, targets)
      ensures key in TargetKeys(f, rest) || (targets[0].Name? && key == KeyOf(f, targets[0]))
    {
      var k :| 0 <= k < |targets| && targets[k].Name? && key == KeyOf(f, targets[k]);
      if k > 0 { assert rest[k - 1] == targets[k]; }
    }
    forall key | key in TargetKeys(f, rest) ensures key in TargetKeys(f, targets) {
      var k :| 0 <= k < |rest| && rest[k].Name? && key == KeyOf(f, rest[k]);
      assert targets[k + 1] == rest[k];
    }
  }

  /** The keys one binder can bind. */
  function NameKeys(f: File, b: Binder): set<Key> { TargetKeys(f, Targets(b)) }

  function FunctionKeys(b: Binder): set<string> { if b.Function? then {b.name} else {} }

  /** Nothing is left for the binder to bind. */
  ghost predicate Settled(f: File, env: Env, b: Binder) {
    match b
    case Function(name, results) => FirstReturn(f, env, results).Path? ==> name in env.functions
    case _ => BoundValue(f, env, b).Path? ==> NameKeys(f, b) <= env.names.Keys
  }

  ghost predicate AllSettled(f: File, env: Env, binders: seq<Binder>) {
    forall k :: 0 <= k < |binders| ==> Settled(f, env, binders[k])
  }

  lemma BindOneExtends(f: File, env: Env, b: Binder)
    requires BindOne(f, env, b).Some?
    ensures var next := BindOne(f, env, b).value;
            && Extends(env, next)
            && next.names.Keys <= env.names.Keys + NameKeys(f, b)
            && next.functions.Keys <= env.functions.Keys + FunctionKeys(b)
            && (next == env ==> Settled(f, env, b))
  {
    if !b.Function? && BoundValue(f, env, b).Path? {
      BindTargetsExtends(f, env, Targets(b), BoundValue(f, env, b).path);
    }
  }

  /** One round never overwrites, binds only the binders' own keys, and binds nothing only
      when nothing is left to bind. */
  lemma {:induction false} RoundExtends(f: File, env: Env, binders: seq<Binder>)
    requires Round(f, env, binders).Some?
    ensures Extends(env, Round(f, env, binders).value)
    ensures Round(f, env, binders).value.names.Keys <= env.names.Keys + AllNameKeys(f, binders)
    ensures Round(f, env, binders).value.functions.Keys <= env.functions.Keys + AllFunctionKeys(binders)
    ensures Round(f, env, binders).value == env ==> AllSettled(f, env, binders)
    decreases |binders|
  {
    if binders != [] {
      var next := BindOne(f, env, binders[0]).value;
      BindOneExtends(f, env, binders[0]);
      RoundExtends(f, next, binders[1..]);
      var last := Round(f, next, binders[1..]).value;
      assert Round(f, env, binders).value == last;
      AllKeysStep(f, binders);
      if last == env {
        ExtendsAntisymmetric(env, next);
        forall k | 0 <= k < |binders| ensures Settled(f, env, binders[k]) {
          if k > 0 { assert binders[k] == binders[1..][k - 1]; }
        }
      }
    }
  }

  lemma ExtendsAntisymmetric(a: Env, b: Env)
    requires Extends(a, b) && Extends(b, a)
    ensures a == b
  {
    assert a.names == b.names && a.functions == b.functions;
  }

  function AllNameKeys(f: File, binders: seq<Binder>): set<Key> {
    set k, key | 0 <= k < |binders| && key in NameKeys(f, binders[k]) :: key
  }

  function AllFunctionKeys(binders: seq<Binder>): set<string> {
    set k | 0 <= k < |binders| && binders[k].Function? :: binders[k].name
  }

  lemma OwnKeys(f: File, binders: seq<Binder>, k: nat)
    requires k < |binders|
    ensures NameKeys(f, binders[k]) <= AllNameKeys(f, binders)
    ensures FunctionKeys(binders[k]) <= AllFunctionKeys(binders)
  {
  }

  lemma AllKeysStep(f: File, binders: seq<Binder>)
    requires binders != []
    ensures AllNameKeys(f, binders[1..]) + NameKeys(f, binders[0]) <= AllNameKeys(f, binders)
    ensures AllFunctionKeys(binders[1..]) + FunctionKeys(binders[0]) <= AllFunctionKeys(binders)
  {
    var rest := binders[1..];
    OwnKeys(f, binders, 0);
    forall key | key in AllNameKeys(f, rest) ensures key in AllNameKeys(f, binders) {
      var k :| 0 <= k < |rest| && key in NameKeys(f, rest[k]);
      OwnKeys(f, binders, k + 1);
    }
    forall name | name in AllFunctionKeys(rest) ensures name in AllFunctionKeys(binders) {
      var k :| 0 <= k < |rest| && rest[k].Function? && name == rest[k].name;
      OwnKeys(f, binders, k + 1);
    }
  }
}

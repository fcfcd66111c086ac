/** What the path evaluator's values are, and how sharp its round cap is. */
module EvaluatorResults {
  import opened Text
  import opened Paths
  import opened PathEvaluator
  import opened BindingLoop

  // ---- every value is a normal path ----------------------------------------------

  ghost predicate NormalEnv(f: File, env: Env) {
    && IsNormal(f.path)
    && (forall k :: k in env.names ==> IsNormal(env.names[k]))
    && (forall n :: n in env.functions ==> IsNormal(env.functions[n]))
  }

  ghost predicate NormalOutcome(o: Outcome) {
    o.Path? ==> IsNormal(o.path)
  }

  lemma ConstantsNormal()
    ensures IsNormal("") && IsNormal(AMBIENT_DIR)
  {
    var root, ambient := Canon(0, []), Canon(0, ["test"]);
    assert UpsThenPlain(root.segs, 0) && UpsThenPlain(ambient.segs, 0);
    assert Proper(root) && Show(root) == "";
    assert Proper(ambient) && Show(ambient) == AMBIENT_DIR;
  }

  lemma {:induction false} AncestorNormal(path: string, steps: nat)
    requires IsNormal(path)
    ensures IsNormal(Ancestor(path, steps))
    decreases steps
  {
    if steps > 0 {
      ParentNormal(path);
      AncestorNormal(Parent(path), steps - 1);
    }
  }

  lemma ParentNormal(path: string)
    ensures IsNormal(Parent(path))
  {
    JoinAndParentNormal(path, "");
  }

  lemma ParentOfNormal(o: Outcome, steps: nat)
    requires NormalOutcome(o)
    ensures NormalOutcome(ParentOf(o, steps))
  {
    if o.Path? { AncestorNormal(o.path, steps); }
  }

  lemma JoinOntoNormal(o: Outcome, segments: seq<Expr>)
    requires NormalOutcome(o)
    ensures NormalOutcome(JoinOnto(o, segments))
  {
    if o.Path? && AllLiterals(segments) { JoinEachNormal(o.path, Texts(segments)); }
  }

  lemma {:induction false} LookupNormal(names: map<Key, string>, chain: seq<nat>, ident: string)
    requires forall k :: k in names ==> IsNormal(names[k])
    ensures NormalOutcome(Lookup(names, chain, ident))
  {
    if chain != [] { LookupNormal(names, chain[1..], ident); }
  }

  /** Evaluating yields only paths in normal form: some `..` segments, then plain ones. */
  lemma {:induction false} EvalNormal(f: File, env: Env, e: Expr)
    requires NormalEnv(f, env)
    ensures NormalOutcome(Eval(f, env, e))
    decreases e, 1
  {
    ConstantsNormal();
    match e
    case Name(id, ident) => LookupNormal(env.names, ScopesOf(f, id), ident);
    case Attribute(_, inner, _) =>
      EvalNormal(f, env, inner);
      ParentOfNormal(Eval(f, env, inner), 1);
    case Subscript(_, Attribute(_, inner, _), Int(_, n)) =>
      EvalNormal(f, env, inner);
      ParentOfNormal(Eval(f, env, inner), n + 1);
    case BinOp(_, left, _, Str(id, tail)) =>
      EvalNormal(f, env, left);
      JoinOntoNormal(Eval(f, env, left), [e.right]);
      if "/" <= tail { JoinOntoNormal(Eval(f, env, left), [Str(id, tail[1..])]); }
    case Call(_, _, _) => CallNormal(f, env, e);
    case _ =>
  }

  lemma {:induction false} CallNormal(f: File, env: Env, call: Expr)
    requires NormalEnv(f, env) && call.Call?
    ensures NormalOutcome(EvalCall(f, env, call))
    decreases call, 0
  {
    ConstantsNormal();
    var func, args := call.func, call.args;
    if func.Attribute? {
      EvalNormal(f, env, func.value);
      JoinOntoNormal(Eval(f, env, func.value), args);
    }
    if args != [] {
      EvalNormal(f, env, args[0]);
      ParentOfNormal(Eval(f, env, args[0]), 1);
      JoinOntoNormal(Eval(f, env, args[0]), args[1..]);
      if args[0].Str? { JoinAndParentNormal(AMBIENT_DIR, args[0].text); }
    }
    CallNormalFromParts(f, env, call);
  }

  lemma CallNormalFromParts(f: File, env: Env, call: Expr)
    requires NormalEnv(f, env) && call.Call? && IsNormal(AMBIENT_DIR)
    requires call.func.Attribute? ==>
               && NormalOutcome(Eval(f, env, call.func.value))
               && NormalOutcome(JoinOnto(Eval(f, env, call.func.value), call.args))
    requires call.args != [] ==>
               && NormalOutcome(Eval(f, env, call.args[0]))
               && NormalOutcome(ParentOf(Eval(f, env, call.args[0]), 1))
               && NormalOutcome(JoinOnto(Eval(f, env, call.args[0]), call.args[1..]))
               && (call.args[0].Str? ==> IsNormal(JoinPath(AMBIENT_DIR, call.args[0].text)))
    ensures NormalOutcome(EvalCall(f, env, call))
  {
  }

  lemma {:induction false} FirstReturnNormal(f: File, env: Env, results: seq<Expr>)
    requires NormalEnv(f, env)
    ensures NormalOutcome(FirstReturn(f, env, results))
  {
    if results != [] {
      EvalNormal(f, env, results[0]);
      FirstReturnNormal(f, env, results[1..]);
    }
  }

  lemma {:induction false} BindTargetsNormal(f: File, env: Env, targets: seq<Expr>, value: string)
    requires NormalEnv(f, env) && IsNormal(value)
    ensures NormalEnv(f, BindTargets(f, env, targets, value))
    decreases |targets|
  {
    if targets != [] {
      var next :=
        if targets[0].Name? && KeyOf(f, targets[0]) !in env.names
        then env.(names := env.names[KeyOf(f, targets[0]) := value])
        else env;
      BindTargetsNormal(f, next, targets[1..], value);
    }
  }

  lemma BindOneNormal(f: File, env: Env, b: Binder)
    requires NormalEnv(f, env) && BindOne(f, env, b).Some?
    ensures NormalEnv(f, BindOne(f, env, b).value)
  {
    ConstantsNormal();
    match b
    case Function(name, results) => FirstReturnNormal(f, env, results);
    case _ =>
      var o := BoundValue(f, env, b);
      BoundValueNormal(f, env, b);
      if o.Path? { BindTargetsNormal(f, env, Targets(b), o.path); }
  }

  lemma BoundValueNormal(f: File, env: Env, b: Binder)
    requires NormalEnv(f, env)
    ensures NormalOutcome(BoundValue(f, env, b))
  {
    ConstantsNormal();
    match b
    case Assign(_, value) => EvalNormal(f, env, value);
    case AnnAssign(_, Some(value)) => EvalNormal(f, env, value);
    case _ =>
  }

  lemma {:induction false} RoundNormal(f: File, env: Env, binders: seq<Binder>)
    requires NormalEnv(f, env) && Round(f, env, binders).Some?
    ensures NormalEnv(f, Round(f, env, binders).value)
    decreases |binders|
  {
    if binders != [] {
      BindOneNormal(f, env, binders[0]);
      RoundNormal(f, BindOne(f, env, binders[0]).value, binders[1..]);
    }
  }

  /** The loop keeps every bound value in normal form. */
  lemma {:induction false} RunNormal(f: File, binders: seq<Binder>, run: Run)
    requires IsRun(f, binders, run) && NormalEnv(f, run.First())
    ensures NormalEnv(f, run.env)
  {
    if run.Then? {
      RunNormal(f, binders, run.before);
      RoundNormal(f, run.before.env, binders);
    }
  }

  // ---- values can move as bindings grow --------------------------------------------

  /** Binding more keys keeps an expression evaluating but may change its value: an inner
      scope bound later shadows the outer one. */
  lemma ShadowingMovesAValue()
    ensures exists f, env, env', e ::
              Extends(env, env') && Eval(f, env, e) == Path("") && Eval(f, env', e) == Path("website")
  {
    var f := File("test/tests/test_x.py", map[1 := [7, 0]]);
    var env := Env(map[(0, "R") := ""], map[]);
    var env' := Env(map[(0, "R") := "", (7, "R") := "website"], map[]);
    var e := Name(1, "R");
    assert ScopesOf(f, 1)[1..] == [0];
    assert Lookup(env.names, [0], "R") == Path("");
    assert Extends(env, env') && Eval(f, env, e) == Path("") && Eval(f, env', e) == Path("website");
  }

  // ---- the cap is sharp --------------------------------------------------------------

  /** The `k`-th name of a chain; the root is the zeroth. */
  function ChainName(k: nat): string {
    if k == 0 then ROOT_NAME else seq(k, _ => 'x')
  }

  /** `x_n = x_{n-1}; ...; x_1 = PROJECT_ROOT`: a module whose aliases are written before
      what they alias. */
  function Chain(n: nat): seq<Binder> {
    if n == 0 then [] else [Assign([Name(0, ChainName(n))], Name(0, ChainName(n - 1)))] + Chain(n - 1)
  }

  /** The environment with exactly the first `r` names of the chain bound, to the root. */
  function ChainEnv(r: nat): Env {
    Env(map k: Key | k in ChainKeys(r) :: "", map[])
  }

  function ChainKeys(r: nat): set<Key> {
    if r == 0 then {(MODULE_SCOPE, ROOT_NAME)} else ChainKeys(r - 1) + {(MODULE_SCOPE, ChainName(r))}
  }

  const CHAIN_FILE := File("test/tests/test_chain.py", map[])

  lemma ChainNameInjective(j: nat, k: nat)
    requires j != k
    ensures ChainName(j) != ChainName(k)
  {
    assert ROOT_NAME[0] == 'P';
    if j > 0 { assert |ChainName(j)| == j && ChainName(j)[0] == 'x'; }
    if k > 0 { assert |ChainName(k)| == k && ChainName(k)[0] == 'x'; }
  }

  lemma {:induction false} ChainKeyIff(r: nat, k: nat)
    ensures (MODULE_SCOPE, ChainName(k)) in ChainKeys(r) <==> k <= r
  {
    if k != r { ChainNameInjective(k, r); }
    if r > 0 { ChainKeyIff(r - 1, k); }
  }

  lemma ChainLookup(r: nat, k: nat)
    ensures Eval(CHAIN_FILE, ChainEnv(r), Name(0, ChainName(k))) == if k <= r then Path("") else Nothing
  {
    ChainKeyIff(r, k);
    assert ChainName(k) != "__file__" by { if k > 0 { assert ChainName(k)[0] == 'x'; } }
    var names := ChainEnv(r).names;
    assert Lookup(names, [MODULE_SCOPE], ChainName(k)) == (if k <= r then Path("") else Nothing) by {
      assert [MODULE_SCOPE][1..] == [];
    }
  }

  lemma BindSingle(f: File, env: Env, target: Expr, value: string)
    requires target.Name?
    ensures BindTargets(f, env, [target], value) ==
            if KeyOf(f, target) in env.names then env else env.(names := env.names[KeyOf(f, target) := value])
  {
    var next := if KeyOf(f, target) in env.names then env else env.(names := env.names[KeyOf(f, target) := value]);
    assert BindTargets(f, next, [], value) == next;
    assert [target][1..] == [];
  }

  /** One binder of the chain binds exactly when its source is the last bound name. */
  lemma ChainBind(r: nat, k: nat)
    requires k >= 1
    ensures BindOne(CHAIN_FILE, ChainEnv(r), Assign([Name(0, ChainName(k))], Name(0, ChainName(k - 1))))
         == Some(ChainEnv(if k == r + 1 then r + 1 else r))
  {
    var target := Name(0, ChainName(k));
    ChainLookup(r, k - 1);
    ChainKeyIff(r, k);
    BindSingle(CHAIN_FILE, ChainEnv(r), target, "");
    assert KeyOf(CHAIN_FILE, target) == (MODULE_SCOPE, ChainName(k));
    if k == r + 1 {
      assert ChainEnv(r + 1).names == ChainEnv(r).names[(MODULE_SCOPE, ChainName(k)) := ""];
    }
  }

  lemma RoundCons(f: File, env: Env, b: Binder, rest: seq<Binder>, next: Env)
    requires BindOne(f, env, b) == Some(next)
    ensures Round(f, env, [b] + rest) == Round(f, next, rest)
  {
    assert ([b] + rest)[0] == b && ([b] + rest)[1..] == rest;
  }

  /** A round over the first `n` binders of the chain binds one more name, or none. */
  lemma {:induction false} ChainRound(r: nat, n: nat)
    ensures Round(CHAIN_FILE, ChainEnv(r), Chain(n)) == Some(ChainEnv(if r < n then r + 1 else r))
    decreases n
  {
    if n > 0 {
      var next := if n == r + 1 then r + 1 else r;
      var b := Assign([Name(0, ChainName(n))], Name(0, ChainName(n - 1)));
      ChainBind(r, n);
      RoundCons(CHAIN_FILE, ChainEnv(r), b, Chain(n - 1), ChainEnv(next));
      ChainRound(next, n - 1);
    }
  }

  function ChainRun(r: nat): Run {
    if r == 0 then Start(ChainEnv(0)) else Then(ChainRun(r - 1), ChainEnv(r))
  }

  lemma {:induction false} ChainRunIsRun(r: nat, n: nat)
    requires r <= n
    ensures IsRun(CHAIN_FILE, Chain(n), ChainRun(r))
    ensures ChainRun(r).Length() == r && ChainRun(r).First() == ChainEnv(0) && ChainRun(r).env == ChainEnv(r)
  {
    if r > 0 {
      ChainRunIsRun(r - 1, n);
      ChainRound(r - 1, n);
      ChainKeyIff(r, r);
      ChainKeyIff(r - 1, r);
      assert (MODULE_SCOPE, ChainName(r)) in ChainEnv(r).names;
    }
  }

  lemma ChainEnvGrows(r: nat)
    ensures ChainEnv(r) != ChainEnv(r + 1)
  {
    ChainKeyIff(r, r + 1);
    ChainKeyIff(r + 1, r + 1);
    assert (MODULE_SCOPE, ChainName(r + 1)) in ChainEnv(r + 1).names;
  }

  /** Every run over the chain binds one name a round, until none is left. */
  lemma {:induction false} RunIsChain(n: nat, run: Run)
    requires IsRun(CHAIN_FILE, Chain(n), run) && run.First() == ChainEnv(0)
    ensures run.Length() <= n && run.env == ChainEnv(run.Length())
  {
    if run.Then? {
      RunIsChain(n, run.before);
      ChainRound(run.before.Length(), n);
    }
  }

  /** The cap is sharp: the loop over a chain of `n` aliases settles under a cap exactly when
      the chain is no longer than the cap. A chain of 65 therefore ends the source's loop with
      an alias that evaluates and is not bound. */
  lemma CapIsSharp(n: nat, cap: nat, run: Run)
    requires CappedRun(CHAIN_FILE, Chain(n), cap, run) && run.First() == ChainEnv(0)
    ensures AllSettled(CHAIN_FILE, run.env, Chain(n)) <==> n <= cap
  {
    var r := run.Length();
    RunIsChain(n, run);
    ChainRound(r, n);
    ChainEnvGrows(r);
    if r < n { ChainNotSettled(r, n); } else { StuckIsSettled(CHAIN_FILE, run.env, Chain(n)); }
  }

  /** The loop over the chain does run: some capped run starts there. */
  lemma ChainRuns(n: nat, cap: nat) returns (run: Run)
    ensures CappedRun(CHAIN_FILE, Chain(n), cap, run) && run.First() == ChainEnv(0)
  {
    var r := if n <= cap then n else cap;
    run := ChainRun(r);
    ChainRunIsRun(r, n);
    if n <= cap { ChainRound(n, n); }
  }

  lemma ChainNotSettled(r: nat, n: nat)
    requires r < n
    ensures !AllSettled(CHAIN_FILE, ChainEnv(r), Chain(n))
  {
    ChainAt(n, n - r - 1);
    ChainLookup(r, r);
    ChainKeyIff(r, r + 1);
    var b := Chain(n)[n - r - 1];
    var target := Name(0, ChainName(r + 1));
    assert Targets(b)[0] == target;
    assert KeyOf(CHAIN_FILE, target) in NameKeys(CHAIN_FILE, b);
    assert !Settled(CHAIN_FILE, ChainEnv(r), b);
  }

  lemma {:induction false} ChainAt(n: nat, i: nat)
    requires i < n
    ensures |Chain(n)| == n
    ensures Chain(n)[i] == Assign([Name(0, ChainName(n - i))], Name(0, ChainName(n - i - 1)))
  {
    if i > 0 { ChainAt(n - 1, i - 1); } else if n > 1 { ChainAt(n - 1, 0); }
  }
}

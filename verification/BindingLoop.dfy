/** The binding loop under its cap: how long it can go on, and when it ends at a fixpoint. */
module BindingLoop {
  import opened Text
  import opened PathEvaluator

  /** The keys some binder can bind, and how many of them an environment leaves unbound. */
  datatype KeySpace = KeySpace(names: set<Key>, functions: set<string>) {
    function Unbound(env: Env): nat {
      |names - env.names.Keys| + |functions - env.functions.Keys|
    }
  }

  function KeySpaceOf(f: File, binders: seq<Binder>): KeySpace {
    KeySpace(AllNameKeys(f, binders), AllFunctionKeys(binders))
  }

  /** Growing inside `all` closes the gap to it, strictly if anything was added. */
  lemma GapShrinks<T>(all: set<T>, before: set<T>, after: set<T>)
    requires before <= after <= before + all
    ensures |all - after| <= |all - before|
    ensures before != after ==> |all - after| < |all - before|
  {
    var gain := after - before;
    assert all - before == (all - after) + gain;
    if before != after { assert gain != {}; }
  }

  /** Every productive round binds at least one of the keys that were unbound. */
  lemma ProductiveRound(f: File, env: Env, binders: seq<Binder>, next: Env, keys: KeySpace)
    requires Round(f, env, binders) == Some(next) && next != env && keys == KeySpaceOf(f, binders)
    ensures keys.Unbound(next) < keys.Unbound(env)
  {
    RoundExtends(f, env, binders);
    GapShrinks(keys.names, env.names.Keys, next.names.Keys);
    GapShrinks(keys.functions, env.functions.Keys, next.functions.Keys);
    if next.names.Keys == env.names.Keys && next.functions.Keys == env.functions.Keys {
      SameKeysSameEnv(env, next);
    }
  }

  lemma SameKeysSameEnv(env: Env, next: Env)
    requires Extends(env, next) && next.names.Keys == env.names.Keys && next.functions.Keys == env.functions.Keys
    ensures next == env
  {
    assert next.names == env.names && next.functions == env.functions;
  }

  /** A run of productive rounds is no longer than the number of keys it started without. */
  lemma {:induction false} RunIsShort(f: File, binders: seq<Binder>, run: Run, keys: KeySpace)
    requires IsRun(f, binders, run) && keys == KeySpaceOf(f, binders)
    ensures keys.Unbound(run.env) + run.Length() <= keys.Unbound(run.First())
  {
    if run.Then? {
      RunIsShort(f, binders, run.before, keys);
      ProductiveRound(f, run.before.env, binders, run.env, keys);
    }
  }

  /** With no more unbound keys than the cap, the loop ends where nothing is left to bind. */
  lemma CapReachesFixpoint(f: File, binders: seq<Binder>, cap: nat, run: Run)
    requires CappedRun(f, binders, cap, run) && KeySpaceOf(f, binders).Unbound(run.First()) <= cap
    ensures AllSettled(f, run.env, binders)
  {
    if run.Length() < cap {
      StuckIsSettled(f, run.env, binders);
    } else {
      RunIsShort(f, binders, run, KeySpaceOf(f, binders));
      NothingUnbound(f, run.env, binders);
    }
  }

  lemma StuckIsSettled(f: File, env: Env, binders: seq<Binder>)
    requires Round(f, env, binders) == Some(env)
    ensures AllSettled(f, env, binders)
  {
    RoundExtends(f, env, binders);
  }

  lemma NothingUnbound(f: File, env: Env, binders: seq<Binder>)
    requires KeySpaceOf(f, binders).Unbound(env) == 0
    ensures AllSettled(f, env, binders)
  {
    NoGap(AllNameKeys(f, binders), env.names.Keys);
    NoGap(AllFunctionKeys(binders), env.functions.Keys);
    forall k | 0 <= k < |binders| ensures Settled(f, env, binders[k]) {
      OwnKeys(f, binders, k);
    }
  }

  lemma NoGap<T>(all: set<T>, bound: set<T>)
    requires |all - bound| == 0
    ensures all <= bound
  {
    assert all <= bound + (all - bound);
    assert all - bound == {};
  }

  /** The loop never overwrites a bound name or function. */
  lemma {:induction false} RunExtends(f: File, binders: seq<Binder>, run: Run)
    requires IsRun(f, binders, run)
    ensures Extends(run.First(), run.env)
  {
    if run.Then? {
      RunExtends(f, binders, run.before);
      RoundExtends(f, run.before.env, binders);
    }
  }
}

/** Which keys the binding loop binds does not depend on the order of the binders. */
module BindingOrder {
  import opened PathEvaluator
  import opened BindingLoop

  /** A settled environment that covers the start covers everything a binder can bind. */
  lemma BindOneStaysBelow(f: File, env: Env, b: Binder, top: Env)
    requires BindOne(f, env, b).Some? && Covers(env, top) && Settled(f, top, b)
    ensures Covers(BindOne(f, env, b).value, top)
  {
    match b
    case Function(name, results) => FirstReturnMonotone(f, env, top, results);
    case Assign(_, value) =>
      EvalMonotone(f, env, top, value);
      if Eval(f, env, value).Path? { BindTargetsExtends(f, env, Targets(b), Eval(f, env, value).path); }
    case AnnAssign(_, Some(value)) =>
      EvalMonotone(f, env, top, value);
      if Eval(f, env, value).Path? { BindTargetsExtends(f, env, Targets(b), Eval(f, env, value).path); }
    case Loop(_, Attribute(_, inner, attr)) =>
      EvalMonotone(f, env, top, inner);
      BindTargetsExtends(f, env, Targets(b), "");
    case _ =>
  }

  lemma {:induction false} RoundStaysBelow(f: File, env: Env, binders: seq<Binder>, top: Env)
    requires Round(f, env, binders).Some? && Covers(env, top)
    requires forall b :: b in binders ==> Settled(f, top, b)
    ensures Covers(Round(f, env, binders).value, top)
    decreases |binders|
  {
    if binders != [] {
      BindOneStaysBelow(f, env, binders[0], top);
      RoundStaysBelow(f, BindOne(f, env, binders[0]).value, binders[1..], top);
    }
  }

  lemma {:induction false} RunStaysBelow(f: File, binders: seq<Binder>, run: Run, top: Env)
    requires IsRun(f, binders, run) && Covers(run.First(), top)
    requires forall b :: b in binders ==> Settled(f, top, b)
    ensures Covers(run.env, top)
  {
    if run.Then? {
      RunStaysBelow(f, binders, run.before, top);
      RoundStaysBelow(f, run.before.env, binders, top);
    }
  }

  /** However it is capped, a loop binds no more than any settled environment above its start
      has; so one that settled ends with the fewest keys. */
  lemma SettledRunIsBelow(f: File, binders: seq<Binder>, run: Run, top: Env)
    requires IsRun(f, binders, run) && Covers(run.First(), top) && AllSettled(f, top, binders)
    ensures Covers(run.env, top)
  {
    SettledAnyOrder(f, top, binders, binders);
    RunStaysBelow(f, binders, run, top);
  }

  /** Which keys end up bound, and so which expressions evaluate, is the same for any two
      orders of the same binders from the same start, whenever each run settles. The
      values need not be the same. */
  lemma BindingOrderIrrelevant(f: File, one: seq<Binder>, run1: Run, two: seq<Binder>, run2: Run)
    requires IsRun(f, one, run1) && AllSettled(f, run1.env, one)
    requires IsRun(f, two, run2) && AllSettled(f, run2.env, two)
    requires Covers(run1.First(), run2.First()) && Covers(run2.First(), run1.First())
    requires forall b :: b in one <==> b in two
    ensures Covers(run1.env, run2.env) && Covers(run2.env, run1.env)
    ensures forall e :: Eval(f, run1.env, e).Path? <==> Eval(f, run2.env, e).Path?
  {
    RunExtends(f, one, run1);
    RunExtends(f, two, run2);
    SettledAnyOrder(f, run2.env, two, one);
    RunStaysBelow(f, one, run1, run2.env);
    SettledAnyOrder(f, run1.env, one, two);
    RunStaysBelow(f, two, run2, run1.env);
    SameKeysSameDefined(f, run1.env, run2.env);
  }

  lemma SameKeysSameDefined(f: File, r1: Env, r2: Env)
    requires Covers(r1, r2) && Covers(r2, r1)
    ensures forall e :: Eval(f, r1, e).Path? <==> Eval(f, r2, e).Path?
  {
    forall e ensures Eval(f, r1, e).Path? <==> Eval(f, r2, e).Path? {
      EvalMonotone(f, r1, r2, e);
      EvalMonotone(f, r2, r1, e);
    }
  }

  lemma SettledAnyOrder(f: File, env: Env, one: seq<Binder>, two: seq<Binder>)
    requires AllSettled(f, env, one) && forall b :: b in two ==> b in one
    ensures forall b :: b in two ==> Settled(f, env, b)
  {
    forall b | b in two ensures Settled(f, env, b) {
      var k :| 0 <= k < |one| && one[k] == b;
    }
  }
}

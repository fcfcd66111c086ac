/** `read_runs`: one walk of the build event stream, keeping for each label the run of its
    highest attempt. */
module RunReader {
  import opened Text

  datatype Output = Output(name: string, uri: string)

  /** A `testResult` event, its attempt as written if at all. */
  datatype TestResult = TestResult(target: string, attempt: Option<int>, outputs: seq<Output>,
                                   status: string, seconds: real)

  datatype Configured = Configured(target: string, aspect: bool, kind: string)

  /** One line of the stream; a blank or undecodable line has neither part. */
  datatype Event = Event(configured: Option<Configured>, result: Option<TestResult>)

  datatype Run = Run(log: string, status: string, seconds: real, kind: string)

  // ---- one event -----------------------------------------------------------------------------------

  datatype Try = Try(attempt: int, log: string, status: string, seconds: real)

  datatype Fact = Own(target: string, kind: string) | Tried(target: string, t: Try) | Nothing

  function Logs(outputs: seq<Output>): seq<string> {
    if outputs == [] then []
    else (if IsLog(outputs[0]) then [outputs[0].uri] else []) + Logs(outputs[1..])
  }

  /** What one event tells: its target's own kind, an attempt with a log, or nothing. A
      missing or zero attempt is the first. */
  function Sift(e: Event): Fact {
    if e.configured.Some? && !e.configured.value.aspect then Own(e.configured.value.target, e.configured.value.kind)
    else if e.result.None? then Nothing
    else var r := e.result.value;
         var logs := Logs(r.outputs);
         if r.target == "" || logs == [] then Nothing
         else Tried(r.target, Try(if r.attempt.Some? && r.attempt.value != 0 then r.attempt.value else 1,
                                  logs[|logs| - 1], r.status, r.seconds))
  }

  predicate IsLog(o: Output) { o.name == "test.log" && "file:" <= o.uri }

  /** The last log file among some outputs. */
  ghost predicate LastLog(outputs: seq<Output>, k: int) {
    0 <= k < |outputs| && IsLog(outputs[k]) && forall j :: k < j < |outputs| ==> !IsLog(outputs[j])
  }

  lemma {:induction false} LogsEndAtTheLast(outputs: seq<Output>)
    ensures Logs(outputs) == [] ==> forall j :: 0 <= j < |outputs| ==> !IsLog(outputs[j])
    ensures Logs(outputs) != [] ==>
              exists k :: LastLog(outputs, k) && outputs[k].uri == Logs(outputs)[|Logs(outputs)| - 1]
  {
    if outputs != [] {
      var rest := outputs[1..];
      LogsEndAtTheLast(rest);
      assert forall j :: 1 <= j < |outputs| ==> outputs[j] == rest[j - 1];
      if Logs(rest) != [] {
        var k :| LastLog(rest, k) && rest[k].uri == Logs(rest)[|Logs(rest)| - 1];
        assert LastLog(outputs, k + 1);
      } else if IsLog(outputs[0]) {
        assert LastLog(outputs, 0);
      }
    }
  }

  /** An event counts as an attempt exactly when it is a labelled result with a log file and
      not a target's own configured event; its log is then the last one listed, and only a
      written, non-zero attempt is taken as it is. */
  lemma TriedIs(e: Event)
    ensures Sift(e).Tried? <==> && !(e.configured.Some? && !e.configured.value.aspect) && e.result.Some?
                                && e.result.value.target != "" && exists k :: LastLog(e.result.value.outputs, k)
    ensures Sift(e).Tried? ==>
              var f, r := Sift(e), e.result.value;
              && f.target == r.target && f.t.status == r.status && f.t.seconds == r.seconds
              && (exists k :: LastLog(r.outputs, k) && f.t.log == r.outputs[k].uri)
              && (r.attempt == Some(f.t.attempt) || (f.t.attempt == 1 && (r.attempt.None? || r.attempt == Some(0))))
  {
    if e.result.Some? { LogsEndAtTheLast(e.result.value.outputs); }
  }

  function Facts(events: seq<Event>): seq<Fact> { seq(|events|, k requires 0 <= k < |events| => Sift(events[k])) }

  // ---- one label's share of the stream ------------------------------------------------------------------

  function Tries(facts: seq<Fact>, target: string): seq<Try> {
    if facts == [] then [] else AddTry(Tries(facts[..|facts| - 1], target), facts[|facts| - 1], target)
  }

  function AddTry(tries: seq<Try>, f: Fact, target: string): seq<Try> {
    if f.Tried? && f.target == target then tries + [f.t] else tries
  }

  function Kinds(facts: seq<Fact>, target: string): seq<string> {
    if facts == [] then [] else AddKind(Kinds(facts[..|facts| - 1], target), facts[|facts| - 1], target)
  }

  function AddKind(kinds: seq<string>, f: Fact, target: string): seq<string> {
    if f.Own? && f.target == target then kinds + [f.kind] else kinds
  }

  function Last(kinds: seq<string>): Option<string> { if kinds == [] then None else Some(kinds[|kinds| - 1]) }

  /** The attempt to beat, 0 when none is kept. */
  function Bar(kept: Option<Try>): int { if kept.Some? then kept.value.attempt else 0 }

  function Winner(tries: seq<Try>): Option<Try> {
    if tries == [] then None else Better(Winner(tries[..|tries| - 1]), tries[|tries| - 1])
  }

  function Better(kept: Option<Try>, t: Try): Option<Try> { if t.attempt >= Bar(kept) then Some(t) else kept }

  function RunFor(facts: seq<Fact>, target: string): Option<Run> {
    match Winner(Tries(facts, target))
    case None => None
    case Some(t) => Some(Run(t.log, t.status, t.seconds, Or(Last(Kinds(facts, target)))))
  }

  function Or(kind: Option<string>): string { if kind.Some? then kind.value else "" }

  /** The last try of maximal attempt. */
  ghost predicate LastMaximal(tries: seq<Try>, k: int) {
    && 0 <= k < |tries|
    && (forall j :: 0 <= j < k ==> tries[j].attempt <= tries[k].attempt)
    && (forall j :: k < j < |tries| ==> tries[j].attempt < tries[k].attempt)
  }

  /** The winner is the last try of maximal attempt, if that is not negative. */
  lemma {:induction false} WinnerIsLastMaximal(tries: seq<Try>)
    ensures Winner(tries).None? ==> forall j :: 0 <= j < |tries| ==> tries[j].attempt < 0
    ensures Winner(tries).Some? ==> Winner(tries).value.attempt >= 0
                                    && exists k :: LastMaximal(tries, k) && tries[k] == Winner(tries).value
  {
    if tries != [] {
      var init, last := tries[..|tries| - 1], tries[|tries| - 1];
      WinnerIsLastMaximal(init);
      if Winner(init).Some? {
        var k :| LastMaximal(init, k) && init[k] == Winner(init).value;
        WinnerStep(tries, k);
      } else if last.attempt >= 0 {
        assert LastMaximal(tries, |init|);
      }
    }
  }

  lemma WinnerStep(tries: seq<Try>, k: int)
    requires tries != [] && LastMaximal(tries[..|tries| - 1], k)
    ensures LastMaximal(tries, if tries[|tries| - 1].attempt >= tries[k].attempt then |tries| - 1 else k)
  {
    var init := tries[..|tries| - 1];
    assert forall j :: 0 <= j < |init| ==> init[j] == tries[j];
    assert forall j :: 0 <= j < |init| ==> tries[j].attempt <= tries[k].attempt;
  }

  // ---- the walk ------------------------------------------------------------------------------------

  lemma FactsPrefix(events: seq<Event>, i: nat)
    requires i < |events|
    ensures Facts(events[..i + 1]) == Facts(events[..i]) + [Sift(events[i])]
  {
  }

  lemma TriesSnoc(facts: seq<Fact>, f: Fact, target: string)
    ensures Tries(facts + [f], target) == AddTry(Tries(facts, target), f, target)
    ensures Kinds(facts + [f], target) == AddKind(Kinds(facts, target), f, target)
  {
    assert (facts + [f])[..|facts|] == facts;
  }

  lemma WinnerSnoc(tries: seq<Try>, t: Try)
    ensures Winner(tries + [t]) == Better(Winner(tries), t)
  {
    assert (tries + [t])[..|tries|] == tries;
  }

  /** `best` and `kinds` are right for the facts so far. */
  ghost predicate Kept(facts: seq<Fact>, best: map<string, Try>, kinds: map<string, string>) {
    forall target :: KeptFor(facts, target, best, kinds)
  }

  ghost predicate KeptFor(facts: seq<Fact>, target: string, best: map<string, Try>, kinds: map<string, string>) {
    Look(best, target) == Winner(Tries(facts, target)) && Look(kinds, target) == Last(Kinds(facts, target))
  }

  lemma KeepsOwn(facts: seq<Fact>, f: Fact, best: map<string, Try>, kinds: map<string, string>,
                 kinds': map<string, string>)
    requires Kept(facts, best, kinds) && f.Own? && kinds' == kinds[f.target := f.kind]
    ensures Kept(facts + [f], best, kinds')
  {
    forall target ensures KeptFor(facts + [f], target, best, kinds') {
      assert KeptFor(facts, target, best, kinds);
      TriesSnoc(facts, f, target);
    }
  }

  lemma KeepsTried(facts: seq<Fact>, f: Fact, best: map<string, Try>, kinds: map<string, string>)
    requires Kept(facts, best, kinds) && f.Tried?
    ensures Kept(facts + [f], if f.t.attempt >= Bar(Look(best, f.target)) then best[f.target := f.t] else best, kinds)
  {
    var best' := if f.t.attempt >= Bar(Look(best, f.target)) then best[f.target := f.t] else best;
    forall target ensures KeptFor(facts + [f], target, best', kinds) {
      assert KeptFor(facts, target, best, kinds);
      TriesSnoc(facts, f, target);
      if target == f.target {
        WinnerSnoc(Tries(facts, target), f.t);
      } else {
        assert Look(best', target) == Look(best, target);
      }
    }
  }

  lemma KeepsNothing(facts: seq<Fact>, f: Fact, best: map<string, Try>, kinds: map<string, string>)
    requires Kept(facts, best, kinds) && f.Nothing?
    ensures Kept(facts + [f], best, kinds)
  {
    forall target ensures KeptFor(facts + [f], target, best, kinds) {
      assert KeptFor(facts, target, best, kinds);
      TriesSnoc(facts, f, target);
    }
  }

  /** `runs` holds, for every label, what `RunFor` says. */
  ghost predicate Reads(events: seq<Event>, runs: map<string, Run>) {
    forall target :: Look(runs, target) == RunFor(Facts(events), target)
  }

  /** `read_runs`. */
  method ReadRuns(events: seq<Event>) returns (runs: map<string, Run>)
    ensures Reads(events, runs)
  {
    var best: map<string, Try> := map[];
    var kinds: map<string, string> := map[];
    var i := 0;
    assert Kept(Facts(events[..0]), best, kinds) by {
      forall target ensures KeptFor(Facts(events[..0]), target, best, kinds) { }
    }
    while i < |events|
      invariant 0 <= i <= |events|
      invariant Kept(Facts(events[..i]), best, kinds)
    {
      FactsPrefix(events, i);
      match Sift(events[i]) {
        case Own(target, kind) =>
          KeepsOwn(Facts(events[..i]), Own(target, kind), best, kinds, kinds[target := kind]);
          kinds := kinds[target := kind];
        case Tried(target, t) =>
          KeepsTried(Facts(events[..i]), Tried(target, t), best, kinds);
          if t.attempt >= Bar(Look(best, target)) { best := best[target := t]; }
        case Nothing =>
          KeepsNothing(Facts(events[..i]), Nothing, best, kinds);
      }
      i := i + 1;
    }
    assert events[..i] == events;
    runs := map target | target in best ::
              Run(best[target].log, best[target].status, best[target].seconds, Or(Look(kinds, target)));
    forall target ensures Look(runs, target) == RunFor(Facts(events), target) {
      assert KeptFor(Facts(events), target, best, kinds);
    }
  }

  // ---- what the result does not depend on ------------------------------------------------------------

  lemma {:induction false} NothingChangesNothing(a: seq<Fact>, b: seq<Fact>, target: string)
    ensures Tries(a + [Nothing] + b, target) == Tries(a + b, target)
    ensures Kinds(a + [Nothing] + b, target) == Kinds(a + b, target)
    decreases |b|
  {
    if b == [] {
      assert a + [Nothing] + b == a + [Nothing] && a + b == a;
      TriesSnoc(a, Nothing, target);
    } else {
      var init, last := b[..|b| - 1], b[|b| - 1];
      NothingChangesNothing(a, init, target);
      assert a + [Nothing] + b == (a + [Nothing] + init) + [last] && a + b == (a + init) + [last];
      TriesSnoc(a + [Nothing] + init, last, target);
      TriesSnoc(a + init, last, target);
    }
  }

  lemma FactsAround(a: seq<Event>, e: Event, b: seq<Event>)
    ensures Facts(a + [e] + b) == Facts(a) + [Sift(e)] + Facts(b) && Facts(a + b) == Facts(a) + Facts(b)
  {
  }

  /** Blank and undecodable lines, an aspect's event, a result without a label or a log:
      wherever one stands, the walk returns what it returns without it. */
  lemma IgnoredEvent(a: seq<Event>, e: Event, b: seq<Event>, runs: map<string, Run>)
    requires Sift(e) == Nothing
    ensures Reads(a + [e] + b, runs) <==> Reads(a + b, runs)
  {
    FactsAround(a, e, b);
    forall target ensures RunFor(Facts(a + [e] + b), target) == RunFor(Facts(a + b), target) {
      NothingChangesNothing(Facts(a), Facts(b), target);
    }
  }

  /** No label has two results of one attempt, nor two configured events of its own. */
  ghost predicate OneOfEach(facts: seq<Fact>) {
    forall i, j :: 0 <= i < j < |facts| ==> !Clash(facts[i], facts[j])
  }

  predicate Clash(f: Fact, g: Fact) {
    || (f.Tried? && g.Tried? && f.target == g.target && f.t.attempt == g.t.attempt)
    || (f.Own? && g.Own? && f.target == g.target)
  }

  lemma {:induction false} TriesAre(facts: seq<Fact>, target: string, t: Try)
    ensures t in Tries(facts, target) <==> Tried(target, t) in facts
  {
    if facts != [] {
      var init := facts[..|facts| - 1];
      TriesAre(init, target, t);
      assert facts == init + [facts[|facts| - 1]];
    }
  }

  lemma {:induction false} KindsAre(facts: seq<Fact>, target: string, kind: string)
    ensures kind in Kinds(facts, target) <==> Own(target, kind) in facts
  {
    if facts != [] {
      var init := facts[..|facts| - 1];
      KindsAre(init, target, kind);
      assert facts == init + [facts[|facts| - 1]];
    }
  }

  lemma NoClash(facts: seq<Fact>, f: Fact, g: Fact)
    requires OneOfEach(facts) && f in facts && g in facts && Clash(f, g)
    ensures f == g
  {
    var i :| 0 <= i < |facts| && facts[i] == f;
    var j :| 0 <= j < |facts| && facts[j] == g;
    assert Clash(g, f);
  }

  lemma WinnerBeats(tries: seq<Try>, t: Try)
    requires t in tries && t.attempt >= 0
    ensures Winner(tries).Some? && Winner(tries).value in tries && t.attempt <= Winner(tries).value.attempt
  {
    WinnerIsLastMaximal(tries);
    var j :| 0 <= j < |tries| && tries[j] == t;
    assert Winner(tries).Some?;
    var k :| LastMaximal(tries, k) && tries[k] == Winner(tries).value;
    assert j == k || j < k || k < j;
  }

  lemma WinnerMember(tries: seq<Try>)
    requires Winner(tries).Some?
    ensures Winner(tries).value in tries && Winner(tries).value.attempt >= 0
  {
    WinnerIsLastMaximal(tries);
  }

  ghost predicate SameFacts(a: seq<Fact>, b: seq<Fact>) { forall f :: f in a <==> f in b }

  lemma SameWinner(a: seq<Fact>, b: seq<Fact>, target: string)
    requires SameFacts(a, b) && OneOfEach(a)
    ensures Winner(Tries(a, target)) == Winner(Tries(b, target))
  {
    var wa, wb := Winner(Tries(a, target)), Winner(Tries(b, target));
    if wa.Some? { WinnerCarries(a, b, target); }
    if wb.Some? { WinnerCarries(b, a, target); }
    if wa.Some? && wb.Some? { NoClash(a, Tried(target, wa.value), Tried(target, wb.value)); }
  }

  lemma WinnerCarries(a: seq<Fact>, b: seq<Fact>, target: string)
    requires SameFacts(a, b) && Winner(Tries(a, target)).Some?
    ensures Winner(Tries(b, target)).Some?
    ensures Tried(target, Winner(Tries(a, target)).value) in a
    ensures Winner(Tries(a, target)).value.attempt <= Winner(Tries(b, target)).value.attempt
  {
    var t := Winner(Tries(a, target)).value;
    WinnerMember(Tries(a, target));
    TriesAre(a, target, t);
    TriesAre(b, target, t);
    WinnerBeats(Tries(b, target), t);
  }

  lemma SameKind(a: seq<Fact>, b: seq<Fact>, target: string)
    requires SameFacts(a, b) && OneOfEach(a)
    ensures Last(Kinds(a, target)) == Last(Kinds(b, target))
  {
    var ka, kb := Last(Kinds(a, target)), Last(Kinds(b, target));
    if ka.Some? { KindCarries(a, b, target); }
    if kb.Some? { KindCarries(b, a, target); }
    if ka.Some? && kb.Some? { NoClash(a, Own(target, ka.value), Own(target, kb.value)); }
  }

  lemma KindCarries(a: seq<Fact>, b: seq<Fact>, target: string)
    requires SameFacts(a, b) && Last(Kinds(a, target)).Some?
    ensures Own(target, Last(Kinds(a, target)).value) in a && Last(Kinds(b, target)).Some?
  {
    var kind := Last(Kinds(a, target)).value;
    KindsAre(a, target, kind);
    KindsAre(b, target, kind);
  }

  lemma SameFactsOf(a: seq<Event>, b: seq<Event>)
    requires multiset(a) == multiset(b)
    ensures SameFacts(Facts(a), Facts(b))
  {
    forall f | f in Facts(a) ensures f in Facts(b) { FactCarries(a, b, f); }
    forall f | f in Facts(b) ensures f in Facts(a) { FactCarries(b, a, f); }
  }

  lemma FactCarries(a: seq<Event>, b: seq<Event>, f: Fact)
    requires multiset(a) == multiset(b) && f in Facts(a)
    ensures f in Facts(b)
  {
    var i :| 0 <= i < |a| && Facts(a)[i] == f;
    assert a[i] in multiset(a);
    var j :| 0 <= j < |b| && b[j] == a[i];
    assert Facts(b)[j] == f;
  }

  /** Under any reordering of the stream the walk returns the same runs, when no label has two
      results of one attempt nor two configured events of its own. */
  lemma OrderIrrelevant(a: seq<Event>, b: seq<Event>, runs: map<string, Run>, runs': map<string, Run>)
    requires multiset(a) == multiset(b) && OneOfEach(Facts(a)) && Reads(a, runs) && Reads(b, runs')
    ensures runs == runs'
  {
    SameFactsOf(a, b);
    forall target ensures Look(runs, target) == Look(runs', target) {
      SameWinner(Facts(a), Facts(b), target);
      SameKind(Facts(a), Facts(b), target);
    }
    SameMaps(runs, runs');
  }

  lemma SameMaps<V>(m: map<string, V>, m': map<string, V>)
    requires forall key :: Look(m, key) == Look(m', key)
    ensures m == m'
  {
    assert forall key :: key in m ==> Look(m, key) == Some(m[key]);
    assert forall key :: key in m' ==> Look(m', key) == Some(m'[key]);
  }

  // ---- what the result does depend on ------------------------------------------------------------------

  lemma {:induction false} TriesConcat(a: seq<Fact>, b: seq<Fact>, target: string)
    ensures Tries(a + b, target) == Tries(a, target) + Tries(b, target)
    decreases |b|
  {
    if b == [] {
      assert a + b == a;
    } else {
      var init, last := b[..|b| - 1], b[|b| - 1];
      TriesConcat(a, init, target);
      assert a + b == (a + init) + [last];
      TriesSnoc(a + init, last, target);
    }
  }

  lemma TriesAround(a: seq<Fact>, f: Fact, b: seq<Fact>)
    requires f.Tried?
    ensures Tries(a + [f] + b, f.target) == Tries(a, f.target) + [f.t] + Tries(b, f.target)
  {
    TriesSnoc(a, f, f.target);
    TriesConcat(a + [f], b, f.target);
  }

  lemma MaximalWins(tries: seq<Try>, k: int)
    requires LastMaximal(tries, k) && tries[k].attempt >= 0
    ensures Winner(tries) == Some(tries[k])
  {
    WinnerIsLastMaximal(tries);
    assert Winner(tries).Some?;
    var i :| LastMaximal(tries, i) && tries[i] == Winner(tries).value;
    assert i == k || i < k || k < i;
  }

  /** No result of the target among the facts has an attempt over the bound. */
  ghost predicate NoHigher(facts: seq<Fact>, target: string, bound: int) {
    forall t :: Tried(target, t) in facts ==> t.attempt <= bound
  }

  lemma TriesNoHigher(facts: seq<Fact>, target: string, bound: int)
    requires NoHigher(facts, target, bound)
    ensures forall j :: 0 <= j < |Tries(facts, target)| ==> Tries(facts, target)[j].attempt <= bound
  {
    forall j | 0 <= j < |Tries(facts, target)| ensures Tries(facts, target)[j].attempt <= bound {
      TriesAre(facts, target, Tries(facts, target)[j]);
    }
  }

  /** The last result of maximal attempt is the one kept, whatever stands around it. */
  lemma LastAttemptWins(a: seq<Fact>, f: Fact, b: seq<Fact>)
    requires f.Tried? && f.t.attempt >= 0
    requires NoHigher(a, f.target, f.t.attempt) && NoHigher(b, f.target, f.t.attempt - 1)
    ensures Winner(Tries(a + [f] + b, f.target)) == Some(f.t)
  {
    TriesAround(a, f, b);
    TriesNoHigher(a, f.target, f.t.attempt);
    TriesNoHigher(b, f.target, f.t.attempt - 1);
    WinsBetween(Tries(a, f.target), f.t, Tries(b, f.target));
  }

  lemma WinsBetween(a: seq<Try>, t: Try, b: seq<Try>)
    requires t.attempt >= 0 && forall j :: 0 <= j < |a| ==> a[j].attempt <= t.attempt
    requires forall j :: 0 <= j < |b| ==> b[j].attempt <= t.attempt - 1
    ensures Winner(a + [t] + b) == Some(t)
  {
    MaximalBetween(a, t, b, a + [t] + b);
    MaximalWins(a + [t] + b, |a|);
  }

  lemma MaximalBetween(a: seq<Try>, t: Try, b: seq<Try>, tries: seq<Try>)
    requires tries == a + [t] + b && forall j :: 0 <= j < |a| ==> a[j].attempt <= t.attempt
    requires forall j :: 0 <= j < |b| ==> b[j].attempt <= t.attempt - 1
    ensures LastMaximal(tries, |a|) && tries[|a|] == t
  {
    forall j | |a| < j < |tries| ensures tries[j].attempt < t.attempt { assert tries[j] == b[j - |a| - 1]; }
  }

  lemma NoHigherAround(a: seq<Fact>, f: Fact, b: seq<Fact>, target: string, bound: int)
    requires NoHigher(a, target, bound) && NoHigher(b, target, bound)
    requires f.Tried? && f.t.attempt <= bound
    ensures NoHigher(a + [f] + b, target, bound)
  {
  }

  ghost predicate Keeps(runs: map<string, Run>, f: Fact)
    requires f.Tried?
  {
    && f.target in runs && runs[f.target].log == f.t.log
    && runs[f.target].status == f.t.status && runs[f.target].seconds == f.t.seconds
  }

  /** Two results of one attempt, wherever in the stream they stand, with no higher attempt
      anywhere and none as high after them: the later one is kept, so to exchange them is to
      exchange the run kept. */
  lemma TiesDependOnOrder(pre: seq<Event>, e: Event, mid: seq<Event>, e': Event, post: seq<Event>,
                          runs: map<string, Run>, runs': map<string, Run>)
    requires Sift(e).Tried? && Sift(e').Tried? && Clash(Sift(e), Sift(e')) && Sift(e).t.attempt >= 0
    requires NoHigher(Facts(pre), Sift(e).target, Sift(e).t.attempt)
    requires NoHigher(Facts(mid), Sift(e).target, Sift(e).t.attempt)
    requires NoHigher(Facts(post), Sift(e).target, Sift(e).t.attempt - 1)
    requires Reads(pre + [e] + mid + [e'] + post, runs) && Reads(pre + [e'] + mid + [e] + post, runs')
    ensures Keeps(runs, Sift(e')) && Keeps(runs', Sift(e))
  {
    LaterIsKept(pre, e, mid, e', post, runs);
    LaterIsKept(pre, e', mid, e, post, runs');
  }

  lemma LaterIsKept(pre: seq<Event>, e: Event, mid: seq<Event>, e': Event, post: seq<Event>, runs: map<string, Run>)
    requires Sift(e).Tried? && Sift(e').Tried? && Clash(Sift(e), Sift(e')) && Sift(e').t.attempt >= 0
    requires NoHigher(Facts(pre), Sift(e').target, Sift(e').t.attempt)
    requires NoHigher(Facts(mid), Sift(e').target, Sift(e').t.attempt)
    requires NoHigher(Facts(post), Sift(e').target, Sift(e').t.attempt - 1)
    requires Reads(pre + [e] + mid + [e'] + post, runs)
    ensures Keeps(runs, Sift(e'))
  {
    FactsAround(pre, e, mid);
    FactsAround(pre + [e] + mid, e', post);
    NoHigherAround(Facts(pre), Sift(e), Facts(mid), Sift(e').target, Sift(e').t.attempt);
    LastAttemptWins(Facts(pre + [e] + mid), Sift(e'), Facts(post));
    assert Look(runs, Sift(e').target) == RunFor(Facts(pre + [e] + mid + [e'] + post), Sift(e').target);
  }
}

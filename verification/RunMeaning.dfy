/** The run `read_runs` keeps for a label, on the events alone. */
module RunMeaning {
  import opened Text
  import opened RunReader

  /** The target's own configured event, not an aspect's. */
  predicate Configures(e: Event, target: string) {
    e.configured.Some? && !e.configured.value.aspect && e.configured.value.target == target
  }

  /** The kind Bazel last gave the target, or none. */
  ghost predicate KindIs(events: seq<Event>, target: string, kind: string) {
    if exists k :: 0 <= k < |events| && Configures(events[k], target)
    then exists k :: LastConfigures(events, target, k) && kind == events[k].configured.value.kind
    else kind == ""
  }

  ghost predicate LastConfigures(events: seq<Event>, target: string, k: int) {
    && 0 <= k < |events| && Configures(events[k], target)
    && forall j :: k < j < |events| ==> !Configures(events[j], target)
  }

  /** The last output called `test.log` at a file. */
  ghost predicate LogIs(outputs: seq<Output>, log: string) {
    exists k :: LogFile(outputs, k) && log == outputs[k].uri && forall j :: k < j ==> !LogFile(outputs, j)
  }

  predicate LogFile(outputs: seq<Output>, k: int) {
    0 <= k < |outputs| && outputs[k].name == "test.log" && "file:" <= outputs[k].uri
  }

  /** A labelled result with a log, in an event that configures no target of its own; a missing
      or zero attempt is the first. */
  ghost predicate Results(e: Event, target: string, t: Try) {
    && target != "" && !(e.configured.Some? && !e.configured.value.aspect)
    && e.result.Some? && e.result.value.target == target
    && t.status == e.result.value.status && t.seconds == e.result.value.seconds && LogIs(e.result.value.outputs, t.log)
    && t.attempt == if e.result.value.attempt in {None, Some(0)} then 1 else e.result.value.attempt.value
  }

  /** The result that counts: of no negative attempt, none before it of a higher one and none
      after it of one as high. */
  ghost predicate Counts(events: seq<Event>, target: string, k: int, t: Try) {
    && 0 <= k < |events| && Results(events[k], target, t) && t.attempt >= 0
    && (forall j, u :: 0 <= j < k && Results(events[j], target, u) ==> u.attempt <= t.attempt)
    && (forall j, u :: k < j < |events| && Results(events[j], target, u) ==> u.attempt < t.attempt)
  }

  ghost predicate RunInWords(events: seq<Event>, target: string, run: Run) {
    && KindIs(events, target, run.kind)
    && exists k, attempt :: Counts(events, target, k, Try(attempt, run.log, run.status, run.seconds))
  }

  lemma ResultsIs(e: Event, target: string, t: Try)
    ensures Results(e, target, t) <==> Sift(e) == Tried(target, t)
  {
    TriedIs(e);
    if e.result.Some? { LastLogIs(e.result.value.outputs, t.log); }
    if Results(e, target, t) { LastLogs(e.result.value.outputs, t.log, Sift(e).t.log); }
  }

  lemma LastLogIs(outputs: seq<Output>, log: string)
    ensures LogIs(outputs, log) <==> exists k :: LastLog(outputs, k) && log == outputs[k].uri
  {
    if k :| LastLog(outputs, k) && log == outputs[k].uri {
      assert forall j :: k < j ==> !LogFile(outputs, j);
    }
    if LogIs(outputs, log) {
      var k :| LogFile(outputs, k) && log == outputs[k].uri && forall j :: k < j ==> !LogFile(outputs, j);
      assert forall j :: 0 <= j < |outputs| ==> (IsLog(outputs[j]) <==> LogFile(outputs, j));
      assert LastLog(outputs, k);
    }
  }

  lemma LastLogs(outputs: seq<Output>, log: string, log': string)
    requires exists k :: LastLog(outputs, k) && log == outputs[k].uri
    requires exists k :: LastLog(outputs, k) && log' == outputs[k].uri
    ensures log == log'
  {
    var k :| LastLog(outputs, k) && log == outputs[k].uri;
    var k' :| LastLog(outputs, k') && log' == outputs[k'].uri;
    assert k == k' || k < k' || k' < k;
  }

  lemma ConfiguresIs(e: Event, target: string)
    ensures Configures(e, target) <==> Sift(e).Own? && Sift(e).target == target
    ensures Configures(e, target) ==> Sift(e).kind == e.configured.value.kind
  {
  }

  lemma FactIn(events: seq<Event>, f: Fact)
    ensures f in Facts(events) <==> exists k :: 0 <= k < |events| && Sift(events[k]) == f
  {
    if f in Facts(events) { var k :| 0 <= k < |events| && Facts(events)[k] == f; }
    if k :| 0 <= k < |events| && Sift(events[k]) == f { assert Facts(events)[k] == f; }
  }

  ghost predicate AllBelow(events: seq<Event>, target: string, bound: int) {
    forall j, u :: 0 <= j < |events| && Results(events[j], target, u) ==> u.attempt <= bound
  }

  lemma BelowIs(events: seq<Event>, target: string, bound: int)
    ensures AllBelow(events, target, bound) <==> NoHigher(Facts(events), target, bound)
  {
    forall j, u | 0 <= j < |events| ensures Results(events[j], target, u) <==> Sift(events[j]) == Tried(target, u) {
      ResultsIs(events[j], target, u);
    }
    forall u
      ensures Tried(target, u) in Facts(events)
         <==> exists j :: 0 <= j < |events| && Sift(events[j]) == Tried(target, u)
    {
      FactIn(events, Tried(target, u));
    }
  }

  /** The result that counts is the winner. */
  lemma CountingWins(events: seq<Event>, target: string, k: int, t: Try)
    requires Counts(events, target, k, t)
    ensures Winner(Tries(Facts(events), target)) == Some(t)
  {
    var a, b := events[..k], events[k + 1..];
    assert events == a + [events[k]] + b;
    assert AllBelow(a, target, t.attempt) && AllBelow(b, target, t.attempt - 1);
    BelowIs(a, target, t.attempt);
    BelowIs(b, target, t.attempt - 1);
    ResultsIs(events[k], target, t);
    FactsAround(a, events[k], b);
    LastAttemptWins(Facts(a), Sift(events[k]), Facts(b));
  }

  /** A result counts unless every attempt is negative. */
  lemma {:induction false} FindCounting(events: seq<Event>, target: string) returns (found: bool, k: int, t: Try)
    ensures found ==> Counts(events, target, k, t)
    ensures !found ==> AllBelow(events, target, -1)
  {
    if events == [] { return false, 0, Try(0, "", "", 0.0); }
    var init, last := events[..|events| - 1], events[|events| - 1];
    found, k, t := FindCounting(init, target);
    assert forall i :: 0 <= i < |init| ==> init[i] == events[i];
    var f := Sift(last);
    forall v ensures Results(last, target, v) <==> f == Tried(target, v) { ResultsIs(last, target, v); }
    if found { Counting(init, target, k, t); }
    if f.Tried? && f.target == target && f.t.attempt >= 0 && (!found || f.t.attempt >= t.attempt) {
      found, k, t := true, |init|, f.t;
    }
  }

  lemma Counting(events: seq<Event>, target: string, k: int, t: Try)
    requires Counts(events, target, k, t)
    ensures forall i, v :: 0 <= i < |events| && Results(events[i], target, v) ==> v.attempt <= t.attempt
  {
    forall i, v | 0 <= i < |events| && Results(events[i], target, v) ensures v.attempt <= t.attempt {
      if i == k {
        ResultsIs(events[k], target, v);
        ResultsIs(events[k], target, t);
      }
    }
  }

  lemma NoneWins(events: seq<Event>, target: string)
    requires AllBelow(events, target, -1)
    ensures Winner(Tries(Facts(events), target)).None?
  {
    BelowIs(events, target, -1);
    TriesNoHigher(Facts(events), target, -1);
    WinnerIsLastMaximal(Tries(Facts(events), target));
  }

  lemma {:induction false} KindsConcat(a: seq<Fact>, b: seq<Fact>, target: string)
    ensures Kinds(a + b, target) == Kinds(a, target) + Kinds(b, target)
    decreases |b|
  {
    if b == [] {
      assert a + b == a;
    } else {
      var init, last := b[..|b| - 1], b[|b| - 1];
      KindsConcat(a, init, target);
      assert a + b == (a + init) + [last];
      TriesSnoc(a + init, last, target);
    }
  }

  lemma {:induction false} NoKinds(facts: seq<Fact>, target: string)
    requires forall f :: f in facts && f.Own? ==> f.target != target
    ensures Kinds(facts, target) == []
  {
    if facts != [] {
      assert facts == facts[..|facts| - 1] + [facts[|facts| - 1]];
      NoKinds(facts[..|facts| - 1], target);
    }
  }

  lemma NoneConfigures(events: seq<Event>, target: string)
    requires forall k :: 0 <= k < |events| ==> !Configures(events[k], target)
    ensures Kinds(Facts(events), target) == []
  {
    forall f | f in Facts(events) && f.Own? ensures f.target != target {
      FactIn(events, f);
      var k :| 0 <= k < |events| && Sift(events[k]) == f;
      ConfiguresIs(events[k], target);
    }
    NoKinds(Facts(events), target);
  }

  lemma LastKind(events: seq<Event>, target: string, k: int)
    requires LastConfigures(events, target, k)
    ensures Last(Kinds(Facts(events), target)) == Some(events[k].configured.value.kind)
  {
    var a, e, b := events[..k], events[k], events[k + 1..];
    assert events == a + [e] + b;
    FactsAround(a, e, b);
    ConfiguresIs(e, target);
    NoneConfigures(b, target);
    TriesSnoc(Facts(a), Sift(e), target);
    KindsConcat(Facts(a) + [Sift(e)], Facts(b), target);
  }

  lemma {:induction false} LastConfiguring(events: seq<Event>, target: string, j: nat) returns (k: int)
    requires j < |events| && Configures(events[j], target)
    ensures LastConfigures(events, target, k)
  {
    var n := |events| - 1;
    if Configures(events[n], target) {
      k := n;
    } else {
      k := LastConfiguring(events[..n], target, j);
      assert forall i :: 0 <= i < n ==> events[..n][i] == events[i];
    }
  }

  /** The kind kept is the one Bazel gave last, in words. */
  lemma KindInWords(events: seq<Event>, target: string, kind: string)
    ensures Or(Last(Kinds(Facts(events), target))) == kind <==> KindIs(events, target, kind)
  {
    if j :| 0 <= j < |events| && Configures(events[j], target) {
      var k := LastConfiguring(events, target, j);
      LastKind(events, target, k);
      forall i | LastConfigures(events, target, i) ensures i == k { assert i == k || i < k || k < i; }
    } else {
      NoneConfigures(events, target);
    }
  }

  /** The run of a label, in words. */
  lemma RunIsInWords(events: seq<Event>, target: string, run: Run)
    ensures RunFor(Facts(events), target) == Some(run) <==> RunInWords(events, target, run)
  {
    KindInWords(events, target, run.kind);
    var found, k, t := FindCounting(events, target);
    if found {
      CountingWins(events, target, k, t);
      if RunFor(Facts(events), target) == Some(run) {
        assert t == Try(t.attempt, run.log, run.status, run.seconds);
      }
    } else {
      NoneWins(events, target);
    }
    if i, attempt :| Counts(events, target, i, Try(attempt, run.log, run.status, run.seconds)) {
      CountingWins(events, target, i, Try(attempt, run.log, run.status, run.seconds));
    }
  }

  /** Every label's run, in words. */
  lemma RunsInWords(events: seq<Event>, runs: map<string, Run>, target: string, run: Run)
    requires Reads(events, runs)
    ensures Look(runs, target) == Some(run) <==> RunInWords(events, target, run)
  {
    RunIsInWords(events, target, run);
    assert Look(runs, target) == RunFor(Facts(events), target);
  }
}

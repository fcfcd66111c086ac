/** `input_closure` of the tag guard: each rule's declared inputs expanded through the
    rules among them. A memoised depth-first search gives up on a cycle, and one
    worklist walk per record takes over. */
module InputClosure {
  import opened Reachability

  /** The tag vocabulary the guard knows, and any other tag by its spelling. */
  datatype Tag =
    | External | NoSandboxTag | NoRemoteCache | NoRemote | NoCache | Local | Exclusive
    | OtherTag(spelling: string)

  /** One `RULE` record of the query, reduced to what the guard judges. */
  datatype RuleRecord = RuleRecord(name: string, ruleClass: string, tags: set<Tag>,
                                   inputs: set<string>, stampZero: bool)

  /** `{record.label: record}`: the last record of a label wins. */
  function ByLabel(records: seq<RuleRecord>): map<string, RuleRecord> {
    if records == [] then map[]
    else ByLabel(records[..|records| - 1])[records[|records| - 1].name := records[|records| - 1]]
  }

  /** The one-hop input edges between labels; only rules have any. */
  function RuleGraph(records: seq<RuleRecord>): Graph {
    var rules := ByLabel(records);
    map rule | rule in rules :: rules[rule].inputs
  }

  lemma {:induction false} ByLabelKeys(records: seq<RuleRecord>, rule: string)
    ensures rule in ByLabel(records) <==> exists k :: 0 <= k < |records| && records[k].name == rule
    ensures rule in ByLabel(records) ==> ByLabel(records)[rule] in records && ByLabel(records)[rule].name == rule
  {
    if records != [] {
      var init := records[..|records| - 1];
      ByLabelKeys(init, rule);
      assert records == init + [records[|records| - 1]];
      if k :| 0 <= k < |init| && init[k].name == rule { assert records[k].name == rule; }
    }
  }

  // ---- the same, on the records alone ----------------------------------------------------

  /** No later record has the same label. */
  ghost predicate LastOfName(records: seq<RuleRecord>, k: int) {
    0 <= k < |records| && forall j :: k < j < |records| ==> records[j].name != records[k].name
  }

  /** `y` is among the inputs of the record that `x` names. */
  ghost predicate InputOf(records: seq<RuleRecord>, x: string, y: string) {
    exists k :: LastOfName(records, k) && records[k].name == x && y in records[k].inputs
  }

  ghost predicate InputChain(records: seq<RuleRecord>, p: seq<string>) {
    |p| >= 2 && forall i :: 0 <= i < |p| - 1 ==> InputOf(records, p[i], p[i + 1])
  }

  /** `x` is built from `y`: some chain of records leads from the one to the other, each naming
      the next among its inputs. */
  ghost predicate BuiltFrom(records: seq<RuleRecord>, x: string, y: string) {
    exists p :: InputChain(records, p) && p[0] == x && p[|p| - 1] == y
  }

  lemma {:induction false} ByLabelIsLast(records: seq<RuleRecord>, k: int)
    requires LastOfName(records, k)
    ensures records[k].name in ByLabel(records) && ByLabel(records)[records[k].name] == records[k]
  {
    var init := records[..|records| - 1];
    if k < |init| {
      assert LastOfName(init, k);
      ByLabelIsLast(init, k);
    }
  }

  lemma {:induction false} LastExists(records: seq<RuleRecord>, rule: string) returns (k: int)
    requires rule in ByLabel(records)
    ensures LastOfName(records, k) && records[k].name == rule
  {
    var init := records[..|records| - 1];
    if records[|records| - 1].name == rule {
      k := |records| - 1;
    } else {
      k := LastExists(init, rule);
      assert records[k] == init[k];
    }
  }

  lemma InputIsEdge(records: seq<RuleRecord>, x: string, y: string)
    ensures InputOf(records, x, y) <==> y in Succ(RuleGraph(records), x)
  {
    if InputOf(records, x, y) {
      var k :| LastOfName(records, k) && records[k].name == x && y in records[k].inputs;
      ByLabelIsLast(records, k);
    }
    if y in Succ(RuleGraph(records), x) {
      var k := LastExists(records, x);
      ByLabelIsLast(records, k);
    }
  }

  /** The reach of the rule graph is what the records say a rule is built from. */
  lemma ReachIsBuiltFrom(records: seq<RuleRecord>, x: string, y: string)
    ensures y in ReachSet(RuleGraph(records), x) <==> BuiltFrom(records, x, y)
    ensures Reaches(RuleGraph(records), x, y) <==> BuiltFrom(records, x, y)
  {
    var g := RuleGraph(records);
    ReachSetIff(g, x, y);
    if Reaches(g, x, y) {
      var p :| IsPath(g, p) && p[0] == x && p[|p| - 1] == y;
      forall i | 0 <= i < |p| - 1 ensures InputOf(records, p[i], p[i + 1]) { InputIsEdge(records, p[i], p[i + 1]); }
      assert InputChain(records, p);
    }
    if BuiltFrom(records, x, y) {
      var p :| InputChain(records, p) && p[0] == x && p[|p| - 1] == y;
      forall i | 0 <= i < |p| - 1 ensures p[i + 1] in Succ(g, p[i]) { InputIsEdge(records, p[i], p[i + 1]); }
      assert IsPath(g, p);
    }
  }

  lemma CyclesAreOfRecords(records: seq<RuleRecord>)
    ensures HasCycle(RuleGraph(records)) <==> exists x :: BuiltFrom(records, x, x)
  {
    if x :| Reaches(RuleGraph(records), x, x) { ReachIsBuiltFrom(records, x, x); }
    if x :| BuiltFrom(records, x, x) { ReachIsBuiltFrom(records, x, x); }
  }

  /** The state the nested function `reach` shares with its caller. */
  class Search {
    const graph: Graph
    var closure: map<string, set<string>>
    var visiting: set<string>

    /** What the memo holds: finished rules with their exact reach, closed under rule
        edges, none of them on a cycle. */
    ghost predicate Valid()
      reads this
    {
      && closure.Keys <= graph.Keys
      && visiting <= graph.Keys
      && visiting !! closure.Keys
      && (forall l :: l in closure ==> closure[l] == ReachSet(graph, l))
      && (forall l :: l in closure ==> !Reaches(graph, l, l))
      && (forall l, d :: l in closure && d in graph[l] && d in graph ==> d in closure)
    }

    constructor (g: Graph)
      ensures graph == g && closure == map[] && visiting == {} && Valid()
    {
      graph, closure, visiting := g, map[], {};
    }

    /** The nested function `reach`; `cyclic` is the raised `_Cycle`. */
    method Reach(rule: string) returns (cyclic: bool, result: set<string>)
      requires Valid() && rule in graph
      requires forall v :: v in visiting ==> Reaches(graph, v, rule)
      modifies this
      ensures cyclic <==> MeetsCycle(graph, rule)
      ensures !cyclic ==> Valid() && visiting == old(visiting)
      ensures !cyclic ==> rule in closure && result == closure[rule]
      ensures !cyclic ==> old(closure).Keys <= closure.Keys
      decreases graph.Keys - visiting
    {
      if rule in closure {
        FinishedMeetsNone(graph, closure, rule);
        return false, closure[rule];
      }
      if rule in visiting {
        return true, {};
      }
      visiting := visiting + {rule};
      var seen := graph[rule];
      var rest := graph[rule];
      forall d | d in graph[rule] ensures Reaches(graph, rule, d) { EdgeReaches(graph, rule, d); }
      while rest != {}
        invariant Valid() && visiting == old(visiting) + {rule} && rule !in closure
        invariant old(closure).Keys <= closure.Keys
        invariant rest <= graph[rule] <= seen
        invariant forall d :: d in graph[rule] && d in graph && d !in rest ==> d in closure && closure[d] <= seen
        invariant forall y :: y in seen ==> Reaches(graph, rule, y)
        decreases rest
      {
        var dep :| dep in rest;
        rest := rest - {dep};
        if dep in graph {
          forall v | v in visiting ensures Reaches(graph, v, dep) {
            if v != rule { ReachesTransitive(graph, v, rule, dep); }
          }
          var below: set<string>;
          cyclic, below := Reach(dep);
          if cyclic {
            CycleBelow(graph, rule, dep);
            return true, {};
          }
          forall y | y in below ensures Reaches(graph, rule, y) {
            ReachSetIff(graph, dep, y);
            ReachesTransitive(graph, rule, dep, y);
          }
          seen := seen + below;
        }
      }
      FinishedIsExact(graph, rule, seen, closure);
      visiting := visiting - {rule};
      closure := closure[rule := seen];
      FinishedMeetsNone(graph, closure, rule);
      return false, seen;
    }
  }

  /** The rule is on a cycle or reaches one. */
  ghost predicate MeetsCycle(g: Graph, rule: string) {
    exists x :: (x == rule || Reaches(g, rule, x)) && Reaches(g, x, x)
  }

  lemma CycleBelow(g: Graph, rule: string, dep: string)
    requires Reaches(g, rule, dep) && MeetsCycle(g, dep)
    ensures MeetsCycle(g, rule)
  {
    var x :| (x == dep || Reaches(g, dep, x)) && Reaches(g, x, x);
    if x != dep { ReachesTransitive(g, rule, dep, x); }
  }

  /** A finished rule meets no cycle: the search raises exactly when its rule does. */
  lemma FinishedMeetsNone(g: Graph, closure: map<string, set<string>>, rule: string)
    requires rule in closure && closure.Keys <= g.Keys
    requires forall l :: l in closure ==> !Reaches(g, l, l)
    requires forall l, d :: l in closure && d in g[l] && d in g ==> d in closure
    ensures !MeetsCycle(g, rule)
  {
    if x :| (x == rule || Reaches(g, rule, x)) && Reaches(g, x, x) {
      ReachesIsNode(g, x, x);
      if x != rule {
        var p :| IsPath(g, p) && p[0] == rule && p[|p| - 1] == x;
        RulesOnPathFinished(g, p, closure, |p| - 1);
      }
    }
  }

  /** A rule whose rule inputs are all finished, and which is not finished itself, has
      exactly the collected reach and lies on no cycle. */
  lemma FinishedIsExact(g: Graph, rule: string, seen: set<string>, closure: map<string, set<string>>)
    requires rule in g && rule !in closure && g[rule] <= seen
    requires forall l :: l in closure ==> l in g && closure[l] == ReachSet(g, l)
    requires forall l, d :: l in closure && d in g[l] && d in g ==> d in closure
    requires forall d :: d in g[rule] && d in g ==> d in closure && closure[d] <= seen
    requires forall y :: y in seen ==> Reaches(g, rule, y)
    ensures seen == ReachSet(g, rule)
    ensures !Reaches(g, rule, rule)
  {
    forall y ensures y in seen <==> y in ReachSet(g, rule) {
      ReachSetIff(g, rule, y);
      if Reaches(g, rule, y) && y !in g[rule] {
        FirstEdge(g, rule, y);
        var z :| z in Succ(g, rule) && Reaches(g, z, y);
        ReachesIsNode(g, z, y);
        ReachSetIff(g, z, y);
      }
    }
    if Reaches(g, rule, rule) {
      var p :| IsPath(g, p) && p[0] == rule && p[|p| - 1] == rule;
      RulesOnPathFinished(g, p, closure, |p| - 1);
    }
  }

  /** Along a path out of a rule with finished inputs, every later rule is finished. */
  lemma {:induction false} RulesOnPathFinished(g: Graph, p: seq<string>, closure: map<string, set<string>>, k: nat)
    requires IsPath(g, p) && p[0] in g && 1 <= k < |p|
    requires closure.Keys <= g.Keys
    requires forall d :: d in g[p[0]] && d in g ==> d in closure
    requires forall l, d :: l in closure && d in g[l] && d in g ==> d in closure
    ensures p[k] in g ==> p[k] in closure
  {
    assert p[k - 1 + 1] in Succ(g, p[k - 1]);
    if k > 1 { RulesOnPathFinished(g, p, closure, k - 1); }
  }

  /** A set's members, in some order. */
  method Elements(s: set<string>) returns (xs: seq<string>)
    ensures forall x :: x in xs <==> x in s
  {
    xs := [];
    var rest := s;
    while rest != {}
      invariant rest <= s
      invariant forall x :: x in xs <==> x in s && x !in rest
      decreases rest
    {
      var x :| x in rest;
      xs, rest := xs + [x], rest - {x};
    }
  }

  /** The fallback: one walk from one record's inputs, popping the queue's last entry. */
  method Walk(graph: Graph, rule: string) returns (seen: set<string>)
    requires rule in graph
    ensures seen == ReachSet(graph, rule)
  {
    seen := {};
    var queue := Elements(graph[rule]);
    forall d | d in graph[rule] ensures Reaches(graph, rule, d) { EdgeReaches(graph, rule, d); }
    while queue != []
      invariant forall y :: y in seen || y in queue ==> Reaches(graph, rule, y)
      invariant forall y :: y in graph[rule] ==> y in seen || y in queue
      invariant forall z, y :: z in seen && y in Succ(graph, z) ==> y in seen || y in queue
      invariant seen <= Nodes(graph)
      decreases Nodes(graph) - seen, |queue|
    {
      var next := queue[|queue| - 1];
      ghost var before := queue;
      queue := queue[..|queue| - 1];
      assert before == queue + [next];
      if next !in seen {
        assert Reaches(graph, rule, next);
        ReachesIsNode(graph, rule, next);
        seen := seen + {next};
        if next in graph {
          forall d | d in graph[next] ensures Reaches(graph, rule, d) {
            EdgeReaches(graph, next, d);
            ReachesTransitive(graph, rule, next, d);
          }
          var more := Elements(graph[next]);
          queue := queue + more;
        }
      }
    }
    ClosedContainsReach(graph, rule, seen);
    forall y | y in seen ensures y in ReachSet(graph, rule) { ReachSetIff(graph, rule, y); }
  }

  /** The memoised half of `input_closure`: it gives up exactly when the rule graph has a
      cycle. */
  method SearchAll(records: seq<RuleRecord>) returns (cyclic: bool, closure: map<string, set<string>>)
    ensures cyclic <==> exists x :: BuiltFrom(records, x, x)
    ensures !cyclic ==> closure.Keys == RuleGraph(records).Keys
    ensures !cyclic ==> forall l :: l in closure ==> closure[l] == ReachSet(RuleGraph(records), l)
  {
    CyclesAreOfRecords(records);
    var search := new Search(RuleGraph(records));
    for i := 0 to |records|
      invariant search.Valid() && search.visiting == {} && search.graph == RuleGraph(records)
      invariant forall k :: 0 <= k < i ==> records[k].name in search.closure
    {
      ByLabelKeys(records, records[i].name);
      var found: set<string>;
      cyclic, found := search.Reach(records[i].name);
      if cyclic { return true, map[]; }
    }
    forall l | l in search.graph ensures l in search.closure { ByLabelKeys(records, l); }
    if HasCycle(search.graph) {
      var x :| Reaches(search.graph, x, x);
      ReachesIsNode(search.graph, x, x);
    }
    return false, search.closure;
  }

  /** The fallback, record after record. */
  method WalkAll(records: seq<RuleRecord>) returns (closure: map<string, set<string>>)
    ensures closure.Keys == RuleGraph(records).Keys
    ensures forall l :: l in closure ==> closure[l] == ReachSet(RuleGraph(records), l)
  {
    closure := map[];
    for i := 0 to |records|
      invariant forall k :: 0 <= k < i ==> records[k].name in closure
      invariant forall l :: l in closure ==> l in RuleGraph(records) && closure[l] == ReachSet(RuleGraph(records), l)
    {
      ByLabelKeys(records, records[i].name);
      var seen := Walk(RuleGraph(records), records[i].name);
      closure := closure[records[i].name := seen];
    }
    forall l | l in RuleGraph(records) ensures l in closure { ByLabelKeys(records, l); }
  }

  /** `input_closure`: every rule label mapped to exactly the labels its input edges
      reach, for every record list, cyclic or not. */
  method InputClosure(records: seq<RuleRecord>) returns (closure: map<string, set<string>>)
    ensures closure.Keys == set k | 0 <= k < |records| :: records[k].name
    ensures forall l :: l in closure ==> closure[l] == ReachSet(RuleGraph(records), l)
    ensures forall l, y :: l in closure ==> (y in closure[l] <==> BuiltFrom(records, l, y))
  {
    var cyclic;
    cyclic, closure := SearchAll(records);
    if cyclic { closure := WalkAll(records); }
    forall l ensures l in RuleGraph(records) <==> l in (set k | 0 <= k < |records| :: records[k].name) {
      ByLabelKeys(records, l);
    }
    forall l, y ensures y in ReachSet(RuleGraph(records), l) <==> BuiltFrom(records, l, y) {
      ReachIsBuiltFrom(records, l, y);
    }
  }
}

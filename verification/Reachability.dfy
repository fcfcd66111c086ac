/** Reachability by one or more edges in a finite directed graph given as a map from a
    node to its successors. A node absent from the map is a leaf. */
module Reachability {

  type Graph = map<string, set<string>>

  function Succ(g: Graph, x: string): set<string> {
    if x in g then g[x] else {}
  }

  ghost predicate IsPath(g: Graph, p: seq<string>) {
    && |p| >= 2
    && forall k :: 0 <= k < |p| - 1 ==> p[k + 1] in Succ(g, p[k])
  }

  /** `y` is reached from `x` by one or more edges. */
  ghost predicate Reaches(g: Graph, x: string, y: string) {
    exists p :: IsPath(g, p) && p[0] == x && p[|p| - 1] == y
  }

  ghost predicate HasCycle(g: Graph) {
    exists x :: Reaches(g, x, x)
  }

  /** Every node the graph mentions. */
  ghost function Nodes(g: Graph): set<string> {
    g.Keys + set x, y | x in g && y in g[x] :: y
  }

  ghost function ReachSet(g: Graph, x: string): set<string> {
    set y | y in Nodes(g) && Reaches(g, x, y)
  }

  lemma EdgeReaches(g: Graph, x: string, y: string)
    requires y in Succ(g, x)
    ensures Reaches(g, x, y)
  {
    assert IsPath(g, [x, y]);
  }

  lemma ReachesTransitive(g: Graph, x: string, y: string, z: string)
    requires Reaches(g, x, y) && Reaches(g, y, z)
    ensures Reaches(g, x, z)
  {
    var p :| IsPath(g, p) && p[0] == x && p[|p| - 1] == y;
    var q :| IsPath(g, q) && q[0] == y && q[|q| - 1] == z;
    var r := p + q[1..];
    assert forall k :: 0 <= k < |r| - 1 ==> r[k + 1] in Succ(g, r[k]);
    assert IsPath(g, r);
  }

  /** The first edge of a path: reaching is an edge, or an edge and then reaching. */
  lemma FirstEdge(g: Graph, x: string, y: string)
    requires Reaches(g, x, y) && y !in Succ(g, x)
    ensures exists z :: z in Succ(g, x) && Reaches(g, z, y)
  {
    var p :| IsPath(g, p) && p[0] == x && p[|p| - 1] == y;
    assert IsPath(g, p[1..]) && p[1] in Succ(g, x);
  }

  lemma SuccAreNodes(g: Graph, x: string)
    ensures Succ(g, x) <= Nodes(g)
  {
    if x in g { assert forall y :: y in g[x] ==> y in Nodes(g); }
  }

  lemma ReachesIsNode(g: Graph, x: string, y: string)
    requires Reaches(g, x, y)
    ensures y in Nodes(g) && x in g
  {
    var p :| IsPath(g, p) && p[0] == x && p[|p| - 1] == y;
    assert p[|p| - 1] in Succ(g, p[|p| - 2]);
    SuccAreNodes(g, p[|p| - 2]);
    assert p[1] in Succ(g, p[0]);
  }

  lemma ReachSetIff(g: Graph, x: string, y: string)
    ensures y in ReachSet(g, x) <==> Reaches(g, x, y)
  {
    if Reaches(g, x, y) { ReachesIsNode(g, x, y); }
  }

  /** A set that holds the first edges and is closed under edges holds everything reached. */
  lemma ClosedContainsReach(g: Graph, x: string, s: set<string>)
    requires Succ(g, x) <= s
    requires forall z :: z in s ==> Succ(g, z) <= s
    ensures ReachSet(g, x) <= s
  {
    forall y | y in ReachSet(g, x) ensures y in s {
      var p :| IsPath(g, p) && p[0] == x && p[|p| - 1] == y;
      PathStays(g, p, s, |p| - 1);
    }
  }

  lemma {:induction false} PathStays(g: Graph, p: seq<string>, s: set<string>, k: nat)
    requires IsPath(g, p) && 1 <= k < |p|
    requires Succ(g, p[0]) <= s
    requires forall z :: z in s ==> Succ(g, z) <= s
    ensures p[k] in s
  {
    if k > 1 { PathStays(g, p, s, k - 1); }
    assert p[k - 1 + 1] in Succ(g, p[k - 1]);
  }
}

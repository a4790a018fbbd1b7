/** Reachability in a graph given by the successors of each node. */
module Graph {

  type Graph = string -> set<string>

  ghost predicate IsPath(g: Graph, p: seq<string>) {
    |p| > 0 && forall i :: 0 <= i < |p| - 1 ==> p[i + 1] in g(p[i])
  }

  ghost predicate Reachable(g: Graph, a: string, b: string) {
    exists p :: IsPath(g, p) && p[0] == a && p[|p| - 1] == b
  }

  ghost predicate Closed(g: Graph, nodes: set<string>) {
    forall x :: x in nodes ==> g(x) <= nodes
  }

  lemma ReachableSelf(g: Graph, a: string)
    ensures Reachable(g, a, a)
  {
    assert IsPath(g, [a]);
  }

  lemma ReachableCons(g: Graph, a: string, b: string, c: string)
    requires b in g(a) && Reachable(g, b, c)
    ensures Reachable(g, a, c)
  {
    var p :| IsPath(g, p) && p[0] == b && p[|p| - 1] == c;
    assert IsPath(g, [a] + p);
    assert ([a] + p)[|p|] == c;
  }

  lemma ReachableSnoc(g: Graph, a: string, b: string, c: string)
    requires Reachable(g, a, b) && c in g(b)
    ensures Reachable(g, a, c)
  {
    var p :| IsPath(g, p) && p[0] == a && p[|p| - 1] == b;
    assert IsPath(g, p + [c]);
    assert (p + [c])[0] == a && (p + [c])[|p|] == c;
  }

  /** What is reachable from elsewhere has a predecessor. */
  lemma ReachableLast(g: Graph, a: string, c: string)
    requires Reachable(g, a, c)
    ensures a == c || exists b :: c in g(b)
  {
    var p :| IsPath(g, p) && p[0] == a && p[|p| - 1] == c;
    if |p| > 1 {
      assert p[|p| - 2 + 1] in g(p[|p| - 2]);
    }
  }

  lemma {:induction false} ClosedContainsPath(g: Graph, closed: set<string>, p: seq<string>)
    requires IsPath(g, p) && p[0] in closed && Closed(g, closed)
    ensures p[|p| - 1] in closed
  {
    if |p| > 1 {
      var q := p[..|p| - 1];
      assert IsPath(g, q);
      ClosedContainsPath(g, closed, q);
      assert p[|p| - 2 + 1] in g(p[|p| - 2]);
    }
  }

  lemma ClosedContainsReachable(g: Graph, closed: set<string>, a: string, b: string)
    requires Reachable(g, a, b) && a in closed && Closed(g, closed)
    ensures b in closed
  {
    var p :| IsPath(g, p) && p[0] == a && p[|p| - 1] == b;
    ClosedContainsPath(g, closed, p);
  }
}

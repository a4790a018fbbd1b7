/** What the SPF lookup count means: conservation over the visited domains, reachability, and the
    exactness of the verdict despite the depth guard. */
module SpfLaws {
  import opened Graph
  import opened Lists
  import opened SpfTerms
  import opened SpfWalk
  import opened Text

  // ---- Costs of sets of domains ----

  function NodeCost(dns: Dns, node: string): nat {
    Cost(Terms(dns, node))
  }

  ghost function SumCost(dns: Dns, nodes: set<string>): nat {
    if nodes == {} then 0
    else
      var d :| d in nodes;
      NodeCost(dns, d) + SumCost(dns, nodes - {d})
  }

  lemma {:induction false} SumCostRemove(dns: Dns, nodes: set<string>, d: string)
    requires d in nodes
    ensures SumCost(dns, nodes) == NodeCost(dns, d) + SumCost(dns, nodes - {d})
  {
    var e :| e in nodes && SumCost(dns, nodes) == NodeCost(dns, e) + SumCost(dns, nodes - {e});
    if e != d {
      SumCostRemove(dns, nodes - {e}, d);
      SumCostRemove(dns, nodes - {d}, e);
      assert nodes - {e} - {d} == nodes - {d} - {e};
    }
  }

  lemma {:induction false} SumCostUnion(dns: Dns, a: set<string>, b: set<string>)
    requires a !! b
    ensures SumCost(dns, a + b) == SumCost(dns, a) + SumCost(dns, b)
  {
    if a == {} {
      assert a + b == b;
    } else {
      var d :| d in a;
      SumCostRemove(dns, a, d);
      SumCostRemove(dns, a + b, d);
      assert a + b - {d} == (a - {d}) + b;
      SumCostUnion(dns, a - {d}, b);
    }
  }

  lemma SumCostMonotone(dns: Dns, a: set<string>, b: set<string>)
    requires a <= b
    ensures SumCost(dns, a) <= SumCost(dns, b)
  {
    SumCostUnion(dns, a, b - a);
    assert a + (b - a) == b;
  }

  // ---- Conservation ----

  function BreakdownTotal(breakdown: seq<Entry>): nat {
    if breakdown == [] then 0
    else
      var n := |breakdown| - 1;
      BreakdownTotal(breakdown[..n]) + 1 + breakdown[n].subCount
  }

  /** `w` is the account of a walk that started from `seen` and owes `own` lookups on top of those of
      the domains it visited. */
  ghost predicate Accounted(dns: Dns, seen: set<string>, w: Walked, own: int) {
    && seen <= w.seen
    && w.count == SumCost(dns, w.seen - seen) + own
    && w.count == BreakdownTotal(w.breakdown)
    && NoDuplicates(w.fetched)
    && forall d :: d in w.fetched <==> d in w.seen && d !in seen
  }

  /** Every call, from any visited set and at any depth, counts exactly the costing terms in the
      records of the domains it newly visits, as its breakdown adds up, and fetches the TXT records
      of each of those domains exactly once and of no other. */
  lemma {:induction false} CountIsConserved(dns: Dns, domain: string, seen: set<string>, depth: nat)
    ensures Accounted(dns, seen, Walk(dns, domain, seen, depth), 0)
    decreases Fuel(depth), 1, 0
  {
    var node := Lower(domain);
    var w := Walk(dns, domain, seen, depth);
    if node in seen || depth > MAX_DEPTH {
      assert w.seen - seen == {};
    } else {
      TermsAreConserved(dns, domain, Terms(dns, node), seen + {node}, depth);
      assert w.seen - seen == {node} + (w.seen - (seen + {node}));
      SumCostUnion(dns, {node}, w.seen - (seen + {node}));
      SumCostRemove(dns, {node}, node);
      assert {node} - {node} == {};
    }
  }

  lemma {:induction false} TermsAreConserved(dns: Dns, domain: string, terms: seq<Term>, seen: set<string>, depth: nat)
    requires depth <= MAX_DEPTH
    ensures Accounted(dns, seen, WalkTerms(dns, domain, terms, seen, depth), Cost(terms))
    decreases Fuel(depth), 0, |terms|
  {
    if terms == [] {
      assert seen - seen == {};
    } else {
      var n := |terms| - 1;
      var w := WalkTerms(dns, domain, terms[..n], seen, depth);
      var term := terms[n];
      assert WalkTerms(dns, domain, terms, seen, depth) == TermStep(dns, domain, w, term, depth);
      TermsAreConserved(dns, domain, terms[..n], seen, depth);
      if term.Descends() {
        CountIsConserved(dns, term.target, w.seen, depth + 1);
      }
      StepIsConserved(dns, domain, seen, w, Cost(terms[..n]), term, depth);
    }
  }

  lemma StepIsConserved(dns: Dns, domain: string, seen: set<string>, w: Walked, own: int, term: Term, depth: nat)
    requires depth <= MAX_DEPTH
    requires Accounted(dns, seen, w, own)
    requires term.Descends() ==> Accounted(dns, w.seen, Walk(dns, term.target, w.seen, depth + 1), 0)
    ensures Accounted(dns, seen, TermStep(dns, domain, w, term, depth), own + if term.Costs() then 1 else 0)
  {
    if term.Descends() {
      var sub := Walk(dns, term.target, w.seen, depth + 1);
      BreakdownSnoc(w.breakdown, EntryOf(term, domain, sub.count));
      SeenIsConserved(dns, seen, w.seen, sub.seen);
      NoDuplicatesConcat(w.fetched, sub.fetched);
    } else if term.Costs() {
      BreakdownSnoc(w.breakdown, EntryOf(term, domain, 0));
    }
  }

  lemma BreakdownSnoc(breakdown: seq<Entry>, e: Entry)
    ensures BreakdownTotal(breakdown + [e]) == BreakdownTotal(breakdown) + 1 + e.subCount
  {
    assert (breakdown + [e])[..|breakdown|] == breakdown;
  }

  lemma SeenIsConserved(dns: Dns, a: set<string>, b: set<string>, c: set<string>)
    requires a <= b <= c
    ensures SumCost(dns, c - a) == SumCost(dns, b - a) + SumCost(dns, c - b)
  {
    assert c - a == (b - a) + (c - b);
    SumCostUnion(dns, b - a, c - b);
  }

  lemma NoDuplicatesConcat<T>(a: seq<T>, b: seq<T>)
    requires NoDuplicates(a) && NoDuplicates(b)
    requires forall d :: d in a ==> d !in b
    ensures NoDuplicates(a + b)
  {
    forall i, j | 0 <= i < j < |a + b|
      ensures (a + b)[i] != (a + b)[j]
    {
      if i < |a| <= j {
        assert a[i] in a;
        assert b[j - |a|] in b;
      }
    }
  }

  // ---- Reachability ----

  /** The domains to which the include: and redirect= terms among `terms` lead. */
  function TermTargets(terms: seq<Term>): set<string> {
    if terms == [] then {} else TermTargets(terms[..|terms| - 1]) + StepTargets(terms[|terms| - 1])
  }

  function StepTargets(term: Term): set<string> {
    if term.Descends() then {Lower(term.target)} else {}
  }

  function Targets(dns: Dns, node: string): set<string> {
    TermTargets(Terms(dns, node))
  }

  function Edges(dns: Dns): string -> set<string> {
    (node: string) => Targets(dns, node)
  }

  /** Every domain that occurs as `root` or as a target. */
  ghost function AllNodes(dns: Dns, root: string): set<string> {
    {root} + set k, t | k in dns && t in Targets(dns, k) :: t
  }

  lemma ReachableIsNode(dns: Dns, root: string, d: string)
    requires Reachable(Edges(dns), root, d)
    ensures d in AllNodes(dns, root)
  {
    ReachableLast(Edges(dns), root, d);
    if d != root {
      var b :| d in Edges(dns)(b);
      assert d in Targets(dns, b) && b in dns;
    }
  }

  /** The domains reachable from `root` by include: and redirect= edges. */
  ghost function ReachableFrom(dns: Dns, root: string): (r: set<string>)
    ensures forall d :: d in r <==> Reachable(Edges(dns), root, d)
  {
    forall d | Reachable(Edges(dns), root, d)
      ensures d in AllNodes(dns, root)
    {
      ReachableIsNode(dns, root, d);
    }
    set d | d in AllNodes(dns, root) && Reachable(Edges(dns), root, d)
  }

  /** A walk that is to cover `targets` visits only domains reachable from `from`; and unless the guard cut it,
      it has visited the targets, and all targets of what it newly visited. */
  ghost predicate Progressed(g: Graph, from: string, seen: set<string>, w: Walked, targets: set<string>) {
    && seen <= w.seen
    && (forall x :: x in w.seen && x !in seen ==> Reachable(g, from, x))
    && (!w.cut ==> targets <= w.seen && forall x :: x in w.seen && x !in seen ==> g(x) <= w.seen)
  }

  lemma {:induction false} WalkExplores(dns: Dns, g: Graph, domain: string, seen: set<string>, depth: nat)
    requires g == Edges(dns)
    ensures Progressed(g, Lower(domain), seen, Walk(dns, domain, seen, depth), {Lower(domain)})
    decreases Fuel(depth), 1, 0
  {
    var node := Lower(domain);
    if node !in seen && depth <= MAX_DEPTH {
      assert g(node) == TermTargets(Terms(dns, node));
      TermsExplore(dns, g, domain, Terms(dns, node), node, seen + {node}, depth);
      ReachableSelf(g, node);
    }
  }

  lemma {:induction false} TermsExplore(dns: Dns, g: Graph, domain: string, terms: seq<Term>, node: string,
                                        seen: set<string>, depth: nat)
    requires g == Edges(dns) && depth <= MAX_DEPTH
    requires TermTargets(terms) <= g(node)
    ensures Progressed(g, node, seen, WalkTerms(dns, domain, terms, seen, depth), TermTargets(terms))
    decreases Fuel(depth), 0, |terms|
  {
    if terms != [] {
      var front, term := terms[..|terms| - 1], terms[|terms| - 1];
      var w := WalkTerms(dns, domain, front, seen, depth);
      LastTargets(terms, g(node));
      TermsExplore(dns, g, domain, front, node, seen, depth);
      if term.Descends() {
        WalkExplores(dns, g, term.target, w.seen, depth + 1);
      }
      StepExplores(dns, g, domain, node, seen, w, TermTargets(front), term, depth);
    }
  }

  lemma LastTargets(terms: seq<Term>, nodes: set<string>)
    requires terms != [] && TermTargets(terms) <= nodes
    ensures var front, term := terms[..|terms| - 1], terms[|terms| - 1];
            && TermTargets(terms) == TermTargets(front) + StepTargets(term)
            && TermTargets(front) <= nodes && StepTargets(term) <= nodes
  {
  }

  lemma StepExplores(dns: Dns, g: Graph, domain: string, node: string, seen: set<string>, w: Walked,
                     targets: set<string>, term: Term, depth: nat)
    requires depth <= MAX_DEPTH
    requires Progressed(g, node, seen, w, targets) && StepTargets(term) <= g(node)
    requires term.Descends() ==>
               Progressed(g, Lower(term.target), w.seen, Walk(dns, term.target, w.seen, depth + 1),
                          {Lower(term.target)})
    ensures Progressed(g, node, seen, TermStep(dns, domain, w, term, depth), targets + StepTargets(term))
  {
    if term.Descends() {
      var sub := Walk(dns, term.target, w.seen, depth + 1);
      forall x | x in sub.seen && x !in w.seen
        ensures Reachable(g, node, x)
      {
        ReachableCons(g, node, Lower(term.target), x);
      }
    }
  }

  /** A top-level call visits only reachable domains and, unless the depth guard cut it, all of them,
      whatever cycles there are. */
  lemma VisitedIsReachable(dns: Dns, domain: string)
    ensures var w := Walk(dns, domain, {}, 0);
            var reach := ReachableFrom(dns, Lower(domain));
            && w.seen <= reach
            && (!w.cut ==> w.seen == reach)
  {
    var root := Lower(domain);
    var w := Walk(dns, domain, {}, 0);
    WalkExplores(dns, Edges(dns), domain, {}, 0);
    if !w.cut {
      forall x | Reachable(Edges(dns), root, x)
        ensures x in w.seen
      {
        ClosedContainsReachable(Edges(dns), w.seen, root, x);
      }
    }
  }

  /** The lookups needed if every reachable record is evaluated once. */
  ghost function ReachableCost(dns: Dns, domain: string): nat {
    SumCost(dns, ReachableFrom(dns, Lower(domain)))
  }

  /** The reported count is exact up to the depth limit and never too high, so the guard can hide
      lookups only when the limit of 10 is exceeded anyway: every verdict is the one that the full
      reachable graph gives. */
  lemma VerdictIsExact(dns: Dns, domain: string)
    ensures var count := Walk(dns, domain, {}, 0).count;
            var exact := ReachableCost(dns, domain);
            && count <= exact
            && (count <= MAX_DEPTH ==> count == exact)
            && (exact <= MAX_DEPTH ==> count == exact)
            && (!Walk(dns, domain, {}, 0).cut ==> count == exact)
  {
    var w := Walk(dns, domain, {}, 0);
    VisitedIsReachable(dns, domain);
    assert w.count == SumCost(dns, w.seen) by {
      CountIsConserved(dns, domain, {}, 0);
      assert w.seen - {} == w.seen;
    }
    SumCostMonotone(dns, w.seen, ReachableFrom(dns, Lower(domain)));
  }

  lemma ReachableIsClosed(dns: Dns, root: string)
    ensures Closed(Edges(dns), ReachableFrom(dns, root))
  {
    forall x, y | Reachable(Edges(dns), root, x) && y in Edges(dns)(x)
      ensures Reachable(Edges(dns), root, y)
    {
      ReachableSnoc(Edges(dns), root, x, y);
    }
  }

  /** The guard cannot fire in a graph of at most 13 reachable domains. */
  lemma SmallGraphIsNotCut(dns: Dns, domain: string)
    requires |ReachableFrom(dns, Lower(domain))| <= MAX_DEPTH + 1
    ensures !Walk(dns, domain, {}, 0).cut
  {
    var root := Lower(domain);
    var reach := ReachableFrom(dns, root);
    ReachableSelf(Edges(dns), root);
    ReachableIsClosed(dns, root);
    WalkStaysInside(dns, domain, {}, 0, reach);
  }

  ghost predicate Inside(w: Walked, reach: set<string>) {
    !w.cut && w.seen <= reach
  }

  lemma {:induction false} WalkStaysInside(dns: Dns, domain: string, seen: set<string>, depth: nat, reach: set<string>)
    requires Closed(Edges(dns), reach)
    requires Lower(domain) in reach && seen <= reach && depth <= |seen| && |reach| <= MAX_DEPTH + 1
    ensures Inside(Walk(dns, domain, seen, depth), reach)
    decreases Fuel(depth), 1, 0
  {
    var node := Lower(domain);
    if node !in seen {
      SubsetSize(seen + {node}, reach);
      assert Targets(dns, node) == Edges(dns)(node);
      TermsStayInside(dns, domain, Terms(dns, node), seen + {node}, depth, reach);
    }
  }

  lemma {:induction false} TermsStayInside(dns: Dns, domain: string, terms: seq<Term>, seen: set<string>,
                                           depth: nat, reach: set<string>)
    requires Closed(Edges(dns), reach)
    requires TermTargets(terms) <= reach && seen <= reach && depth < |seen| && |reach| <= MAX_DEPTH + 1
    requires depth <= MAX_DEPTH
    ensures Inside(WalkTerms(dns, domain, terms, seen, depth), reach)
    decreases Fuel(depth), 0, |terms|
  {
    if terms != [] {
      var front, term := terms[..|terms| - 1], terms[|terms| - 1];
      var w := WalkTerms(dns, domain, front, seen, depth);
      TargetsOfLast(terms);
      TermsStayInside(dns, domain, front, seen, depth, reach);
      if term.Descends() {
        SubsetSize(seen, w.seen);
        WalkStaysInside(dns, term.target, w.seen, depth + 1, reach);
      }
      StepStaysInside(dns, domain, w, term, depth, reach);
    }
  }

  lemma TargetsOfLast(terms: seq<Term>)
    requires terms != []
    ensures var front, term := terms[..|terms| - 1], terms[|terms| - 1];
            TermTargets(front) <= TermTargets(terms) && (term.Descends() ==> Lower(term.target) in TermTargets(terms))
  {
  }

  lemma StepStaysInside(dns: Dns, domain: string, w: Walked, term: Term, depth: nat, reach: set<string>)
    requires depth <= MAX_DEPTH
    requires Inside(w, reach)
    requires term.Descends() ==> Inside(Walk(dns, term.target, w.seen, depth + 1), reach)
    ensures Inside(TermStep(dns, domain, w, term, depth), reach)
  {
  }

  lemma {:induction false} SubsetSize<T>(a: set<T>, b: set<T>)
    requires a <= b
    ensures |a| <= |b|
  {
    if a != {} {
      var x :| x in a;
      SubsetSize(a - {x}, b - {x});
    }
  }
}
/** The lookup count against the plain tree walk of section 4.6.4 of RFC 7208, its independence of the
    order of terms, and the verdict that `lookup_spf` draws from it. */
module SpfTree {
  import opened Graph
  import opened Lists
  import opened Options
  import opened SpfLaws
  import opened SpfTerms
  import opened SpfWalk
  import opened Tally
  import opened Text

  // ---- The tree walk ----

  /** The same depth-limited walk without a visited set: every include is evaluated anew. */
  function TreeCount(dns: Dns, domain: string, depth: nat): nat
    decreases Fuel(depth), 1, 0
  {
    if depth > MAX_DEPTH then 0 else TreeTerms(dns, Terms(dns, Lower(domain)), depth)
  }

  function TreeTerms(dns: Dns, terms: seq<Term>, depth: nat): nat
    requires depth <= MAX_DEPTH
    decreases Fuel(depth), 0, |terms|
  {
    if terms == [] then 0
    else
      TreeStep(dns, TreeTerms(dns, terms[..|terms| - 1], depth), terms[|terms| - 1], depth)
  }

  function TreeStep(dns: Dns, tree: nat, term: Term, depth: nat): nat
    requires depth <= MAX_DEPTH
    decreases Fuel(depth), 0, 0
  {
    tree + (if term.Costs() then 1 else 0) + if term.Descends() then TreeCount(dns, term.target, depth + 1) else 0
  }

  /** The domains whose records the tree walk evaluates, in order and as often as it does. */
  function Expanded(dns: Dns, domain: string, depth: nat): seq<string>
    decreases Fuel(depth), 1, 0
  {
    if depth > MAX_DEPTH then [] else [Lower(domain)] + TermsExpanded(dns, Terms(dns, Lower(domain)), depth)
  }

  function TermsExpanded(dns: Dns, terms: seq<Term>, depth: nat): seq<string>
    requires depth <= MAX_DEPTH
    decreases Fuel(depth), 0, |terms|
  {
    if terms == [] then []
    else
      TermsExpanded(dns, terms[..|terms| - 1], depth) + StepExpanded(dns, terms[|terms| - 1], depth)
  }

  function StepExpanded(dns: Dns, term: Term, depth: nat): seq<string>
    requires depth <= MAX_DEPTH
    decreases Fuel(depth), 0, 0
  {
    if term.Descends() then Expanded(dns, term.target, depth + 1) else []
  }

  /** The tree-walk cost of the calls that the visited set suppressed. */
  function SkippedCost(dns: Dns, skipped: seq<Skip>): nat {
    if skipped == [] then 0
    else
      var n := |skipped| - 1;
      SkippedCost(dns, skipped[..n]) + TreeCount(dns, skipped[n].domain, skipped[n].depth)
  }

  lemma {:induction false} SkippedCostConcat(dns: Dns, a: seq<Skip>, b: seq<Skip>)
    ensures SkippedCost(dns, a + b) == SkippedCost(dns, a) + SkippedCost(dns, b)
  {
    if b == [] {
      assert a + b == a;
    } else {
      var n := |b| - 1;
      assert (a + b)[..|a| + n] == a + b[..n];
      SkippedCostConcat(dns, a, b[..n]);
    }
  }

  ghost predicate Balanced(dns: Dns, tree: nat, w: Walked) {
    tree == w.count + SkippedCost(dns, w.skipped)
  }

  /** The walk with a visited set counts the tree walk's lookups, less exactly those below the calls
      that met a visited domain. */
  lemma {:induction false} TreeIsCountPlusSkipped(dns: Dns, domain: string, seen: set<string>, depth: nat)
    ensures Balanced(dns, TreeCount(dns, domain, depth), Walk(dns, domain, seen, depth))
    decreases Fuel(depth), 1, 0
  {
    var node := Lower(domain);
    var w := Walk(dns, domain, seen, depth);
    if node in seen {
      assert w.skipped[..0] == [];
    } else if depth <= MAX_DEPTH {
      TermsAreCountPlusSkipped(dns, domain, Terms(dns, node), seen + {node}, depth);
    }
  }

  lemma {:induction false} TermsAreCountPlusSkipped(dns: Dns, domain: string, terms: seq<Term>,
                                                    seen: set<string>, depth: nat)
    requires depth <= MAX_DEPTH
    ensures Balanced(dns, TreeTerms(dns, terms, depth), WalkTerms(dns, domain, terms, seen, depth))
    decreases Fuel(depth), 0, |terms|
  {
    if terms != [] {
      var front := terms[..|terms| - 1];
      TermsAreCountPlusSkipped(dns, domain, front, seen, depth);
      BelowIsCountPlusSkipped(dns, terms[|terms| - 1], WalkTerms(dns, domain, front, seen, depth).seen, depth);
      LastIsCountPlusSkipped(dns, domain, terms, seen, depth);
    }
  }

  /** The call for a term, if it has one, is balanced. */
  ghost predicate BelowBalanced(dns: Dns, term: Term, seen: set<string>, depth: nat) {
    term.Descends() ==> Balanced(dns, TreeCount(dns, term.target, depth + 1), Walk(dns, term.target, seen, depth + 1))
  }

  lemma {:induction false} BelowIsCountPlusSkipped(dns: Dns, term: Term, seen: set<string>, depth: nat)
    requires depth <= MAX_DEPTH
    ensures BelowBalanced(dns, term, seen, depth)
    decreases Fuel(depth), 0, 0
  {
    if term.Descends() {
      TreeIsCountPlusSkipped(dns, term.target, seen, depth + 1);
    }
  }

  lemma LastIsCountPlusSkipped(dns: Dns, domain: string, terms: seq<Term>, seen: set<string>, depth: nat)
    requires depth <= MAX_DEPTH && terms != []
    requires var front := terms[..|terms| - 1];
             Balanced(dns, TreeTerms(dns, front, depth), WalkTerms(dns, domain, front, seen, depth))
    requires var w := WalkTerms(dns, domain, terms[..|terms| - 1], seen, depth);
             BelowBalanced(dns, terms[|terms| - 1], w.seen, depth)
    ensures Balanced(dns, TreeTerms(dns, terms, depth), WalkTerms(dns, domain, terms, seen, depth))
  {
    var front, term := terms[..|terms| - 1], terms[|terms| - 1];
    StepIsCountPlusSkipped(dns, domain, WalkTerms(dns, domain, front, seen, depth), TreeTerms(dns, front, depth),
                           term, depth);
  }

  lemma StepIsCountPlusSkipped(dns: Dns, domain: string, w: Walked, tree: nat, term: Term, depth: nat)
    requires depth <= MAX_DEPTH
    requires Balanced(dns, tree, w) && BelowBalanced(dns, term, w.seen, depth)
    ensures Balanced(dns, TreeStep(dns, tree, term, depth), TermStep(dns, domain, w, term, depth))
  {
    if term.Descends() {
      SkippedCostConcat(dns, w.skipped, Walk(dns, term.target, w.seen, depth + 1).skipped);
    }
  }

  // ---- When the two counts agree ----

  function CostOf(dns: Dns): string -> int {
    (node: string) => NodeCost(dns, node)
  }

  /** The lookups of a sequence of evaluated records. */
  function SeqCost(dns: Dns, s: seq<string>): int {
    SumOf(s, CostOf(dns))
  }

  /** `tree` counts the `own` terms of a record and the records in `s`. */
  ghost predicate Counts(dns: Dns, tree: nat, own: nat, s: seq<string>) {
    tree == own + SeqCost(dns, s)
  }

  /** The tree walk counts the records it evaluates. */
  lemma {:induction false} TreeCountIsSeqCost(dns: Dns, domain: string, depth: nat)
    ensures Counts(dns, TreeCount(dns, domain, depth), 0, Expanded(dns, domain, depth))
    decreases Fuel(depth), 1, 0
  {
    if depth <= MAX_DEPTH {
      var node := Lower(domain);
      TermsAreSeqCost(dns, Terms(dns, node), depth);
      SumOfConcat([node], TermsExpanded(dns, Terms(dns, node), depth), CostOf(dns));
      SumOfAppend([], node, CostOf(dns));
      assert [] + [node] == [node];
    }
  }

  lemma {:induction false} TermsAreSeqCost(dns: Dns, terms: seq<Term>, depth: nat)
    requires depth <= MAX_DEPTH
    ensures Counts(dns, TreeTerms(dns, terms, depth), Cost(terms), TermsExpanded(dns, terms, depth))
    decreases Fuel(depth), 0, |terms|
  {
    if terms == [] {
      NothingCounts(dns, depth);
    } else {
      TermsAreSeqCost(dns, terms[..|terms| - 1], depth);
      BelowIsSeqCost(dns, terms[|terms| - 1], depth);
      LastTermCounts(dns, terms, depth);
    }
  }

  lemma NothingCounts(dns: Dns, depth: nat)
    requires depth <= MAX_DEPTH
    ensures Counts(dns, TreeTerms(dns, [], depth), Cost([]), TermsExpanded(dns, [], depth))
  {
  }

  lemma {:induction false} BelowIsSeqCost(dns: Dns, term: Term, depth: nat)
    requires depth <= MAX_DEPTH
    ensures Counts(dns, StepCount(dns, term, depth), 0, StepExpanded(dns, term, depth))
    decreases Fuel(depth), 0, 0
  {
    if term.Descends() {
      TreeCountIsSeqCost(dns, term.target, depth + 1);
      BelowDescending(dns, term, depth);
    }
  }

  lemma BelowDescending(dns: Dns, term: Term, depth: nat)
    requires depth <= MAX_DEPTH && term.Descends()
    ensures StepCount(dns, term, depth) == TreeCount(dns, term.target, depth + 1)
    ensures StepExpanded(dns, term, depth) == Expanded(dns, term.target, depth + 1)
  {
  }

  lemma LastTermCounts(dns: Dns, terms: seq<Term>, depth: nat)
    requires depth <= MAX_DEPTH && terms != []
    requires var front := terms[..|terms| - 1];
             Counts(dns, TreeTerms(dns, front, depth), Cost(front), TermsExpanded(dns, front, depth))
    requires var term := terms[|terms| - 1];
             Counts(dns, StepCount(dns, term, depth), 0, StepExpanded(dns, term, depth))
    ensures Counts(dns, TreeTerms(dns, terms, depth), Cost(terms), TermsExpanded(dns, terms, depth))
  {
    var front, term := terms[..|terms| - 1], terms[|terms| - 1];
    AddCounts(dns, TreeTerms(dns, front, depth), Cost(front), TermsExpanded(dns, front, depth),
              if term.Costs() then 1 else 0, StepCount(dns, term, depth), StepExpanded(dns, term, depth));
  }

  /** What the tree walk counts below one term. */
  function StepCount(dns: Dns, term: Term, depth: nat): nat
    requires depth <= MAX_DEPTH
  {
    if term.Descends() then TreeCount(dns, term.target, depth + 1) else 0
  }

  lemma AddCounts(dns: Dns, tree: nat, own: nat, s: seq<string>, cost: nat, below: nat, more: seq<string>)
    requires Counts(dns, tree, own, s) && below == SeqCost(dns, more)
    ensures Counts(dns, tree + cost + below, own + cost, s + more)
  {
    SumOfConcat(s, more, CostOf(dns));
  }

  function SetOf(s: seq<string>): set<string> {
    set d | d in s
  }

  /** `w` visited no domain but those in `seen` and in `s`. */
  ghost predicate Within(seen: set<string>, w: Walked, s: seq<string>) {
    forall d :: d in w.seen ==> d in seen || d in s
  }

  /** Whatever has been visited before, the walk visits only domains that the tree walk evaluates. */
  lemma {:induction false} VisitedIsExpanded(dns: Dns, domain: string, seen: set<string>, depth: nat)
    ensures Within(seen, Walk(dns, domain, seen, depth), Expanded(dns, domain, depth))
    decreases Fuel(depth), 1, 0
  {
    var node := Lower(domain);
    if node !in seen && depth <= MAX_DEPTH {
      TermsAreExpanded(dns, domain, Terms(dns, node), seen + {node}, depth);
    }
  }

  lemma {:induction false} TermsAreExpanded(dns: Dns, domain: string, terms: seq<Term>, seen: set<string>, depth: nat)
    requires depth <= MAX_DEPTH
    ensures Within(seen, WalkTerms(dns, domain, terms, seen, depth), TermsExpanded(dns, terms, depth))
    decreases Fuel(depth), 0, |terms|
  {
    if terms != [] {
      var front, term := terms[..|terms| - 1], terms[|terms| - 1];
      var w := WalkTerms(dns, domain, front, seen, depth);
      TermsAreExpanded(dns, domain, front, seen, depth);
      if term.Descends() {
        VisitedIsExpanded(dns, term.target, w.seen, depth + 1);
      }
      StepIsWithin(dns, domain, seen, w, TermsExpanded(dns, front, depth), term, depth);
    }
  }

  lemma StepIsWithin(dns: Dns, domain: string, seen: set<string>, w: Walked, s: seq<string>, term: Term, depth: nat)
    requires depth <= MAX_DEPTH && Within(seen, w, s)
    requires term.Descends() ==>
               Within(w.seen, Walk(dns, term.target, w.seen, depth + 1), StepExpanded(dns, term, depth))
    ensures Within(seen, TermStep(dns, domain, w, term, depth), s + StepExpanded(dns, term, depth))
  {
  }

  /** A record that costs lookups occurs at most once in `s`. */
  ghost predicate CostlyOnce(dns: Dns, s: seq<string>) {
    forall i, j :: 0 <= i < j < |s| && s[i] == s[j] ==> NodeCost(dns, s[i]) == 0
  }

  /** The same, and none of them has been visited. */
  ghost predicate Unmet(dns: Dns, seen: set<string>, s: seq<string>) {
    CostlyOnce(dns, s) && forall d :: d in s && d in seen ==> NodeCost(dns, d) == 0
  }

  lemma UnmetSplit(dns: Dns, seen: set<string>, a: seq<string>, b: seq<string>)
    requires Unmet(dns, seen, a + b)
    ensures Unmet(dns, seen, a)
    ensures Unmet(dns, seen + SetOf(a), b)
  {
    var ab := a + b;
    assert forall i :: 0 <= i < |a| ==> a[i] == ab[i];
    assert forall i :: 0 <= i < |b| ==> b[i] == ab[|a| + i];
    forall d | d in b && (d in seen || d in a)
      ensures NodeCost(dns, d) == 0
    {
      if d in a {
        var i :| 0 <= i < |a| && a[i] == d;
        var j :| 0 <= j < |b| && b[j] == d;
        assert ab[i] == ab[|a| + j];
      } else {
        assert d in ab;
      }
    }
  }

  lemma UnmetShrinks(dns: Dns, seen: set<string>, more: set<string>, s: seq<string>)
    requires Unmet(dns, more, s) && seen <= more
    ensures Unmet(dns, seen, s)
  {
  }

  lemma {:induction false} FreeTermsExpandNothing(dns: Dns, terms: seq<Term>, depth: nat)
    requires depth <= MAX_DEPTH && Cost(terms) == 0
    ensures TermsExpanded(dns, terms, depth) == []
  {
    if terms != [] {
      FreeTermsExpandNothing(dns, terms[..|terms| - 1], depth);
    }
  }

  /** Where no costly record is met again, the visited set suppresses nothing that counts. */
  lemma {:induction false} UnmetIsCounted(dns: Dns, domain: string, seen: set<string>, depth: nat)
    requires Unmet(dns, seen, Expanded(dns, domain, depth))
    ensures Walk(dns, domain, seen, depth).count == TreeCount(dns, domain, depth)
    decreases Fuel(depth), 1, 0
  {
    if depth <= MAX_DEPTH {
      var node := Lower(domain);
      var rest := TermsExpanded(dns, Terms(dns, node), depth);
      assert node in [node] + rest;
      if NodeCost(dns, node) == 0 {
        TreeCountIsSeqCost(dns, domain, depth);
        FreeTermsExpandNothing(dns, Terms(dns, node), depth);
        FreeRecordCountsNothing(dns, domain, seen, depth);
      } else {
        UnmetSplit(dns, seen, [node], rest);
        UnmetShrinks(dns, seen + {node}, seen + SetOf([node]), rest);
        UnmetTermsAreCounted(dns, domain, Terms(dns, node), seen + {node}, depth);
      }
    }
  }

  lemma FreeRecordCountsNothing(dns: Dns, domain: string, seen: set<string>, depth: nat)
    requires depth <= MAX_DEPTH && NodeCost(dns, Lower(domain)) == 0
    ensures Walk(dns, domain, seen, depth).count == 0 == TreeCount(dns, domain, depth)
  {
    TermsAreSeqCost(dns, Terms(dns, Lower(domain)), depth);
    FreeTermsExpandNothing(dns, Terms(dns, Lower(domain)), depth);
    TreeIsCountPlusSkipped(dns, domain, seen, depth);
  }

  lemma UnmetFront(dns: Dns, terms: seq<Term>, seen: set<string>, depth: nat)
    requires depth <= MAX_DEPTH && terms != [] && Unmet(dns, seen, TermsExpanded(dns, terms, depth))
    ensures var front, term := terms[..|terms| - 1], terms[|terms| - 1];
            var s := TermsExpanded(dns, front, depth);
            Unmet(dns, seen, s) && Unmet(dns, seen + SetOf(s), StepExpanded(dns, term, depth))
  {
    var front, term := terms[..|terms| - 1], terms[|terms| - 1];
    UnmetSplit(dns, seen, TermsExpanded(dns, front, depth), StepExpanded(dns, term, depth));
  }

  lemma UnmetBelow(dns: Dns, domain: string, front: seq<Term>, term: Term, seen: set<string>, depth: nat)
    requires depth <= MAX_DEPTH
    requires Unmet(dns, seen + SetOf(TermsExpanded(dns, front, depth)), StepExpanded(dns, term, depth))
    ensures Unmet(dns, WalkTerms(dns, domain, front, seen, depth).seen, StepExpanded(dns, term, depth))
  {
    TermsAreExpanded(dns, domain, front, seen, depth);
    UnmetShrinks(dns, WalkTerms(dns, domain, front, seen, depth).seen,
                 seen + SetOf(TermsExpanded(dns, front, depth)), StepExpanded(dns, term, depth));
  }

  lemma LastStepsAgree(dns: Dns, domain: string, terms: seq<Term>, seen: set<string>, depth: nat)
    requires depth <= MAX_DEPTH && terms != []
    requires var front, term := terms[..|terms| - 1], terms[|terms| - 1];
             var w := WalkTerms(dns, domain, front, seen, depth);
             && w.count == TreeTerms(dns, front, depth)
             && (term.Descends() ==>
                   Walk(dns, term.target, w.seen, depth + 1).count == TreeCount(dns, term.target, depth + 1))
    ensures WalkTerms(dns, domain, terms, seen, depth).count == TreeTerms(dns, terms, depth)
  {
  }

  lemma {:induction false} UnmetTermsAreCounted(dns: Dns, domain: string, terms: seq<Term>, seen: set<string>,
                                                depth: nat)
    requires depth <= MAX_DEPTH && Unmet(dns, seen, TermsExpanded(dns, terms, depth))
    ensures WalkTerms(dns, domain, terms, seen, depth).count == TreeTerms(dns, terms, depth)
    decreases Fuel(depth), 0, |terms|
  {
    if terms != [] {
      var front, term := terms[..|terms| - 1], terms[|terms| - 1];
      UnmetFront(dns, terms, seen, depth);
      UnmetTermsAreCounted(dns, domain, front, seen, depth);
      if term.Descends() {
        UnmetBelow(dns, domain, front, term, seen, depth);
        UnmetIsCounted(dns, term.target, WalkTerms(dns, domain, front, seen, depth).seen, depth + 1);
      }
      LastStepsAgree(dns, domain, terms, seen, depth);
    }
  }

  /** Counting each record once is below counting the sequence, and strictly so if a costly one is repeated. */
  lemma {:induction false} SetCostAgainstSeqCost(dns: Dns, s: seq<string>)
    ensures SumCost(dns, SetOf(s)) <= SeqCost(dns, s)
    ensures !CostlyOnce(dns, s) ==> SumCost(dns, SetOf(s)) < SeqCost(dns, s)
  {
    if s != [] {
      var front, last := s[..|s| - 1], s[|s| - 1];
      assert s == front + [last];
      SetCostAgainstSeqCost(dns, front);
      SetOfSnoc(dns, front, last);
      if !CostlyOnce(dns, s) && CostlyOnce(dns, front) {
        RepeatedLast(dns, front, last);
      }
    }
  }

  lemma SetOfSnoc(dns: Dns, front: seq<string>, last: string)
    ensures SumCost(dns, SetOf(front + [last]))
         == SumCost(dns, SetOf(front)) + if last in front then 0 else NodeCost(dns, last)
  {
    var before, after := SetOf(front), SetOf(front + [last]);
    if last in front {
      assert after == before;
    } else {
      SumCostRemove(dns, after, last);
      assert after - {last} == before;
    }
  }

  lemma RepeatedLast(dns: Dns, front: seq<string>, last: string)
    requires !CostlyOnce(dns, front + [last]) && CostlyOnce(dns, front)
    ensures last in front && NodeCost(dns, last) > 0
  {
    var s := front + [last];
    var i, j :| 0 <= i < j < |s| && s[i] == s[j] && NodeCost(dns, s[i]) != 0;
    assert j == |front|;
  }

  lemma CountIsWithinSet(dns: Dns, domain: string)
    ensures Walk(dns, domain, {}, 0).count <= SumCost(dns, SetOf(Expanded(dns, domain, 0)))
  {
    var w := Walk(dns, domain, {}, 0);
    CountIsConserved(dns, domain, {}, 0);
    VisitedIsExpanded(dns, domain, {}, 0);
    assert w.seen - {} == w.seen;
    SumCostMonotone(dns, w.seen, SetOf(Expanded(dns, domain, 0)));
  }

  /** The reported count is never above the tree walk's, and it is the tree walk's if and only if no record
      that costs lookups is reached twice. So a count above the limit of 10 always means that the tree walk
      exceeds it too. */
  lemma CountAgainstTree(dns: Dns, domain: string)
    ensures Walk(dns, domain, {}, 0).count <= TreeCount(dns, domain, 0)
    ensures Walk(dns, domain, {}, 0).count == TreeCount(dns, domain, 0) <==> CostlyOnce(dns, Expanded(dns, domain, 0))
  {
    var s := Expanded(dns, domain, 0);
    TreeIsCountPlusSkipped(dns, domain, {}, 0);
    if CostlyOnce(dns, s) {
      UnmetIsCounted(dns, domain, {}, 0);
    } else {
      CountIsWithinSet(dns, domain);
      SetCostAgainstSeqCost(dns, s);
      TreeCountIsSeqCost(dns, domain, 0);
    }
  }

  /** In particular, where no record is reached twice, the reported count is the tree walk's. */
  lemma CountOfTreeIsTreeCount(dns: Dns, domain: string)
    requires NoDuplicates(Expanded(dns, domain, 0))
    ensures Walk(dns, domain, {}, 0).count == TreeCount(dns, domain, 0)
  {
    CountAgainstTree(dns, domain);
  }

  // ---- A diamond: the count can stay below the tree walk's ----

  const SPF := "v=spf1"
  const INCLUDE_X := "include:x"

  /** The text "a a ... a" of `n` words. */
  function Mechanisms(n: nat): string
    requires n > 0
  {
    if n == 1 then "a" else "a" + [' '] + Mechanisms(n - 1)
  }

  /** The root names the same include twice; its record holds `n` mechanisms. */
  function Diamond(n: nat): Dns
    requires n > 0
  {
    map["r" := [SPF + [' '] + (INCLUDE_X + [' '] + INCLUDE_X)], "x" := [SPF + [' '] + Mechanisms(n)]]
  }

  lemma LiteralTerms()
    ensures ParseTerm(SPF) == Free
    ensures ParseTerm(INCLUDE_X) == Include("x")
    ensures ParseTerm("a") == A(None)
  {
    assert Unqualified(SPF) == SPF && Lower(SPF)[0] == 'v';
    assert Unqualified(INCLUDE_X) == INCLUDE_X && Lower(INCLUDE_X)[..8] == "include:";
    assert INCLUDE_X[8..] == "x";
    assert Lower("a") == "a";
  }

  /** A record made of `v=spf1` and further text, alone at its domain, is read word by word. */
  lemma OnlyRecord(dns: Dns, node: string, rest: string)
    requires node in dns && dns[node] == [SPF + [' '] + rest]
    ensures Tokens(dns, node) == [SPF] + SplitSpace(rest)
  {
    var r := SPF + [' '] + rest;
    assert Lower(r)[..6] == Lower(SPF) == SPF;
    SplitSpaceWord(SPF, rest);
  }

  lemma {:induction false} MechanismTokens(n: nat)
    requires n > 0
    ensures var tokens := SplitSpace(Mechanisms(n));
            |tokens| == n && forall i :: 0 <= i < n ==> tokens[i] == "a"
  {
    if n == 1 {
      SplitSpaceLastWord("a");
    } else {
      MechanismTokens(n - 1);
      SplitSpaceWord("a", Mechanisms(n - 1));
    }
  }

  lemma TwoIncludes()
    ensures SplitSpace(INCLUDE_X + [' '] + INCLUDE_X) == [INCLUDE_X, INCLUDE_X]
  {
    SplitSpaceWord(INCLUDE_X, INCLUDE_X);
    SplitSpaceLastWord(INCLUDE_X);
  }

  lemma RootTokens(tokens: seq<string>)
    requires tokens == [SPF] + [INCLUDE_X, INCLUDE_X]
    ensures TermsOf(tokens) == [Free, Include("x"), Include("x")]
  {
    LiteralTerms();
  }

  lemma RootRecord(dns: Dns)
    requires "r" in dns && dns["r"] == [SPF + [' '] + (INCLUDE_X + [' '] + INCLUDE_X)]
    ensures Terms(dns, "r") == [Free, Include("x"), Include("x")]
  {
    OnlyRecord(dns, "r", INCLUDE_X + [' '] + INCLUDE_X);
    TwoIncludes();
    RootTokens(Tokens(dns, "r"));
  }

  /** A record of `n` terms that cost one lookup each and name no other record. */
  ghost predicate IsFlat(terms: seq<Term>, n: nat) {
    |terms| == n + 1 && terms[0] == Free && forall i :: 0 < i <= n ==> terms[i] == A(None)
  }

  lemma LeafRecord(dns: Dns, n: nat)
    requires n > 0 && "x" in dns && dns["x"] == [SPF + [' '] + Mechanisms(n)]
    ensures IsFlat(Terms(dns, "x"), n)
  {
    OnlyRecord(dns, "x", Mechanisms(n));
    MechanismTokens(n);
    LiteralTerms();
  }

  /** Terms that name no other record cost the same with and without a visited set. */
  lemma {:induction false} FlatTerms(dns: Dns, domain: string, terms: seq<Term>, n: nat, seen: set<string>, depth: nat)
    requires depth <= MAX_DEPTH && IsFlat(terms, n)
    ensures var w := WalkTerms(dns, domain, terms, seen, depth);
            w.count == n == TreeTerms(dns, terms, depth) && w.seen == seen
  {
    var front := terms[..n];
    if n == 0 {
      assert front == [];
    } else {
      assert IsFlat(front, n - 1);
      FlatTerms(dns, domain, front, n - 1, seen, depth);
    }
  }

  /** For every `n`, an include named twice is counted once: the tree walk exceeds the count by `n`,
      so with `n` from 5 to 8 it exceeds the limit of 10 while the count does not. */
  lemma DiamondIsUndercounted(n: nat)
    requires n > 0
    ensures Walk(Diamond(n), "r", {}, 0).count == n + 2
    ensures TreeCount(Diamond(n), "r", 0) == 2 * n + 2
  {
    var dns := Diamond(n);
    RootRecord(dns);
    LeafRecord(dns, n);
    DiamondWalk(dns, n);
  }

  lemma AppendTerm(dns: Dns, domain: string, terms: seq<Term>, term: Term, seen: set<string>, depth: nat)
    requires depth <= MAX_DEPTH
    ensures WalkTerms(dns, domain, terms + [term], seen, depth)
         == TermStep(dns, domain, WalkTerms(dns, domain, terms, seen, depth), term, depth)
    ensures TreeTerms(dns, terms + [term], depth)
         == TreeStep(dns, TreeTerms(dns, terms, depth), term, depth)
  {
    assert (terms + [term])[..|terms|] == terms;
  }

  lemma IncludedRecord(dns: Dns, n: nat)
    requires IsFlat(Terms(dns, "x"), n)
    ensures var w := Walk(dns, "x", {"r"}, 1); w.count == n && w.seen == {"r", "x"}
    ensures Walk(dns, "x", {"r", "x"}, 1).count == 0 && Walk(dns, "x", {"r", "x"}, 1).seen == {"r", "x"}
    ensures TreeCount(dns, "x", 1) == n
  {
    assert Lower("x") == "x";
    FlatTerms(dns, "x", Terms(dns, "x"), n, {"r"} + {"x"}, 1);
    assert {"r"} + {"x"} == {"r", "x"};
  }

  lemma FirstInclude(dns: Dns, n: nat, w: Walked)
    requires IsFlat(Terms(dns, "x"), n) && w.count == 0 && w.seen == {"r"}
    ensures var next := TermStep(dns, "r", w, Include("x"), 0);
            next.count == n + 1 && next.seen == {"r", "x"}
    ensures TreeStep(dns, 0, Include("x"), 0) == n + 1
  {
    IncludedRecord(dns, n);
  }

  lemma SecondInclude(dns: Dns, n: nat, w: Walked)
    requires IsFlat(Terms(dns, "x"), n) && w.count == n + 1 && w.seen == {"r", "x"}
    ensures TermStep(dns, "r", w, Include("x"), 0).count == n + 2
    ensures TreeStep(dns, n + 1, Include("x"), 0) == 2 * n + 2
  {
    IncludedRecord(dns, n);
  }

  lemma DiamondTerms(dns: Dns, n: nat)
    requires IsFlat(Terms(dns, "x"), n)
    ensures WalkTerms(dns, "r", [Free, Include("x"), Include("x")], {"r"}, 0).count == n + 2
    ensures TreeTerms(dns, [Free, Include("x"), Include("x")], 0) == 2 * n + 2
  {
    var one, two := [Free], [Free, Include("x")];
    assert one == [] + [Free] && two == one + [Include("x")];
    assert [Free, Include("x"), Include("x")] == two + [Include("x")];
    AppendTerm(dns, "r", [], Free, {"r"}, 0);
    AppendTerm(dns, "r", one, Include("x"), {"r"}, 0);
    AppendTerm(dns, "r", two, Include("x"), {"r"}, 0);
    FirstInclude(dns, n, WalkTerms(dns, "r", one, {"r"}, 0));
    SecondInclude(dns, n, WalkTerms(dns, "r", two, {"r"}, 0));
  }

  lemma DiamondWalk(dns: Dns, n: nat)
    requires Terms(dns, "r") == [Free, Include("x"), Include("x")] && IsFlat(Terms(dns, "x"), n)
    ensures Walk(dns, "r", {}, 0).count == n + 2
    ensures TreeCount(dns, "r", 0) == 2 * n + 2
  {
    assert Lower("r") == "r" && {} + {"r"} == {"r"};
    DiamondTerms(dns, n);
  }

  // ---- The order of terms ----

  /** `a` and `b` publish the same terms for every domain, in any order. */
  ghost predicate SameTerms(a: Dns, b: Dns) {
    forall node :: multiset(Terms(a, node)) == multiset(Terms(b, node))
  }

  lemma {:induction false} CostConcat(a: seq<Term>, b: seq<Term>)
    ensures Cost(a + b) == Cost(a) + Cost(b)
  {
    if b == [] {
      assert a + b == a;
    } else {
      assert (a + b)[..|a + b| - 1] == a + b[..|b| - 1];
      CostConcat(a, b[..|b| - 1]);
    }
  }

  lemma {:induction false} TermTargetsConcat(a: seq<Term>, b: seq<Term>)
    ensures TermTargets(a + b) == TermTargets(a) + TermTargets(b)
  {
    if b == [] {
      assert a + b == a;
    } else {
      assert (a + b)[..|a + b| - 1] == a + b[..|b| - 1];
      TermTargetsConcat(a, b[..|b| - 1]);
    }
  }

  /** A term can be moved to the end. */
  lemma MoveToEnd(a: seq<Term>, term: Term, b: seq<Term>)
    ensures Cost(a + [term] + b) == Cost(a + b + [term])
    ensures TermTargets(a + [term] + b) == TermTargets(a + b + [term])
    ensures multiset(a + [term] + b) == multiset(a + b + [term])
  {
    CostConcat(a + [term], b);
    CostConcat(a, [term]);
    CostConcat(a + b, [term]);
    CostConcat(a, b);
    TermTargetsConcat(a + [term], b);
    TermTargetsConcat(a, [term]);
    TermTargetsConcat(a + b, [term]);
    TermTargetsConcat(a, b);
  }

  lemma SplitAtTerm(s: seq<Term>, term: Term) returns (a: seq<Term>, b: seq<Term>)
    requires term in multiset(s)
    ensures s == a + [term] + b
  {
    var j :| 0 <= j < |s| && s[j] == term;
    a, b := s[..j], s[j + 1..];
  }

  lemma {:induction false} TermOrderIsIrrelevant(a: seq<Term>, b: seq<Term>)
    requires multiset(a) == multiset(b)
    ensures Cost(a) == Cost(b) && TermTargets(a) == TermTargets(b)
  {
    if a == [] {
      assert |multiset(b)| == 0;
    } else {
      var front, term := a[..|a| - 1], a[|a| - 1];
      assert a == front + [term];
      assert term in multiset(a);
      var c, d := SplitAtTerm(b, term);
      MoveToEnd(c, term, d);
      assert multiset(front) == multiset(c + d) by {
        assert multiset(front) + multiset{term} == multiset(c + d) + multiset{term};
        assert multiset(front) == multiset(a) - multiset{term};
      }
      TermOrderIsIrrelevant(front, c + d);
      assert (c + d + [term])[..|c + d|] == c + d;
    }
  }

  lemma {:induction false} SumCostIgnoresOrder(a: Dns, b: Dns, nodes: set<string>)
    requires SameTerms(a, b)
    ensures SumCost(a, nodes) == SumCost(b, nodes)
  {
    if nodes != {} {
      var d :| d in nodes;
      SumCostRemove(a, nodes, d);
      SumCostRemove(b, nodes, d);
      TermOrderIsIrrelevant(Terms(a, d), Terms(b, d));
      SumCostIgnoresOrder(a, b, nodes - {d});
    }
  }

  lemma PathsIgnoreOrder(a: Dns, b: Dns, root: string)
    requires SameTerms(a, b)
    ensures ReachableFrom(a, root) == ReachableFrom(b, root)
  {
    forall node
      ensures Edges(a)(node) == Edges(b)(node)
    {
      TermOrderIsIrrelevant(Terms(a, node), Terms(b, node));
    }
    assert forall p :: IsPath(Edges(a), p) <==> IsPath(Edges(b), p);
  }

  /** Reordering the terms of any records changes neither the reachable cost nor, unless the depth
      guard fires, the reported count; and never whether the count is above a limit of at most 12. */
  lemma CountIgnoresOrder(a: Dns, b: Dns, domain: string)
    requires SameTerms(a, b)
    ensures ReachableCost(a, domain) == ReachableCost(b, domain)
    ensures var wa, wb := Walk(a, domain, {}, 0), Walk(b, domain, {}, 0);
            && (!wa.cut && !wb.cut ==> wa.count == wb.count)
            && (wa.count <= MAX_DEPTH || wb.count <= MAX_DEPTH ==> wa.count == wb.count)
  {
    PathsIgnoreOrder(a, b, Lower(domain));
    SumCostIgnoresOrder(a, b, ReachableFrom(a, Lower(domain)));
    VerdictIsExact(a, domain);
    VerdictIsExact(b, domain);
  }

  // ---- The report ----

  datatype Issue =
    | MultipleRedirects(n: nat)
    | RedirectIgnored(qualifier: char)
    | RedirectOverrides
    | SoftAll
    | PlusAll
    | NoPolicy
    | OverLimit(n: nat)
    | NearLimit(n: nat)

  datatype SpfReport = SpfReport(
    present: bool,
    raw: Option<string>,
    issues: seq<Issue>,
    lookupCount: nat,
    breakdown: seq<Entry>,
    redirectTarget: Option<string>,
    redirectOverrides: bool,
    valid: bool)

  /** The report's limit warnings say exactly what the full reachable graph costs. */
  ghost predicate LimitsReported(dns: Dns, domain: string, issues: seq<Issue>) {
    && ((exists n :: OverLimit(n) in issues) <==> ReachableCost(dns, domain) > 10)
    && ((exists n :: NearLimit(n) in issues) <==> 8 <= ReachableCost(dns, domain) <= 10)
  }

  /** Whether a record with structure `s` and lookup count `count` calls for an issue. */
  predicate Warranted(s: Structure, count: nat, i: Issue) {
    match i
    case MultipleRedirects(n) => n == |s.redirects| > 1
    case RedirectIgnored(q) => s.redirects != [] && s.allQualifier == Some(q)
    case RedirectOverrides => s.redirects != [] && s.allQualifier.None? && s.mechanisms != []
    case SoftAll => s.allQualifier == Some('?')
    case PlusAll => s.allQualifier == Some('+')
    case NoPolicy => s.redirects == [] && s.allQualifier.None?
    case OverLimit(n) => n == count > 10
    case NearLimit(n) => 8 <= n == count <= 10
  }

  method StructureIssues(s: Structure) returns (issues: seq<Issue>, target: Option<string>, overrides: bool)
    ensures forall i :: i in issues <==> Warranted(s, 0, i)
    ensures overrides <==> RedirectOverrides in issues
    ensures target == if s.redirects == [] then None else Some(s.redirects[0])
  {
    issues, target, overrides := [], None, false;
    if |s.redirects| > 1 {
      issues := issues + [MultipleRedirects(|s.redirects|)];
    }
    if s.redirects != [] {
      target := Some(s.redirects[0]);
      if s.allQualifier.Some? {
        issues := issues + [RedirectIgnored(s.allQualifier.value)];
      } else if s.mechanisms != [] {
        issues := issues + [RedirectOverrides];
        overrides := true;
      }
    }
    if s.allQualifier == Some('?') {
      issues := issues + [SoftAll];
    } else if s.allQualifier == Some('+') {
      issues := issues + [PlusAll];
    } else if s.allQualifier.None? && s.redirects == [] {
      issues := issues + [NoPolicy];
    }
  }

  lemma NoRecordCostsNothing(dns: Dns, domain: string)
    requires FirstSpf(Records(dns, Lower(domain))) == ""
    ensures Walk(dns, domain, {}, 0).count == 0 && ReachableCost(dns, domain) == 0
  {
    VerdictIsExact(dns, domain);
  }

  method AddLimitIssue(s: Structure, issues: seq<Issue>, count: nat) returns (all: seq<Issue>)
    requires forall i :: i in issues <==> Warranted(s, 0, i)
    ensures forall i :: i in all <==> Warranted(s, count, i)
  {
    all := issues;
    if count > 10 {
      all := all + [OverLimit(count)];
    } else if count >= 8 {
      all := all + [NearLimit(count)];
    }
  }

  lemma LimitsOfCount(s: Structure, count: nat, issues: seq<Issue>)
    requires forall i :: i in issues <==> Warranted(s, count, i)
    ensures (exists n :: OverLimit(n) in issues) <==> count > 10
    ensures (exists n :: NearLimit(n) in issues) <==> 8 <= count <= 10
  {
    assert OverLimit(count) in issues <==> count > 10;
    assert NearLimit(count) in issues <==> 8 <= count <= 10;
  }

  lemma LimitsFollow(dns: Dns, domain: string, s: Structure, issues: seq<Issue>)
    requires forall i :: i in issues <==> Warranted(s, Walk(dns, domain, {}, 0).count, i)
    ensures LimitsReported(dns, domain, issues)
  {
    VerdictIsExact(dns, domain);
    LimitsOfCount(s, Walk(dns, domain, {}, 0).count, issues);
  }

  method LookupSpf(dns: Dns, domain: string) returns (out: SpfReport)
    ensures var record := FirstSpf(Records(dns, Lower(domain)));
            && out.present == out.valid == (record != "")
            && out.raw == if out.present then Some(record) else None
    ensures out.lookupCount == Walk(dns, domain, {}, 0).count
    ensures LimitsReported(dns, domain, out.issues)
    ensures out.breakdown == Walk(dns, domain, {}, 0).breakdown
    ensures out.present ==>
              var s := Analyze(Tokens(dns, Lower(domain)));
              && (forall i :: i in out.issues <==> Warranted(s, out.lookupCount, i))
              && (out.redirectOverrides <==> RedirectOverrides in out.issues)
              && out.redirectTarget == if s.redirects == [] then None else Some(s.redirects[0])
  {
    out := SpfReport(false, None, [], 0, [], None, false, false);
    var record := FirstSpf(Records(dns, Lower(domain)));
    if record == "" {
      NoRecordCostsNothing(dns, domain);
      return;
    }
    var structure := AnalyzeSpfStructure(record);
    var issues, target, overrides := StructureIssues(structure);
    var visited := new Visited();
    var count, breakdown, error := CountSpfLookups(dns, domain, visited, 0);
    if error.Some? {
      assert false;  // a top-level call starts with an empty visited set, so it never returns an error
    }
    issues := AddLimitIssue(structure, issues, count);
    LimitsFollow(dns, domain, structure, issues);
    out := SpfReport(true, Some(record), issues, count, breakdown, target, overrides, true);
  }
}

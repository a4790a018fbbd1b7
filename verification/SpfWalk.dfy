/** The recursive SPF lookup counter: a depth-first walk over include: and redirect= with a shared
    set of visited domains and a depth guard. */
module SpfWalk {
  import opened Lists
  import opened Options
  import opened SpfTerms
  import opened Text

  /** A snapshot of the DNS: lower-cased domain to TXT records. */
  type Dns = map<string, seq<string>>

  const MAX_DEPTH: nat := 12

  datatype Kind = KInclude | KRedirect | KA | KMx | KExists | KPtr

  datatype Entry = Entry(kind: Kind, target: string, subCount: nat)

  datatype WalkError = Loop | TooDeep

  /** A call that returned at once because its domain had been visited before. */
  datatype Skip = Skip(domain: string, depth: nat)

  /** `count`, `breakdown` and `error` are what the call returns, `seen` is the shared set afterwards.
      The rest is an account of the whole walk: the domains whose TXT records were fetched, in
      order, the calls that met a visited domain, and whether any call hit the depth guard. */
  datatype Walked = Walked(
    count: nat,
    breakdown: seq<Entry>,
    error: Option<WalkError>,
    seen: set<string>,
    fetched: seq<string>,
    skipped: seq<Skip>,
    cut: bool)

  function Records(dns: Dns, node: string): seq<string> {
    if node in dns then dns[node] else []
  }

  predicate IsSpf(txt: string) {
    StartsWith(Lower(txt), "v=spf1")
  }

  /** The first v=spf1 record, or the empty string. */
  function FirstSpf(txts: seq<string>): (r: string)
    ensures r == "" <==> forall i :: 0 <= i < |txts| ==> !IsSpf(txts[i])
    ensures r != "" ==> exists i :: IsFirstSpf(txts, i) && r == txts[i]
  {
    if txts == [] then ""
    else if IsSpf(txts[0]) then assert |txts[0]| >= 6 && IsFirstSpf(txts, 0); txts[0]
    else
      var r := FirstSpf(txts[1..]);
      assert forall i :: IsFirstSpf(txts[1..], i) ==> IsFirstSpf(txts, i + 1);
      r
  }

  ghost predicate IsFirstSpf(txts: seq<string>, i: int) {
    0 <= i < |txts| && IsSpf(txts[i]) && forall j :: 0 <= j < i ==> !IsSpf(txts[j])
  }

  function Tokens(dns: Dns, node: string): seq<string> {
    SplitSpace(FirstSpf(Records(dns, node)))
  }

  function Terms(dns: Dns, node: string): seq<Term> {
    TermsOf(Tokens(dns, node))
  }

  /** The breakdown line for a costing term of the record at `domain`. */
  function EntryOf(term: Term, domain: string, subCount: nat): Entry
    requires term.Costs()
  {
    match term
    case Include(t) => Entry(KInclude, t, subCount)
    case Redirect(t) => Entry(KRedirect, t, subCount)
    case A(host) => Entry(KA, if host.Some? then host.value else domain, subCount)
    case Mx(host) => Entry(KMx, if host.Some? then host.value else domain, subCount)
    case Exists(t) => Entry(KExists, t, subCount)
    case Ptr => Entry(KPtr, "(deprecated)", subCount)
  }

  function Fuel(depth: nat): nat {
    if depth > MAX_DEPTH then 0 else MAX_DEPTH + 1 - depth
  }

  /** The call; a walk that hits the depth guard has counted one lookup for each level above it. */
  function Walk(dns: Dns, domain: string, seen: set<string>, depth: nat): (w: Walked)
    ensures seen <= w.seen
    ensures w.cut ==> w.count + depth > MAX_DEPTH
    decreases Fuel(depth), 1, 0
  {
    var node := Lower(domain);
    if node in seen then Walked(0, [], Some(Loop), seen, [], [Skip(domain, depth)], false)
    else if depth > MAX_DEPTH then Walked(0, [], Some(TooDeep), seen, [], [], true)
    else
      var w := WalkTerms(dns, domain, Terms(dns, node), seen + {node}, depth);
      w.(fetched := [node] + w.fetched, error := None)
  }

  /** The token loop of a call at `depth`, started with a given `seen`. */
  function WalkTerms(dns: Dns, domain: string, terms: seq<Term>, seen: set<string>, depth: nat): (w: Walked)
    requires depth <= MAX_DEPTH
    ensures seen <= w.seen
    ensures w.cut ==> w.count + depth > MAX_DEPTH
    decreases Fuel(depth), 0, |terms|
  {
    if terms == [] then Walked(0, [], None, seen, [], [], false)
    else
      var n := |terms| - 1;
      TermStep(dns, domain, WalkTerms(dns, domain, terms[..n], seen, depth), terms[n], depth)
  }

  /** What one term adds to the walk so far. */
  function TermStep(dns: Dns, domain: string, w: Walked, term: Term, depth: nat): (next: Walked)
    requires depth <= MAX_DEPTH
    ensures w.seen <= next.seen && w.count <= next.count
    ensures next.cut && !w.cut ==> next.count + depth > MAX_DEPTH
    decreases Fuel(depth), 0, 0
  {
    if term.Descends() then
      var sub := Walk(dns, term.target, w.seen, depth + 1);
      Walked(w.count + 1 + sub.count, w.breakdown + [EntryOf(term, domain, sub.count)], None, sub.seen,
             w.fetched + sub.fetched, w.skipped + sub.skipped, w.cut || sub.cut)
    else if term.Costs() then w.(count := w.count + 1, breakdown := w.breakdown + [EntryOf(term, domain, 0)])
    else w
  }

  lemma WalkOneMore(dns: Dns, domain: string, terms: seq<Term>, i: nat, seen: set<string>, depth: nat)
    requires depth <= MAX_DEPTH && i < |terms|
    ensures WalkTerms(dns, domain, terms[..i + 1], seen, depth)
         == TermStep(dns, domain, WalkTerms(dns, domain, terms[..i], seen, depth), terms[i], depth)
  {
    assert terms[..i + 1][..i] == terms[..i];
  }

  /** The call's shared state: the visited set and, as a ghost, the log of TXT fetches. */
  class Visited {
    var seen: set<string>
    ghost var fetched: seq<string>

    constructor ()
      ensures seen == {} && fetched == []
    {
      seen, fetched := {}, [];
    }
  }

  /** The branch of the token loop that `token` takes. */
  method ReadTerm(token: string) returns (term: Term)
    ensures term == ParseTerm(token)
  {
    var t := token;
    if t == [] {
      return Free;
    }
    if IsQualifier(t[0]) {
      t := t[1..];
    }
    var low := Lower(t);
    if StartsWith(low, "include:") {
      term := Include(t[8..]);
    } else if StartsWith(low, "redirect=") {
      term := Redirect(t[9..]);
    } else if StartsWith(low, "a:") || low == "a" {
      term := A(if StartsWith(low, "a:") then Some(t[2..]) else None);
    } else if StartsWith(low, "mx:") || low == "mx" {
      term := Mx(if StartsWith(low, "mx:") then Some(t[3..]) else None);
    } else if StartsWith(low, "exists:") {
      term := Exists(t[7..]);
    } else if StartsWith(low, "ptr") {
      term := Ptr;
    } else {
      term := Free;
    }
  }

  ghost predicate Progress(w: Walked, count: nat, breakdown: seq<Entry>, seen: set<string>) {
    count == w.count && breakdown == w.breakdown && seen == w.seen
  }

  method CountSpfLookups(dns: Dns, domain: string, v: Visited, depth: nat)
    returns (count: nat, breakdown: seq<Entry>, error: Option<WalkError>)
    modifies v
    ensures Progress(Walk(dns, domain, old(v.seen), depth), count, breakdown, v.seen)
    ensures error == Walk(dns, domain, old(v.seen), depth).error
    ensures v.fetched == old(v.fetched) + Walk(dns, domain, old(v.seen), depth).fetched
    decreases Fuel(depth), 1, 0
  {
    var node := Lower(domain);
    if node in v.seen {
      return 0, [], Some(Loop);
    }
    if depth > MAX_DEPTH {
      return 0, [], Some(TooDeep);
    }
    v.seen := v.seen + {node};
    v.fetched := v.fetched + [node];
    var record := FirstSpf(Records(dns, node));
    if record == "" {
      return 0, [], None;
    }
    Associate(old(v.fetched), [node], WalkTerms(dns, domain, Terms(dns, node), v.seen, depth).fetched);
    count, breakdown := CountTerms(dns, domain, SplitSpace(record), v, depth);
    error := None;
  }

  /** The token loop of `CountSpfLookups`. */
  method CountTerms(dns: Dns, domain: string, tokens: seq<string>, v: Visited, depth: nat)
    returns (count: nat, breakdown: seq<Entry>)
    requires depth <= MAX_DEPTH
    modifies v
    ensures Progress(WalkTerms(dns, domain, TermsOf(tokens), old(v.seen), depth), count, breakdown, v.seen)
    ensures v.fetched == old(v.fetched) + WalkTerms(dns, domain, TermsOf(tokens), old(v.seen), depth).fetched
    decreases Fuel(depth), 0, 1
  {
    count, breakdown := 0, [];
    ghost var seen0, fetched0 := v.seen, v.fetched;
    ghost var terms := TermsOf(tokens);
    ghost var w := WalkTerms(dns, domain, [], seen0, depth);
    for i := 0 to |tokens|
      invariant w == WalkTerms(dns, domain, terms[..i], seen0, depth)
      invariant Progress(w, count, breakdown, v.seen)
      invariant v.fetched == fetched0 + w.fetched
    {
      WalkOneMore(dns, domain, terms, i, seen0, depth);
      var term := ReadTerm(tokens[i]);
      count, breakdown := CountTerm(dns, domain, term, v, depth, count, breakdown, w, fetched0);
      w := TermStep(dns, domain, w, term, depth);
    }
    assert terms[..|tokens|] == terms;
  }

  /** One turn of the token loop: `w` accounts for the turns before it. */
  method CountTerm(dns: Dns, domain: string, term: Term, v: Visited, depth: nat, count0: nat, breakdown0: seq<Entry>,
                   ghost w: Walked, ghost fetched0: seq<string>)
    returns (count: nat, breakdown: seq<Entry>)
    requires depth <= MAX_DEPTH
    requires Progress(w, count0, breakdown0, v.seen) && v.fetched == fetched0 + w.fetched
    modifies v
    ensures Progress(TermStep(dns, domain, w, term, depth), count, breakdown, v.seen)
    ensures v.fetched == fetched0 + TermStep(dns, domain, w, term, depth).fetched
    decreases Fuel(depth), 0, 0
  {
    count, breakdown := count0, breakdown0;
    if term.Descends() {
      Associate(fetched0, w.fetched, Walk(dns, term.target, w.seen, depth + 1).fetched);
      var subCount, _, _ := CountSpfLookups(dns, term.target, v, depth + 1);
      count := count + 1 + subCount;
      breakdown := breakdown + [EntryOf(term, domain, subCount)];
    } else if term.Costs() {
      count := count + 1;
      breakdown := breakdown + [EntryOf(term, domain, 0)];
    }
  }
}

/** Which terms of a record cost a lookup, how the breakdown names them, and where the depth limit cuts. */
module SpfForms {
  import opened Lists
  import opened Options
  import opened SpfTerms
  import opened SpfWalk
  import opened Text
  import opened TextLaws

  // ---- Costs in terms of the structure ----

  /** The mechanisms that the counter charges for, by the name under which the structure lists them. */
  predicate IsCharged(kind: string) {
    kind == "include" || kind == "a" || kind == "mx" || kind == "exists" || StartsWith(kind, "ptr")
  }

  function Charged(mechanisms: seq<Mechanism>): nat {
    if mechanisms == [] then 0
    else Charged(mechanisms[..|mechanisms| - 1]) + if IsCharged(mechanisms[|mechanisms| - 1].kind) then 1 else 0
  }

  lemma ChargedSnoc(ms: seq<Mechanism>, m: Mechanism)
    ensures Charged(ms + [m]) == Charged(ms) + if IsCharged(m.kind) then 1 else 0
  {
    assert (ms + [m])[..|ms|] == ms;
  }

  /** The name before the first colon is a word exactly if the text is the word, or the word with a colon. */
  lemma NameIs(low: string, word: string)
    requires ':' !in word
    ensures Before(low, ':') == word <==> low == word || StartsWith(low, word + [':'])
  {
    if low == word {
      BeforeWithout(low, ':');
    }
    if StartsWith(low, word + [':']) {
      var rest := low[|word| + 1..];
      assert low == word + [':'] + rest;
      BeforeSeparator(word, ':', rest);
    }
  }

  lemma NameOfOne(low: string, word: string, start: string)
    requires ':' !in word && start == word + [':']
    ensures Before(low, ':') == word <==> low == word || StartsWith(low, start)
  {
    NameIs(low, word);
  }

  lemma NameStarts(low: string, word: string)
    requires ':' !in word
    ensures StartsWith(Before(low, ':'), word) <==> StartsWith(low, word)
  {
    var name := Before(low, ':');
    assert StartsWith(low, word) ==> |name| >= |word|;
  }

  lemma LongNames(low: string)
    ensures Before(low, ':') == "include" <==> low == "include" || StartsWith(low, "include:")
    ensures Before(low, ':') == "exists" <==> low == "exists" || StartsWith(low, "exists:")
  {
    assert Before(low, ':') == "include" <==> low == "include" || StartsWith(low, "include:") by {
      NameOfOne(low, "include", "include:");
    }
    assert Before(low, ':') == "exists" <==> low == "exists" || StartsWith(low, "exists:") by {
      NameOfOne(low, "exists", "exists:");
    }
  }

  lemma ShortNames(low: string)
    ensures Before(low, ':') == "a" <==> low == "a" || StartsWith(low, "a:")
    ensures Before(low, ':') == "mx" <==> low == "mx" || StartsWith(low, "mx:")
    ensures StartsWith(Before(low, ':'), "ptr") <==> StartsWith(low, "ptr")
  {
    NameOfOne(low, "a", "a:");
    NameOfOne(low, "mx", "mx:");
    NameStarts(low, "ptr");
  }

  /** What the counter charges for, in terms of the word that the structure analysis reads. */
  predicate IsChargedWord(low: string) {
    || StartsWith(low, "include:") || StartsWith(low, "a:") || low == "a" || StartsWith(low, "mx:") || low == "mx"
    || StartsWith(low, "exists:") || StartsWith(low, "ptr")
  }

  lemma ChargedWords(low: string)
    ensures IsChargedWord(low) <==> IsMechanism(low) && IsCharged(Before(low, ':'))
  {
    LongNames(low);
    ShortNames(low);
    FirstLetters(low);
  }

  lemma FirstLetters(low: string)
    ensures low == "include" || low == "exists" ==> !IsMechanism(low)
  {
    assert "ip4:"[1] == 'p' && "ip6:"[1] == 'p' && "a"[0] == 'a' && "mx"[0] == 'm' && "ptr"[0] == 'p';
    assert low == "include" ==> low[0] == 'i' && low[1] == 'n' && |low| == 7;
    assert low == "exists" ==> low[0] == 'e' && |low| == 6;
    assert IsMechanism(low) && low != [] && low[0] == 'e' ==> StartsWith(low, "exists:");
  }

  lemma OtherWords(low: string)
    ensures low == "all" || StartsWith(low, "redirect=") || StartsWith(low, "exp=") ==> !IsChargedWord(low)
  {
    if low == "all" {
      assert low[1] == 'l';
    } else if StartsWith(low, "redirect=") {
      assert low[0] == 'r';
    } else if StartsWith(low, "exp=") {
      assert low[0] == 'e' && low[1] == 'x' && low[2] == 'p';
    }
  }

  lemma TermOfWord(token: string)
    ensures var low := Lower(Unqualified(token));
            ParseTerm(token).Costs() <==> IsChargedWord(low) || StartsWith(low, "redirect=")
    ensures ParseTerm(token).Redirect? <==> StartsWith(Lower(Unqualified(token)), "redirect=")
  {
    var low := Lower(Unqualified(token));
    assert StartsWith(low, "redirect=") ==> low[0] == 'r';
    assert StartsWith(low, "include:") ==> low[0] == 'i';
  }

  lemma TokenIsCharged(s: Structure, token: string)
    ensures var s' := AddToken(s, token);
            Charged(s'.mechanisms) + |s'.redirects|
            == Charged(s.mechanisms) + |s.redirects| + if ParseTerm(token).Costs() then 1 else 0
  {
    var low := Lower(Unqualified(token));
    if StartsWith(Lower(token), "v=spf1") {
      VersionIsUnqualified(token);
    } else if token != [] {
      TermOfWord(token);
      OtherWords(low);
      ChargedWords(low);
      ChargedSnoc(s.mechanisms, Mechanism(Qualifier(token), Before(low, ':'), After(Unqualified(token), ':')));
    }
  }

  /** The counter charges for every redirect, and for exactly those mechanisms of the structure that are include,
      a, mx, exists or start with ptr; in particular neither for addresses nor for a or mx with a prefix length. */
  lemma {:induction false} CostIsOfChargedKinds(tokens: seq<string>)
    ensures Cost(TermsOf(tokens)) == Charged(Analyze(tokens).mechanisms) + |Analyze(tokens).redirects|
  {
    if tokens != [] {
      var n := |tokens| - 1;
      CostIsOfChargedKinds(tokens[..n]);
      TokenIsCharged(Analyze(tokens[..n]), tokens[n]);
      assert TermsOf(tokens)[..n] == TermsOf(tokens[..n]);
    }
  }

  // ---- The breakdown ----

  /** The type that the report gives for an entry. */
  function KindName(kind: Kind): string {
    match kind
    case KInclude => "include"
    case KRedirect => "redirect"
    case KA => "a"
    case KMx => "mx"
    case KExists => "exists"
    case KPtr => "ptr"
  }

  function Named(e: Entry): (string, string) {
    (KindName(e.kind), e.target)
  }

  /** Name and target of a term that costs a lookup, as they stand in the token: a term without a colon is about
      the domain of the record itself. */
  function NameOf(token: string, domain: string): (string, string) {
    var t := Unqualified(token);
    if StartsWith(Lower(t), "redirect=") then ("redirect", t[9..])
    else if StartsWith(Lower(t), "ptr") then ("ptr", "(deprecated)")
    else (Before(Lower(t), ':'), if ':' in t then After(t, ':') else domain)
  }

  lemma {:induction false} ColonStays(t: string)
    ensures |Before(Lower(t), ':')| == |Before(t, ':')| && (':' in t <==> ':' in Lower(t))
  {
    if t != [] {
      assert Lower(t)[1..] == Lower(t[1..]);
      assert t == [t[0]] + t[1..] && Lower(t) == [Lower(t)[0]] + Lower(t[1..]);
      ColonStays(t[1..]);
    }
  }

  lemma AfterColon(t: string, word: string)
    requires ':' !in word && StartsWith(Lower(t), word + [':'])
    ensures ':' in t && After(t, ':') == t[|word| + 1..]
  {
    var low := Lower(t);
    NameIs(low, word);
    ColonStays(t);
    assert low[|word|] == ':';
  }

  lemma NameOfInclude(token: string, domain: string, n: nat)
    requires StartsWith(Lower(Unqualified(token)), "include:")
    ensures ParseTerm(token).Include? && Named(EntryOf(ParseTerm(token), domain, n)) == NameOf(token, domain)
  {
    var t := Unqualified(token);
    AfterColon(t, "include");
    LongNames(Lower(t));
    assert Lower(t)[0] == 'i';
  }

  lemma NameOfExists(token: string, domain: string, n: nat)
    requires StartsWith(Lower(Unqualified(token)), "exists:")
    ensures ParseTerm(token).Exists? && Named(EntryOf(ParseTerm(token), domain, n)) == NameOf(token, domain)
  {
    var t := Unqualified(token);
    AfterColon(t, "exists");
    LongNames(Lower(t));
    assert Lower(t)[0] == 'e';
  }

  lemma NameOfHost(token: string, domain: string, n: nat, word: string)
    requires word == "a" || word == "mx"
    requires Lower(Unqualified(token)) == word || StartsWith(Lower(Unqualified(token)), word + [':'])
    ensures (if word == "a" then ParseTerm(token).A? else ParseTerm(token).Mx?)
         && Named(EntryOf(ParseTerm(token), domain, n)) == NameOf(token, domain)
  {
    var t := Unqualified(token);
    var low := Lower(t);
    NameIs(low, word);
    assert low[0] == word[0];
    if low == word {
      ColonStays(t);
    } else {
      AfterColon(t, word);
    }
  }

  lemma NameOfOthers(token: string, domain: string, n: nat)
    requires var low := Lower(Unqualified(token)); StartsWith(low, "redirect=") || StartsWith(low, "ptr")
    ensures ParseTerm(token).Costs() && Named(EntryOf(ParseTerm(token), domain, n)) == NameOf(token, domain)
  {
    var low := Lower(Unqualified(token));
    assert low[0] == 'r' || (low[0] == 'p' && low[1] == 't');
  }

  /** The breakdown line of a term carries its name and its target. */
  lemma EntryIsNamed(token: string, domain: string, n: nat)
    requires ParseTerm(token).Costs()
    ensures Named(EntryOf(ParseTerm(token), domain, n)) == NameOf(token, domain)
  {
    var low := Lower(Unqualified(token));
    TermOfWord(token);
    if StartsWith(low, "redirect=") || StartsWith(low, "ptr") {
      NameOfOthers(token, domain, n);
    } else if StartsWith(low, "include:") {
      NameOfInclude(token, domain, n);
    } else if StartsWith(low, "exists:") {
      NameOfExists(token, domain, n);
    } else if low == "a" || StartsWith(low, "a:") {
      NameOfHost(token, domain, n, "a");
    } else {
      NameOfHost(token, domain, n, "mx");
    }
  }

  function AllNamed(breakdown: seq<Entry>): (r: seq<(string, string)>)
    ensures |r| == |breakdown|
  {
    seq(|breakdown|, i requires 0 <= i < |breakdown| => Named(breakdown[i]))
  }

  /** Names and targets of the words that are charged and of the redirects, in their order. */
  function NamesOf(tokens: seq<string>, domain: string): seq<(string, string)> {
    if tokens == [] then []
    else
      var before, token := NamesOf(tokens[..|tokens| - 1], domain), tokens[|tokens| - 1];
      var low := Lower(Unqualified(token));
      if IsChargedWord(low) || StartsWith(low, "redirect=") then before + [NameOf(token, domain)] else before
  }

  /** The breakdown of a call lists the charged terms of the record in their order, each under its own name and
      with its own target. */
  lemma {:induction false} BreakdownNamesTerms(dns: Dns, domain: string, tokens: seq<string>, seen: set<string>,
                                               depth: nat)
    requires depth <= MAX_DEPTH
    ensures AllNamed(WalkTerms(dns, domain, TermsOf(tokens), seen, depth).breakdown) == NamesOf(tokens, domain)
  {
    if tokens != [] {
      var n := |tokens| - 1;
      var terms := TermsOf(tokens);
      assert terms[..n] == TermsOf(tokens[..n]);
      BreakdownNamesTerms(dns, domain, tokens[..n], seen, depth);
      StepIsNamed(dns, domain, WalkTerms(dns, domain, terms[..n], seen, depth), tokens[n], depth);
    }
  }

  lemma StepIsNamed(dns: Dns, domain: string, w: Walked, token: string, depth: nat)
    requires depth <= MAX_DEPTH
    ensures var low := Lower(Unqualified(token));
            AllNamed(TermStep(dns, domain, w, ParseTerm(token), depth).breakdown)
            == AllNamed(w.breakdown)
               + if IsChargedWord(low) || StartsWith(low, "redirect=") then [NameOf(token, domain)] else []
  {
    var term := ParseTerm(token);
    TermOfWord(token);
    if term.Costs() {
      var n := if term.Descends() then Walk(dns, term.target, w.seen, depth + 1).count else 0;
      EntryIsNamed(token, domain, n);
    }
  }

  // ---- What costs nothing ----

  lemma QualifiersAreListed(c: char)
    ensures IsQualifier(c) <==> c in "+-~?"
  {
  }

  /** A token with the sign `q`, or one without a sign, which counts as a plus. */
  ghost predicate IsSigned(token: string, q: char, t: string) {
    || (token == [q] + t && q in "+-~?")
    || (token == t && q == '+' && t != "" && t[0] !in "+-~?")
  }

  lemma SignedIsUnqualified(token: string, q: char, t: string)
    requires IsSigned(token, q, t)
    ensures token != "" && Unqualified(token) == t && Qualifier(token) == q
  {
  }

  lemma LowerStart(w: string, v: string, word: string)
    requires IsCasingOf(w, word)
    ensures Lower(w + v) == word + Lower(v)
  {
    LowerOfCasing(w, word);
  }

  lemma SignedIsNoVersion(token: string, q: char, t: string)
    requires IsSigned(token, q, t) && t != "" && Lower(t)[0] != 'v'
    ensures !StartsWith(Lower(token), "v=spf1")
  {
    assert Lower(token)[0] != 'v' && "v=spf1"[0] == 'v';
  }

  /** The term `all`, in any case, sets the policy and costs nothing. */
  lemma AllIsPolicy(s: Structure, token: string, q: char, w: string)
    requires IsSigned(token, q, w) && IsCasingOf(w, "all")
    ensures AddToken(s, token) == s.(allQualifier := Some(q)) && ParseTerm(token) == Free
  {
    LowerOfCasing(w, "all");
    SignedIsUnqualified(token, q, w);
    SignedIsNoVersion(token, q, w);
    OtherWords("all");
    TermOfWord(token);
    assert "all"[0] == 'a' && "redirect="[0] == 'r';
  }

  /** An address range is listed as the mechanism it is and costs nothing. */
  lemma AddressIsListed(s: Structure, token: string, q: char, w: string, v: string, kind: string)
    requires kind == "ip4" || kind == "ip6"
    requires IsSigned(token, q, w + v) && IsCasingOf(w, kind + ":")
    ensures AddToken(s, token) == s.(mechanisms := s.mechanisms + [Mechanism(q, kind, v)]) && ParseTerm(token) == Free
  {
    var t := w + v;
    SignedIsUnqualified(token, q, t);
    AddressWord(w, v, kind, kind + [':']);
    SignedIsNoVersion(token, q, t);
    TermOfWord(token);
  }

  lemma AddressWord(w: string, v: string, kind: string, start: string)
    requires kind == "ip4" || kind == "ip6"
    requires start == kind + [':'] && IsCasingOf(w, start)
    ensures var low := Lower(w + v);
            && IsMechanism(low) && Before(low, ':') == kind && After(w + v, ':') == v && low != "" && low[0] == 'i'
            && !IsChargedWord(low) && !StartsWith(low, "redirect=") && !StartsWith(low, "exp=") && low != "all"
  {
    var low := Lower(w + v);
    LowerStart(w, v, start);
    assert StartsWith(low, start) && ':' !in kind;
    AfterColon(w + v, kind);
    NameIs(low, kind);
    assert (w + v)[|w|..] == v;
    assert start == "ip4:" || start == "ip6:";
    AddressIsFree(low);
  }

  lemma AddressIsFree(low: string)
    requires |low| >= 2 && low[0] == 'i' && low[1] == 'p'
    ensures !IsChargedWord(low) && !StartsWith(low, "redirect=") && !StartsWith(low, "exp=") && low != "all"
  {
    assert "include:"[1] == 'n' && "a"[0] == 'a' && "redirect="[0] == 'r' && "exp="[0] == 'e' && "all"[0] == 'a';
  }

  /** Nor is a term charged that asks for the domain's own addresses or mail servers with a prefix length, such as
      a/24, although section 4.6.4 of RFC 7208 counts it. */
  lemma PrefixLengthIsFree(token: string, q: char, w: string, v: string)
    requires IsSigned(token, q, w + v) && (IsCasingOf(w, "a/") || IsCasingOf(w, "mx/"))
    ensures ParseTerm(token) == Free
  {
    var low := Lower(w + v);
    LowerStart(w, v, if IsCasingOf(w, "a/") then "a/" else "mx/");
    SignedIsUnqualified(token, q, w + v);
    assert (low[0] == 'a' && low[1] == '/') || (low[0] == 'm' && low[1] == 'x' && low[2] == '/');
    assert !IsChargedWord(low) && !StartsWith(low, "redirect=") by {
      assert "a:"[1] == ':' && "mx:"[2] == ':' && |"a"| == 1 && |"mx"| == 2;
      assert "include:"[0] == 'i' && "exists:"[0] == 'e' && "ptr"[0] == 'p' && "redirect="[0] == 'r';
    }
    TermOfWord(token);
  }

  /** A record is an SPF record if it starts with the version, in any case. */
  lemma VersionInAnyCase(w: string, v: string)
    requires IsCasingOf(w, "v=spf1")
    ensures IsSpf(w + v)
  {
    LowerStart(w, v, "v=spf1");
  }

  // ---- The depth limit ----

  /** A call for a visited domain reports a loop, and one below the twelfth level that it is too deep; any other call
      reports no error. */
  lemma ErrorsOfCalls(dns: Dns, domain: string, seen: set<string>, depth: nat)
    ensures var error := Walk(dns, domain, seen, depth).error;
            && (error == Some(Loop) <==> Lower(domain) in seen)
            && (error == Some(TooDeep) <==> Lower(domain) !in seen && depth > 12)
  {
  }


  /** Domains of which each includes the next one and the last one includes nothing. */
  ghost predicate IsChain(dns: Dns, names: seq<string>) {
    && names != [] && NoDuplicates(names)
    && (forall i :: 0 <= i < |names| ==> Lower(names[i]) == names[i])
    && (forall i :: 0 <= i < |names| - 1 ==> Terms(dns, names[i]) == [Free, Include(names[i + 1])])
    && Terms(dns, names[|names| - 1]) == [Free]
  }

  function Reached(names: seq<string>, i: nat): set<string>
    requires i <= |names|
  {
    set j | 0 <= j < i :: names[j]
  }

  function AtMost13(n: nat): nat {
    if n <= 13 then n else 13
  }

  lemma TwoTerms(dns: Dns, domain: string, target: string, seen: set<string>, depth: nat)
    requires depth <= MAX_DEPTH
    ensures WalkTerms(dns, domain, [Free], seen, depth) == Walked(0, [], None, seen, [], [], false)
    ensures var sub := Walk(dns, target, seen, depth + 1);
            var w := WalkTerms(dns, domain, [Free, Include(target)], seen, depth);
            w.count == 1 + sub.count && w.cut == sub.cut
  {
    assert [Free][..0] == [] && [Free, Include(target)][..1] == [Free];
  }

  lemma ReachedSnoc(names: seq<string>, i: nat)
    requires i < |names| && NoDuplicates(names)
    ensures names[i] !in Reached(names, i) && Reached(names, i) + {names[i]} == Reached(names, i + 1)
  {
  }

  lemma WalkIsOfTerms(dns: Dns, name: string, seen: set<string>, depth: nat)
    requires Lower(name) == name && name !in seen && depth <= 12
    ensures var w, terms := Walk(dns, name, seen, depth), WalkTerms(dns, name, Terms(dns, name), seen + {name}, depth);
            w.count == terms.count && w.cut == terms.cut
  {
  }

  /** One domain of the chain, in terms of the next one. */
  lemma ChainStep(dns: Dns, names: seq<string>, i: nat)
    requires IsChain(dns, names) && i < |names| && i < 13
    ensures var w := Walk(dns, names[i], Reached(names, i), i);
            if i < |names| - 1 then
              var sub := Walk(dns, names[i + 1], Reached(names, i + 1), i + 1);
              w.count == 1 + sub.count && w.cut == sub.cut
            else w.count == 0 && !w.cut
  {
    ReachedSnoc(names, i);
    WalkIsOfTerms(dns, names[i], Reached(names, i), i);
    TwoTerms(dns, names[i], if i < |names| - 1 then names[i + 1] else "", Reached(names, i + 1), i);
  }

  lemma {:induction false} ChainFrom(dns: Dns, names: seq<string>, i: nat)
    requires IsChain(dns, names) && i < |names| && i <= 13
    ensures var w := Walk(dns, names[i], Reached(names, i), i);
            w.count == AtMost13(|names| - 1) - i && (w.cut <==> |names| > 13)
    decreases 13 - i
  {
    if i < 13 {
      ChainStep(dns, names, i);
      if i < |names| - 1 {
        ChainFrom(dns, names, i + 1);
      }
    } else {
      ReachedSnoc(names, i);
    }
  }

  /** Along a chain of includes the first thirteen are counted, and the walk is cut if and only if there are more
      than twelve. */
  lemma ChainIsCutAtThirteen(dns: Dns, names: seq<string>)
    requires IsChain(dns, names)
    ensures var w := Walk(dns, names[0], {}, 0);
            w.count == AtMost13(|names| - 1) && (w.cut <==> |names| - 1 > 12)
  {
    assert Reached(names, 0) == {};
    ChainFrom(dns, names, 0);
  }
}

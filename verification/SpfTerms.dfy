/** Terms of an SPF record: which of them cost a DNS lookup, and how the record is structured. */
module SpfTerms {
  import opened Options
  import opened Text

  /** How the lookup counter reads one token of a record; an absent host means the domain of the record. */
  datatype Term =
    | Include(target: string)
    | Redirect(target: string)
    | A(host: Option<string>)
    | Mx(host: Option<string>)
    | Exists(target: string)
    | Ptr
    | Free
  {
    predicate Costs() {
      !Free?
    }

    /** Terms whose target is looked up recursively. */
    predicate Descends() {
      Include? || Redirect?
    }
  }

  predicate IsQualifier(c: char) {
    c == '+' || c == '-' || c == '~' || c == '?'
  }

  function Unqualified(token: string): string {
    if token != [] && IsQualifier(token[0]) then token[1..] else token
  }

  function ParseTerm(token: string): Term {
    var t := Unqualified(token);
    var low := Lower(t);
    if StartsWith(low, "include:") then Include(t[8..])
    else if StartsWith(low, "redirect=") then Redirect(t[9..])
    else if StartsWith(low, "a:") || low == "a" then A(if StartsWith(low, "a:") then Some(t[2..]) else None)
    else if StartsWith(low, "mx:") || low == "mx" then Mx(if StartsWith(low, "mx:") then Some(t[3..]) else None)
    else if StartsWith(low, "exists:") then Exists(t[7..])
    else if StartsWith(low, "ptr") then Ptr
    else Free
  }

  function TermsOf(tokens: seq<string>): (terms: seq<Term>)
    ensures |terms| == |tokens|
  {
    seq(|tokens|, i requires 0 <= i < |tokens| => ParseTerm(tokens[i]))
  }

  /** The number of terms that cost a lookup. */
  function Cost(terms: seq<Term>): nat {
    if terms == [] then 0
    else Cost(terms[..|terms| - 1]) + if terms[|terms| - 1].Costs() then 1 else 0
  }

  // ---- Structure of a record ----

  datatype Mechanism = Mechanism(qualifier: char, kind: string, value: string)

  datatype Structure = Structure(
    mechanisms: seq<Mechanism>,
    allQualifier: Option<char>,
    redirects: seq<string>,
    explain: Option<string>)

  const NO_STRUCTURE := Structure([], None, [], None)

  predicate IsMechanism(low: string) {
    || StartsWith(low, "ip4:") || StartsWith(low, "ip6:") || StartsWith(low, "include:")
    || StartsWith(low, "a:") || StartsWith(low, "a") || StartsWith(low, "mx:")
    || StartsWith(low, "mx") || StartsWith(low, "exists:") || StartsWith(low, "ptr")
  }

  function AddToken(s: Structure, token: string): Structure {
    if token == [] || StartsWith(Lower(token), "v=spf1") then s
    else
      var q := if IsQualifier(token[0]) then token[0] else '+';
      var t := Unqualified(token);
      var low := Lower(t);
      if low == "all" then s.(allQualifier := Some(q))
      else if StartsWith(low, "redirect=") then s.(redirects := s.redirects + [t[9..]])
      else if StartsWith(low, "exp=") then s.(explain := Some(t[4..]))
      else if IsMechanism(low) then
        s.(mechanisms := s.mechanisms + [Mechanism(q, Before(low, ':'), After(t, ':'))])
      else s
  }

  function Analyze(tokens: seq<string>): Structure {
    if tokens == [] then NO_STRUCTURE
    else AddToken(Analyze(tokens[..|tokens| - 1]), tokens[|tokens| - 1])
  }

  /** The redirect targets the lookup counter follows, in record order. */
  function RedirectTargets(terms: seq<Term>): seq<string> {
    if terms == [] then []
    else
      var before, last := RedirectTargets(terms[..|terms| - 1]), terms[|terms| - 1];
      if last.Redirect? then before + [last.target] else before
  }

  function Qualifier(token: string): char {
    if token != [] && IsQualifier(token[0]) then token[0] else '+'
  }

  /** Where the structure analysis lists a term that costs a lookup. */
  predicate Listed(s: Structure, token: string) {
    var t := Unqualified(token);
    if ParseTerm(token).Redirect? then ParseTerm(token).target in s.redirects
    else Mechanism(Qualifier(token), Before(Lower(t), ':'), After(t, ':')) in s.mechanisms
  }

  lemma {:induction false} RedirectsAgree(tokens: seq<string>)
    ensures Analyze(tokens).redirects == RedirectTargets(TermsOf(tokens))
    ensures Cost(TermsOf(tokens)) <= |Analyze(tokens).mechanisms| + |Analyze(tokens).redirects|
  {
    if tokens != [] {
      var n := |tokens| - 1;
      var last := tokens[n];
      RedirectsAgree(tokens[..n]);
      OneTokenIsClassified(Analyze(tokens[..n]), last);
      assert TermsOf(tokens)[..n] == TermsOf(tokens[..n]);
    }
  }

  lemma {:induction false} CostingTermIsClassified(tokens: seq<string>, i: nat)
    requires i < |tokens| && ParseTerm(tokens[i]).Costs()
    ensures Listed(Analyze(tokens), tokens[i])
  {
    var front, last := tokens[..|tokens| - 1], tokens[|tokens| - 1];
    if i < |front| {
      assert front[i] == tokens[i];
      CostingTermIsClassified(front, i);
      ListedStays(Analyze(front), tokens[i], last);
    } else {
      CostingTermIsListed(Analyze(front), last);
    }
  }

  /** Both passes over a record agree: the structure analysis lists exactly the redirects that the
      counter follows, every term that costs a lookup is listed as a redirect or as the mechanism it is, and
      there are at least as many entries as such terms. */
  lemma CostingTermsAreClassified(tokens: seq<string>)
    ensures Analyze(tokens).redirects == RedirectTargets(TermsOf(tokens))
    ensures forall i :: 0 <= i < |tokens| && ParseTerm(tokens[i]).Costs() ==> Listed(Analyze(tokens), tokens[i])
    ensures Cost(TermsOf(tokens)) <= |Analyze(tokens).mechanisms| + |Analyze(tokens).redirects|
  {
    RedirectsAgree(tokens);
    forall i | 0 <= i < |tokens| && ParseTerm(tokens[i]).Costs()
      ensures Listed(Analyze(tokens), tokens[i])
    {
      CostingTermIsClassified(tokens, i);
    }
  }

  lemma ListedStays(s: Structure, token: string, next: string)
    requires Listed(s, token)
    ensures Listed(AddToken(s, next), token)
  {
  }

  lemma CostingTermIsListed(s: Structure, token: string)
    requires ParseTerm(token).Costs()
    ensures Listed(AddToken(s, token), token)
  {
    if StartsWith(Lower(token), "v=spf1") {
      VersionIsUnqualified(token);
    } else {
      WordsDiffer(Lower(Unqualified(token)));
    }
  }

  /** The words that one pass looks for begin differently from those of the other. */
  lemma WordsDiffer(low: string)
    ensures low == "all" ==> |low| == 3 && low[1] == 'l'
    ensures StartsWith(low, "exp=") ==> low[0] == 'e' && low[2] == 'p'
    ensures StartsWith(low, "exists:") ==> low[2] == 'i'
  {
  }

  lemma VersionIsUnqualified(token: string)
    requires StartsWith(Lower(token), "v=spf1")
    ensures ParseTerm(token) == Free
  {
    assert Lower(token)[0] == 'v';
    assert !IsQualifier(token[0]);
    assert Lower(Unqualified(token))[0] == 'v';
  }

  lemma OneTokenIsClassified(s: Structure, token: string)
    ensures var s' := AddToken(s, token);
            var term := ParseTerm(token);
            && s'.redirects == (if term.Redirect? then s.redirects + [term.target] else s.redirects)
            && |s'.mechanisms| + |s'.redirects|
               >= |s.mechanisms| + |s.redirects| + if term.Costs() then 1 else 0
  {
    if StartsWith(Lower(token), "v=spf1") {
      VersionIsUnqualified(token);
    } else {
      WordsDiffer(Lower(Unqualified(token)));
    }
  }

  method AnalyzeSpfStructure(record: string) returns (s: Structure)
    ensures s == Analyze(SplitSpace(record))
  {
    var tokens := SplitSpace(record);
    var mechanisms: seq<Mechanism> := [];
    var allQualifier: Option<char> := None;
    var redirects: seq<string> := [];
    var explain: Option<string> := None;
    for i := 0 to |tokens|
      invariant Structure(mechanisms, allQualifier, redirects, explain) == Analyze(tokens[..i])
    {
      assert tokens[..i + 1][..i] == tokens[..i];
      var t := tokens[i];
      if t == [] || StartsWith(Lower(t), "v=spf1") {
        continue;
      }
      var q := '+';
      if IsQualifier(t[0]) {
        q := t[0];
        t := t[1..];
      }
      var low := Lower(t);
      if low == "all" {
        allQualifier := Some(q);
      } else if StartsWith(low, "redirect=") {
        redirects := redirects + [t[9..]];
      } else if StartsWith(low, "exp=") {
        explain := Some(t[4..]);
      } else if IsMechanism(low) {
        mechanisms := mechanisms + [Mechanism(q, Before(low, ':'), After(t, ':'))];
      }
    }
    assert tokens[..|tokens|] == tokens;
    s := Structure(mechanisms, allQualifier, redirects, explain);
  }
}

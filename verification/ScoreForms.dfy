/** The points of a mail, written out: which findings earn which part of the weight of each check. */
module ScoreForms {
  import opened Lists
  import opened Options
  import opened Score
  import opened ScoreLaws
  import opened Text
  import opened TextLaws

  // ---- Points and weights, check by check ----

  const FAILURES: set<string> := {"fail", "softfail", "permerror", "temperror"}

  function AuthPoints(f: Facts): real {
    (if f.spf == "pass" then 1.4 else if f.spf in FAILURES then 0.0 else 0.42)
    + (if f.dkim == "pass" then 1.4 else if f.dkim in FAILURES || !f.dkimHeader then 0.0 else 0.7)
    + if f.dmarc == "pass" then 1.4
      else if f.dmarc in FAILURES || !f.dmarcRecord then 0.0
      else if f.dmarcPolicy == "none" then 0.56
      else 0.7
  }

  function ServerWeight(f: Facts): real {
    (if f.senderIp then (if f.ptr == "" then 1.5 else 1.9) else 0.0) + if f.tls then 0.6 else 0.0
  }

  function ServerPoints(f: Facts): real {
    (if !f.senderIp || f.ptr == "" then 0.0
     else if RdnsMatches(f.ptr, f.senderDomain, f.helo) then 1.1
     else 0.82)
    + (if f.tls then 0.6 else 0.0)
    + if f.senderIp && !f.listed then 0.8 else 0.0
  }

  /** The plain text is at least a tenth as long as the HTML, rounded to per cent with ties to even. */
  predicate EnoughText(f: Facts) {
    200 * f.textLength >= 19 * if f.htmlLength == 0 then 1 else f.htmlLength
  }

  function TextPoints(f: Facts): real {
    (if f.unsubscribe then 0.4 else if f.bulk then 0.12 else 0.0)
    + (if f.letters >= 6 && 2 * f.capitals >= f.letters then 0.0 else 0.2)
    + if f.hasHtml && f.hasText then (if EnoughText(f) then 0.3 else 0.15)
      else if f.hasText then 0.24
      else 0.0
  }

  function LastWeight(f: Facts): real {
    (if f.htmlLength > 0 then 0.7 else 0.0) + if f.senderDomain != "" then 0.2 else 0.0
  }

  function LastPoints(f: Facts): real {
    (if f.htmlLength == 0 then 0.0
     else
       (if f.dangerous then 0.0 else 0.3) + (if f.images > 0 && f.imagesWithoutAlt > 0 then 0.06 else 0.2)
       + if f.shortUrls then 0.0 else 0.2)
    + if f.senderDomain == "" then 0.0 else if f.mx then 0.2 else 0.06
  }

  // ---- Sums of the parts ----

  lemma TwoChecks(a: Check, b: Check)
    ensures Earned([a, b]) == Worth(a) + Worth(b) && Applicable([a, b]) == Weight(a) + Weight(b)
  {
    OneCheck(a);
    assert [a, b][..1] == [a];
  }

  lemma ThreeChecks(a: Check, b: Check, c: Check)
    ensures Earned([a, b, c]) == Worth(a) + Worth(b) + Worth(c)
    ensures Applicable([a, b, c]) == Weight(a) + Weight(b) + Weight(c)
  {
    TwoChecks(a, b);
    assert [a, b, c][..2] == [a, b];
  }

  lemma NoChecks()
    ensures Earned([]) == 0.0 && Applicable([]) == 0.0
  {
  }

  lemma AuthIsWrittenOut(f: Facts)
    ensures Earned(AuthChecks(f)) == AuthPoints(f) && Applicable(AuthChecks(f)) == 4.2
  {
    ThreeChecks(SpfCheck(f), DkimCheck(f), DmarcCheck(f));
  }

  lemma RdnsIsWrittenOut(f: Facts)
    ensures Earned(RdnsChecks(f))
         == if !f.senderIp || f.ptr == "" then 0.0
            else if RdnsMatches(f.ptr, f.senderDomain, f.helo) then 1.1
            else 0.82
    ensures Applicable(RdnsChecks(f)) == if !f.senderIp then 0.0 else if f.ptr == "" then 0.7 else 1.1
  {
    var checks := RdnsChecks(f);
    NoChecks();
    if f.senderIp && f.ptr == "" {
      OneCheck(checks[0]);
    } else if f.senderIp {
      TwoChecks(checks[0], checks[1]);
    }
  }

  lemma ServerIsWrittenOut(f: Facts)
    ensures Earned(ServerChecks(f)) == (if f.tls then 0.6 else 0.0) + if f.senderIp && !f.listed then 0.8 else 0.0
    ensures Applicable(ServerChecks(f)) == (if f.tls then 0.6 else 0.0) + if f.senderIp then 0.8 else 0.0
  {
    OneCheck(TlsCheck(f));
    SumsOfConcat([TlsCheck(f)], DnsblChecks(f));
    NoChecks();
    if f.senderIp {
      OneCheck(DnsblChecks(f)[0]);
    }
  }

  lemma QuotientBound(a: real, b: real, bound: real)
    requires b > 0.0
    ensures a / b >= bound <==> a >= bound * b
  {
    var q := a / b;
    assert q * b == a;
    assert (q - bound) * b == a - bound * b;
  }

  lemma PercentByLengths(f: Facts)
    ensures TextPercent(f) >= 10 <==> EnoughText(f)
  {
    var html := if f.htmlLength == 0 then 1 else f.htmlLength;
    QuotientBound(100.0 * f.textLength as real, html as real, 9.5);
  }

  lemma ContentIsWrittenOut(f: Facts)
    ensures Earned(ContentChecks(f)) == TextPoints(f)
    ensures Applicable(ContentChecks(f)) == 0.5 + if f.unsubscribe || f.bulk then 0.4 else 0.0
  {
    PercentByLengths(f);
    ThreeChecks(UnsubscribeCheck(f), CapsCheck(f), TextCheck(f));
  }

  lemma LastIsWrittenOut(f: Facts)
    ensures Earned(LastChecks(f)) == LastPoints(f) && Applicable(LastChecks(f)) == LastWeight(f)
  {
    var html, mx := HtmlChecks(f), MxChecks(f);
    SumsOfConcat(html, mx);
    NoChecks();
    if f.htmlLength > 0 {
      ThreeChecks(html[0], html[1], html[2]);
    }
    if f.senderDomain != "" {
      OneCheck(mx[0]);
    }
  }

  lemma SumsOfMail(f: Facts)
    ensures Earned(Checks(f)) == Earned(AuthChecks(f)) + Earned(RdnsChecks(f)) + Earned(ServerChecks(f))
                                 + Worth(RspamdCheck(f)) + Earned(ContentChecks(f)) + Earned(LastChecks(f))
    ensures Applicable(Checks(f)) == Applicable(AuthChecks(f)) + Applicable(RdnsChecks(f)) + Applicable(ServerChecks(f))
                                     + Weight(RspamdCheck(f)) + Applicable(ContentChecks(f)) + Applicable(LastChecks(f))
  {
    SumsOfConcat(AuthChecks(f), RdnsChecks(f));
    SumsOfConcat(AuthChecks(f) + RdnsChecks(f), ServerChecks(f));
    SumsOfConcat(FirstChecks(f), [RspamdCheck(f)]);
    SumsOfConcat(FirstChecks(f) + [RspamdCheck(f)], ContentChecks(f));
    SumsOfConcat(FirstChecks(f) + [RspamdCheck(f)] + ContentChecks(f), LastChecks(f));
    OneCheck(RspamdCheck(f));
  }

  /** The spam curve: everything below zero, a fifth less for each point up to three, a tenth less for each point
      up to six, and nothing from there on; the lower bounds of its two pieces never take effect. */
  lemma SpamCurve(rs: real)
    ensures rs < 0.0 ==> SpamShare(rs) == 1.0
    ensures 0.0 <= rs < 3.0 ==> SpamShare(rs) == 1.0 - 0.2 * rs
    ensures 3.0 <= rs < 6.0 ==> SpamShare(rs) == 0.7 - 0.1 * rs
    ensures rs >= 6.0 ==> SpamShare(rs) == 0.0
  {
  }

  /** The weight of the checks that apply to a mail, and the points it earns. */
  lemma MailIsWrittenOut(f: Facts)
    ensures Applicable(Checks(f))
         == 4.7 + ServerWeight(f) + (if f.rspamd.Some? then 1.4 else 0.0)
            + (if f.unsubscribe || f.bulk then 0.4 else 0.0) + LastWeight(f)
    ensures Earned(Checks(f))
         == AuthPoints(f) + ServerPoints(f) + (if f.rspamd.Some? then 1.4 * SpamShare(f.rspamd.value) else 0.0)
            + TextPoints(f) + LastPoints(f)
  {
    SumsOfMail(f);
    AuthIsWrittenOut(f);
    RdnsIsWrittenOut(f);
    ServerIsWrittenOut(f);
    ContentIsWrittenOut(f);
    LastIsWrittenOut(f);
  }

  function Cents(n: int): real {
    n as real / 100.0
  }

  lemma Hundredths(x: real, n: int)
    requires n as real - 0.5 <= 100.0 * x <= n as real + 0.5
    ensures n as real / 100.0 - 0.005 <= x <= n as real / 100.0 + 0.005
  {
  }

  /** A total is rounded to whole hundredths, the nearest ones. */
  lemma RoundedToHundredths(x: real)
    ensures Round2(x) - 0.005 <= x <= Round2(x) + 0.005
    ensures exists n :: Round2(x) == Cents(n)
  {
    var n := HalfEven(100.0 * x);
    assert Round2(x) == Cents(n);
    Hundredths(x, n);
  }

  // ---- Full marks ----

  /** A mail about which no check that applies has anything to say. */
  predicate Flawless(f: Facts) {
    && f.spf == "pass" && f.dkim == "pass" && f.dmarc == "pass"
    && (f.senderIp ==> f.ptr != "" && RdnsMatches(f.ptr, f.senderDomain, f.helo) && !f.listed)
    && (f.rspamd.Some? ==> f.rspamd.value <= 0.0)
    && (f.bulk ==> f.unsubscribe)
    && (f.letters < 6 || 2 * f.capitals < f.letters)
    && f.hasHtml && f.hasText && EnoughText(f)
    && (f.htmlLength > 0 ==> !f.dangerous && (f.images == 0 || f.imagesWithoutAlt == 0) && !f.shortUrls)
    && (f.senderDomain != "" ==> f.mx)
  }

  lemma AuthLoss(f: Facts)
    ensures AuthPoints(f) <= 4.2 && (AuthPoints(f) == 4.2 <==> f.spf == "pass" && f.dkim == "pass" && f.dmarc == "pass")
  {
  }

  lemma ServerLoss(f: Facts)
    ensures ServerPoints(f) <= ServerWeight(f)
    ensures ServerPoints(f) == ServerWeight(f)
       <==> (f.senderIp ==> f.ptr != "" && RdnsMatches(f.ptr, f.senderDomain, f.helo) && !f.listed)
  {
  }

  lemma TextLoss(f: Facts)
    ensures var weight := 0.5 + if f.unsubscribe || f.bulk then 0.4 else 0.0;
            && TextPoints(f) <= weight
            && (TextPoints(f) == weight <==> (f.bulk ==> f.unsubscribe) && (f.letters < 6 || 2 * f.capitals < f.letters)
                                             && f.hasHtml && f.hasText && EnoughText(f))
  {
  }

  lemma LastLoss(f: Facts)
    ensures LastPoints(f) <= LastWeight(f)
    ensures LastPoints(f) == LastWeight(f)
       <==> && (f.htmlLength > 0 ==> !f.dangerous && (f.images == 0 || f.imagesWithoutAlt == 0) && !f.shortUrls)
            && (f.senderDomain != "" ==> f.mx)
  {
  }

  lemma SpamLoss(rs: real)
    ensures 1.4 * SpamShare(rs) <= 1.4 && (1.4 * SpamShare(rs) == 1.4 <==> rs <= 0.0)
  {
    SpamCurve(rs);
  }

  lemma EqualInParts(a: real, b: real, c: real, d: real, e: real, a': real, b': real, c': real, d': real, e': real)
    requires a <= a' && b <= b' && c <= c' && d <= d' && e <= e'
    ensures a + b + c + d + e == a' + b' + c' + d' + e'
       <==> a == a' && b == b' && c == c' && d == d' && e == e'
  {
  }

  function SpamPart(f: Facts): real {
    if f.rspamd.Some? then 1.4 * SpamShare(f.rspamd.value) else 0.0
  }

  lemma SpamPartLoss(f: Facts)
    ensures var weight := if f.rspamd.Some? then 1.4 else 0.0;
            && SpamPart(f) <= weight && (SpamPart(f) == weight <==> (f.rspamd.Some? ==> f.rspamd.value <= 0.0))
  {
    if f.rspamd.Some? {
      SpamLoss(f.rspamd.value);
    }
  }

  /** A mail earns all points that apply to it if and only if it is flawless. */
  lemma FullMarksIffFlawless(f: Facts)
    ensures Earned(Checks(f)) == Applicable(Checks(f)) <==> Flawless(f)
  {
    MailIsWrittenOut(f);
    AuthLoss(f);
    ServerLoss(f);
    SpamPartLoss(f);
    TextLoss(f);
    LastLoss(f);
    EqualInParts(AuthPoints(f), ServerPoints(f), SpamPart(f), TextPoints(f), LastPoints(f),
                 4.2, ServerWeight(f), if f.rspamd.Some? then 1.4 else 0.0,
                 0.5 + (if f.unsubscribe || f.bulk then 0.4 else 0.0), LastWeight(f));
  }

  /** Then its total is ten. */
  lemma FlawlessMailScoresTen(f: Facts)
    requires Flawless(f)
    ensures Total(Checks(f)) == 10.0
  {
    FullMarksIffFlawless(f);
    MailIsScored(f);
    SelfQuotient(Applicable(Checks(f)));
    RoundEnds();
  }

  // ---- Matching of names ----

  /** A reverse name matches in any case if it is the sender domain or lies below it, or if it ends like the last
      two labels of the HELO name; without a reverse name nothing matches. */
  lemma MatchingNames(ptr: string, host: string, domain: string, low: string, helo: string)
    requires IsCasingOf(domain, low) && low != ""
    ensures IsCasingOf(ptr, low) || IsCasingOf(ptr, host + "." + low) ==> RdnsMatches(ptr, domain, helo)
    ensures !RdnsMatches("", domain, helo)
  {
    LowerOfCasing(domain, low);
    if IsCasingOf(ptr, low) {
      LowerOfCasing(ptr, low);
    }
    if IsCasingOf(ptr, host + "." + low) {
      LowerOfCasing(ptr, host + "." + low);
      assert (host + "." + low)[|host|..] == "." + low;
    }
  }

  lemma LastLabels(labels: seq<string>)
    requires |labels| >= 2
    ensures Join(labels[|labels| - 2..], ".") == labels[|labels| - 2] + "." + labels[|labels| - 1]
  {
    var last := labels[|labels| - 2..];
    assert last == [labels[|labels| - 2], labels[|labels| - 1]] && last[1..] == [labels[|labels| - 1]];
  }

  lemma LabelsOfHelo(labels: seq<string>, helo: string)
    requires |labels| >= 2 && helo == Join(labels, ".") && forall i :: 0 <= i < |labels| ==> '.' !in labels[i]
    ensures SplitOn(helo, '.') == labels && helo != ""
  {
    SplitOnJoin(labels, '.');
    BeforeWithout("", '.');
  }

  /** Outside the sender domain a reverse name matches by the last two labels of the HELO name, and only by them. */
  lemma MatchingHelo(ptr: string, domain: string, labels: seq<string>, helo: string)
    requires |labels| >= 2 && helo == Join(labels, ".") && forall i :: 0 <= i < |labels| ==> '.' !in labels[i]
    requires ptr != "" && Lower(helo) == helo && Lower(ptr) == ptr && Lower(domain) == domain
    requires domain == "" || (ptr != domain && !EndsWith(ptr, "." + domain))
    ensures RdnsMatches(ptr, domain, helo) <==> EndsWith(ptr, labels[|labels| - 2] + "." + labels[|labels| - 1])
  {
    LabelsOfHelo(labels, helo);
    LastLabels(labels);
  }

  // ---- What a check shows ----

  /** Whether the status of a check fits its points: a skipped check has no weight, a passed one at least four fifths
      of it, a warning at most that, and a failed one at most two fifths. */
  ghost predicate StatusFits(c: Check) {
    match c.status
    case Skip => c.score == c.maxScore == 0.0
    case Pass => c.maxScore > 0.0 && c.score >= 0.8 * c.maxScore
    case Warn => c.maxScore > 0.0 && c.score <= 0.8 * c.maxScore
    case Fail => c.maxScore > 0.0 && c.score <= 0.4 * c.maxScore
  }

  ghost predicate AllFit(checks: seq<Check>) {
    forall i :: 0 <= i < |checks| ==> StatusFits(checks[i])
  }

  lemma FitConcat(a: seq<Check>, b: seq<Check>)
    requires AllFit(a) && AllFit(b)
    ensures AllFit(a + b)
  {
  }

  lemma SpamStatusFits(f: Facts)
    ensures StatusFits(RspamdCheck(f))
  {
    if f.rspamd.Some? {
      SpamCurve(f.rspamd.value);
    }
  }

  lemma FirstStatusesFit(f: Facts)
    ensures AllFit(AuthChecks(f)) && AllFit(RdnsChecks(f)) && AllFit(ServerChecks(f))
  {
    assert AllFit(AuthChecks(f));
    assert AllFit(RdnsChecks(f));
    FitConcat([TlsCheck(f)], DnsblChecks(f));
  }

  lemma LastStatusesFit(f: Facts)
    ensures AllFit(ContentChecks(f)) && AllFit(LastChecks(f))
  {
    assert AllFit(ContentChecks(f));
    FitConcat(HtmlChecks(f), MxChecks(f));
  }

  lemma FitOfParts(a: seq<Check>, b: seq<Check>, c: seq<Check>, d: seq<Check>, e: seq<Check>, g: seq<Check>)
    requires AllFit(a) && AllFit(b) && AllFit(c) && AllFit(d) && AllFit(e) && AllFit(g)
    ensures AllFit(a + b + c + d + e + g)
  {
    FitConcat(a, b);
    FitConcat(a + b, c);
    FitConcat(a + b + c, d);
    FitConcat(a + b + c + d, e);
    FitConcat(a + b + c + d + e, g);
  }

  /** The status that is shown for each check of a mail fits its points. */
  lemma StatusesFit(f: Facts)
    ensures AllFit(Checks(f))
  {
    FirstStatusesFit(f);
    SpamStatusFits(f);
    LastStatusesFit(f);
    FitOfParts(AuthChecks(f), RdnsChecks(f), ServerChecks(f), [RspamdCheck(f)], ContentChecks(f), LastChecks(f));
  }
}

/** The mail score: fifteen weighted checks and a total proportional to those that apply. */
module Score {
  import opened Options
  import opened Text

  datatype Status = Pass | Fail | Warn | Skip

  datatype Check = Check(key: string, status: Status, score: real, maxScore: real)

  // ---- Rounding ----

  /** The nearest integer, and of two nearest ones the even one. */
  function HalfEven(x: real): (r: int)
    ensures r as real - 0.5 <= x <= r as real + 0.5
    ensures x == r as real - 0.5 || x == r as real + 0.5 ==> r % 2 == 0
  {
    var n := x.Floor;
    var rest := x - n as real;
    if rest < 0.5 || (rest == 0.5 && n % 2 == 0) then n else n + 1
  }

  /** `round(x, 2)`. */
  function Round2(x: real): real {
    HalfEven(100.0 * x) as real / 100.0
  }

  // ---- The facts that the checks read off a mail ----

  /** The results of the receiving server are empty strings where it gives none, and so are the reverse name,
      the sender domain and the HELO name where there is none. */
  datatype Facts = Facts(
    spf: string, dkim: string, dmarc: string, dkimHeader: bool, dmarcRecord: bool, dmarcPolicy: string,
    senderIp: bool, ptr: string, senderDomain: string, helo: string, tls: bool, listed: bool,
    rspamd: Option<real>, unsubscribe: bool, bulk: bool, letters: nat, capitals: nat,
    hasHtml: bool, hasText: bool, htmlLength: nat, textLength: nat,
    dangerous: bool, images: nat, imagesWithoutAlt: nat, shortUrls: bool, mx: bool)

  predicate IsFailure(result: string) {
    result == "fail" || result == "softfail" || result == "permerror" || result == "temperror"
  }

  /** The reverse name is in the sender domain, or ends like the last two labels of the HELO name. */
  predicate RdnsMatches(ptr: string, domain: string, helo: string) {
    var name, labels := Lower(ptr), SplitOn(Lower(helo), '.');
    && ptr != ""
    && (|| (domain != "" && (name == Lower(domain) || EndsWith(name, "." + Lower(domain))))
        || (helo != "" && |labels| >= 2 && EndsWith(name, Join(labels[|labels| - 2..], "."))))
  }

  /** No check gives less than nothing or more than its maximum. */
  predicate Fair(c: Check) {
    0.0 <= c.score <= c.maxScore
  }

  ghost predicate AllFair(checks: seq<Check>) {
    forall i :: 0 <= i < |checks| ==> Fair(checks[i])
  }

  lemma FairConcat(a: seq<Check>, b: seq<Check>)
    requires AllFair(a) && AllFair(b)
    ensures AllFair(a + b)
  {
  }

  function Full(key: string, weight: real): Check {
    Check(key, Pass, weight, weight)
  }

  function SpfCheck(f: Facts): (c: Check)
    ensures Fair(c) && c.status != Skip && c.maxScore == 1.4
  {
    if f.spf == "pass" then Full("spf", 1.4)
    else if IsFailure(f.spf) then Check("spf", Fail, 0.0, 1.4)
    else Check("spf", Warn, 1.4 * 0.3, 1.4)
  }

  function DkimCheck(f: Facts): (c: Check)
    ensures Fair(c) && c.status != Skip && c.maxScore == 1.4
  {
    if f.dkim == "pass" then Full("dkim", 1.4)
    else if IsFailure(f.dkim) then Check("dkim", Fail, 0.0, 1.4)
    else if f.dkimHeader then Check("dkim", Warn, 1.4 * 0.5, 1.4)
    else Check("dkim", Fail, 0.0, 1.4)
  }

  function DmarcCheck(f: Facts): (c: Check)
    ensures Fair(c) && c.status != Skip && c.maxScore == 1.4
  {
    if f.dmarc == "pass" then Full("dmarc", 1.4)
    else if IsFailure(f.dmarc) then Check("dmarc", Fail, 0.0, 1.4)
    else if f.dmarcRecord && f.dmarcPolicy == "none" then Check("dmarc", Warn, 1.4 * 0.4, 1.4)
    else if f.dmarcRecord then Check("dmarc", Warn, 1.4 * 0.5, 1.4)
    else Check("dmarc", Fail, 0.0, 1.4)
  }

  /** Without a reverse name there is no second check. */
  function RdnsChecks(f: Facts): (r: seq<Check>)
    ensures AllFair(r)
  {
    if !f.senderIp then []
    else if f.ptr == "" then [Check("ptr", Fail, 0.0, 0.7)]
    else if RdnsMatches(f.ptr, f.senderDomain, f.helo) then [Full("ptr", 0.7), Full("rdns_match", 0.4)]
    else [Full("ptr", 0.7), Check("rdns_match", Warn, 0.4 * 0.3, 0.4)]
  }

  function TlsCheck(f: Facts): (c: Check)
    ensures Fair(c)
  {
    if f.tls then Full("tls", 0.6) else Check("tls", Skip, 0.0, 0.0)
  }

  function DnsblChecks(f: Facts): (r: seq<Check>)
    ensures AllFair(r)
  {
    if !f.senderIp then []
    else if f.listed then [Check("dnsbl", Fail, 0.0, 0.8)]
    else [Full("dnsbl", 0.8)]
  }

  function Max(a: real, b: real): real {
    if a >= b then a else b
  }

  /** The share of points for a spam score; a lower score is better. */
  function SpamShare(rs: real): (share: real)
    ensures 0.0 <= share <= 1.0
  {
    if rs < 0.0 then 1.0
    else if rs < 3.0 then Max(0.4, 1.0 - rs / 5.0)
    else if rs < 6.0 then Max(0.1, 0.4 - (rs - 3.0) / 10.0)
    else 0.0
  }

  function RspamdCheck(f: Facts): (c: Check)
    ensures Fair(c)
  {
    match f.rspamd
    case None => Check("rspamd", Skip, 0.0, 0.0)
    case Some(rs) =>
      var share := SpamShare(rs);
      Check("rspamd", if share > 0.8 then Pass else if share > 0.4 then Warn else Fail, 1.4 * share, 1.4)
  }

  function UnsubscribeCheck(f: Facts): (c: Check)
    ensures Fair(c)
  {
    if f.unsubscribe then Full("list_unsub", 0.4)
    else if f.bulk then Check("list_unsub", Warn, 0.4 * 0.3, 0.4)
    else Check("list_unsub", Skip, 0.0, 0.0)
  }

  function CapsCheck(f: Facts): (c: Check)
    ensures Fair(c) && c.status != Skip && c.maxScore == 0.2
  {
    if 2 * f.capitals < f.letters || f.letters < 6 then Full("subject_caps", 0.2)
    else Check("subject_caps", Warn, 0.0, 0.2)
  }

  function TextPercent(f: Facts): int {
    HalfEven(100.0 * f.textLength as real / (if f.htmlLength == 0 then 1 else f.htmlLength) as real)
  }

  function TextCheck(f: Facts): (c: Check)
    ensures Fair(c) && c.status != Skip && c.maxScore == 0.3
  {
    if f.hasHtml && f.hasText then
      if TextPercent(f) < 10 then Check("html_text", Warn, 0.3 * 0.5, 0.3) else Full("html_text", 0.3)
    else if f.hasText then Check("html_text", Pass, 0.3 * 0.8, 0.3)
    else Check("html_text", Warn, 0.0, 0.3)
  }

  function HtmlChecks(f: Facts): (r: seq<Check>)
    ensures AllFair(r)
  {
    if f.htmlLength == 0 then []
    else
      [if f.dangerous then Check("html_dangerous", Fail, 0.0, 0.3) else Full("html_dangerous", 0.3),
       if f.images == 0 || f.imagesWithoutAlt == 0 then Full("html_alt", 0.2)
       else Check("html_alt", Warn, 0.2 * 0.3, 0.2),
       if f.shortUrls then Check("short_urls", Warn, 0.0, 0.2) else Full("short_urls", 0.2)]
  }

  function MxChecks(f: Facts): (r: seq<Check>)
    ensures AllFair(r)
  {
    if f.senderDomain == "" then []
    else if f.mx then [Full("sender_mx", 0.2)]
    else [Check("sender_mx", Warn, 0.2 * 0.3, 0.2)]
  }

  function AuthChecks(f: Facts): (r: seq<Check>)
    ensures AllFair(r)
  {
    [SpfCheck(f), DkimCheck(f), DmarcCheck(f)]
  }

  function ServerChecks(f: Facts): (r: seq<Check>)
    ensures AllFair(r)
  {
    [TlsCheck(f)] + DnsblChecks(f)
  }

  function ContentChecks(f: Facts): (r: seq<Check>)
    ensures AllFair(r)
  {
    [UnsubscribeCheck(f), CapsCheck(f), TextCheck(f)]
  }

  function LastChecks(f: Facts): (r: seq<Check>)
    ensures AllFair(r)
  {
    HtmlChecks(f) + MxChecks(f)
  }

  function FirstChecks(f: Facts): (r: seq<Check>)
    ensures AllFair(r)
  {
    AuthChecks(f) + RdnsChecks(f) + ServerChecks(f)
  }

  function Checks(f: Facts): (r: seq<Check>)
    ensures AllFair(r)
  {
    FairConcat(FirstChecks(f), [RspamdCheck(f)]);
    FairConcat(FirstChecks(f) + [RspamdCheck(f)], ContentChecks(f));
    FairConcat(FirstChecks(f) + [RspamdCheck(f)] + ContentChecks(f), LastChecks(f));
    FirstChecks(f) + [RspamdCheck(f)] + ContentChecks(f) + LastChecks(f)
  }

  // ---- The total ----

  function Applicable(checks: seq<Check>): real {
    if checks == [] then 0.0
    else
      var before, last := Applicable(checks[..|checks| - 1]), checks[|checks| - 1];
      if last.status != Skip then before + last.maxScore else before
  }

  function Earned(checks: seq<Check>): real {
    if checks == [] then 0.0
    else
      var before, last := Earned(checks[..|checks| - 1]), checks[|checks| - 1];
      if last.status != Skip then before + last.score else before
  }

  /** The rounded share of ten points, before it is limited to ten. */
  function Share(earned: real, applicable: real): real {
    if applicable > 0.0 then Round2(10.0 * earned / applicable) else 0.0
  }

  function Total(checks: seq<Check>): real {
    var share := Share(Earned(checks), Applicable(checks));
    if share > 10.0 then 10.0 else share
  }

  // ---- The range of the total ----

  lemma RoundIsMonotone(x: real, y: real)
    requires x <= y
    ensures Round2(x) <= Round2(y)
  {
    HalfEvenIsMonotone(100.0 * x, 100.0 * y);
  }

  lemma HalfEvenIsMonotone(x: real, y: real)
    requires x <= y
    ensures HalfEven(x) <= HalfEven(y)
  {
    if x.Floor == y.Floor {
      assert x - x.Floor as real <= y - y.Floor as real;
    } else {
      assert x.Floor + 1 <= y.Floor;
    }
  }

  lemma QuotientIsMonotone(a: real, b: real, m: real)
    requires a <= b && m > 0.0
    ensures a / m <= b / m
  {
  }

  /** More points for the same checks never round to less. */
  lemma ShareIsMonotone(a: real, b: real, m: real)
    requires a <= b
    ensures Share(a, m) <= Share(b, m)
  {
    if m > 0.0 {
      QuotientIsMonotone(10.0 * a, 10.0 * b, m);
      RoundIsMonotone(10.0 * a / m, 10.0 * b / m);
    }
  }

  lemma ShareBounds(a: real, m: real)
    requires 0.0 <= a <= m
    ensures 0.0 <= Share(a, m) <= 10.0
  {
    ShareIsMonotone(0.0, a, m);
    ShareIsMonotone(a, m, m);
    RoundEnds();
    if m > 0.0 {
      assert Share(m, m) == Round2(10.0) by {
        SelfQuotient(m);
      }
      assert Share(0.0, m) == Round2(0.0);
    }
  }

  lemma SelfQuotient(m: real)
    requires m > 0.0
    ensures 10.0 * m / m == 10.0
  {
  }

  lemma RoundEnds()
    ensures Round2(10.0) == 10.0 && Round2(0.0) == 0.0
  {
    assert HalfEven(1000.0) == 1000 && HalfEven(0.0) == 0;
  }

  lemma {:induction false} EarnedIsWithin(checks: seq<Check>)
    requires AllFair(checks)
    ensures 0.0 <= Earned(checks) <= Applicable(checks)
  {
    if checks != [] {
      EarnedIsWithin(checks[..|checks| - 1]);
    }
  }

  /** The total is between 0 and 10, and limiting it to 10 changes nothing. */
  lemma TotalIsInRange(checks: seq<Check>)
    requires AllFair(checks)
    ensures 0.0 <= Total(checks) <= 10.0 && Total(checks) == Share(Earned(checks), Applicable(checks))
  {
    EarnedIsWithin(checks);
    ShareBounds(Earned(checks), Applicable(checks));
  }

  // ---- Scoring ----

  method BuildChecks(f: Facts) returns (checks: seq<Check>)
    ensures checks == Checks(f)
  {
    checks := [];
    checks := checks + [SpfCheck(f)];
    checks := checks + [DkimCheck(f)];
    checks := checks + [DmarcCheck(f)];
    assert checks == AuthChecks(f);
    checks := checks + RdnsChecks(f);
    ghost var named := checks;
    checks := checks + [TlsCheck(f)];
    checks := checks + DnsblChecks(f);
    assert checks == named + ServerChecks(f);
    checks := checks + [RspamdCheck(f)];
    ghost var judged := checks;
    checks := checks + [UnsubscribeCheck(f)];
    checks := checks + [CapsCheck(f)];
    checks := checks + [TextCheck(f)];
    assert checks == judged + ContentChecks(f);
    ghost var read := checks;
    checks := checks + HtmlChecks(f);
    checks := checks + MxChecks(f);
    assert checks == read + LastChecks(f);
  }

  method AddUp(checks: seq<Check>) returns (total: real)
    ensures total == Total(checks)
  {
    var applicable, earned := 0.0, 0.0;
    for i := 0 to |checks|
      invariant applicable == Applicable(checks[..i]) && earned == Earned(checks[..i])
    {
      assert checks[..i + 1][..i] == checks[..i];
      if checks[i].status != Skip {
        applicable := applicable + checks[i].maxScore;
        earned := earned + checks[i].score;
      }
    }
    assert checks[..|checks|] == checks;
    total := Share(earned, applicable);
    if total > 10.0 {
      total := 10.0;
    }
  }

  method ScoreEmail(f: Facts) returns (checks: seq<Check>, total: real)
    ensures checks == Checks(f) && total == Total(checks)
    ensures 0.0 <= total <= 10.0
  {
    checks := BuildChecks(f);
    total := AddUp(checks);
    TotalIsInRange(checks);
  }
}

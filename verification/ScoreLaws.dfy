/** The total stays within its range and moves in the right direction. */
module ScoreLaws {
  import opened Options
  import opened Score

  // ---- Gaining points ----

  /** Gaining at least as many points as possible points. */
  lemma ShareGains(a: real, m: real, b: real, n: real)
    requires 0.0 <= a <= m && 0.0 <= n - m <= b - a && b <= n
    ensures Share(a, m) <= Share(b, n)
  {
    if m > 0.0 {
      Products(a, m, n - m, b - a);
      assert a * n <= b * m by {
        assert a * n == a * m + a * (n - m) && b * m == m * a + m * (b - a);
      }
      CrossMultiply(a, m, b, n);
      RoundIsMonotone(10.0 * a / m, 10.0 * b / n);
    } else {
      ShareBounds(b, n);
    }
  }

  lemma Products(a: real, m: real, more: real, gain: real)
    requires 0.0 <= a <= m && 0.0 <= more <= gain
    ensures a * more <= m * gain
  {
    assert a * more <= m * more;
    assert m * more <= m * gain;
  }

  lemma CrossMultiply(a: real, m: real, b: real, n: real)
    requires m > 0.0 && n > 0.0 && a * n <= b * m
    ensures 10.0 * a / m <= 10.0 * b / n
  {
    var x, y := a / m, b / n;
    assert a == x * m && b == y * n;
    assert x * m * n <= y * n * m;
    assert (x - y) * (m * n) <= 0.0;
    assert 10.0 * a / m == 10.0 * x && 10.0 * b / n == 10.0 * y;
  }

  // ---- Lists of checks ----

  lemma {:induction false} SumsOfConcat(a: seq<Check>, b: seq<Check>)
    ensures Earned(a + b) == Earned(a) + Earned(b) && Applicable(a + b) == Applicable(a) + Applicable(b)
  {
    if b == [] {
      assert a + b == a;
    } else {
      var n := |b| - 1;
      SumsOfConcat(a, b[..n]);
      assert (a + b)[..|a + b| - 1] == a + b[..n];
    }
  }

  function Worth(c: Check): real {
    if c.status == Skip then 0.0 else c.score
  }

  function Weight(c: Check): real {
    if c.status == Skip then 0.0 else c.maxScore
  }

  lemma SumsWith(a: seq<Check>, c: Check, b: seq<Check>)
    ensures Earned(a + [c] + b) == Earned(a + b) + Worth(c)
    ensures Applicable(a + [c] + b) == Applicable(a + b) + Weight(c)
  {
    SumsOfConcat(a + [c], b);
    SumsOfConcat(a, b);
    assert (a + [c])[..|a|] == a;
  }

  /** Raising the score of any check never lowers the total, whatever the list. */
  lemma RaisingNeverLowers(a: seq<Check>, c: Check, b: seq<Check>, score: real)
    requires score >= c.score
    ensures Total(a + [c] + b) <= Total(a + [c.(score := score)] + b)
  {
    SumsWith(a, c, b);
    SumsWith(a, c.(score := score), b);
    ShareIsMonotone(Earned(a + [c] + b), Earned(a + [c.(score := score)] + b), Applicable(a + [c] + b));
  }

  lemma GainNeverLowers(before: seq<Check>, after: seq<Check>)
    requires AllFair(before) && AllFair(after)
    requires 0.0 <= Applicable(after) - Applicable(before) <= Earned(after) - Earned(before)
    ensures Total(before) <= Total(after)
  {
    EarnedIsWithin(before);
    EarnedIsWithin(after);
    TotalIsInRange(before);
    TotalIsInRange(after);
    ShareGains(Earned(before), Applicable(before), Earned(after), Applicable(after));
  }

  /** Nor does a further check with the full score, anywhere in the list. */
  lemma FullCheckNeverLowers(a: seq<Check>, c: Check, b: seq<Check>)
    requires AllFair(a + b) && c.score == c.maxScore >= 0.0
    ensures Total(a + b) <= Total(a + [c] + b)
  {
    SumsWith(a, c, b);
    InsertKeepsFair(a, c, b);
    GainNeverLowers(a + b, a + [c] + b);
  }

  lemma InsertKeepsFair(a: seq<Check>, c: Check, b: seq<Check>)
    requires AllFair(a + b) && Fair(c)
    ensures AllFair(a + [c] + b)
  {
    var s := a + [c] + b;
    assert forall i :: 0 <= i < |a| ==> s[i] == (a + b)[i];
    assert forall i :: |a| < i < |s| ==> s[i] == (a + b)[i - 1];
  }

  /** Skipped checks change nothing. */
  lemma SkippedCheckIsIgnored(a: seq<Check>, c: Check, b: seq<Check>)
    requires c.status == Skip
    ensures Total(a + [c] + b) == Total(a + b)
  {
    SumsWith(a, c, b);
  }

  // ---- The spam score ----

  /** A higher spam score never gets a larger share; the share is between 0 and 1, with everything for a negative
      score and nothing from 6 on. */
  lemma SpamShareFalls(rs: real, higher: real)
    requires rs <= higher
    ensures 0.0 <= SpamShare(higher) <= SpamShare(rs) <= 1.0
    ensures rs < 0.0 ==> SpamShare(rs) == 1.0
    ensures SpamShare(higher) == 0.0 <==> higher >= 6.0
  {
  }

  // ---- Mails ----

  lemma ThreeWeights(a: Check, b: Check, c: Check)
    ensures Applicable([a, b, c]) == Weight(a) + Weight(b) + Weight(c)
  {
    var one, two := [a], [a, b];
    assert one[..0] == [] && two[..1] == one && [a, b, c][..2] == two;
    assert Applicable(one) == Weight(a);
    assert Applicable(two) == Weight(a) + Weight(b);
  }

  lemma PartsAddUp(head: seq<Check>, mid: seq<Check>, tail: seq<Check>, last: seq<Check>)
    requires AllFair(mid) && AllFair(last)
    ensures Applicable(head + mid + tail + last) >= Applicable(head) + Applicable(tail)
  {
    SumsOfConcat(head + mid + tail, last);
    SumsOfConcat(head + mid, tail);
    SumsOfConcat(head, mid);
    EarnedIsWithin(mid);
    EarnedIsWithin(last);
  }

  lemma AuthWeight(f: Facts)
    ensures Applicable(AuthChecks(f)) == 4.2
  {
    ThreeWeights(SpfCheck(f), DkimCheck(f), DmarcCheck(f));
  }

  lemma ContentWeight(f: Facts)
    ensures Applicable(ContentChecks(f)) >= 0.5
  {
    ThreeWeights(UnsubscribeCheck(f), CapsCheck(f), TextCheck(f));
  }

  lemma Regroup(a: seq<Check>, b: seq<Check>, c: seq<Check>, d: seq<Check>, e: seq<Check>, g: seq<Check>)
    ensures a + b + c + d + e + g == a + (b + c + d) + e + g
    ensures a + b + c + d + e + g == (a + b + c) + d + (e + g)
    ensures a + b + c + d + e + g == a + b + (c + d + e + g)
  {
  }

  lemma AlwaysApplicable(f: Facts)
    ensures Applicable(Checks(f)) >= 4.7
  {
    var mid := RdnsChecks(f) + ServerChecks(f) + [RspamdCheck(f)];
    Regroup(AuthChecks(f), RdnsChecks(f), ServerChecks(f), [RspamdCheck(f)], ContentChecks(f), LastChecks(f));
    PartsAddUp(AuthChecks(f), mid, ContentChecks(f), LastChecks(f));
    AuthWeight(f);
    ContentWeight(f);
  }

  /** Every mail gets a total between 0 and 10, and always by the proportional rule: SPF, DKIM, DMARC, the
      subject and the text are never skipped. */
  lemma MailIsScored(f: Facts)
    ensures 0.0 <= Total(Checks(f)) <= 10.0
    ensures Applicable(Checks(f)) >= 4.7
    ensures Total(Checks(f)) == Round2(10.0 * Earned(Checks(f)) / Applicable(Checks(f)))
  {
    TotalIsInRange(Checks(f));
    AlwaysApplicable(f);
  }

  /** Replacing some checks by others that gain at least as many points as possible points. */
  lemma SwapNeverLowers(head: seq<Check>, x: seq<Check>, y: seq<Check>, tail: seq<Check>)
    requires AllFair(head) && AllFair(x) && AllFair(y) && AllFair(tail)
    requires 0.0 <= Applicable(y) - Applicable(x) <= Earned(y) - Earned(x)
    ensures Total(head + x + tail) <= Total(head + y + tail)
  {
    SumsOfMiddle(head, x, tail);
    SumsOfMiddle(head, y, tail);
    GainNeverLowers(head + x + tail, head + y + tail);
  }

  lemma SumsOfMiddle(head: seq<Check>, x: seq<Check>, tail: seq<Check>)
    ensures Earned(head + x + tail) == Earned(head) + Earned(x) + Earned(tail)
    ensures Applicable(head + x + tail) == Applicable(head) + Applicable(x) + Applicable(tail)
  {
    SumsOfConcat(head + x, tail);
    SumsOfConcat(head, x);
  }

  lemma OneCheck(c: Check)
    ensures Earned([c]) == Worth(c) && Applicable([c]) == Weight(c)
  {
    assert [c][..0] == [];
  }

  lemma SplitAtSpam(f: Facts)
    ensures Checks(f) == (AuthChecks(f) + RdnsChecks(f) + ServerChecks(f)) + [RspamdCheck(f)]
                         + (ContentChecks(f) + LastChecks(f))
  {
    Regroup(AuthChecks(f), RdnsChecks(f), ServerChecks(f), [RspamdCheck(f)], ContentChecks(f), LastChecks(f));
  }

  lemma SpamScoreIsNotServer(f: Facts, rspamd: Option<real>)
    ensures var g := f.(rspamd := rspamd);
            AuthChecks(g) == AuthChecks(f) && RdnsChecks(g) == RdnsChecks(f) && ServerChecks(g) == ServerChecks(f)
  {
  }

  lemma SpamScoreIsNotContent(f: Facts, rspamd: Option<real>)
    ensures var g := f.(rspamd := rspamd);
            ContentChecks(g) == ContentChecks(f) && LastChecks(g) == LastChecks(f)
  {
  }

  lemma SpamScoreIsLocal(f: Facts, rspamd: Option<real>)
    ensures var g := f.(rspamd := rspamd);
            && AuthChecks(g) == AuthChecks(f) && RdnsChecks(g) == RdnsChecks(f) && ServerChecks(g) == ServerChecks(f)
            && ContentChecks(g) == ContentChecks(f) && LastChecks(g) == LastChecks(f)
  {
    SpamScoreIsNotServer(f, rspamd);
    SpamScoreIsNotContent(f, rspamd);
  }

  lemma SpamPoints(f: Facts, rs: real, higher: real)
    requires rs <= higher
    ensures var c, d := RspamdCheck(f.(rspamd := Some(higher))), RspamdCheck(f.(rspamd := Some(rs)));
            Worth(c) <= Worth(d) && Weight(c) == Weight(d)
  {
    SpamShareFalls(rs, higher);
  }

  /** Of two mails that differ in the spam score only, the one with the lower spam score does not score less. */
  lemma LowerSpamScoreNeverLowers(f: Facts, rs: real, higher: real)
    requires rs <= higher
    ensures Total(Checks(f.(rspamd := Some(higher)))) <= Total(Checks(f.(rspamd := Some(rs))))
  {
    var worse, better := f.(rspamd := Some(higher)), f.(rspamd := Some(rs));
    var head, tail := AuthChecks(f) + RdnsChecks(f) + ServerChecks(f), ContentChecks(f) + LastChecks(f);
    SpamScoreIsLocal(f, Some(higher));
    SpamScoreIsLocal(f, Some(rs));
    SplitAtSpam(worse);
    SplitAtSpam(better);
    SpamPoints(f, rs, higher);
    OneCheck(RspamdCheck(worse));
    OneCheck(RspamdCheck(better));
    SwapNeverLowers(head, [RspamdCheck(worse)], [RspamdCheck(better)], tail);
  }

  lemma SplitAtReverseName(f: Facts)
    ensures Checks(f) == AuthChecks(f) + RdnsChecks(f)
                         + (ServerChecks(f) + [RspamdCheck(f)] + ContentChecks(f) + LastChecks(f))
  {
    Regroup(AuthChecks(f), RdnsChecks(f), ServerChecks(f), [RspamdCheck(f)], ContentChecks(f), LastChecks(f));
  }

  lemma ReverseNameIsLocal(f: Facts, ptr: string)
    ensures var g := f.(ptr := ptr);
            AuthChecks(g) == AuthChecks(f) && ServerChecks(g) == ServerChecks(f) && RspamdCheck(g) == RspamdCheck(f)
  {
  }

  lemma ReverseNameIsNotContent(f: Facts, ptr: string)
    ensures var g := f.(ptr := ptr);
            ContentChecks(g) == ContentChecks(f) && LastChecks(g) == LastChecks(f)
  {
  }

  lemma ReverseNamePoints(f: Facts, ptr: string)
    requires f.ptr == ""
    ensures var x, y := RdnsChecks(f), RdnsChecks(f.(ptr := ptr));
            0.0 <= Applicable(y) - Applicable(x) <= Earned(y) - Earned(x)
  {
    var x, y := RdnsChecks(f), RdnsChecks(f.(ptr := ptr));
    if f.senderIp && ptr != "" {
      var first, second := Full("ptr", 0.7), y[1];
      OneCheck(x[0]);
      OneCheck(first);
      OneCheck(second);
      assert y == [first] + [second];
      SumsOfConcat([first], [second]);
    }
  }

  /** A sender that gains a reverse name does not score less, even if the name does not match and the mail is
      then judged by one check more. */
  lemma GainingReverseNameNeverLowers(f: Facts, ptr: string)
    requires f.ptr == ""
    ensures Total(Checks(f)) <= Total(Checks(f.(ptr := ptr)))
  {
    var g := f.(ptr := ptr);
    ReverseNameIsLocal(f, ptr);
    ReverseNameIsNotContent(f, ptr);
    SplitAtReverseName(f);
    SplitAtReverseName(g);
    ReverseNamePoints(f, ptr);
    SwapNeverLowers(AuthChecks(f), RdnsChecks(f), RdnsChecks(g),
                    ServerChecks(f) + [RspamdCheck(f)] + ContentChecks(f) + LastChecks(f));
  }
}

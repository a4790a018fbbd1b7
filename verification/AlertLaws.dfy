/** What whole runs of the blacklist job alert on, and how far apart. */
module AlertLaws {
  import opened AlertJob
  import opened Lists
  import opened Options

  datatype Scan = Scan(domain: int, tenant: bool, targets: seq<Target>, commitClock: Time)

  /** All rows after a run of scans. */
  function RunScans(threshold: nat, scans: seq<Scan>): seq<Row>
    requires threshold >= 1
  {
    if scans == [] then []
    else
      var n := |scans| - 1;
      var rows := RunScans(threshold, scans[..n]);
      var s := scans[n];
      rows + ScanRows(threshold, rows, s.domain, s.tenant, s.targets, s.commitClock)
  }

  /** The addresses of a scan are distinct, and scans are listed in the order of their distinct commit times. */
  ghost predicate InOrder(scans: seq<Scan>) {
    && (forall i :: 0 <= i < |scans| ==> DistinctIps(scans[i].targets))
    && (forall i, j :: 0 <= i < j < |scans| ==> scans[i].commitClock < scans[j].commitClock)
  }

  lemma InOrderPrefix(scans: seq<Scan>)
    requires scans != [] && InOrder(scans)
    ensures InOrder(scans[..|scans| - 1])
  {
  }

  // ---- Times of stored rows ----

  ghost predicate StoredBy(rows: seq<Row>, clock: Time) {
    forall r :: r in rows ==> r.checkedAt <= clock
  }

  lemma {:induction false} RunIsStored(threshold: nat, scans: seq<Scan>, clock: Time)
    requires threshold >= 1
    requires forall i :: 0 <= i < |scans| ==> scans[i].commitClock <= clock
    ensures StoredBy(RunScans(threshold, scans), clock)
  {
    if scans != [] {
      var n := |scans| - 1;
      RunIsStored(threshold, scans[..n], clock);
      assert scans[n].commitClock <= clock;
    }
  }

  // ---- Cooldown ----

  ghost predicate SameAlert(r: Row, s: Row) {
    r.domain == s.domain && r.ip == s.ip && r.alert.Some? && s.alert.Some? && r.alert.value.event == s.alert.value.event
  }

  /** Two alerts of one event for one (domain, ip) are strictly more than the cooldown apart. */
  ghost predicate CooledDown(rows: seq<Row>) {
    forall i, j :: 0 <= i < j < |rows| && SameAlert(rows[i], rows[j]) ==>
                     rows[j].alert.value.at > rows[i].alert.value.at + COOLDOWN
  }

  /** The clock is not set back between the cooldown query of a check and the time noted for its alert. */
  ghost predicate AlertsAfterQuery(s: Scan) {
    forall t :: t in s.targets ==> t.cutoffClock <= t.alertClock
  }

  /** Whatever the order of scans and of their clocks otherwise. */
  lemma {:induction false} RunIsCooledDown(threshold: nat, scans: seq<Scan>)
    requires threshold >= 1
    requires forall i :: 0 <= i < |scans| ==> DistinctIps(scans[i].targets) && AlertsAfterQuery(scans[i])
    ensures CooledDown(RunScans(threshold, scans))
  {
    if scans != [] {
      var n := |scans| - 1;
      RunIsCooledDown(threshold, scans[..n]);
      ScanKeepsCooldown(threshold, RunScans(threshold, scans[..n]), scans[n]);
    }
  }

  lemma ScanKeepsCooldown(threshold: nat, rows: seq<Row>, s: Scan)
    requires threshold >= 1 && CooledDown(rows) && DistinctIps(s.targets)
    requires AlertsAfterQuery(s)
    ensures CooledDown(rows + ScanRows(threshold, rows, s.domain, s.tenant, s.targets, s.commitClock))
  {
    var added := ScanRows(threshold, rows, s.domain, s.tenant, s.targets, s.commitClock);
    var all := rows + added;
    assert forall i, j :: 0 <= i < j < |added| ==> added[i].ip != added[j].ip;
    forall i, j | 0 <= i < |rows| && 0 <= j < |added| && SameAlert(rows[i], added[j])
      ensures added[j].alert.value.at > rows[i].alert.value.at + COOLDOWN
    {
      var t := s.targets[j];
      assert t in s.targets && rows[i] in rows;
      HistoryMembers(rows, s.domain, t.ip, rows[i]);
    }
  }

  // ---- The history of one address ----

  lemma {:induction false} HistoryConcat(a: seq<Row>, b: seq<Row>, domain: int, ip: string)
    ensures History(a + b, domain, ip) == History(a, domain, ip) + History(b, domain, ip)
  {
    if b == [] {
      assert a + b == a;
    } else {
      var init, r := b[..|b| - 1], b[|b| - 1];
      assert b == init + [r];
      HistoryConcat(a, init, domain, ip);
      HistoryOneMore(a, init, r, domain, ip);
    }
  }

  lemma HistoryOneMore(a: seq<Row>, init: seq<Row>, r: Row, domain: int, ip: string)
    requires History(a + init, domain, ip) == History(a, domain, ip) + History(init, domain, ip)
    ensures History(a + (init + [r]), domain, ip) == History(a, domain, ip) + History(init + [r], domain, ip)
  {
    var p := Picked(r, domain, ip);
    calc {
      History(a + (init + [r]), domain, ip);
      { Associate(a, init, [r]); }
      History(a + init + [r], domain, ip);
      { HistorySnoc(a + init, r, domain, ip); }
      History(a, domain, ip) + History(init, domain, ip) + p;
      { Associate(History(a, domain, ip), History(init, domain, ip), p); }
      History(a, domain, ip) + (History(init, domain, ip) + p);
      { HistorySnoc(init, r, domain, ip); }
      History(a, domain, ip) + History(init + [r], domain, ip);
    }
  }

  lemma HistorySnoc(rows: seq<Row>, r: Row, domain: int, ip: string)
    ensures History(rows + [r], domain, ip) == History(rows, domain, ip) + Picked(r, domain, ip)
  {
    assert (rows + [r])[..|rows|] == rows;
  }

  lemma {:induction false} NotInHistory(rows: seq<Row>, domain: int, ip: string)
    requires forall i :: 0 <= i < |rows| ==> rows[i].ip != ip
    ensures History(rows, domain, ip) == []
  {
    if rows != [] {
      NotInHistory(rows[..|rows| - 1], domain, ip);
    }
  }

  lemma {:induction false} AtMostOne(rows: seq<Row>, domain: int, ip: string)
    requires forall i, j :: 0 <= i < j < |rows| ==> rows[i].ip != rows[j].ip
    ensures |History(rows, domain, ip)| <= 1
  {
    if rows != [] {
      var n := |rows| - 1;
      AtMostOne(rows[..n], domain, ip);
      if rows[n].ip == ip {
        NotInHistory(rows[..n], domain, ip);
      }
    }
  }

  ghost predicate Ordered(h: seq<Row>) {
    forall i, j :: 0 <= i < j < |h| ==> h[i].checkedAt < h[j].checkedAt
  }

  lemma OrderedConcat(a: seq<Row>, b: seq<Row>, clock: Time)
    requires Ordered(a) && |b| <= 1
    requires forall r :: r in a ==> r.checkedAt < clock
    requires forall r :: r in b ==> r.checkedAt == clock
    ensures Ordered(a + b)
  {
    var ab := a + b;
    forall i, j | 0 <= i < j < |ab|
      ensures ab[i].checkedAt < ab[j].checkedAt
    {
      if j == |a| {
        assert ab[i] in a && ab[j] in b;
      }
    }
  }

  /** The checks of one address have distinct, increasing times. */
  lemma {:induction false} HistoryIsOrdered(threshold: nat, scans: seq<Scan>, domain: int, ip: string)
    requires threshold >= 1 && InOrder(scans)
    ensures Ordered(History(RunScans(threshold, scans), domain, ip))
  {
    if scans != [] {
      var n := |scans| - 1;
      var s := scans[n];
      InOrderPrefix(scans);
      HistoryIsOrdered(threshold, scans[..n], domain, ip);
      var rows := RunScans(threshold, scans[..n]);
      var added := ScanRows(threshold, rows, s.domain, s.tenant, s.targets, s.commitClock);
      HistoryConcat(rows, added, domain, ip);
      AtMostOne(added, domain, ip);
      if n > 0 {
        RunIsStored(threshold, scans[..n], scans[n - 1].commitClock);
      }
      forall r | r in History(rows, domain, ip)
        ensures r.checkedAt < s.commitClock
      {
        HistoryMembers(rows, domain, ip, r);
      }
      forall r | r in History(added, domain, ip)
        ensures r.checkedAt == s.commitClock
      {
        HistoryMembers(added, domain, ip, r);
      }
      OrderedConcat(History(rows, domain, ip), History(added, domain, ip), s.commitClock);
    }
  }

  /** The last `n` of `h`, as far as there are any, newest first. */
  function LastN(h: seq<Row>, n: nat): seq<Row>
    decreases n
  {
    if n == 0 || h == [] then [] else [h[|h| - 1]] + LastN(h[..|h| - 1], n - 1)
  }

  lemma LatestIsLast(h: seq<Row>)
    requires Ordered(h) && h != []
    ensures LatestIndex(h) == |h| - 1 && Without(h, |h| - 1) == h[..|h| - 1]
  {
  }

  /** Of checks with increasing times, the latest ones are the last ones. */
  lemma {:induction false} LatestOfOrdered(h: seq<Row>, n: nat)
    requires Ordered(h)
    ensures Latest(h, n) == LastN(h, n)
    decreases n
  {
    if n > 0 && h != [] {
      LatestIsLast(h);
      LatestOfOrdered(h[..|h| - 1], n - 1);
    }
  }

  lemma {:induction false} LastNIsWindow(h: seq<Row>, n: nat)
    ensures IsWindow(Severities(h), Severities(LastN(h, n)), n)
    decreases n
  {
    if n > 0 && h != [] {
      var last := |h| - 1;
      LastNIsWindow(h[..last], n - 1);
      var r, r' := LastN(h, n), LastN(h[..last], n - 1);
      forall j | 0 <= j < |r|
        ensures r[j].severity == h[last - j].severity
      {
        if j > 0 {
          assert r[j] == r'[j - 1];
          assert Severities(r')[j - 1] == Severities(h[..last])[last - 1 - (j - 1)];
        }
      }
    }
  }

  // ---- The exact trace of alerts ----

  /** The last `n` severities, as far as there are any, all mean listed. */
  predicate ListedThroughout(past: seq<nat>, n: nat) {
    forall j :: 0 <= j < |past| && j >= |past| - n ==> past[j] >= 2
  }

  /** The event that a check with severity `sev` calls for after the severities `past`. */
  function TraceEvent(threshold: nat, past: seq<nat>, sev: nat): Option<Event> {
    if threshold <= 1 then
      if sev >= 2 && (past == [] || sev > past[|past| - 1]) then Some(Listed)
      else if sev == 0 && past != [] && past[|past| - 1] >= 2 then Some(Resolved)
      else None
    else if sev >= 2 && (past == [] || (sev > past[|past| - 1] && ListedThroughout(past, threshold - 1))) then
      Some(Listed)
    else None
  }

  function LastOf(past: seq<nat>): Option<nat> {
    if past == [] then None else Some(past[|past| - 1])
  }

  /** `recent` are the last `n` of `past`, as far as there are any, newest first. */
  ghost predicate IsWindow(past: seq<nat>, recent: seq<nat>, n: nat) {
    && |recent| == (if n <= |past| then n else |past|)
    && forall j :: 0 <= j < |recent| ==> recent[j] == past[|past| - 1 - j]
  }

  lemma CandidateIsTraceEvent(threshold: nat, past: seq<nat>, recent: seq<nat>, sev: nat)
    requires threshold >= 1
    requires IsWindow(past, recent, threshold - 1)
    ensures Candidate(threshold, LastOf(past), recent, sev)
         == TraceEvent(threshold, past, sev)
  {
    if threshold > 1 {
      forall j | 0 <= j < |past| && j >= |past| - (threshold - 1)
        ensures recent[|past| - 1 - j] == past[j]
      {
      }
      assert AllListed(recent) <==> ListedThroughout(past, threshold - 1);
      if past != [] {
        assert recent[0] == past[|past| - 1];
      }
    }
  }

  lemma PreviousIsLast(rows: seq<Row>, domain: int, ip: string)
    requires Ordered(History(rows, domain, ip))
    ensures PreviousSeverity(rows, domain, ip) == LastOf(Severities(History(rows, domain, ip)))
  {
    var h := History(rows, domain, ip);
    LatestOne(h);
    LastSeverity(h);
    PreviousIsFirst(rows, domain, ip, if h == [] then [] else [h[|h| - 1]]);
  }

  lemma LastSeverity(h: seq<Row>)
    ensures LastOf(Severities(h)) == if h == [] then None else Some(h[|h| - 1].severity)
  {
  }

  lemma PreviousIsFirst(rows: seq<Row>, domain: int, ip: string, latest: seq<Row>)
    requires latest == Latest(History(rows, domain, ip), 1)
    ensures PreviousSeverity(rows, domain, ip) == if latest == [] then None else Some(latest[0].severity)
  {
  }

  lemma LatestOne(h: seq<Row>)
    requires Ordered(h)
    ensures Latest(h, 1) == if h == [] then [] else [h[|h| - 1]]
  {
    LatestOfOrdered(h, 1);
  }

  lemma RecentIsWindow(rows: seq<Row>, domain: int, ip: string, n: nat)
    requires Ordered(History(rows, domain, ip))
    ensures IsWindow(Severities(History(rows, domain, ip)), RecentSeverities(rows, domain, ip, n), n)
  {
    LatestOfOrdered(History(rows, domain, ip), n);
    LastNIsWindow(History(rows, domain, ip), n);
  }

  lemma EventIsTraceEvent(threshold: nat, rows: seq<Row>, domain: int, tenant: bool, t: Target)
    requires threshold >= 1 && Ordered(History(rows, domain, t.ip))
    ensures EventFor(threshold, rows, domain, tenant, t)
         == if tenant then TraceEvent(threshold, Severities(History(rows, domain, t.ip)), SeverityFor(t.hits)) else None
  {
    var past, sev := Severities(History(rows, domain, t.ip)), SeverityFor(t.hits);
    var recent := RecentSeverities(rows, domain, t.ip, threshold - 1);
    assert PreviousSeverity(rows, domain, t.ip) == LastOf(past) by {
      PreviousIsLast(rows, domain, t.ip);
    }
    assert Candidate(threshold, LastOf(past), recent, sev) == TraceEvent(threshold, past, sev) by {
      RecentIsWindow(rows, domain, t.ip, threshold - 1);
      CandidateIsTraceEvent(threshold, past, recent, sev);
    }
  }

  /** In every run, a check alerts exactly if the severities of the address so far call for an event and
      the address had no alert of that event within the cooldown. */
  lemma AlertsFollowTheTrace(threshold: nat, scans: seq<Scan>, domain: int, tenant: bool, t: Target, at: Time)
    requires threshold >= 1 && InOrder(scans)
    ensures var rows := RunScans(threshold, scans);
            var past := Severities(History(rows, domain, t.ip));
            var event := TraceEvent(threshold, past, SeverityFor(t.hits));
            RowFor(threshold, rows, domain, tenant, t, at).alert
            == if tenant && event.Some? && !RecentlyAlerted(rows, domain, t.ip, event.value, t.cutoffClock - COOLDOWN)
               then Some(Alert(event.value, t.alertClock)) else None
  {
    var rows := RunScans(threshold, scans);
    HistoryIsOrdered(threshold, scans, domain, t.ip);
    EventIsTraceEvent(threshold, rows, domain, tenant, t);
  }

  /** The row of a check that alerted its domain and address of an event. */
  ghost predicate AlertedFor(r: Row, domain: int, ip: string, event: Event) {
    r.domain == domain && r.ip == ip && r.alert.Some? && r.alert.value.event == event
  }

  /** Over the stored rows: a check alerts if and only if it calls for an event of which no row of its domain and
      address carries an alert from the last six hours, counted from the cooldown query. */
  lemma AlertIffNotCooled(threshold: nat, rows: seq<Row>, domain: int, tenant: bool, t: Target, at: Time)
    requires threshold >= 1
    ensures var event := EventFor(threshold, rows, domain, tenant, t);
            RowFor(threshold, rows, domain, tenant, t, at).alert.Some?
            <==> event.Some?
                 && forall r :: r in rows && AlertedFor(r, domain, t.ip, event.value) ==>
                                  r.alert.value.at < t.cutoffClock - 21_600_000_000
  {
    forall r
      ensures r in History(rows, domain, t.ip) <==> r in rows && r.domain == domain && r.ip == t.ip
    {
      HistoryMembers(rows, domain, t.ip, r);
    }
  }

  /** What a check stores apart from the alert: who was checked, and how many hits of which greatest severity. */
  lemma RowKeepsCheck(threshold: nat, rows: seq<Row>, domain: int, tenant: bool, t: Target, at: Time)
    requires threshold >= 1
    ensures var r := RowFor(threshold, rows, domain, tenant, t, at);
            && r.domain == domain && r.ip == t.ip && r.role == t.role && r.checkedAt == at
            && r.listedCount == |t.hits| && r.severity == SeverityFor(t.hits)
            && (r.alert.Some? ==> r.alert.value.at == t.alertClock
                                  && Some(r.alert.value.event) == EventFor(threshold, rows, domain, tenant, t))
            && (!tenant ==> r.alert.None?)
  {
  }

  // ---- Counters and settings ----

  predicate HasHits(r: Row) {
    r.listedCount > 0
  }

  predicate HasAlert(r: Row) {
    r.alert.Some?
  }

  ghost function Indices(rows: seq<Row>, p: Row -> bool): set<int> {
    set i | 0 <= i < |rows| && p(rows[i])
  }

  lemma IndicesSnoc(rows: seq<Row>, r: Row, p: Row -> bool)
    ensures |Indices(rows + [r], p)| == |Indices(rows, p)| + if p(r) then 1 else 0
  {
    var all := rows + [r];
    assert all[|rows|] == r && forall i :: 0 <= i < |rows| ==> all[i] == rows[i];
    assert Indices(all, p) == Indices(rows, p) + if p(r) then {|rows|} else {};
  }

  /** The counters are the numbers of rows, of rows with hits, and of rows with an alert. */
  lemma {:induction false} CountersAreCardinalities(rows: seq<Row>)
    ensures var c := CountOf(rows);
            && c.checked == |rows|
            && c.listed == |Indices(rows, HasHits)|
            && c.alerted == |Indices(rows, HasAlert)|
  {
    if rows != [] {
      var front, last := rows[..|rows| - 1], rows[|rows| - 1];
      assert rows == front + [last];
      CountersAreCardinalities(front);
      IndicesSnoc(front, last, HasHits);
      IndicesSnoc(front, last, HasAlert);
    }
  }

  /** The setting is the threshold, but for a minimum of 1, and 2 where it is not set. */
  lemma ThresholdOfSetting(setting: int)
    ensures Threshold(0) == 2 && (setting != 0 ==> Threshold(setting) == if setting > 1 then setting else 1)
  {
  }

  // ---- Consequences ----

  /** With a threshold of at least 2 no run ever reports an address as resolved. */
  lemma {:induction false} ResolvedIsNeverSent(threshold: nat, scans: seq<Scan>)
    requires threshold >= 2 && InOrder(scans)
    ensures forall r :: r in RunScans(threshold, scans) && r.alert.Some? ==> r.alert.value.event == Listed
  {
    if scans != [] {
      var n := |scans| - 1;
      var s := scans[n];
      InOrderPrefix(scans);
      ResolvedIsNeverSent(threshold, scans[..n]);
      forall i | 0 <= i < |s.targets| {
        AlertsFollowTheTrace(threshold, scans[..n], s.domain, s.tenant, s.targets[i], s.commitClock);
      }
    }
  }

  /** The severities stored for an address by a run. */
  function PastOf(threshold: nat, scans: seq<Scan>, domain: int, ip: string): seq<nat>
    requires threshold >= 1
  {
    Severities(History(RunScans(threshold, scans), domain, ip))
  }

  /** The job is to alert when a previously clean address turns up on a critical list. In every run it calls
      for that alert if and only if the threshold is 1: a larger window contains the clean check itself. */
  lemma CleanToListedAlertsOnlyAtOne(threshold: nat, scans: seq<Scan>, domain: int, t: Target)
    requires threshold >= 1 && InOrder(scans)
    requires LastOf(PastOf(threshold, scans, domain, t.ip)) == Some(0) && SeverityFor(t.hits) >= 2
    ensures EventFor(threshold, RunScans(threshold, scans), domain, true, t) == Some(Listed) <==> threshold == 1
  {
    var past := PastOf(threshold, scans, domain, t.ip);
    HistoryIsOrdered(threshold, scans, domain, t.ip);
    EventIsTraceEvent(threshold, RunScans(threshold, scans), domain, true, t);
    if threshold > 1 {
      assert !ListedThroughout(past, threshold - 1) by {
        assert |past| - 1 >= |past| - (threshold - 1);
      }
    }
  }

  /** Likewise the event for an address that was listed and is clean is called for if and only if the threshold
      is 1. */
  lemma ListedToCleanResolvesOnlyAtOne(threshold: nat, scans: seq<Scan>, domain: int, t: Target)
    requires threshold >= 1 && InOrder(scans)
    requires LastSeverityIsListed(PastOf(threshold, scans, domain, t.ip)) && t.hits == []
    ensures EventFor(threshold, RunScans(threshold, scans), domain, true, t) == Some(Resolved) <==> threshold == 1
  {
    HistoryIsOrdered(threshold, scans, domain, t.ip);
    EventIsTraceEvent(threshold, RunScans(threshold, scans), domain, true, t);
    TraceResolves(threshold, PastOf(threshold, scans, domain, t.ip));
  }

  lemma TraceResolves(threshold: nat, past: seq<nat>)
    requires threshold >= 1 && LastSeverityIsListed(past)
    ensures TraceEvent(threshold, past, SeverityFor([])) == Some(Resolved) <==> threshold == 1
  {
  }

  predicate LastSeverityIsListed(past: seq<nat>) {
    past != [] && past[|past| - 1] >= 2
  }

  /** A clean check and then one on a critical list. */
  function CleanThenCritical(ip: string): seq<Scan> {
    [Scan(0, true, [Target(ip, Mx, [], 0, 0)], 0), Scan(0, true, [Target(ip, Mx, [3], 1, 1)], 1)]
  }

  lemma RunOfOne(threshold: nat, s: Scan)
    requires threshold >= 1
    ensures RunScans(threshold, [s]) == ScanRows(threshold, [], s.domain, s.tenant, s.targets, s.commitClock)
  {
    assert [s][..0] == [];
  }

  lemma FirstIsClean(ip: string)
    ensures var rows := RunScans(2, CleanThenCritical(ip)[..1]);
            |rows| == 1 && rows[0].domain == 0 && rows[0].ip == ip && rows[0].severity == 0
  {
    var first := CleanThenCritical(ip)[0];
    assert CleanThenCritical(ip)[..1] == [first];
    RunOfOne(2, first);
  }

  lemma PastIsClean(ip: string)
    ensures PastOf(2, CleanThenCritical(ip)[..1], 0, ip) == [0]
  {
    FirstIsClean(ip);
    OneRowHistory(RunScans(2, CleanThenCritical(ip)[..1]));
  }

  lemma NoTraceEvent()
    ensures TraceEvent(2, [0], 3) == None
  {
    assert !ListedThroughout([0], 1) by {
      assert [0][0] == 0;
    }
  }

  lemma LastScan(threshold: nat, scans: seq<Scan>)
    requires threshold >= 1 && scans != []
    ensures var n := |scans| - 1;
            var rows, s := RunScans(threshold, scans[..n]), scans[n];
            RunScans(threshold, scans) == rows + ScanRows(threshold, rows, s.domain, s.tenant, s.targets, s.commitClock)
  {
  }

  /** With the default threshold of 2 it raises no alert, although the address was clean before. */
  lemma CleanThenCriticalIsSilent(ip: string)
    ensures var rows := RunScans(2, CleanThenCritical(ip));
            |rows| == 2 && rows[0].severity == 0 && rows[1].severity == 3 && rows[1].alert.None?
  {
    var scans := CleanThenCritical(ip);
    var t := scans[1].targets[0];
    FirstIsClean(ip);
    PastIsClean(ip);
    SeverityOfOne(3);
    NoTraceEvent();
    AlertsFollowTheTrace(2, scans[..1], 0, true, t, 1);
    LastScan(2, scans);
  }

  lemma SeverityOfOne(s: Severity)
    ensures SeverityFor([s]) == s
  {
    assert [s][1..] == [];
  }

  lemma OneRowHistory(rows: seq<Row>)
    requires |rows| == 1
    ensures Severities(History(rows, rows[0].domain, rows[0].ip)) == [rows[0].severity]
  {
    var r := rows[0];
    assert rows[..0] == [] && History([], r.domain, r.ip) == [];
    assert History(rows, r.domain, r.ip) == [r];
  }

  /** With a threshold of at least 2, any check but the first one of an address calls for an alert if and only
      if it raises the severity from 2 to 3 and every check of the window was listed. */
  lemma LaterAlertsNeedAWarningFirst(threshold: nat, scans: seq<Scan>, domain: int, t: Target)
    requires threshold >= 2 && InOrder(scans)
    requires PastOf(threshold, scans, domain, t.ip) != []
    ensures EventFor(threshold, RunScans(threshold, scans), domain, true, t) == Some(Listed)
       <==> SeverityFor(t.hits) == 3 && EndsInTwo(PastOf(threshold, scans, domain, t.ip), threshold - 1)
  {
    HistoryIsOrdered(threshold, scans, domain, t.ip);
    EventIsTraceEvent(threshold, RunScans(threshold, scans), domain, true, t);
    RiseNeedsTwo(threshold, PastOf(threshold, scans, domain, t.ip), SeverityFor(t.hits));
  }

  /** The last severity is 2 and the last `n` all mean listed. */
  predicate EndsInTwo(past: seq<nat>, n: nat) {
    LastOf(past) == Some(2) && forall j :: 0 <= j < |past| && j >= |past| - n ==> past[j] >= 2
  }

  lemma RiseNeedsTwo(threshold: nat, past: seq<nat>, sev: nat)
    requires threshold >= 2 && past != [] && sev <= 3
    ensures TraceEvent(threshold, past, sev) == Some(Listed) <==> sev == 3 && EndsInTwo(past, threshold - 1)
  {
    var last := |past| - 1;
    if ListedThroughout(past, threshold - 1) {
      assert last >= |past| - (threshold - 1);
      assert past[last] >= 2;
    }
  }

  /** With a threshold of 1 every rise to a critical or warning severity calls for an alert, and every fall from
      there to clean for the resolved event. */
  lemma AtOneEveryRiseAlerts(scans: seq<Scan>, domain: int, t: Target)
    requires InOrder(scans)
    ensures var past, sev := PastOf(1, scans, domain, t.ip), SeverityFor(t.hits);
            var event := EventFor(1, RunScans(1, scans), domain, true, t);
            && (event == Some(Listed) <==> sev >= 2 && (past != [] ==> sev > past[|past| - 1]))
            && (event == Some(Resolved) <==> sev == 0 && past != [] && past[|past| - 1] >= 2)
  {
    HistoryIsOrdered(1, scans, domain, t.ip);
    EventIsTraceEvent(1, RunScans(1, scans), domain, true, t);
  }

  // ---- The number of agreeing checks ----

  /** There are `n` earlier checks right before this one, and all of them are listed. */
  predicate AgreedBefore(past: seq<nat>, n: nat) {
    n <= |past| && forall j :: |past| - n <= j < |past| ==> past[j] >= 2
  }

  /** A threshold of `n` is to demand `n` listed checks in a row, the present one included. A check that calls
      for an alert has them if and only if there were enough earlier checks of the address. */
  lemma AlertNeedsEnoughChecks(threshold: nat, scans: seq<Scan>, domain: int, t: Target)
    requires threshold >= 1 && InOrder(scans)
    requires EventFor(threshold, RunScans(threshold, scans), domain, true, t) == Some(Listed)
    ensures var past := PastOf(threshold, scans, domain, t.ip);
            SeverityFor(t.hits) >= 2 && (AgreedBefore(past, threshold - 1) <==> |past| >= threshold - 1)
  {
    HistoryIsOrdered(threshold, scans, domain, t.ip);
    EventIsTraceEvent(threshold, RunScans(threshold, scans), domain, true, t);
    TraceNeedsListed(threshold, PastOf(threshold, scans, domain, t.ip), SeverityFor(t.hits));
  }

  lemma TraceNeedsListed(threshold: nat, past: seq<nat>, sev: nat)
    requires threshold >= 1 && TraceEvent(threshold, past, sev) == Some(Listed)
    ensures sev >= 2 && (AgreedBefore(past, threshold - 1) <==> |past| >= threshold - 1)
  {
    if past == [] {
      assert AgreedBefore(past, threshold - 1) <==> threshold == 1;
    } else if threshold > 1 {
      assert ListedThroughout(past, threshold - 1);
    }
  }

  /** The first check of an address alerts if and only if its severity is at least 2, whatever the threshold. */
  lemma FirstCheckIgnoresThreshold(threshold: nat, scans: seq<Scan>, domain: int, t: Target, at: Time)
    requires threshold >= 1 && InOrder(scans) && PastOf(threshold, scans, domain, t.ip) == []
    ensures RowFor(threshold, RunScans(threshold, scans), domain, true, t, at).alert
         == if SeverityFor(t.hits) >= 2 then Some(Alert(Listed, t.alertClock)) else None
  {
    AlertsFollowTheTrace(threshold, scans, domain, true, t, at);
    assert History(RunScans(threshold, scans), domain, t.ip) == [];
  }

  /** An example: with the default threshold of 2 one observation is enough. */
  lemma FirstCheckAlerts(ip: string)
    ensures RunScans(2, [Scan(0, true, [Target(ip, Mx, [3], 1, 1)], 1)])
         == [Row(0, ip, Mx, 1, 3, 1, Some(Alert(Listed, 1)))]
  {
    RunOfOne(2, Scan(0, true, [Target(ip, Mx, [3], 1, 1)], 1));
    FirstCheckIgnoresThreshold(2, [], 0, Target(ip, Mx, [3], 1, 1), 1);
    SeverityOfOne(3);
  }
}

/** The scheduled blacklist job: rows of checks, the stability rule, and the alert cooldown. */
module AlertJob {
  import opened Options

  /** Microseconds. */
  type Time = int

  const COOLDOWN: Time := 6 * 3600 * 1000000

  /** The severities of the zones: 1 info, 2 warning, 3 critical. */
  type Severity = s: nat | 1 <= s <= 3 witness 1

  datatype Event = Listed | Resolved

  datatype Alert = Alert(event: Event, at: Time)

  datatype Role = Mx | Sender

  datatype Row = Row(domain: int, ip: string, role: Role, listedCount: nat, severity: nat, checkedAt: Time,
                     alert: Option<Alert>)

  /** One IP to check, with the outcome of its check: the zones' severities, the clock reading behind the
      cooldown cutoff, and the later reading stored with an alert. */
  datatype Target = Target(ip: string, role: Role, hits: seq<Severity>, cutoffClock: Time, alertClock: Time)

  function Max(a: nat, b: nat): nat {
    if a >= b then a else b
  }

  function SeverityFor(hits: seq<Severity>): (s: nat)
    ensures forall i :: 0 <= i < |hits| ==> hits[i] <= s
    ensures if hits == [] then s == 0 else s in hits
  {
    if hits == [] then 0 else Max(SeverityFor(hits[1..]), hits[0])
  }

  /** `max(1, int(setting or 2))`. */
  function Threshold(setting: int): (n: nat)
    ensures n >= 1
  {
    if setting == 0 then 2 else if setting < 1 then 1 else setting
  }

  // ---- Queries over the committed rows ----

  /** The rows of one (domain, ip), in the order in which they were stored. */
  function History(rows: seq<Row>, domain: int, ip: string): seq<Row> {
    if rows == [] then []
    else
      var n := |rows| - 1;
      History(rows[..n], domain, ip) + Picked(rows[n], domain, ip)
  }

  function Picked(r: Row, domain: int, ip: string): seq<Row> {
    if r.domain == domain && r.ip == ip then [r] else []
  }

  lemma {:induction false} HistoryMembers(rows: seq<Row>, domain: int, ip: string, r: Row)
    ensures r in History(rows, domain, ip) <==> r in rows && r.domain == domain && r.ip == ip
  {
    if rows != [] {
      var n := |rows| - 1;
      HistoryMembers(rows[..n], domain, ip, r);
      assert r in rows <==> r in rows[..n] || r == rows[n];
    }
  }

  /** The position of a row with the latest check time. */
  function LatestIndex(h: seq<Row>): (i: nat)
    requires h != []
    ensures i < |h| && forall j :: 0 <= j < |h| ==> h[j].checkedAt <= h[i].checkedAt
  {
    var n := |h| - 1;
    if n == 0 then 0
    else
      var i := LatestIndex(h[..n]);
      assert forall j :: 0 <= j < n ==> h[..n][j] == h[j];
      if h[i].checkedAt <= h[n].checkedAt then n else i
  }

  /** `ORDER BY checked_at DESC LIMIT n`. */
  function Latest(h: seq<Row>, n: nat): seq<Row>
    decreases n
  {
    if n == 0 || h == [] then []
    else
      var i := LatestIndex(h);
      [h[i]] + Latest(Without(h, i), n - 1)
  }

  function Without(h: seq<Row>, i: nat): seq<Row>
    requires i < |h|
  {
    h[..i] + h[i + 1..]
  }

  function LastCheckFor(rows: seq<Row>, domain: int, ip: string): Option<Row> {
    var r := Latest(History(rows, domain, ip), 1);
    if r == [] then None else Some(r[0])
  }

  predicate RecentlyAlerted(rows: seq<Row>, domain: int, ip: string, event: Event, cutoff: Time) {
    exists r :: r in History(rows, domain, ip)
      && r.alert.Some? && r.alert.value.event == event && r.alert.value.at >= cutoff
  }

  function Severities(h: seq<Row>): (s: seq<nat>)
    ensures |s| == |h|
  {
    seq(|h|, i requires 0 <= i < |h| => h[i].severity)
  }

  // ---- The decision for one check ----

  predicate AllListed(s: seq<nat>) {
    forall i :: 0 <= i < |s| ==> s[i] >= 2
  }

  predicate AllClean(s: seq<nat>) {
    forall i :: 0 <= i < |s| ==> s[i] == 0
  }

  /** The event that a check with severity `sev` calls for, before the cooldown: `prev` is the previous
      severity and `recent` the severities of the last `threshold - 1` checks. */
  function Candidate(threshold: nat, prev: Option<nat>, recent: seq<nat>, sev: nat): Option<Event> {
    var prevSev := if prev.Some? then prev.value else 0;
    var stableListed := sev >= 2 && (threshold > 1 ==> AllListed(recent));
    var stableClean := sev == 0 && (threshold > 1 ==> AllClean(recent));
    if sev > 0 then (if stableListed && sev > prevSev then Some(Listed) else None)
    else if stableClean && prev.Some? && prevSev >= 2 then Some(Resolved)
    else None
  }

  function PreviousSeverity(rows: seq<Row>, domain: int, ip: string): Option<nat> {
    var prev := LastCheckFor(rows, domain, ip);
    if prev.Some? then Some(prev.value.severity) else None
  }

  function RecentSeverities(rows: seq<Row>, domain: int, ip: string, n: nat): seq<nat> {
    Severities(Latest(History(rows, domain, ip), n))
  }

  function EventFor(threshold: nat, rows: seq<Row>, domain: int, tenant: bool, t: Target): Option<Event>
    requires threshold >= 1
  {
    if tenant then
      Candidate(threshold, PreviousSeverity(rows, domain, t.ip), RecentSeverities(rows, domain, t.ip, threshold - 1),
                SeverityFor(t.hits))
    else None
  }

  /** The row that a check stores, given the rows committed before the scan. */
  function RowFor(threshold: nat, rows: seq<Row>, domain: int, tenant: bool, t: Target, checkedAt: Time): Row
    requires threshold >= 1
  {
    var event := EventFor(threshold, rows, domain, tenant, t);
    var alert :=
      if event.Some? && !RecentlyAlerted(rows, domain, t.ip, event.value, t.cutoffClock - COOLDOWN)
      then Some(Alert(event.value, t.alertClock))
      else None;
    Row(domain, t.ip, t.role, |t.hits|, SeverityFor(t.hits), checkedAt, alert)
  }

  function ScanRows(threshold: nat, rows: seq<Row>, domain: int, tenant: bool, ts: seq<Target>, at: Time): (r: seq<Row>)
    requires threshold >= 1
    ensures |r| == |ts|
    ensures forall i :: 0 <= i < |ts| ==> r[i] == RowFor(threshold, rows, domain, tenant, ts[i], at)
  {
    seq(|ts|, i requires 0 <= i < |ts| => RowFor(threshold, rows, domain, tenant, ts[i], at))
  }

  // ---- Targets of a scan ----

  predicate DistinctIps(ts: seq<Target>) {
    forall i, j :: 0 <= i < j < |ts| ==> ts[i].ip != ts[j].ip
  }

  predicate HasIp(ts: seq<Target>, ip: string) {
    exists i :: 0 <= i < |ts| && ts[i].ip == ip
  }

  /** Each address of `mx` and `senders` once, as probed, with the MX role if it is an MX address. */
  ghost predicate Collected(ts: seq<Target>, mx: seq<string>, senders: seq<string>, probe: string -> Target) {
    && DistinctIps(ts)
    && (forall ip :: ip in mx || ip in senders ==> HasIp(ts, ip))
    && forall i :: 0 <= i < |ts| ==>
         && (ts[i].ip in mx || ts[i].ip in senders)
         && ts[i] == probe(ts[i].ip).(role := if ts[i].ip in mx then Mx else Sender)
  }

  function AddTarget(ts: seq<Target>, t: Target): seq<Target> {
    if HasIp(ts, t.ip) then ts else ts + [t]
  }

  lemma AddMx(ts: seq<Target>, mx: seq<string>, ip: string, probe: string -> Target)
    requires Collected(ts, mx, [], probe) && probe(ip).ip == ip
    ensures Collected(AddTarget(ts, probe(ip).(role := Mx)), mx + [ip], [], probe)
  {
    var r := AddTarget(ts, probe(ip).(role := Mx));
    assert r[..|ts|] == ts;
    forall x | x in mx + [ip]
      ensures HasIp(r, x)
    {
      if HasIp(ts, x) {
        var i :| 0 <= i < |ts| && ts[i].ip == x;
        assert r[i].ip == x;
      } else {
        assert r[|ts|].ip == x;
      }
    }
  }

  lemma AddSender(ts: seq<Target>, mx: seq<string>, senders: seq<string>, ip: string, probe: string -> Target)
    requires Collected(ts, mx, senders, probe) && probe(ip).ip == ip
    ensures Collected(AddTarget(ts, probe(ip).(role := Sender)), mx, senders + [ip], probe)
  {
    var r := AddTarget(ts, probe(ip).(role := Sender));
    assert r[..|ts|] == ts;
    forall x | x in mx || x in senders + [ip]
      ensures HasIp(r, x)
    {
      if HasIp(ts, x) {
        var i :| 0 <= i < |ts| && ts[i].ip == x;
        assert r[i].ip == x;
      } else {
        assert r[|ts|].ip == x;
      }
    }
  }

  /** Collects the MX addresses and then the sender addresses, each address once and MX first. */
  method BuildTargets(mx: seq<string>, senders: seq<string>, probe: string -> Target) returns (ts: seq<Target>)
    requires forall ip :: probe(ip).ip == ip
    ensures Collected(ts, mx, senders, probe)
  {
    ts := [];
    for k := 0 to |mx|
      invariant Collected(ts, mx[..k], [], probe)
    {
      AddMx(ts, mx[..k], mx[k], probe);
      assert mx[..k] + [mx[k]] == mx[..k + 1];
      ts := AddTarget(ts, probe(mx[k]).(role := Mx));
    }
    assert mx[..|mx|] == mx;
    for k := 0 to |senders|
      invariant Collected(ts, mx, senders[..k], probe)
    {
      AddSender(ts, mx, senders[..k], senders[k], probe);
      assert senders[..k] + [senders[k]] == senders[..k + 1];
      ts := AddTarget(ts, probe(senders[k]).(role := Sender));
    }
    assert senders[..|senders|] == senders;
  }

  // ---- The job ----

  datatype Counts = Counts(checked: nat, listed: nat, alerted: nat)

  function CountOf(rows: seq<Row>): Counts {
    if rows == [] then Counts(0, 0, 0) else CountRow(CountOf(rows[..|rows| - 1]), rows[|rows| - 1])
  }

  function CountRow(c: Counts, row: Row): Counts {
    Counts(c.checked + 1,
           c.listed + (if row.listedCount > 0 then 1 else 0),
           c.alerted + if row.alert.Some? then 1 else 0)
  }

  class Job {
    /** The committed rows; rows of a running scan become visible to queries only at its commit. */
    var rows: seq<Row>

    constructor ()
      ensures rows == []
    {
      rows := [];
    }

    method Decide(domain: int, tenant: bool, threshold: nat, t: Target) returns (event: Option<Event>)
      requires threshold >= 1
      ensures event == EventFor(threshold, rows, domain, tenant, t)
    {
      var prev := LastCheckFor(rows, domain, t.ip);
      var sev := SeverityFor(t.hits);
      var prevSev := if prev.Some? then prev.value.severity else 0;
      var stableListed, stableClean := sev >= 2, sev == 0;
      if threshold > 1 {
        var recent := RecentSeverities(rows, domain, t.ip, threshold - 1);
        AllOfCons(sev, recent);
        stableListed := stableListed && AllListed([sev] + recent);
        stableClean := stableClean && AllClean([sev] + recent);
      }
      event := None;
      if t.hits != [] {
        if stableListed && sev > prevSev && tenant {
          event := Some(Listed);
        }
      } else if stableClean && prev.Some? && prevSev >= 2 && tenant {
        event := Some(Resolved);
      }
    }

    /** One turn of the scan. */
    method CheckTarget(domain: int, tenant: bool, threshold: nat, t: Target, checkedAt: Time) returns (rec: Row)
      requires threshold >= 1
      ensures rec == RowFor(threshold, rows, domain, tenant, t, checkedAt)
    {
      var event := Decide(domain, tenant, threshold, t);
      rec := Row(domain, t.ip, t.role, |t.hits|, SeverityFor(t.hits), checkedAt, None);
      if event.Some? && tenant {
        if !RecentlyAlerted(rows, domain, t.ip, event.value, t.cutoffClock - COOLDOWN) {
          rec := rec.(alert := Some(Alert(event.value, t.alertClock)));
        }
      }
    }

    /** The loop over the targets, whose rows are not committed yet. */
    method ScanTargets(domain: int, tenant: bool, threshold: nat, ts: seq<Target>, commitClock: Time)
      returns (pending: seq<Row>, counts: Counts)
      requires threshold >= 1
      ensures pending == ScanRows(threshold, rows, domain, tenant, ts, commitClock) && counts == CountOf(pending)
    {
      pending, counts := [], Counts(0, 0, 0);
      ghost var added := ScanRows(threshold, rows, domain, tenant, ts, commitClock);
      for k := 0 to |ts|
        invariant pending == added[..k] && counts == CountOf(pending)
      {
        var rec := CheckTarget(domain, tenant, threshold, ts[k], commitClock);
        OneMoreRow(added, pending, k, rec);
        counts := CountRow(counts, rec);
        pending := pending + [rec];
      }
      assert added[..|ts|] == added;
    }

    method CheckDomain(domain: int, tenant: bool, setting: int, ts: seq<Target>, commitClock: Time)
      returns (counts: Counts)
      modifies this
      ensures var added := ScanRows(Threshold(setting), old(rows), domain, tenant, ts, commitClock);
              rows == old(rows) + added && counts == CountOf(added)
    {
      var pending: seq<Row>;
      pending, counts := ScanTargets(domain, tenant, Threshold(setting), ts, commitClock);
      rows := rows + pending;
    }
  }

  lemma OneMoreRow(added: seq<Row>, pending: seq<Row>, k: nat, rec: Row)
    requires k < |added| && pending == added[..k] && rec == added[k]
    ensures pending + [rec] == added[..k + 1]
    ensures CountOf(pending + [rec]) == CountRow(CountOf(pending), rec)
  {
    CountOneMore(pending, rec);
  }

  lemma CountOneMore(rows: seq<Row>, r: Row)
    ensures var c := CountOf(rows);
            CountOf(rows + [r]) == Counts(c.checked + 1,
                                          c.listed + (if r.listedCount > 0 then 1 else 0),
                                          c.alerted + if r.alert.Some? then 1 else 0)
  {
    assert (rows + [r])[..|rows|] == rows;
  }

  lemma AllOfCons(sev: nat, recent: seq<nat>)
    ensures AllListed([sev] + recent) <==> sev >= 2 && AllListed(recent)
    ensures AllClean([sev] + recent) <==> sev == 0 && AllClean(recent)
  {
    var s := [sev] + recent;
    assert s[0] == sev && forall i :: 0 <= i < |recent| ==> s[i + 1] == recent[i];
  }
}

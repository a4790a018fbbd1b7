/** What every run of ingests keeps, and what replaying a payload does. */
module IngestLaws {
  import opened Options
  import opened Text
  import opened Ingest

  /** No two reports share a key, no tenant has a domain twice, and every report and record belongs to the
      tenant of its domain. */
  ghost predicate Consistent(db: Db) {
    && (forall i, j :: 0 <= i < j < |db.reports| ==>
          (db.reports[i].orgEmail, db.reports[i].externalId) != (db.reports[j].orgEmail, db.reports[j].externalId))
    && (forall i, j :: 0 <= i < j < |db.domains| ==> db.domains[i] != db.domains[j])
    && (forall r :: r in db.reports ==> r.domain < |db.domains| && r.tenant == db.domains[r.domain].tenant)
    && (forall r :: r in db.records ==> r.report < |db.reports| && r.tenant == db.reports[r.report].tenant)
  }

  lemma LowerOfStrip(s: string)
    ensures Lower(Strip(Lower(s))) == Strip(Lower(s))
  {
    var t := Lower(s);
    StripShortens(t);
    assert forall i :: 0 <= i < |t| ==> LowerChar(t[i]) == t[i];
    assert forall c :: c in t ==> LowerChar(c) == c;
  }

  lemma ResolveKeepsConsistency(c: Context, db: Db, policyDomain: string)
    requires Consistent(db)
    ensures Consistent(db.(domains := ResolveDomain(c, db.domains, policyDomain).0))
  {
    LowerOfStrip(policyDomain);
    var ds := ResolveDomain(c, db.domains, policyDomain).0;
    if ds != db.domains {
      var d := ds[|db.domains|];
      forall i | 0 <= i < |db.domains|
        ensures ds[i] != d
      {
        assert !Matches(c, c.tenant, None, db.domains[i], d.name);
      }
    }
  }

  lemma StoringKeepsConsistency(db: Db, p: Parsed, domain: nat, log: LogRow)
    requires Consistent(db) && domain < |db.domains| && FindReport(db.reports, p).None?
    ensures var tenant := db.domains[domain].tenant;
            Consistent(Db(db.domains, db.reports + [Report(tenant, domain, p.orgEmail, p.externalId)],
                          db.records + RecordsOf(p, |db.reports|, tenant), db.logs + [log]))
  {
    var tenant := db.domains[domain].tenant;
    var reports := db.reports + [Report(tenant, domain, p.orgEmail, p.externalId)];
    forall r | r in db.records + RecordsOf(p, |db.reports|, tenant)
      ensures r.report < |reports| && r.tenant == reports[r.report].tenant
    {
      if r in db.records {
        assert reports[r.report] == db.reports[r.report];
      }
    }
  }

  /** Every ingest keeps the database consistent. */
  lemma IngestKeepsConsistency(db: Db, p: Parsed, c: Context)
    requires Consistent(db)
    ensures Consistent(IngestOne(db, p, c).0)
  {
    if FindReport(db.reports, p).None? {
      var (domains, domain) := ResolveDomain(c, db.domains, p.policyDomain);
      ResolveKeepsConsistency(c, db, p.policyDomain);
      if domain.Some? {
        var log := LogRow(Some(domains[domain.value].tenant), Ok, Some(|db.reports|));
        StoringKeepsConsistency(db.(domains := domains), p, domain.value, log);
      }
    }
  }

  lemma {:induction false} IngestAllKeepsConsistency(db: Db, ps: seq<Parsed>, c: Context)
    requires Consistent(db)
    ensures Consistent(IngestAll(db, ps, c).0)
  {
    if ps != [] {
      var n := |ps| - 1;
      IngestAllKeepsConsistency(db, ps[..n], c);
      IngestKeepsConsistency(IngestAll(db, ps[..n], c).0, ps[n], c);
    }
  }

  /** The database after a run of payloads, each with its own context. */
  function RunPayloads(db: Db, payloads: seq<(Option<seq<Parsed>>, Context)>): Db {
    if payloads == [] then db
    else
      var last := payloads[|payloads| - 1];
      IngestPayload(RunPayloads(db, payloads[..|payloads| - 1]), last.0, last.1).0
  }

  /** So does every run of payloads, whoever sends them and whatever fails to parse. */
  lemma {:induction false} RunKeepsConsistency(db: Db, payloads: seq<(Option<seq<Parsed>>, Context)>)
    requires Consistent(db)
    ensures Consistent(RunPayloads(db, payloads))
  {
    if payloads != [] {
      var n := |payloads| - 1;
      var (payload, c) := payloads[n];
      RunKeepsConsistency(db, payloads[..n]);
      if payload.Some? {
        IngestAllKeepsConsistency(RunPayloads(db, payloads[..n]), payload.value, c);
      }
    }
  }

  // ---- Where reports go ----

  /** Whether row `d` is one of those to which the context lets a report about `policyDomain` go. */
  predicate Allowed(c: Context, d: Domain, policyDomain: string) {
    if c.tenant.Some? then d == Domain(c.tenant.value, Strip(Lower(policyDomain)))
    else
      && d.name == Lower(policyDomain)
      && (c.reseller.Some? ==> d.tenant in c.resellers && c.resellers[d.tenant] == c.reseller.value)
  }

  /** Whether a report can be placed: its domain is registered, or may be created; without tenant and reseller
      it must be registered exactly once. */
  ghost predicate Placeable(c: Context, ds: seq<Domain>, policyDomain: string) {
    if c.tenant.Some? then
      && Strip(Lower(policyDomain)) != ""
      && (c.autoCreate || exists i :: 0 <= i < |ds| && Allowed(c, ds[i], policyDomain))
    else if c.reseller.Some? then exists i :: 0 <= i < |ds| && Allowed(c, ds[i], policyDomain)
    else exists i :: OnlyAllowed(c, ds, policyDomain, i)
  }

  ghost predicate OnlyAllowed(c: Context, ds: seq<Domain>, policyDomain: string, i: int) {
    && 0 <= i < |ds| && Allowed(c, ds[i], policyDomain)
    && forall j :: 0 <= j < |ds| && Allowed(c, ds[j], policyDomain) ==> j == i
  }

  lemma {:induction false} NoneNamed(ds: seq<Domain>, name: string)
    ensures CountNamed(ds, name) == 0 <==> forall j :: 0 <= j < |ds| ==> ds[j].name != name
  {
    if ds != [] {
      var n := |ds| - 1;
      NoneNamed(ds[..n], name);
      assert forall j :: 0 <= j < n ==> ds[..n][j] == ds[j];
    }
  }

  ghost predicate OnlyNamed(ds: seq<Domain>, name: string, i: int) {
    0 <= i < |ds| && ds[i].name == name && forall j :: 0 <= j < |ds| && ds[j].name == name ==> j == i
  }

  lemma {:induction false} OneNamed(ds: seq<Domain>, name: string)
    ensures CountNamed(ds, name) == 1 <==> exists i :: OnlyNamed(ds, name, i)
  {
    if ds != [] {
      var n := |ds| - 1;
      var front := ds[..n];
      OneNamed(front, name);
      NoneNamed(front, name);
      assert forall j :: 0 <= j < n ==> front[j] == ds[j];
      if ds[n].name == name {
        assert OnlyNamed(ds, name, n) <==> CountNamed(front, name) == 0;
        assert forall i :: OnlyNamed(ds, name, i) ==> i == n;
      } else {
        assert forall i :: OnlyNamed(ds, name, i) <==> OnlyNamed(front, name, i);
      }
    }
  }

  lemma PlacementForTenant(c: Context, ds: seq<Domain>, policyDomain: string)
    requires c.tenant.Some?
    ensures PlacedAsAllowed(c, ds, policyDomain)
  {
    LowerOfStrip(policyDomain);
    var name := Strip(Lower(policyDomain));
    assert forall d :: Matches(c, c.tenant, None, d, name) <==> Allowed(c, d, policyDomain);
  }

  lemma PlacementForReseller(c: Context, ds: seq<Domain>, policyDomain: string)
    requires c.tenant.None? && c.reseller.Some?
    ensures PlacedAsAllowed(c, ds, policyDomain)
  {
    assert forall d :: Matches(c, None, c.reseller, d, Lower(policyDomain)) <==> Allowed(c, d, policyDomain);
  }

  lemma PlacementForAll(c: Context, ds: seq<Domain>, policyDomain: string)
    requires c.tenant.None? && c.reseller.None?
    ensures PlacedAsAllowed(c, ds, policyDomain)
  {
    var name := Lower(policyDomain);
    OneNamed(ds, name);
    assert forall d :: Matches(c, None, None, d, name) <==> Allowed(c, d, policyDomain);
    assert forall i :: OnlyNamed(ds, name, i) <==> OnlyAllowed(c, ds, policyDomain, i);
    if CountNamed(ds, name) == 1 {
      OnlyDomainIsFound(c, ds, name);
    }
  }

  ghost predicate PlacedAsAllowed(c: Context, ds: seq<Domain>, policyDomain: string) {
    var (after, d) := ResolveDomain(c, ds, policyDomain);
    && (d.Some? <==> Placeable(c, ds, policyDomain))
    && (d.Some? ==> d.value < |after| && Allowed(c, after[d.value], policyDomain))
  }

  /** A report that is not a duplicate is stored if and only if it can be placed, and then with a domain that the
      context allows; otherwise it is ignored. */
  lemma StoredWhereAllowed(db: Db, p: Parsed, c: Context)
    ensures var (after, result) := IngestOne(db, p, c);
            var n := |db.reports|;
            && (result.status == Dup <==> exists i :: 0 <= i < n && HasKey(db.reports[i], p))
            && (result.status == Ok <==> result.status != Dup && Placeable(c, db.domains, p.policyDomain))
            && (result.status == Ok ==>
                  && |after.reports| == n + 1 && HasKey(after.reports[n], p)
                  && after.reports[n].domain < |after.domains|
                  && Allowed(c, after.domains[after.reports[n].domain], p.policyDomain))
  {
    if c.tenant.Some? {
      PlacementForTenant(c, db.domains, p.policyDomain);
    } else if c.reseller.Some? {
      PlacementForReseller(c, db.domains, p.policyDomain);
    } else {
      PlacementForAll(c, db.domains, p.policyDomain);
    }
  }

  // ---- What is stored ----

  /** The records of a stored report are added in their order, each with its address and its count, under the id
      and the tenant of the report; a report that is not stored adds nothing. The log row names the tenant of the
      report, or that of the context if nothing was stored. */
  lemma RecordsAreStored(db: Db, p: Parsed, c: Context)
    ensures var (after, result) := IngestOne(db, p, c);
            var n, m := |db.records|, |db.reports|;
            && db.records <= after.records && db.reports <= after.reports
            && (result.status != Ok ==> after.records == db.records && after.reports == db.reports)
            && (result.status == Ok ==>
                  && result.report == Some(m) && |after.reports| == m + 1 && |after.records| == n + |p.records|
                  && forall i :: 0 <= i < |p.records| ==>
                       && after.records[n + i].sourceIp == p.records[i].sourceIp
                       && after.records[n + i].count == p.records[i].count
                       && after.records[n + i].report == m && after.records[n + i].tenant == after.reports[m].tenant)
            && |after.logs| == |db.logs| + 1
            && after.logs[|db.logs|].tenant == if result.status == Ok then Some(after.reports[m].tenant) else c.tenant
  {
  }

  /** A payload that cannot be parsed changes nothing but the log, which gets one error for the tenant. */
  lemma UnparsedIsLogged(db: Db, c: Context)
    ensures var (after, results) := IngestPayload(db, None, c);
            && after.(logs := db.logs) == db && after.logs == db.logs + [LogRow(c.tenant, Error, None)]
            && |results| == 1 && results[0].status == Error
  {
  }

  function Volume(records: seq<Record>): int {
    if records == [] then 0 else Volume(records[..|records| - 1]) + records[|records| - 1].count
  }

  function ParsedVolume(records: seq<ParsedRecord>): int {
    if records == [] then 0 else ParsedVolume(records[..|records| - 1]) + records[|records| - 1].count
  }

  /** The mails counted in the reports that were imported. */
  function Imported(ps: seq<Parsed>, results: seq<Result>): int
    requires |ps| == |results|
  {
    if ps == [] then 0
    else
      var n := |ps| - 1;
      Imported(ps[..n], results[..n]) + if results[n].status == Ok then ParsedVolume(ps[n].records) else 0
  }

  lemma {:induction false} VolumeConcat(a: seq<Record>, b: seq<Record>)
    ensures Volume(a + b) == Volume(a) + Volume(b)
  {
    if b == [] {
      assert a + b == a;
    } else {
      assert (a + b)[..|a + b| - 1] == a + b[..|b| - 1];
      VolumeConcat(a, b[..|b| - 1]);
    }
  }

  lemma {:induction false} VolumeOfRecords(p: Parsed, report: nat, tenant: int)
    ensures Volume(RecordsOf(p, report, tenant)) == ParsedVolume(p.records)
    decreases |p.records|
  {
    if p.records != [] {
      var front := p.(records := p.records[..|p.records| - 1]);
      VolumeOfRecords(front, report, tenant);
      assert RecordsOf(p, report, tenant)[..|p.records| - 1] == RecordsOf(front, report, tenant);
    }
  }

  lemma OneVolume(db: Db, p: Parsed, c: Context)
    ensures var (after, result) := IngestOne(db, p, c);
            Volume(after.records) == Volume(db.records) + if result.status == Ok then ParsedVolume(p.records) else 0
  {
    var (after, result) := IngestOne(db, p, c);
    if result.status == Ok {
      var added := RecordsOf(p, |db.reports|, after.reports[|db.reports|].tenant);
      assert after.records == db.records + added;
      VolumeConcat(db.records, added);
      VolumeOfRecords(p, |db.reports|, after.reports[|db.reports|].tenant);
    }
  }

  /** A payload adds to the database exactly the mails that its imported reports count. */
  lemma {:induction false} VolumeIsImported(db: Db, ps: seq<Parsed>, c: Context)
    ensures var (after, results) := IngestAll(db, ps, c);
            Volume(after.records) == Volume(db.records) + Imported(ps, results)
  {
    if ps != [] {
      var n := |ps| - 1;
      var (before, results) := IngestAll(db, ps[..n], c);
      VolumeIsImported(db, ps[..n], c);
      OneVolume(before, ps[n], c);
      var all := results + [IngestOne(before, ps[n], c).1];
      assert all[..n] == results;
    }
  }

  // ---- The log ----

  ghost predicate LoggedAs(logs: seq<LogRow>, start: nat, results: seq<Result>) {
    && |logs| == start + |results|
    && forall i :: 0 <= i < |results| ==>
         logs[start + i].status == results[i].status && logs[start + i].report == results[i].report
  }

  /** Every result has exactly one log row, in the same order and with the same status and report. */
  lemma {:induction false} OneLogRowPerResult(db: Db, ps: seq<Parsed>, c: Context)
    ensures var (after, results) := IngestAll(db, ps, c);
            db.logs <= after.logs && LoggedAs(after.logs, |db.logs|, results)
  {
    if ps != [] {
      OneLogRowPerResult(db, ps[..|ps| - 1], c);
    }
  }

  lemma PayloadIsLogged(db: Db, payload: Option<seq<Parsed>>, c: Context)
    ensures var (after, results) := IngestPayload(db, payload, c);
            db.logs <= after.logs && LoggedAs(after.logs, |db.logs|, results)
  {
    if payload.Some? {
      OneLogRowPerResult(db, payload.value, c);
    }
  }

  /** All results of a run, in order. */
  function RunResults(db: Db, payloads: seq<(Option<seq<Parsed>>, Context)>): seq<Result> {
    if payloads == [] then []
    else
      var front, last := payloads[..|payloads| - 1], payloads[|payloads| - 1];
      RunResults(db, front) + IngestPayload(RunPayloads(db, front), last.0, last.1).1
  }

  lemma LoggedConcat(logs: seq<LogRow>, more: seq<LogRow>, start: nat, a: seq<Result>, b: seq<Result>)
    requires LoggedAs(logs, start, a) && logs <= more && LoggedAs(more, |logs|, b)
    ensures LoggedAs(more, start, a + b)
  {
    forall i | 0 <= i < |a + b|
      ensures more[start + i].status == (a + b)[i].status && more[start + i].report == (a + b)[i].report
    {
      if i < |a| {
        assert more[start + i] == logs[start + i];
      } else {
        assert more[start + i] == more[|logs| + (i - |a|)];
      }
    }
  }

  /** So does every result of a run of payloads, those that could not be parsed included, and nothing else is
      logged. */
  lemma {:induction false} RunIsLogged(db: Db, payloads: seq<(Option<seq<Parsed>>, Context)>)
    ensures db.logs <= RunPayloads(db, payloads).logs
    ensures LoggedAs(RunPayloads(db, payloads).logs, |db.logs|, RunResults(db, payloads))
  {
    if payloads != [] {
      var front, last := payloads[..|payloads| - 1], payloads[|payloads| - 1];
      var mid := RunPayloads(db, front);
      RunIsLogged(db, front);
      PayloadIsLogged(mid, last.0, last.1);
      LoggedConcat(mid.logs, RunPayloads(db, payloads).logs, |db.logs|, RunResults(db, front),
                   IngestPayload(mid, last.0, last.1).1);
    }
  }

  // ---- Replay ----

  predicate KeyStored(db: Db, p: Parsed) {
    FindReport(db.reports, p).Some?
  }

  lemma KeyStoredByAny(db: Db, p: Parsed)
    ensures KeyStored(db, p) <==> exists i :: 0 <= i < |db.reports| && HasKey(db.reports[i], p)
  {
  }

  /** Whether a report can be placed in the domain table. */
  predicate Resolvable(c: Context, ds: seq<Domain>, p: Parsed) {
    ResolveDomain(c, ds, p.policyDomain).1.Some?
  }

  predicate Creates(c: Context) {
    c.tenant.Some? && c.autoCreate
  }

  /** Only an auto-creating context changes the domain table, and for it the table does not matter. */
  lemma ResolvableIsStable(c: Context, ds: seq<Domain>, ds': seq<Domain>, p: Parsed)
    requires Creates(c) || ds == ds'
    ensures Resolvable(c, ds, p) == Resolvable(c, ds', p)
  {
  }

  ghost predicate Grew(db: Db, after: Db, c: Context) {
    && db.reports <= after.reports
    && (Creates(c) || db.domains == after.domains)
  }

  lemma {:induction false} IngestAllGrows(db: Db, ps: seq<Parsed>, c: Context)
    ensures Grew(db, IngestAll(db, ps, c).0, c)
  {
    if ps != [] {
      IngestAllGrows(db, ps[..|ps| - 1], c);
    }
  }

  lemma StoredStays(db: Db, after: Db, p: Parsed)
    requires db.reports <= after.reports && KeyStored(db, p)
    ensures KeyStored(after, p)
  {
    KeyStoredByAny(db, p);
    KeyStoredByAny(after, p);
    var i :| 0 <= i < |db.reports| && HasKey(db.reports[i], p);
    assert after.reports[i] == db.reports[i];
  }

  /** What the outcome of one report says about the tables: it is stored, or it cannot be placed. */
  ghost predicate Settled(db: Db, p: Parsed, result: Result, c: Context) {
    if result.status == Ignored then !Resolvable(c, db.domains, p) else KeyStored(db, p)
  }

  lemma SettledStays(db: Db, after: Db, p: Parsed, result: Result, c: Context)
    requires Settled(db, p, result, c) && Grew(db, after, c)
    ensures Settled(after, p, result, c)
  {
    if result.status == Ignored {
      ResolvableIsStable(c, db.domains, after.domains, p);
    } else {
      StoredStays(db, after, p);
    }
  }

  lemma OneIsSettled(db: Db, p: Parsed, c: Context)
    ensures var (after, result) := IngestOne(db, p, c);
            Grew(db, after, c) && Settled(after, p, result, c)
  {
    var (after, result) := IngestOne(db, p, c);
    OneGrows(db, p, c);
    if result.status == Ok {
      LastIsStored(after, |db.reports|, p);
    } else if result.status == Ignored {
      ResolvableIsStable(c, db.domains, after.domains, p);
    }
  }

  lemma OneGrows(db: Db, p: Parsed, c: Context)
    ensures Grew(db, IngestOne(db, p, c).0, c)
  {
  }

  lemma LastIsStored(db: Db, i: nat, p: Parsed)
    requires i < |db.reports| && HasKey(db.reports[i], p)
    ensures KeyStored(db, p)
  {
    KeyStoredByAny(db, p);
  }

  /** After a first ingest each report is stored, or cannot be placed. */
  lemma {:induction false} AllAreSettled(db: Db, ps: seq<Parsed>, c: Context, i: nat)
    requires i < |ps|
    ensures var (after, results) := IngestAll(db, ps, c);
            Settled(after, ps[i], results[i], c)
  {
    var n := |ps| - 1;
    var (before, results) := IngestAll(db, ps[..n], c);
    OneIsSettled(before, ps[n], c);
    if i < n {
      AllAreSettled(db, ps[..n], c, i);
      assert ps[..n][i] == ps[i];
      SettledStays(before, IngestOne(before, ps[n], c).0, ps[i], results[i], c);
    }
  }

  ghost predicate SameTables(a: Db, b: Db) {
    a.domains == b.domains && a.reports == b.reports && a.records == b.records
  }

  /** What is stored, or cannot be placed, when it comes again. */
  ghost predicate Known(db: Db, p: Parsed, c: Context) {
    KeyStored(db, p) || !Resolvable(c, db.domains, p)
  }

  lemma OneMoreIngest(db: Db, ps: seq<Parsed>, q: Parsed, c: Context)
    ensures var (before, results) := IngestAll(db, ps, c);
            var (after, result) := IngestOne(before, q, c);
            IngestAll(db, ps + [q], c) == (after, results + [result])
  {
    assert (ps + [q])[..|ps|] == ps;
  }

  predicate SameKey(p: Parsed, q: Parsed) {
    p.orgEmail == q.orgEmail && p.externalId == q.externalId
  }

  /** Whether one of `ps` has the key of `q` and can be placed. */
  predicate Brought(c: Context, ds: seq<Domain>, ps: seq<Parsed>, q: Parsed) {
    exists j :: 0 <= j < |ps| && SameKey(ps[j], q) && Resolvable(c, ds, ps[j])
  }

  lemma BroughtSnoc(c: Context, ds: seq<Domain>, ps: seq<Parsed>, p: Parsed, q: Parsed)
    ensures Brought(c, ds, ps + [p], q) <==> Brought(c, ds, ps, q) || (SameKey(p, q) && Resolvable(c, ds, p))
  {
    var all := ps + [p];
    assert all[|ps|] == p && forall j :: 0 <= j < |ps| ==> all[j] == ps[j];
  }

  lemma OneStores(db: Db, p: Parsed, c: Context, q: Parsed)
    ensures KeyStored(IngestOne(db, p, c).0, q)
       <==> KeyStored(db, q) || (SameKey(p, q) && Resolvable(c, db.domains, p))
  {
    var after := IngestOne(db, p, c).0;
    KeyStoredByAny(db, p);
    KeyStoredByAny(db, q);
    KeyStoredByAny(after, q);
    var n := |db.reports|;
    assert forall i :: 0 <= i < n ==> after.reports[i] == db.reports[i];
    assert forall i :: 0 <= i < n && SameKey(p, q) ==> HasKey(db.reports[i], p) == HasKey(db.reports[i], q);
    if |after.reports| > n {
      assert HasKey(after.reports[n], q) <==> SameKey(p, q);
    }
  }

  ghost predicate StoredAsBrought(db: Db, after: Db, ps: seq<Parsed>, c: Context, q: Parsed) {
    KeyStored(after, q) <==> KeyStored(db, q) || Brought(c, db.domains, ps, q)
  }

  lemma OneMoreStores(db: Db, before: Db, ps: seq<Parsed>, p: Parsed, c: Context, q: Parsed)
    requires StoredAsBrought(db, before, ps, c, q) && Grew(db, before, c)
    ensures StoredAsBrought(db, IngestOne(before, p, c).0, ps + [p], c, q)
  {
    OneStores(before, p, c, q);
    ResolvableIsStable(c, db.domains, before.domains, p);
    BroughtSnoc(c, db.domains, ps, p, q);
  }

  lemma NothingIsBrought(db: Db, c: Context, q: Parsed)
    ensures StoredAsBrought(db, db, [], c, q)
  {
  }

  lemma BroughtByIngest(db: Db, ps: seq<Parsed>, p: Parsed, c: Context, q: Parsed)
    requires StoredAsBrought(db, IngestAll(db, ps, c).0, ps, c, q)
    ensures StoredAsBrought(db, IngestAll(db, ps + [p], c).0, ps + [p], c, q)
  {
    IngestAllGrows(db, ps, c);
    OneMoreIngest(db, ps, p, c);
    OneMoreStores(db, IngestAll(db, ps, c).0, ps, p, c, q);
  }

  /** A key is stored after an ingest exactly if it was stored before, or a report with that key can be placed
      in the domain table as it was before. */
  lemma {:induction false} StoredIfBrought(db: Db, ps: seq<Parsed>, c: Context, q: Parsed)
    ensures StoredAsBrought(db, IngestAll(db, ps, c).0, ps, c, q)
  {
    if ps == [] {
      NothingIsBrought(db, c, q);
    } else {
      var front, p := ps[..|ps| - 1], ps[|ps| - 1];
      StoredIfBrought(db, front, c, q);
      BroughtByIngest(db, front, p, c, q);
      assert ps == front + [p];
    }
  }

  function Expected(db: Db, p: Parsed): Status {
    if KeyStored(db, p) then Dup else Ignored
  }

  lemma KnownIsNotStored(db: Db, before: Db, p: Parsed, c: Context)
    requires SameTables(db, before) && Known(db, p, c)
    ensures var (after, result) := IngestOne(before, p, c);
            SameTables(db, after) && result.status == Expected(db, p)
  {
  }

  /** Ingesting what is stored or cannot be placed stores nothing. */
  lemma {:induction false} NothingNewIsStored(db: Db, ps: seq<Parsed>, c: Context)
    requires forall i :: 0 <= i < |ps| ==> Known(db, ps[i], c)
    ensures var (after, results) := IngestAll(db, ps, c);
            && SameTables(db, after)
            && forall i :: 0 <= i < |ps| ==> results[i].status == Expected(db, ps[i])
  {
    if ps != [] {
      var n := |ps| - 1;
      NothingNewIsStored(db, ps[..n], c);
      KnownIsNotStored(db, IngestAll(db, ps[..n], c).0, ps[n], c);
    }
  }

  /** Replaying a payload in the same context stores nothing new. What was imported or a duplicate comes back
      as a duplicate; what was ignored comes back as a duplicate if and only if the payload holds a report with
      the same key that can be placed, and as ignored otherwise. */
  lemma ReplayStoresNothing(db: Db, ps: seq<Parsed>, c: Context)
    ensures var (once, first) := IngestAll(db, ps, c);
            var (twice, second) := IngestAll(once, ps, c);
            && SameTables(once, twice)
            && forall i :: 0 <= i < |ps| ==>
                 && (first[i].status != Ignored ==> second[i].status == Dup)
                 && (first[i].status == Ignored ==>
                       second[i].status == if Brought(c, db.domains, ps, ps[i]) then Dup else Ignored)
  {
    var (once, first) := IngestAll(db, ps, c);
    forall i | 0 <= i < |ps|
      ensures Settled(once, ps[i], first[i], c)
      ensures first[i].status == Ignored ==> (KeyStored(once, ps[i]) <==> Brought(c, db.domains, ps, ps[i]))
    {
      AllAreSettled(db, ps, c, i);
      StoredIfBrought(db, ps, c, ps[i]);
      if first[i].status == Ignored {
        IgnoredWasNotStored(db, ps, c, i);
      }
    }
    NothingNewIsStored(once, ps, c);
  }

  lemma {:induction false} IgnoredWasNotStored(db: Db, ps: seq<Parsed>, c: Context, i: nat)
    requires i < |ps| && IngestAll(db, ps, c).1[i].status == Ignored
    ensures !KeyStored(db, ps[i])
  {
    var n := |ps| - 1;
    if i < n {
      IgnoredWasNotStored(db, ps[..n], c, i);
    } else {
      StoredIfBrought(db, ps[..n], c, ps[n]);
    }
  }

  lemma TwoIngests(db: Db, p: Parsed, q: Parsed, c: Context)
    ensures var (mid, r) := IngestOne(db, p, c);
            var (after, s) := IngestOne(mid, q, c);
            IngestAll(db, [p, q], c) == (after, [r, s])
  {
    var (mid, r) := IngestOne(db, p, c);
    assert IngestAll(db, [p], c) == (mid, [r]) by {
      OneMoreIngest(db, [], p, c);
      assert [] + [p] == [p] && [] + [r] == [r];
    }
    var (after, s) := IngestOne(mid, q, c);
    OneMoreIngest(db, [p], q, c);
    assert [p] + [q] == [p, q] && [r] + [s] == [r, s];
  }

  /** An ignored report does come back as a duplicate when the same archive holds, after it, a report with
      its key for a domain that is registered. */
  lemma IgnoredCanReplayAsDuplicate(db: Db, p: Parsed, q: Parsed, c: Context)
    requires SameKey(p, q) && !KeyStored(db, p)
    requires !Resolvable(c, db.domains, p) && Resolvable(c, db.domains, q)
    ensures var (once, first) := IngestAll(db, [p, q], c);
            first[0].status == Ignored && IngestAll(once, [p, q], c).1[0].status == Dup
  {
    TwoIngests(db, p, q, c);
    assert Brought(c, db.domains, [p, q], p) by {
      assert [p, q][1] == q;
    }
    ReplayStoresNothing(db, [p, q], c);
  }
}

/** Storing parsed DMARC reports: domain resolution, duplicate detection, and the ingest log. */
module Ingest {
  import opened Options
  import opened Text

  datatype ParsedRecord = ParsedRecord(sourceIp: string, count: int)

  datatype Parsed = Parsed(orgEmail: string, externalId: string, policyDomain: string, records: seq<ParsedRecord>)

  /** Table rows; the id of a row is its position in its table. */
  datatype Domain = Domain(tenant: int, name: string)

  datatype Report = Report(tenant: int, domain: nat, orgEmail: string, externalId: string)

  datatype Record = Record(report: nat, tenant: int, sourceIp: string, count: int)

  datatype Status = Ok | Dup | Error | Ignored

  datatype LogRow = LogRow(tenant: Option<int>, status: Status, report: Option<nat>)

  datatype Result = Result(status: Status, report: Option<nat>)

  datatype Db = Db(domains: seq<Domain>, reports: seq<Report>, records: seq<Record>, logs: seq<LogRow>)

  /** Who ingests: a tenant, a reseller, or neither. `resellers` gives the reseller of each tenant. */
  datatype Context = Context(tenant: Option<int>, reseller: Option<int>, autoCreate: bool, resellers: map<int, int>)

  // ---- Queries ----

  predicate HasKey(r: Report, p: Parsed) {
    r.orgEmail == p.orgEmail && r.externalId == p.externalId
  }

  /** The first report with the key of `p`, if any. */
  function FindReport(reports: seq<Report>, p: Parsed): (r: Option<nat>)
    ensures r.Some? ==> r.value < |reports| && HasKey(reports[r.value], p)
    ensures r.None? ==> forall i :: 0 <= i < |reports| ==> !HasKey(reports[i], p)
  {
    if reports == [] then None
    else
      var before := FindReport(reports[..|reports| - 1], p);
      if before.Some? then before
      else if HasKey(reports[|reports| - 1], p) then Some(|reports| - 1)
      else None
  }

  /** Whether a domain row may receive a report under `name`, for the given tenant or else reseller. */
  predicate Matches(c: Context, tenant: Option<int>, reseller: Option<int>, d: Domain, name: string) {
    && d.name == name
    && (tenant.Some? ==> d.tenant == tenant.value)
    && (tenant.None? && reseller.Some? ==> d.tenant in c.resellers && c.resellers[d.tenant] == reseller.value)
  }

  function FindDomain(c: Context, tenant: Option<int>, reseller: Option<int>, ds: seq<Domain>, name: string)
    : (r: Option<nat>)
    ensures r.Some? ==> r.value < |ds| && Matches(c, tenant, reseller, ds[r.value], name)
    ensures r.None? ==> forall i :: 0 <= i < |ds| ==> !Matches(c, tenant, reseller, ds[i], name)
  {
    if ds == [] then None
    else
      var before := FindDomain(c, tenant, reseller, ds[..|ds| - 1], name);
      if before.Some? then before
      else if Matches(c, tenant, reseller, ds[|ds| - 1], name) then Some(|ds| - 1)
      else None
  }

  function CountNamed(ds: seq<Domain>, name: string): nat {
    if ds == [] then 0 else CountNamed(ds[..|ds| - 1], name) + if ds[|ds| - 1].name == name then 1 else 0
  }

  /** The domain a report goes to, and the domain table with it: a tenant's own domain, created on demand;
      a domain of one of the reseller's tenants; or the only domain of that name at all. */
  function ResolveDomain(c: Context, ds: seq<Domain>, policyDomain: string): (r: (seq<Domain>, Option<nat>))
    ensures ds <= r.0 && (r.1.Some? ==> r.1.value < |r.0|)
  {
    if c.tenant.Some? then
      var name := Strip(Lower(policyDomain));
      var found := FindDomain(c, c.tenant, None, ds, Lower(name));
      if name == "" then (ds, None)
      else if found.Some? || !c.autoCreate then (ds, found)
      else (ds + [Domain(c.tenant.value, name)], Some(|ds|))
    else if c.reseller.Some? then (ds, FindDomain(c, None, c.reseller, ds, Lower(policyDomain)))
    else if CountNamed(ds, Lower(policyDomain)) == 1 then (ds, FindDomain(c, None, None, ds, Lower(policyDomain)))
    else (ds, None)
  }

  // ---- Storing ----

  function RecordsOf(p: Parsed, report: nat, tenant: int): (r: seq<Record>)
    ensures |r| == |p.records|
  {
    seq(|p.records|, i requires 0 <= i < |p.records| =>
      Record(report, tenant, p.records[i].sourceIp, p.records[i].count))
  }

  function IngestOne(db: Db, p: Parsed, c: Context): (Db, Result) {
    var existing := FindReport(db.reports, p);
    if existing.Some? then
      (db.(logs := db.logs + [LogRow(c.tenant, Dup, existing)]), Result(Dup, existing))
    else
      var (domains, domain) := ResolveDomain(c, db.domains, p.policyDomain);
      if domain.None? then
        (db.(domains := domains, logs := db.logs + [LogRow(c.tenant, Ignored, None)]), Result(Ignored, None))
      else
        var tenant, id := domains[domain.value].tenant, |db.reports|;
        (Db(domains,
            db.reports + [Report(tenant, domain.value, p.orgEmail, p.externalId)],
            db.records + RecordsOf(p, id, tenant),
            db.logs + [LogRow(Some(tenant), Ok, Some(id))]),
         Result(Ok, Some(id)))
  }

  function IngestAll(db: Db, ps: seq<Parsed>, c: Context): (r: (Db, seq<Result>))
    ensures |r.1| == |ps|
  {
    if ps == [] then (db, [])
    else
      var (before, results) := IngestAll(db, ps[..|ps| - 1], c);
      var (after, result) := IngestOne(before, ps[|ps| - 1], c);
      (after, results + [result])
  }

  /** A payload that cannot be parsed is logged as one error. */
  function IngestPayload(db: Db, payload: Option<seq<Parsed>>, c: Context): (Db, seq<Result>) {
    match payload
    case None => (db.(logs := db.logs + [LogRow(c.tenant, Error, None)]), [Result(Error, None)])
    case Some(ps) => IngestAll(db, ps, c)
  }

  class Session {
    var domains: seq<Domain>
    var reports: seq<Report>
    var records: seq<Record>
    var logs: seq<LogRow>

    function State(): Db
      reads this
    {
      Db(domains, reports, records, logs)
    }

    constructor (db: Db)
      ensures State() == db
    {
      domains, reports, records, logs := db.domains, db.reports, db.records, db.logs;
    }

    method EnsureDomain(tenant: int, policyDomain: string, c: Context) returns (d: Option<nat>)
      requires c.tenant == Some(tenant)
      modifies this`domains
      ensures (domains, d) == ResolveDomain(c, old(domains), policyDomain)
    {
      var name := Strip(Lower(policyDomain));
      if name == "" {
        return None;
      }
      d := FindDomain(c, Some(tenant), None, domains, Lower(name));
      if d.Some? || !c.autoCreate {
        return;
      }
      d := Some(|domains|);
      domains := domains + [Domain(tenant, name)];
    }

    method Persist(domain: nat, p: Parsed) returns (id: nat)
      requires domain < |domains|
      modifies this`reports, this`records
      ensures id == |old(reports)|
      ensures reports == old(reports) + [Report(domains[domain].tenant, domain, p.orgEmail, p.externalId)]
      ensures records == old(records) + RecordsOf(p, id, domains[domain].tenant)
    {
      var tenant := domains[domain].tenant;
      id := |reports|;
      reports := reports + [Report(tenant, domain, p.orgEmail, p.externalId)];
      ghost var added := RecordsOf(p, id, tenant);
      for i := 0 to |p.records|
        invariant records == old(records) + added[..i]
        invariant reports == old(reports) + [Report(tenant, domain, p.orgEmail, p.externalId)]
      {
        records := records + [Record(id, tenant, p.records[i].sourceIp, p.records[i].count)];
        assert added[..i + 1] == added[..i] + [added[i]];
      }
      assert added[..|p.records|] == added;
    }

    method IngestParsed(p: Parsed, c: Context) returns (r: Result)
      modifies this
      ensures (State(), r) == IngestOne(old(State()), p, c)
    {
      var existing := FindReport(reports, p);
      if existing.Some? {
        logs := logs + [LogRow(c.tenant, Dup, existing)];
        return Result(Dup, existing);
      }
      var domain: Option<nat>;
      if c.tenant.None? && c.reseller.Some? {
        domain := FindDomain(c, None, c.reseller, domains, Lower(p.policyDomain));
        if domain.None? {
          logs := logs + [LogRow(None, Ignored, None)];
          return Result(Ignored, None);
        }
      } else if c.tenant.None? {
        if CountNamed(domains, Lower(p.policyDomain)) == 1 {
          domain := FindDomain(c, None, None, domains, Lower(p.policyDomain));
          OnlyDomainIsFound(c, domains, Lower(p.policyDomain));
        } else {
          logs := logs + [LogRow(None, Ignored, None)];
          return Result(Ignored, None);
        }
      } else {
        domain := EnsureDomain(c.tenant.value, p.policyDomain, c);
        if domain.None? {
          logs := logs + [LogRow(c.tenant, Ignored, None)];
          return Result(Ignored, None);
        }
      }
      var id := Persist(domain.value, p);
      logs := logs + [LogRow(Some(domains[domain.value].tenant), Ok, Some(id))];
      r := Result(Ok, Some(id));
    }

    method IngestPayloadRun(payload: Option<seq<Parsed>>, c: Context) returns (results: seq<Result>)
      modifies this
      ensures (State(), results) == IngestPayload(old(State()), payload, c)
    {
      if payload.None? {
        logs := logs + [LogRow(c.tenant, Error, None)];
        return [Result(Error, None)];
      }
      var ps := payload.value;
      results := [];
      for i := 0 to |ps|
        invariant (State(), results) == IngestAll(old(State()), ps[..i], c)
      {
        assert ps[..i + 1][..i] == ps[..i];
        var r := IngestParsed(ps[i], c);
        results := results + [r];
      }
      assert ps[..|ps|] == ps;
    }
  }

  lemma {:induction false} OnlyDomainIsFound(c: Context, ds: seq<Domain>, name: string)
    requires CountNamed(ds, name) > 0
    ensures FindDomain(c, None, None, ds, name).Some?
  {
    if CountNamed(ds[..|ds| - 1], name) > 0 {
      OnlyDomainIsFound(c, ds[..|ds| - 1], name);
    }
  }
}

/** The DNSBL checker with its two caches. The clock is arbitrary: every reading may be any number. */
module DnsblCache {
  import opened Options
  import opened Text
  import opened Dnsbl

  type Key = (string, string)

  /** A cached result: "not listed" or a hit. */
  datatype Entry = Entry(at: real, hit: Option<Hit>)

  datatype Probe = Probe(at: real, usable: bool)

  /** One blacklist: zone, name and severity. */
  datatype Blacklist = Blacklist(zone: string, name: string, severity: nat)

  const CACHE_MAX: nat := 10000
  const CACHE_TTL: real := 3600.0
  const PROBE_TTL: real := 1800.0

  // ---- What the caches must say ----

  /** A cached result is the verdict that a check without a cache reaches. */
  ghost predicate Agrees(dns: Dns, key: Key, hit: Option<Hit>) {
    var (zone, ip) := key;
    && ReverseIp(ip).Some?
    && match hit
       case None => VerdictOf(dns, zone, ReverseIp(ip).value) == Clean
       case Some(h) => h.zone == zone && VerdictOf(dns, zone, ReverseIp(ip).value) == Listed(h.codes, h.txt)
  }

  /** The hits of a check without any cache. */
  function UncachedHits(dns: Dns, rev: string, lists: seq<Blacklist>): seq<Hit> {
    if lists == [] then []
    else
      var n := |lists| - 1;
      UncachedHits(dns, rev, lists[..n]) + HitOf(VerdictOf(dns, lists[n].zone, rev), lists[n])
  }

  function HitOf(v: Verdict, l: Blacklist): seq<Hit> {
    match v
    case Listed(codes, txt) => [Hit(l.zone, l.name, l.severity, codes, txt)]
    case _ => []
  }

  /** The hits without the label under which a zone was checked. */
  function Findings(hits: seq<Hit>): seq<(string, seq<string>, string)> {
    if hits == [] then []
    else
      var n := |hits| - 1;
      Findings(hits[..n]) + [(hits[n].zone, hits[n].codes, hits[n].txt)]
  }

  /** A fixed name and severity for every zone. */
  type Labels = string -> (string, nat)

  ghost predicate LabelledHit(labels: Labels, h: Hit) {
    (h.name, h.severity) == labels(h.zone)
  }

  ghost predicate LabelledLists(labels: Labels, lists: seq<Blacklist>) {
    forall i :: 0 <= i < |lists| ==> (lists[i].name, lists[i].severity) == labels(lists[i].zone)
  }

  /** A clean entry rests on a definitive negative of a trusted resolver. */
  lemma CachedCleanHasEvidence(dns: Dns, zone: string, ip: string)
    requires Agrees(dns, (zone, ip), None)
    ensures var qname := ReverseIp(ip).value + "." + zone;
            exists k: int :: 0 <= k < |Pool(dns, zone)| &&
              var o := dns(Pool(dns, zone)[k], qname, A);
              (o.NxDomain? || o.NoAnswer?) && (IsPublicSpamhaus(zone) ==> ProbePasses(dns, zone, Pool(dns, zone)[k]))
  {
    VerdictHasEvidence(dns, zone, ReverseIp(ip).value);
  }

  /** Where every trusted resolver fails or refuses, or none is trusted, nothing can be cached. */
  lemma UnknownIsNotCached(dns: Dns, zone: string, ip: string, hit: Option<Hit>)
    requires ReverseIp(ip).Some?
    requires var qname := ReverseIp(ip).value + "." + zone;
             forall j :: 0 <= j < |Pool(dns, zone)| ==> !Decisive(dns(Pool(dns, zone)[j], qname, A), A)
    ensures !Agrees(dns, (zone, ip), hit)
  {
    VerdictHasEvidence(dns, zone, ReverseIp(ip).value);
  }

  // ---- Eviction ----

  lemma {:induction false} OldestExists(m: map<Key, Entry>, keys: set<Key>)
    requires keys != {} && keys <= m.Keys
    ensures exists k :: k in keys && forall l :: l in keys ==> m[k].at <= m[l].at
  {
    var x :| x in keys;
    if keys != {x} {
      assert keys - {x} != {};
      OldestExists(m, keys - {x});
      var k :| k in keys - {x} && forall l :: l in keys - {x} ==> m[k].at <= m[l].at;
      var oldest := if m[x].at <= m[k].at then x else k;
      assert oldest in keys && forall l :: l in keys ==> l == x || l in keys - {x};
    }
  }

  /** The `n` oldest entries, ties broken in any way. */
  ghost predicate AreOldest(m: map<Key, Entry>, evicted: set<Key>, n: nat) {
    && evicted <= m.Keys && |evicted| == n
    && forall e, s :: e in evicted && s in m.Keys - evicted ==> m[e].at <= m[s].at
  }

  method Oldest(m: map<Key, Entry>, n: nat) returns (evicted: set<Key>)
    requires n <= |m|
    ensures AreOldest(m, evicted, n)
  {
    evicted := {};
    var rest := m.Keys;
    for i := 0 to n
      invariant evicted !! rest && evicted + rest == m.Keys && |evicted| == i
      invariant forall e, s :: e in evicted && s in rest ==> m[e].at <= m[s].at
    {
      assert |m.Keys| == |evicted| + |rest|;
      assert rest != {};
      OldestExists(m, rest);
      var k :| k in rest && forall l :: l in rest ==> m[k].at <= m[l].at;
      evicted, rest := evicted + {k}, rest - {k};
    }
  }

  lemma SizeWithout(m: map<Key, Entry>, ks: set<Key>)
    requires ks <= m.Keys
    ensures |m - ks| == |m| - |ks|
  {
    assert (m - ks).Keys == m.Keys - ks;
    assert |m.Keys - ks| == |m.Keys| - |ks|;
  }

  lemma SetKeepsAgreement(dns: Dns, before: map<Key, Entry>, evicted: set<Key>, key: Key, e: Entry)
    requires (forall k :: k in before ==> Agrees(dns, k, before[k].hit)) && Agrees(dns, key, e.hit)
    ensures var after := (before - evicted)[key := e];
            forall k :: k in after ==> Agrees(dns, k, after[k].hit)
  {
  }

  // ---- The checker ----

  class Checker {
    const dns: Dns
    var cache: map<Key, Entry>
    var probes: map<(string, nat), Probe>
    var warned: map<string, real>
    /** The zones and reversed addresses for which the resolvers were asked. */
    ghost var queried: seq<(string, string)>

    ghost predicate Valid()
      reads this
    {
      && |cache| <= 10000
      && (forall k :: k in cache ==> Agrees(dns, k, cache[k].hit))
      && (forall p :: p in probes ==> probes[p].usable == ProbePasses(dns, p.0, p.1))
    }

    ghost predicate Labelled(labels: Labels)
      reads this
    {
      forall k :: k in cache && cache[k].hit.Some? ==> LabelledHit(labels, cache[k].hit.value)
    }

    constructor (dns: Dns)
      ensures Valid() && this.dns == dns && cache == map[] && probes == map[] && queried == []
    {
      this.dns := dns;
      queried := [];
      cache, probes, warned := map[], map[], map[];
    }

    method CacheGet(key: Key, now: real) returns (found: bool, hit: Option<Hit>)
      modifies this`cache
      ensures found <==> key in old(cache) && now - old(cache)[key].at <= 3600.0
      ensures found ==> hit == old(cache)[key].hit && cache == old(cache)
      ensures !found ==> hit == None && cache == old(cache) - {key}
    {
      found, hit := false, None;
      if key in cache {
        var e := cache[key];
        if now - e.at > CACHE_TTL {
          cache := cache - {key};
        } else {
          found, hit := true, e.hit;
        }
      }
      assert key !in old(cache) ==> cache == old(cache) - {key};
    }

    /** Below the bound nothing is dropped; at the bound a tenth of it is, oldest first. */
    method CacheSet(key: Key, hit: Option<Hit>, now: real) returns (ghost evicted: set<Key>)
      modifies this`cache
      ensures if |old(cache)| < 10000 then evicted == {} else AreOldest(old(cache), evicted, 1000)
      ensures cache == (old(cache) - evicted)[key := Entry(now, hit)]
      ensures |old(cache)| <= 10000 ==> |cache| <= 10000
    {
      evicted := {};
      if |cache| >= CACHE_MAX {
        var oldest := Oldest(cache, CACHE_MAX / 10);
        evicted := oldest;
        SizeWithout(cache, oldest);
        cache := cache - oldest;
      }
      assert cache == old(cache) - evicted;
      assert cache[key := Entry(now, hit)].Keys == cache.Keys + {key};
      cache := cache[key := Entry(now, hit)];
    }

    method ProbeResolver(zone: string, idx: nat, now: real) returns (ok: bool)
      requires Valid()
      modifies this`probes
      ensures Valid() && ok == ProbePasses(dns, zone, idx)
      ensures probes == if (zone, idx) in old(probes) && now - old(probes)[(zone, idx)].at < 1800.0 then old(probes)
                        else old(probes)[(zone, idx) := Probe(now, ok)]
    {
      if (zone, idx) in probes && now - probes[(zone, idx)].at < PROBE_TTL {
        return probes[(zone, idx)].usable;
      }
      match dns(idx, "2.0.0.127." + zone, A) {
        case Answers(values) => ok := HasListingCode(values);
        case _ => ok := false;
      }
      probes := probes[(zone, idx) := Probe(now, ok)];
    }

    method ResolversFor(zone: string) returns (pool: seq<nat>)
      requires Valid()
      modifies this`probes, this`warned
      ensures Valid() && pool == Pool(dns, zone)
    {
      if !IsPublicSpamhaus(zone) {
        return RESOLVERS;
      }
      pool := [];
      for i := 0 to |RESOLVERS|
        invariant Valid() && pool == Passing(dns, zone, RESOLVERS[..i])
      {
        PassingOneMore(dns, zone, RESOLVERS, i);
        var now: real := *;
        var ok := ProbeResolver(zone, RESOLVERS[i], now);
        if ok {
          pool := pool + [RESOLVERS[i]];
        }
      }
      assert RESOLVERS[..|RESOLVERS|] == RESOLVERS;
      var now: real := *;
      if pool == [] && now - (if zone in warned then warned[zone] else 0.0) > PROBE_TTL {
        warned := warned[zone := now];
      }
    }

    /** The answer of the resolvers, for a result that is not cached. */
    method Query(zone: string, rev: string) returns (v: Verdict)
      requires Valid()
      modifies this`probes, this`warned, this`queried
      ensures Valid() && v == VerdictOf(dns, zone, rev) && queried == old(queried) + [(zone, rev)]
    {
      queried := queried + [(zone, rev)];
      var pool := ResolversFor(zone);
      if pool == [] {
        return Unknown;
      }
      var qname := rev + "." + zone;
      var r := ResolveWithRetry(dns, qname, A, pool);
      ResolveIsFirstDecisive(dns, qname, A, pool, false);
      match r {
        case Failed => v := Unknown;
        case Negative => v := Clean;
        case Found(values) =>
          ListingCodesOf(values);
          var codes := ListingCodes(values);
          if codes == [] {
            assert false;  // an answer without a listing code is a refusal, and never returned
          }
          var t := ResolveWithRetry(dns, qname, TXT, pool);
          var txt := "";
          if t.Found? {
            txt := Join(t.values, " ");
            txt := if |txt| <= 200 then txt else txt[..200];
          }
          v := Listed(codes, txt);
      }
    }

    /** A cached result that has not expired agrees with a fresh check. */
    method Recall(key: Key, ghost labels: Labels) returns (found: bool, hit: Option<Hit>, ghost at: real)
      requires Valid()
      modifies this`cache
      ensures Valid() && (found ==> Agrees(dns, key, hit) && cache == old(cache))
      ensures found <==> key in old(cache) && at - old(cache)[key].at <= 3600.0
      ensures old(Labelled(labels)) ==> Labelled(labels) && (found && hit.Some? ==> LabelledHit(labels, hit.value))
    {
      var now: real := *;
      at := now;
      found, hit := CacheGet(key, now);
      SizeWithoutOne(old(cache), key);
    }

    method Remember(key: Key, hit: Option<Hit>, ghost labels: Labels)
      requires Valid() && Agrees(dns, key, hit)
      modifies this`cache
      ensures Valid() && key in cache && cache[key].hit == hit
      ensures old(Labelled(labels)) && (hit.Some? ==> LabelledHit(labels, hit.value)) ==> Labelled(labels)
    {
      var now: real := *;
      var evicted := CacheSet(key, hit, now);
      SetKeepsAgreement(dns, old(cache), evicted, key, Entry(now, hit));
    }

    /** One zone of a check, where `at` is the reading of the clock. An entry of at most an hour is used as it is,
        and nothing is asked; otherwise the resolvers are asked, and a verdict is remembered. */
    method CheckZone(ip: string, rev: string, l: Blacklist, ghost labels: Labels)
      returns (found: seq<Hit>, ghost at: real)
      requires Valid() && ReverseIp(ip) == Some(rev)
      modifies this
      ensures Valid()
      ensures Findings(found) == Findings(HitOf(VerdictOf(dns, l.zone, rev), l))
      ensures var key := (l.zone, ip);
              if key in old(cache) && at - old(cache)[key].at <= 3600.0 then
                cache == old(cache) && queried == old(queried)
              else
                queried == old(queried) + [(l.zone, rev)] && (VerdictOf(dns, l.zone, rev) != Unknown <==> key in cache)
      ensures old(Labelled(labels)) && (l.name, l.severity) == labels(l.zone) ==>
                Labelled(labels) && found == HitOf(VerdictOf(dns, l.zone, rev), l)
    {
      var key := (l.zone, ip);
      var present, hit, now := Recall(key, labels);
      at := now;
      if present {
        found := if hit.Some? then [hit.value] else [];
        return;
      }
      var v := Query(l.zone, rev);
      found := HitOf(v, l);
      if v != Unknown {
        Remember(key, if v.Clean? then None else Some(found[0]), labels);
      }
    }

    /** The hits are the same as without any cache, after any history of calls, expiries and evictions;
        labels included if every zone has always been checked under the same name and severity. */
    method CheckIp(ip: string, lists: seq<Blacklist>, ghost labels: Labels) returns (hits: seq<Hit>)
      requires Valid()
      modifies this
      ensures Valid()
      ensures match ReverseIp(ip)
              case None => hits == [] && cache == old(cache)
              case Some(rev) => Findings(hits) == Findings(UncachedHits(dns, rev, lists))
      ensures old(Labelled(labels)) && LabelledLists(labels, lists) ==>
                Labelled(labels) &&
                match ReverseIp(ip)
                case None => true
                case Some(rev) => hits == UncachedHits(dns, rev, lists)
    {
      hits := [];
      if ReverseIp(ip).None? {
        return;
      }
      var rev := ReverseIp(ip).value;
      for i := 0 to |lists|
        invariant Valid()
        invariant Findings(hits) == Findings(UncachedHits(dns, rev, lists[..i]))
        invariant old(Labelled(labels)) && LabelledLists(labels, lists) ==>
                    Labelled(labels) && hits == UncachedHits(dns, rev, lists[..i])
      {
        var found, _ := CheckZone(ip, rev, lists[i], labels);
        HitsOneMore(dns, rev, lists, i, hits, found);
        hits := hits + found;
      }
      assert lists[..|lists|] == lists;
    }

    method CacheClear() returns (n: nat)
      requires Valid()
      modifies this
      ensures Valid() && n == |old(cache)| && cache == map[] && probes == map[]
    {
      n := |cache|;
      cache, probes := map[], map[];
    }
  }

  /** What one more list adds to the hits. */
  lemma HitsOneMore(dns: Dns, rev: string, lists: seq<Blacklist>, i: nat, hits: seq<Hit>, found: seq<Hit>)
    requires i < |lists|
    ensures var more := HitOf(VerdictOf(dns, lists[i].zone, rev), lists[i]);
            && UncachedHits(dns, rev, lists[..i + 1]) == UncachedHits(dns, rev, lists[..i]) + more
            && (Findings(hits) == Findings(UncachedHits(dns, rev, lists[..i])) && Findings(found) == Findings(more) ==>
                  Findings(hits + found) == Findings(UncachedHits(dns, rev, lists[..i + 1])))
  {
    assert lists[..i + 1][..i] == lists[..i];
    FindingsConcat(hits, found);
    FindingsConcat(UncachedHits(dns, rev, lists[..i]), HitOf(VerdictOf(dns, lists[i].zone, rev), lists[i]));
  }

  lemma SizeWithoutOne(m: map<Key, Entry>, key: Key)
    ensures |m - {key}| <= |m|
  {
    if key in m {
      SizeWithout(m, {key});
    } else {
      assert m - {key} == m;
    }
  }

  lemma {:induction false} FindingsConcat(a: seq<Hit>, b: seq<Hit>)
    ensures Findings(a + b) == Findings(a) + Findings(b)
  {
    if b == [] {
      assert a + b == a;
    } else {
      var n := |b| - 1;
      assert (a + b)[..|a| + n] == a + b[..n];
      FindingsConcat(a, b[..n]);
    }
  }
}

/** DNSBL checks of an IP address: return codes, trusted resolvers and failover between them. */
module Dnsbl {
  import opened Options
  import opened Text

  datatype RdType = A | TXT

  /** What one resolver answers: records, or one of the exceptions that the code tells apart. The text of
      a TXT record is the concatenation of its strings. */
  datatype Outcome = Answers(values: seq<string>) | NxDomain | NoAnswer | NoNameservers | Timeout | OtherError

  /** A fixed state of the DNS, as the resolvers of the pool see it. */
  type Dns = (nat, string, RdType) -> Outcome

  /** System default, Cloudflare, Quad9, Google. */
  const RESOLVERS: seq<nat> := [0, 1, 2, 3]

  datatype Hit = Hit(zone: string, name: string, severity: nat, codes: seq<string>, txt: string)

  // ---- Reversed addresses ----

  predicate IsOctet(s: string) {
    && 1 <= |s| <= 3
    && (forall i :: 0 <= i < |s| ==> '0' <= s[i] <= '9')
    && (|s| > 1 ==> s[0] != '0')
    && (|s| == 3 ==> s[0] < '2' || (s[0] == '2' && (s[1] < '5' || (s[1] == '5' && s[2] <= '5'))))
  }

  function Reversed<T>(s: seq<T>): (r: seq<T>)
    ensures |r| == |s| && forall i :: 0 <= i < |s| ==> r[i] == s[|s| - 1 - i]
  {
    seq(|s|, i requires 0 <= i < |s| => s[|s| - 1 - i])
  }

  predicate IsIPv4(ip: string) {
    var parts := SplitOn(ip, '.');
    |parts| == 4 && forall i :: 0 <= i < 4 ==> IsOctet(parts[i])
  }

  /** The octets of an IPv4 address in reverse; nothing for any other text. */
  function ReverseIp(ip: string): Option<string> {
    if IsIPv4(ip) then Some(Join(Reversed(SplitOn(ip, '.')), ".")) else None
  }

  /** Reversing twice gives the address back, so distinct addresses have distinct query names. */
  lemma ReverseIpTwice(ip: string)
    requires IsIPv4(ip)
    ensures ReverseIp(ReverseIp(ip).value) == Some(ip)
  {
    var parts := SplitOn(ip, '.');
    SplitOnParts(ip, '.');
    SplitOnJoin(Reversed(parts), '.');
    assert Reversed(Reversed(parts)) == parts;
    JoinOfSplitOn(ip, '.');
  }

  // ---- Return codes and zones ----

  /** 127.0.0.0/8 means listed, except for the refusal codes 127.255.255.x. */
  predicate IsListingCode(code: string) {
    StartsWith(code, "127.") && !StartsWith(code, "127.255.255.")
  }

  function ListingCodes(values: seq<string>): seq<string> {
    if values == [] then []
    else ListingCodes(values[..|values| - 1])
         + if IsListingCode(values[|values| - 1]) then [values[|values| - 1]] else []
  }

  predicate HasListingCode(values: seq<string>) {
    exists i :: 0 <= i < |values| && IsListingCode(values[i])
  }

  lemma {:induction false} ListingCodesOf(values: seq<string>)
    ensures ListingCodes(values) != [] <==> HasListingCode(values)
    ensures forall c :: c in ListingCodes(values) <==> c in values && IsListingCode(c)
  {
    if values != [] {
      var n := |values| - 1;
      ListingCodesOf(values[..n]);
      assert forall c :: c in values <==> c in values[..n] || c == values[n];
      assert HasListingCode(values) <==> HasListingCode(values[..n]) || IsListingCode(values[n]) by {
        if HasListingCode(values[..n]) {
          var i :| 0 <= i < n && IsListingCode(values[..n][i]);
          assert IsListingCode(values[i]);
        }
        if HasListingCode(values) && !IsListingCode(values[n]) {
          var i :| 0 <= i < |values| && IsListingCode(values[i]);
          assert IsListingCode(values[..n][i]);
        }
      }
    }
  }

  predicate IsPublicSpamhaus(zone: string) {
    EndsWith(zone, ".spamhaus.org") || zone == "cbl.abuseat.org"
  }

  // ---- Resolvers ----

  /** The test point of RFC 5782, section 5: a resolver must see 127.0.0.2 listed. */
  predicate ProbePasses(dns: Dns, zone: string, idx: nat) {
    var o := dns(idx, "2.0.0.127." + zone, A);
    o.Answers? && HasListingCode(o.values)
  }

  function Passing(dns: Dns, zone: string, idxs: seq<nat>): seq<nat> {
    if idxs == [] then []
    else Passing(dns, zone, idxs[..|idxs| - 1])
         + if ProbePasses(dns, zone, idxs[|idxs| - 1]) then [idxs[|idxs| - 1]] else []
  }

  /** The resolvers whose answers for `zone` are trusted. */
  function Pool(dns: Dns, zone: string): seq<nat> {
    if IsPublicSpamhaus(zone) then Passing(dns, zone, RESOLVERS) else RESOLVERS
  }

  lemma {:induction false} PassingPass(dns: Dns, zone: string, idxs: seq<nat>)
    ensures forall i :: i in Passing(dns, zone, idxs) <==> i in idxs && ProbePasses(dns, zone, i)
  {
    if idxs != [] {
      var n := |idxs| - 1;
      PassingPass(dns, zone, idxs[..n]);
      assert forall i :: i in idxs <==> i in idxs[..n] || i == idxs[n];
    }
  }

  lemma PassingOneMore(dns: Dns, zone: string, idxs: seq<nat>, i: nat)
    requires i < |idxs|
    ensures Passing(dns, zone, idxs[..i + 1])
         == Passing(dns, zone, idxs[..i]) + if ProbePasses(dns, zone, idxs[i]) then [idxs[i]] else []
  {
    assert idxs[..i + 1][..i] == idxs[..i];
  }

  datatype Resolution = Found(values: seq<string>) | Negative | Failed

  /** An answer that settles the query, as opposed to a refusal or an error. */
  predicate Decisive(o: Outcome, rdtype: RdType) {
    match o
    case Answers(values) => rdtype == A ==> HasListingCode(values)
    case NxDomain => true
    case NoAnswer => true
    case _ => false
  }

  function Settled(o: Outcome): Resolution {
    if o.Answers? then Found(o.values) else Negative
  }

  /** Failover: the first decisive answer of the pool. */
  function Resolve(dns: Dns, qname: string, rdtype: RdType, pool: seq<nat>, failed: bool): Resolution {
    if pool == [] then (if failed then Failed else Negative)
    else
      var o := dns(pool[0], qname, rdtype);
      if Decisive(o, rdtype) then Settled(o) else Resolve(dns, qname, rdtype, pool[1..], true)
  }

  method ResolveWithRetry(dns: Dns, qname: string, rdtype: RdType, pool: seq<nat>) returns (r: Resolution)
    ensures r == Resolve(dns, qname, rdtype, pool, false)
  {
    var failed := false;
    for i := 0 to |pool|
      invariant Resolve(dns, qname, rdtype, pool[i..], failed) == Resolve(dns, qname, rdtype, pool, false)
    {
      assert pool[i..][0] == pool[i] && pool[i..][1..] == pool[i + 1..];
      match dns(pool[i], qname, rdtype) {
        case Answers(values) =>
          if rdtype == A && !HasListingCode(values) {
            failed := true;
            continue;
          }
          return Found(values);
        case NxDomain =>
          return Negative;
        case NoAnswer =>
          return Negative;
        case _ =>
          failed := true;
      }
    }
    assert pool[|pool|..] == [];
    r := if failed then Failed else Negative;
  }

  /** `k` is the first resolver of the pool with a decisive answer. */
  ghost predicate FirstDecisive(dns: Dns, qname: string, rdtype: RdType, pool: seq<nat>, k: int) {
    && 0 <= k < |pool| && Decisive(dns(pool[k], qname, rdtype), rdtype)
    && forall j :: 0 <= j < k ==> !Decisive(dns(pool[j], qname, rdtype), rdtype)
  }

  /** The result over a non-empty pool is that of its first decisive answer, and a failure exactly if
      there is none: "not listed" is never concluded without a definitive negative. */
  lemma {:induction false} ResolveIsFirstDecisive(dns: Dns, qname: string, rdtype: RdType, pool: seq<nat>, failed: bool)
    requires pool != []
    ensures forall k :: FirstDecisive(dns, qname, rdtype, pool, k) ==>
                          Resolve(dns, qname, rdtype, pool, failed) == Settled(dns(pool[k], qname, rdtype))
    ensures Resolve(dns, qname, rdtype, pool, failed).Failed? <==>
              forall j :: 0 <= j < |pool| ==> !Decisive(dns(pool[j], qname, rdtype), rdtype)
    ensures !Resolve(dns, qname, rdtype, pool, failed).Failed? ==>
              exists k :: FirstDecisive(dns, qname, rdtype, pool, k)
  {
    if Decisive(dns(pool[0], qname, rdtype), rdtype) {
      assert FirstDecisive(dns, qname, rdtype, pool, 0);
    } else if |pool| > 1 {
      var rest := pool[1..];
      ResolveIsFirstDecisive(dns, qname, rdtype, rest, true);
      forall k | FirstDecisive(dns, qname, rdtype, pool, k)
        ensures FirstDecisive(dns, qname, rdtype, rest, k - 1)
      {
        assert forall j :: 0 <= j < k - 1 ==> rest[j] == pool[j + 1];
      }
      if k :| FirstDecisive(dns, qname, rdtype, rest, k) {
        assert forall j :: 0 < j < k + 1 ==> pool[j] == rest[j - 1];
        assert FirstDecisive(dns, qname, rdtype, pool, k + 1);
      }
    }
  }

  // ---- The verdict on one zone ----

  datatype Verdict = Unknown | Clean | Listed(codes: seq<string>, txt: string)

  function TxtOf(dns: Dns, qname: string, pool: seq<nat>): string {
    var r := Resolve(dns, qname, TXT, pool, false);
    if r.Found? then
      var text := Join(r.values, " ");
      if |text| <= 200 then text else text[..200]
    else ""
  }

  /** What a check without any cache concludes about an address in a zone. */
  function VerdictOf(dns: Dns, zone: string, rev: string): Verdict {
    var pool := Pool(dns, zone);
    var qname := rev + "." + zone;
    if pool == [] then Unknown
    else
      match Resolve(dns, qname, A, pool, false)
      case Failed => Unknown
      case Negative => Clean
      case Found(values) => Listed(ListingCodes(values), TxtOf(dns, qname, pool))
  }

  /** A clean verdict rests on a trusted resolver that denied the name, and a listing on one that returned
      listing codes, the first decisive answer in both cases; there is no verdict exactly if no trusted
      resolver gave a decisive answer. */
  lemma VerdictHasEvidence(dns: Dns, zone: string, rev: string)
    ensures var qname := rev + "." + zone;
            var pool := Pool(dns, zone);
            match VerdictOf(dns, zone, rev)
            case Unknown => forall j :: 0 <= j < |pool| ==> !Decisive(dns(pool[j], qname, A), A)
            case Clean =>
              exists k :: FirstDecisive(dns, qname, A, pool, k) && !dns(pool[k], qname, A).Answers?
                          && (IsPublicSpamhaus(zone) ==> ProbePasses(dns, zone, pool[k]))
            case Listed(codes, txt) =>
              codes != [] && (forall c :: c in codes ==> IsListingCode(c)) &&
              exists k :: FirstDecisive(dns, qname, A, pool, k) && dns(pool[k], qname, A).Answers?
                          && codes == ListingCodes(dns(pool[k], qname, A).values)
                          && (IsPublicSpamhaus(zone) ==> ProbePasses(dns, zone, pool[k]))
  {
    var qname := rev + "." + zone;
    var pool := Pool(dns, zone);
    PassingPass(dns, zone, RESOLVERS);
    if pool != [] {
      ResolveIsFirstDecisive(dns, qname, A, pool, false);
      if !Resolve(dns, qname, A, pool, false).Failed? {
        var k :| FirstDecisive(dns, qname, A, pool, k);
        assert pool[k] in pool;
        if dns(pool[k], qname, A).Answers? {
          ListingCodesOf(dns(pool[k], qname, A).values);
        }
      }
    }
  }
}

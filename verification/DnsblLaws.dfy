/** What a DNSBL check asks and concludes, in terms of octets and of what the resolvers answer. */
module DnsblLaws {
  import opened Options
  import opened Text
  import opened Dnsbl
  import opened DnsblCache

  // ---- Addresses ----

  /** A number below 1000 in decimal, without leading zeros. */
  function Decimal(n: nat): string
    requires n < 1000
  {
    if n < 10 then [Digit(n)]
    else if n < 100 then [Digit(n / 10), Digit(n % 10)]
    else [Digit(n / 100), Digit(n / 10 % 10), Digit(n % 10)]
  }

  function Digit(d: nat): char
    requires d < 10
  {
    "0123456789"[d]
  }

  function DigitValue(c: char): (d: nat)
    requires '0' <= c <= '9'
    ensures d < 10 && Digit(d) == c
  {
    c as int - '0' as int
  }

  lemma OneDigit(s: string)
    requires |s| == 1 && IsOctet(s)
    ensures exists n: nat :: n < 256 && s == Decimal(n)
  {
    var n := DigitValue(s[0]);
    assert s == Decimal(n);
  }

  lemma TwoDigits(s: string)
    requires |s| == 2 && IsOctet(s)
    ensures exists n: nat :: n < 256 && s == Decimal(n)
  {
    var n := 10 * DigitValue(s[0]) + DigitValue(s[1]);
    assert n / 10 == DigitValue(s[0]) && n % 10 == DigitValue(s[1]);
    assert s == Decimal(n);
  }

  lemma DigitsOf(a: nat, b: nat, c: nat, n: nat)
    requires a < 10 && b < 10 && c < 10 && n == 100 * a + 10 * b + c
    ensures n < 1000 && n / 100 == a && n / 10 == 10 * a + b && n % 10 == c
  {
  }

  lemma LastDigit(a: nat, b: nat)
    requires b < 10
    ensures (10 * a + b) % 10 == b
  {
  }

  lemma DecimalOfDigits(a: nat, b: nat, c: nat, n: nat)
    requires 1 <= a < 10 && b < 10 && c < 10 && n == 100 * a + 10 * b + c && n < 1000
    ensures Decimal(n) == [Digit(a), Digit(b), Digit(c)]
  {
    DigitsOf(a, b, c, n);
    LastDigit(a, b);
  }

  lemma ThreeDigits(s: string)
    requires |s| == 3 && IsOctet(s)
    ensures exists n: nat :: n < 256 && s == Decimal(n)
  {
    var a, b, c := DigitValue(s[0]), DigitValue(s[1]), DigitValue(s[2]);
    var n := 100 * a + 10 * b + c;
    assert n < 256;
    DecimalOfDigits(a, b, c, n);
    assert s == [Digit(a), Digit(b), Digit(c)];
  }

  lemma DecimalIsOctet(n: nat)
    requires n < 256
    ensures IsOctet(Decimal(n))
  {
    assert forall d :: 0 <= d < 10 ==> Digit(d) as int == '0' as int + d;
  }

  /** The octets are the decimals of the numbers up to 255. */
  lemma OctetsAreDecimals(s: string)
    ensures IsOctet(s) <==> exists n: nat :: n < 256 && s == Decimal(n)
  {
    if IsOctet(s) {
      if |s| == 1 {
        OneDigit(s);
      } else if |s| == 2 {
        TwoDigits(s);
      } else {
        ThreeDigits(s);
      }
    }
    if n: nat :| n < 256 && s == Decimal(n) {
      DecimalIsOctet(n);
    }
  }

  /** The query names the octets of the address in reverse. */
  lemma ReversedOctets(ip: string)
    requires IsIPv4(ip)
    ensures var parts := SplitOn(ip, '.');
            && ReverseIp(ip) == Some(parts[3] + "." + parts[2] + "." + parts[1] + "." + parts[0])
            && SplitOn(ReverseIp(ip).value, '.') == [parts[3], parts[2], parts[1], parts[0]]
  {
    var parts := SplitOn(ip, '.');
    var rev := [parts[3], parts[2], parts[1], parts[0]];
    assert Reversed(parts) == rev;
    SplitOnParts(ip, '.');
    SplitOnJoin(rev, '.');
    JoinOfFour(parts[3], parts[2], parts[1], parts[0]);
  }

  lemma JoinOfFour(a: string, b: string, c: string, d: string)
    ensures Join([a, b, c, d], ".") == a + "." + b + "." + c + "." + d
  {
    assert [a, b, c, d][1..] == [b, c, d] && [b, c, d][1..] == [c, d] && [c, d][1..] == [d];
    assert Join([c, d], ".") == c + "." + d;
    assert Join([b, c, d], ".") == b + "." + (c + "." + d);
  }

  ghost predicate IsDotted(ip: string, parts: seq<string>) {
    && |parts| == 4 && (forall i :: 0 <= i < 4 ==> IsOctet(parts[i]))
    && ip == parts[0] + "." + parts[1] + "." + parts[2] + "." + parts[3]
  }

  lemma DottedIsIPv4(ip: string, parts: seq<string>)
    requires IsDotted(ip, parts)
    ensures IsIPv4(ip)
  {
    assert parts == [parts[0], parts[1], parts[2], parts[3]];
    JoinOfFour(parts[0], parts[1], parts[2], parts[3]);
    SplitOnJoin(parts, '.');
  }

  /** Only four octets with dots between them have a query name. */
  lemma QueryNameIffDotted(ip: string)
    ensures ReverseIp(ip).Some? <==> exists parts :: IsDotted(ip, parts)
  {
    if IsIPv4(ip) {
      var p := SplitOn(ip, '.');
      JoinOfSplitOn(ip, '.');
      assert p == [p[0], p[1], p[2], p[3]];
      JoinOfFour(p[0], p[1], p[2], p[3]);
      assert IsDotted(ip, p);
    }
    if parts :| IsDotted(ip, parts) {
      DottedIsIPv4(ip, parts);
    }
  }

  // ---- Return codes ----

  /** Whether a text starts with some parts is decided part by part. */
  lemma StartsPartByPart(head: string, rest: string, word: string, more: string)
    requires '.' !in head && '.' !in word
    ensures StartsWith(head + ['.'] + rest, word + ['.'] + more) <==> head == word && StartsWith(rest, more)
  {
    var s, prefix := head + ['.'] + rest, word + ['.'] + more;
    if StartsWith(s, prefix) {
      BeforeSeparator(head, '.', rest);
      BeforeSeparator(word, '.', more);
      SamePlace(s, |head|, |word|);
      assert s[..|prefix|] == prefix;
      assert rest[..|more|] == more;
    }
  }

  lemma SamePlace(s: string, i: nat, j: nat)
    requires i < |s| && j < |s| && s[i] == s[j] == '.'
    requires forall k :: 0 <= k < i || 0 <= k < j ==> s[k] != '.'
    ensures i == j
  {
  }

  /** An address is a listing code if it lies in 127.0.0.0/8 and not in 127.255.255.0/24. */
  lemma ListingCodeByOctets(p: seq<string>, code: string)
    requires IsDotted(code, p)
    ensures IsListingCode(code) <==> p[0] == "127" && !(p[1] == "255" && p[2] == "255")
  {
    var two := p[2] + ['.'] + p[3];
    var one := p[1] + ['.'] + two;
    assert code == p[0] + ['.'] + one;
    StartsPartByPart(p[0], one, "127", "");
    StartsPartByPart(p[0], one, "127", "255.255.");
    StartsPartByPart(p[1], two, "255", "255.");
    StartsPartByPart(p[2], p[3], "255", "");
    assert "127" + ['.'] + "" == "127." && "127" + ['.'] + "255.255." == "127.255.255.";
    assert "255" + ['.'] + "255." == "255.255." && "255" + ['.'] + "" == "255.";
  }

  // ---- Zones and resolvers ----

  /** The public zones of Spamhaus are those under spamhaus.org and the CBL; the zones of the query service with a
      key of one's own, under spamhaus.net, are not. */
  lemma PublicZones(zone: string)
    ensures IsPublicSpamhaus(zone + ".spamhaus.org") && IsPublicSpamhaus("cbl.abuseat.org")
    ensures !IsPublicSpamhaus(zone + ".spamhaus.net") && !IsPublicSpamhaus("spamhaus.org")
  {
    var own := zone + ".spamhaus.net";
    assert (zone + ".spamhaus.org")[|zone|..] == ".spamhaus.org";
    assert own[|own| - 1] == 't' && ".spamhaus.org"[12] == 'g' && "cbl.abuseat.org"[14] == 'g';
    assert own[|own| - 13..][12] == own[|own| - 1];
    assert |"spamhaus.org"| < |".spamhaus.org"| && "spamhaus.org"[0] == 's' && "cbl.abuseat.org"[0] == 'c';
  }

  lemma ReversedDotted(ip: string, p: seq<string>)
    requires IsDotted(ip, p)
    ensures ReverseIp(ip) == Some(p[3] + "." + p[2] + "." + p[1] + "." + p[0])
  {
    assert p == [p[0], p[1], p[2], p[3]];
    JoinOfFour(p[0], p[1], p[2], p[3]);
    SplitOnJoin(p, '.');
    ReversedOctets(ip);
  }

  lemma TestAddress(ip: string, p: seq<string>)
    requires ip == "127.0.0.2" && p == ["127", "0", "0", "2"]
    ensures IsDotted(ip, p)
  {
    assert ip == p[0] + "." + p[1] + "." + p[2] + "." + p[3];
  }

  lemma ReversedTestAddress(p: seq<string>)
    requires p == ["127", "0", "0", "2"]
    ensures p[3] + "." + p[2] + "." + p[1] + "." + p[0] == "2.0.0.127"
  {
  }

  /** The test point of a zone is the entry for 127.0.0.2: it must be answered with a listing code. */
  lemma TestPoint(dns: Dns, zone: string, idx: nat, ip: string, rev: string)
    requires ip == "127.0.0.2" && ReverseIp(ip) == Some(rev)
    ensures ProbePasses(dns, zone, idx) <==> Lists(dns(idx, rev + "." + zone, A))
  {
    var p := ["127", "0", "0", "2"];
    TestAddress(ip, p);
    ReversedDotted(ip, p);
    ReversedTestAddress(p);
    ProbeOf(dns, zone, idx, rev);
  }

  lemma ProbeOf(dns: Dns, zone: string, idx: nat, rev: string)
    requires rev == "2.0.0.127"
    ensures ProbePasses(dns, zone, idx) <==> Lists(dns(idx, rev + "." + zone, A))
  {
    assert rev + "." + zone == "2.0.0.127." + zone;
  }

  ghost predicate Increasing(s: seq<nat>) {
    forall i, j :: 0 <= i < j < |s| ==> s[i] < s[j]
  }

  /** The trusted resolvers, in their order: all four, or those that pass the test point. */
  lemma PoolIsTrusted(dns: Dns, zone: string)
    ensures forall i :: i in Pool(dns, zone) <==> i < 4 && (IsPublicSpamhaus(zone) ==> ProbePasses(dns, zone, i))
    ensures Increasing(Pool(dns, zone))
  {
    PassingPass(dns, zone, RESOLVERS);
    PassingInOrder(dns, zone, RESOLVERS);
  }

  lemma {:induction false} PassingInOrder(dns: Dns, zone: string, idxs: seq<nat>)
    requires Increasing(idxs)
    ensures Increasing(Passing(dns, zone, idxs))
  {
    if idxs != [] {
      var front, last := idxs[..|idxs| - 1], idxs[|idxs| - 1];
      PassingInOrder(dns, zone, front);
      PassingPass(dns, zone, front);
      var p := Passing(dns, zone, front);
      forall i | 0 <= i < |p|
        ensures p[i] < last
      {
        assert p[i] in p;
      }
    }
  }

  // ---- The verdict by what the resolvers answer ----

  /** The resolver denies the name. */
  predicate Denies(o: Outcome) {
    o.NxDomain? || o.NoAnswer?
  }

  /** The resolver answers with a listing code. */
  ghost predicate Lists(o: Outcome) {
    o.Answers? && exists i :: 0 <= i < |o.values| && IsListingCode(o.values[i])
  }

  /** Every resolver before number `k` of the pool fails, or answers with refusal codes only. */
  ghost predicate AllFailBefore(dns: Dns, qname: string, pool: seq<nat>, k: int)
    requires 0 <= k <= |pool|
  {
    forall j :: 0 <= j < k ==> !Denies(dns(pool[j], qname, A)) && !Lists(dns(pool[j], qname, A))
  }

  /** The verdict follows the first trusted resolver that either denies the name or lists it: clean in the first
      case, listed under the listing codes of its answer in the second; without one there is no verdict. */
  lemma VerdictByAnswers(dns: Dns, zone: string, rev: string)
    ensures var pool, qname, v := Pool(dns, zone), rev + "." + zone, VerdictOf(dns, zone, rev);
            && (v == Unknown <==> AllFailBefore(dns, qname, pool, |pool|))
            && forall k :: 0 <= k < |pool| && AllFailBefore(dns, qname, pool, k) ==>
                 && (Denies(dns(pool[k], qname, A)) ==> v == Clean)
                 && (Lists(dns(pool[k], qname, A)) ==>
                       v.Listed? && v.codes == ListingCodes(dns(pool[k], qname, A).values))
  {
    var pool, qname := Pool(dns, zone), rev + "." + zone;
    forall o: Outcome
      ensures Decisive(o, A) <==> Denies(o) || Lists(o)
    {
    }
    if pool != [] {
      ResolveIsFirstDecisive(dns, qname, A, pool, false);
      forall k | 0 <= k < |pool| && AllFailBefore(dns, qname, pool, k) && Decisive(dns(pool[k], qname, A), A)
        ensures FirstDecisive(dns, qname, A, pool, k)
      {
      }
    }
  }

  /** The text of a listing is the first 200 characters of what the first decisive resolver gives, and empty if all
      fail or it is denied. */
  lemma TextIsCut(dns: Dns, qname: string, pool: seq<nat>)
    ensures var r, text := Resolve(dns, qname, TXT, pool, false), TxtOf(dns, qname, pool);
            if r.Found? then
              var full := Join(r.values, " ");
              text <= full && |text| == (if |full| < 200 then |full| else 200)
            else text == ""
  {
  }

  // ---- The hits of a check ----

  lemma OneZoneHits(dns: Dns, rev: string, l: Blacklist, h: Hit)
    ensures h in HitOf(VerdictOf(dns, l.zone, rev), l) <==> IsHitOf(dns, rev, l, h)
  {
  }

  ghost predicate IsHitOfAny(dns: Dns, rev: string, lists: seq<Blacklist>, h: Hit) {
    exists i :: 0 <= i < |lists| && IsHitOf(dns, rev, lists[i], h)
  }

  lemma OneMoreList(dns: Dns, rev: string, lists: seq<Blacklist>, l: Blacklist, h: Hit)
    ensures IsHitOfAny(dns, rev, lists + [l], h) <==> IsHitOfAny(dns, rev, lists, h) || IsHitOf(dns, rev, l, h)
  {
    var all := lists + [l];
    assert all[|lists|] == l && forall i :: 0 <= i < |lists| ==> all[i] == lists[i];
  }

  /** A check reports a hit exactly for a list whose zone lists the address, with the labels of that list. */
  lemma {:induction false} HitsAreListings(dns: Dns, rev: string, lists: seq<Blacklist>, h: Hit)
    ensures h in UncachedHits(dns, rev, lists) <==> IsHitOfAny(dns, rev, lists, h)
  {
    if lists != [] {
      var front, last := lists[..|lists| - 1], lists[|lists| - 1];
      assert lists == front + [last];
      HitsAreListings(dns, rev, front, h);
      OneZoneHits(dns, rev, last, h);
      OneMoreList(dns, rev, front, last, h);
      HitsConcat(dns, rev, front, last);
    }
  }

  ghost predicate IsHitOf(dns: Dns, rev: string, l: Blacklist, h: Hit) {
    && VerdictOf(dns, l.zone, rev) == Listed(h.codes, h.txt)
    && h.zone == l.zone && h.name == l.name && h.severity == l.severity
  }

  /** The order of the hits is that of the lists. */
  lemma HitsConcat(dns: Dns, rev: string, lists: seq<Blacklist>, l: Blacklist)
    ensures UncachedHits(dns, rev, lists + [l])
         == UncachedHits(dns, rev, lists) + HitOf(VerdictOf(dns, l.zone, rev), l)
    ensures |HitOf(VerdictOf(dns, l.zone, rev), l)| == if VerdictOf(dns, l.zone, rev).Listed? then 1 else 0
  {
    assert (lists + [l])[..|lists|] == lists;
  }
}

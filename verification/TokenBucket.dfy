/** The in-memory rate limiter: one token bucket per key, refilled by elapsed time. The clock is read
    before the lock is taken, so readings may be out of order. */
module TokenBucket {

  datatype Bucket = Bucket(tokens: real, last: real)

  datatype Limits = Limits(capacity: real, refill: real)

  /** One call, in lock order: `now` is the reading before the lock, `created` the one that the default
      factory takes if the key has no bucket yet. */
  datatype Call = Call(key: string, cost: real, now: real, created: real)

  function Min(a: real, b: real): real {
    if a <= b then a else b
  }

  /** The tokens that flow in over a span of time. */
  function Inflow(lim: Limits, span: real): real {
    span * lim.refill
  }

  function Refilled(lim: Limits, b: Bucket, now: real): real {
    Min(lim.capacity, b.tokens + Inflow(lim, now - b.last))
  }

  predicate Grants(lim: Limits, b: Bucket, c: Call) {
    Refilled(lim, b, c.now) >= c.cost
  }

  function Taken(lim: Limits, b: Bucket, c: Call): Bucket {
    Bucket(Refilled(lim, b, c.now) - (if Grants(lim, b, c) then c.cost else 0.0), c.now)
  }

  function BucketFor(lim: Limits, buckets: map<string, Bucket>, c: Call): Bucket {
    if c.key in buckets then buckets[c.key] else Bucket(lim.capacity, c.created)
  }

  class Limiter {
    const lim: Limits
    var buckets: map<string, Bucket>

    constructor (capacity: nat, refill: real)
      ensures lim == Limits(capacity as real, refill) && buckets == map[]
    {
      lim := Limits(capacity as real, refill);
      buckets := map[];
    }

    method Take(key: string, cost: real, now: real, created: real) returns (ok: bool)
      modifies this
      ensures var c := Call(key, cost, now, created);
              var b := BucketFor(lim, old(buckets), c);
              ok == Grants(lim, b, c) && buckets == old(buckets)[key := Taken(lim, b, c)]
    {
      if key !in buckets {
        buckets := buckets[key := Bucket(lim.capacity, created)];
      }
      var b := buckets[key];
      var elapsed := now - b.last;
      b := b.(tokens := Min(lim.capacity, b.tokens + Inflow(lim, elapsed)));
      b := b.(last := now);
      ok := b.tokens >= cost;
      if ok {
        b := b.(tokens := b.tokens - cost);
      }
      buckets := buckets[key := b];
      assert buckets == old(buckets)[key := b];
    }
  }

  // ---- Runs ----

  /** The buckets after a run of calls. */
  function Run(lim: Limits, calls: seq<Call>): map<string, Bucket> {
    if calls == [] then map[]
    else
      var n := |calls| - 1;
      var before := Run(lim, calls[..n]);
      before[calls[n].key := Taken(lim, BucketFor(lim, before, calls[n]), calls[n])]
  }

  /** The calls of a run that concern `key`. */
  function CallsOf(calls: seq<Call>, key: string): (r: seq<Call>)
    ensures forall c :: c in r ==> c.key == key
  {
    if calls == [] then []
    else
      var n := |calls| - 1;
      CallsOf(calls[..n], key) + if calls[n].key == key then [calls[n]] else []
  }

  /** The bucket of one key before its call number `k`. */
  function BucketBefore(lim: Limits, cs: seq<Call>, k: nat): Bucket
    requires k < |cs|
  {
    if k == 0 then Bucket(lim.capacity, cs[0].created)
    else Taken(lim, BucketBefore(lim, cs, k - 1), cs[k - 1])
  }

  predicate Granted(lim: Limits, cs: seq<Call>, k: nat)
    requires k < |cs|
  {
    Grants(lim, BucketBefore(lim, cs, k), cs[k])
  }

  lemma {:induction false} BucketBeforePrefix(lim: Limits, cs: seq<Call>, more: seq<Call>, k: nat)
    requires k < |cs|
    ensures BucketBefore(lim, cs + more, k) == BucketBefore(lim, cs, k)
  {
    if k > 0 {
      BucketBeforePrefix(lim, cs, more, k - 1);
    }
  }

  /** Calls for other keys leave a bucket alone: after any run it is what its own calls made it. */
  lemma {:induction false} KeysAreIndependent(lim: Limits, calls: seq<Call>, key: string)
    ensures var cs := CallsOf(calls, key);
            && (key in Run(lim, calls) <==> cs != [])
            && (cs != [] ==> var k := |cs| - 1; Run(lim, calls)[key] == Taken(lim, BucketBefore(lim, cs, k), cs[k]))
  {
    if calls != [] {
      var n := |calls| - 1;
      var cs := CallsOf(calls[..n], key);
      KeysAreIndependent(lim, calls[..n], key);
      if calls[n].key != key {
        assert CallsOf(calls, key) == cs;
      } else {
        var all := cs + [calls[n]];
        assert CallsOf(calls, key) == all && all[|cs|] == calls[n];
        if cs != [] {
          BucketBeforePrefix(lim, cs, [calls[n]], |cs| - 1);
          assert all[|cs| - 1] == cs[|cs| - 1];
        }
      }
    }
  }

  // ---- What a window may be granted ----

  /** The cost granted to the calls from number `i` up to but excluding `k`. */
  function Spent(lim: Limits, cs: seq<Call>, i: nat, k: nat): real
    requires i <= k <= |cs|
  {
    if i == k then 0.0
    else Spent(lim, cs, i, k - 1) + if Granted(lim, cs, k - 1) then cs[k - 1].cost else 0.0
  }

  /** What is left for call `k` if the bucket was full at the reading of call `i`, before it took its
      tokens. */
  function Budget(lim: Limits, cs: seq<Call>, i: nat, k: nat): real
    requires i <= k < |cs|
  {
    lim.capacity + lim.refill * (cs[k].now - cs[i].now) - Spent(lim, cs, i, k)
  }

  /** The same for a bucket that was full when it was created. */
  function InitialBudget(lim: Limits, cs: seq<Call>, k: nat): real
    requires k < |cs|
  {
    lim.capacity + lim.refill * (cs[k].now - cs[0].created) - Spent(lim, cs, 0, k)
  }

  ghost predicate IsTightestBudget(lim: Limits, cs: seq<Call>, k: nat, tokens: real)
    requires k < |cs|
  {
    && tokens <= InitialBudget(lim, cs, k)
    && (forall i :: 0 <= i <= k ==> tokens <= Budget(lim, cs, i, k))
    && (tokens == InitialBudget(lim, cs, k) || exists i :: 0 <= i <= k && tokens == Budget(lim, cs, i, k))
  }

  /** One call shifts every budget by what it was granted and by the refill until the next one. */
  lemma BudgetShift(lim: Limits, cs: seq<Call>, i: nat, k: nat)
    requires i < k < |cs|
    ensures Budget(lim, cs, i, k) == Budget(lim, cs, i, k - 1) + Gain(lim, cs, k)
  {
    Telescope(lim, cs[i].now, cs[k - 1].now, cs[k].now);
  }

  lemma InitialBudgetShift(lim: Limits, cs: seq<Call>, k: nat)
    requires 0 < k < |cs|
    ensures InitialBudget(lim, cs, k) == InitialBudget(lim, cs, k - 1) + Gain(lim, cs, k)
  {
    Telescope(lim, cs[0].created, cs[k - 1].now, cs[k].now);
  }

  lemma Telescope(lim: Limits, a: real, b: real, c: real)
    ensures Inflow(lim, c - a) == Inflow(lim, b - a) + Inflow(lim, c - b)
  {
  }

  function Gain(lim: Limits, cs: seq<Call>, k: nat): real
    requires 0 < k < |cs|
  {
    Inflow(lim, cs[k].now - cs[k - 1].now) - if Granted(lim, cs, k - 1) then cs[k - 1].cost else 0.0
  }

  function Tokens(lim: Limits, cs: seq<Call>, k: nat): real
    requires k < |cs|
  {
    Refilled(lim, BucketBefore(lim, cs, k), cs[k].now)
  }

  lemma TokensShift(lim: Limits, cs: seq<Call>, k: nat)
    requires 0 < k < |cs|
    ensures Tokens(lim, cs, k) == Min(lim.capacity, Tokens(lim, cs, k - 1) + Gain(lim, cs, k))
  {
  }

  /** The refilled bucket holds exactly the smallest budget over all windows that end with the call. */
  lemma {:induction false} TokensAreTightestBudget(lim: Limits, cs: seq<Call>, k: nat)
    requires k < |cs|
    ensures IsTightestBudget(lim, cs, k, Tokens(lim, cs, k))
  {
    assert Budget(lim, cs, k, k) == lim.capacity;
    if k > 0 {
      TokensAreTightestBudget(lim, cs, k - 1);
      forall i | 0 <= i < k { BudgetShift(lim, cs, i, k); }
      InitialBudgetShift(lim, cs, k);
      TokensShift(lim, cs, k);
      TightestShift(lim, cs, k, Tokens(lim, cs, k - 1), Tokens(lim, cs, k));
    }
  }

  lemma TightestShift(lim: Limits, cs: seq<Call>, k: nat, before: real, tokens: real)
    requires 0 < k < |cs|
    requires IsTightestBudget(lim, cs, k - 1, before)
    requires forall i :: 0 <= i < k ==> Budget(lim, cs, i, k) == Budget(lim, cs, i, k - 1) + Gain(lim, cs, k)
    requires InitialBudget(lim, cs, k) == InitialBudget(lim, cs, k - 1) + Gain(lim, cs, k)
    requires Budget(lim, cs, k, k) == lim.capacity && tokens == Min(lim.capacity, before + Gain(lim, cs, k))
    ensures IsTightestBudget(lim, cs, k, tokens)
  {
    if tokens < lim.capacity && before != InitialBudget(lim, cs, k - 1) {
      var i :| 0 <= i <= k - 1 && before == Budget(lim, cs, i, k - 1);
      assert tokens == Budget(lim, cs, i, k);
    }
  }

  /** A cost that stays within the capacity and what is refilled over a span. */
  predicate Allows(lim: Limits, cost: real, span: real) {
    cost <= lim.capacity + lim.refill * span
  }

  /** What was granted since call `i`, and call `k` itself, stay within the window between them. */
  predicate WindowAllows(lim: Limits, cs: seq<Call>, i: nat, k: nat)
    requires i <= k < |cs|
  {
    Allows(lim, Spent(lim, cs, i, k) + cs[k].cost, cs[k].now - cs[i].now)
  }

  predicate CreationAllows(lim: Limits, cs: seq<Call>, k: nat)
    requires k < |cs|
  {
    Allows(lim, Spent(lim, cs, 0, k) + cs[k].cost, cs[k].now - cs[0].created)
  }

  lemma AllowsIffBudget(lim: Limits, spent: real, cost: real, span: real)
    ensures Allows(lim, spent + cost, span) <==> cost <= lim.capacity + lim.refill * span - spent
  {
  }

  lemma WindowAllowsIffBudget(lim: Limits, cs: seq<Call>, i: nat, k: nat)
    requires i <= k < |cs|
    ensures WindowAllows(lim, cs, i, k) <==> cs[k].cost <= Budget(lim, cs, i, k)
  {
    AllowsIffBudget(lim, Spent(lim, cs, i, k), cs[k].cost, cs[k].now - cs[i].now);
  }

  lemma CreationAllowsIffBudget(lim: Limits, cs: seq<Call>, k: nat)
    requires k < |cs|
    ensures CreationAllows(lim, cs, k) <==> cs[k].cost <= InitialBudget(lim, cs, k)
  {
    AllowsIffBudget(lim, Spent(lim, cs, 0, k), cs[k].cost, cs[k].now - cs[0].created);
  }

  /** What stays within the tightest budget stays within every budget, and the other way round. */
  lemma WithinTightest(lim: Limits, cs: seq<Call>, k: nat, tokens: real)
    requires k < |cs| && IsTightestBudget(lim, cs, k, tokens)
    ensures cs[k].cost <= tokens <==>
              cs[k].cost <= InitialBudget(lim, cs, k) && forall i :: 0 <= i <= k ==> cs[k].cost <= Budget(lim, cs, i, k)
  {
  }

  /** A call is granted if and only if, for the creation of the bucket and for every call up to this
      one, the cost granted since then and this cost together stay within capacity and refill: the
      limiter never grants too much and never denies without need. */
  lemma GrantedIffAllWindowsAllow(lim: Limits, cs: seq<Call>, k: nat)
    requires k < |cs|
    ensures Granted(lim, cs, k) <==>
              CreationAllows(lim, cs, k) && forall i :: 0 <= i <= k ==> WindowAllows(lim, cs, i, k)
  {
    TokensAreTightestBudget(lim, cs, k);
    WithinTightest(lim, cs, k, Tokens(lim, cs, k));
    CreationAllowsIffBudget(lim, cs, k);
    forall i | 0 <= i <= k
      ensures WindowAllows(lim, cs, i, k) <==> cs[k].cost <= Budget(lim, cs, i, k)
    {
      WindowAllowsIffBudget(lim, cs, i, k);
    }
  }

  /** The cost granted to those of the first `n` calls whose readings lie in [a, b]. */
  function GrantedWithin(lim: Limits, cs: seq<Call>, n: nat, a: real, b: real): real
    requires n <= |cs|
  {
    if n == 0 then 0.0
    else
      GrantedWithin(lim, cs, n - 1, a, b)
      + if a <= cs[n - 1].now <= b && Granted(lim, cs, n - 1) then cs[n - 1].cost else 0.0
  }

  ghost predicate NonNegative(lim: Limits, cs: seq<Call>) {
    lim.capacity >= 0.0 && lim.refill >= 0.0 && forall c :: c in cs ==> c.cost >= 0.0
  }

  lemma {:induction false} WindowIsWithinSpan(lim: Limits, cs: seq<Call>, i: nat, n: nat, a: real, b: real)
    requires NonNegative(lim, cs) && i <= n <= |cs|
    requires forall j :: 0 <= j < i ==> !(a <= cs[j].now <= b)
    ensures GrantedWithin(lim, cs, n, a, b) <= Spent(lim, cs, i, n)
  {
    if n > i {
      WindowIsWithinSpan(lim, cs, i, n - 1, a, b);
    } else if n > 0 {
      NothingWithin(lim, cs, n, a, b);
    }
  }

  lemma {:induction false} NothingWithin(lim: Limits, cs: seq<Call>, n: nat, a: real, b: real)
    requires n <= |cs| && forall j :: 0 <= j < n ==> !(a <= cs[j].now <= b)
    ensures GrantedWithin(lim, cs, n, a, b) == 0.0
  {
    if n > 0 {
      NothingWithin(lim, cs, n - 1, a, b);
    }
  }

  lemma RefillGrows(refill: real, x: real, y: real)
    requires x <= y && refill >= 0.0
    ensures refill * x <= refill * y
  {
  }

  lemma InflowGrows(lim: Limits, x: real, y: real)
    requires x <= y && lim.refill >= 0.0
    ensures Inflow(lim, x) <= Inflow(lim, y)
  {
    RefillGrows(lim.refill, x, y);
  }

  lemma InflowIsProduct(lim: Limits, span: real)
    ensures Inflow(lim, span) == lim.refill * span
  {
  }

  lemma WiderSpan(lim: Limits, cost: real, span: real, wider: real)
    requires Allows(lim, cost, span) && span <= wider && lim.refill >= 0.0
    ensures cost <= lim.capacity + Inflow(lim, wider)
  {
    InflowGrows(lim, span, wider);
  }

  lemma {:induction false} InflowBound(lim: Limits, cs: seq<Call>, n: nat, a: real, b: real)
    requires NonNegative(lim, cs) && n <= |cs| && a <= b
    ensures GrantedWithin(lim, cs, n, a, b) <= lim.capacity + Inflow(lim, b - a)
  {
    if n == 0 {
      InflowGrows(lim, 0.0, b - a);
    } else {
      var k := n - 1;
      InflowBound(lim, cs, k, a, b);
      if a <= cs[k].now <= b && Granted(lim, cs, k) {
        var i := FirstWithin(cs, k, a, b);
        assert GrantedWithin(lim, cs, k, a, b) <= Spent(lim, cs, i, k) by {
          WindowIsWithinSpan(lim, cs, i, k, a, b);
        }
        assert WindowAllows(lim, cs, i, k) by {
          GrantedIffAllWindowsAllow(lim, cs, k);
        }
        WiderSpan(lim, Spent(lim, cs, i, k) + cs[k].cost, cs[k].now - cs[i].now, b - a);
      }
    }
  }

  /** Whatever the order of the clock readings, the calls of one key whose readings lie in a window are
      never granted more than the capacity and what is refilled over the window. */
  lemma WindowBound(lim: Limits, cs: seq<Call>, n: nat, a: real, b: real)
    requires NonNegative(lim, cs) && n <= |cs| && a <= b
    ensures GrantedWithin(lim, cs, n, a, b) <= lim.capacity + lim.refill * (b - a)
  {
    InflowBound(lim, cs, n, a, b);
    InflowIsProduct(lim, b - a);
  }

  function FirstWithin(cs: seq<Call>, k: nat, a: real, b: real): (i: nat)
    requires k < |cs| && a <= cs[k].now <= b
    ensures i <= k && a <= cs[i].now <= b
    ensures forall j :: 0 <= j < i ==> !(a <= cs[j].now <= b)
  {
    if k > 0 && exists j :: 0 <= j < k && a <= cs[j].now <= b then
      var j :| 0 <= j < k && a <= cs[j].now <= b;
      FirstWithin(cs, j, a, b)
    else k
  }

  // ---- Back to runs over all keys ----

  /** The cost that a run grants to the calls for `key` with readings in [a, b]. */
  function RunGranted(lim: Limits, calls: seq<Call>, key: string, a: real, b: real): real {
    if calls == [] then 0.0
    else
      var n := |calls| - 1;
      var c := calls[n];
      RunGranted(lim, calls[..n], key, a, b)
      + if c.key == key && a <= c.now <= b && Grants(lim, BucketFor(lim, Run(lim, calls[..n]), c), c) then c.cost
        else 0.0
  }

  lemma {:induction false} GrantedWithinPrefix(lim: Limits, cs: seq<Call>, more: seq<Call>, n: nat, a: real, b: real)
    requires n <= |cs|
    ensures GrantedWithin(lim, cs + more, n, a, b) == GrantedWithin(lim, cs, n, a, b)
  {
    if n > 0 {
      GrantedWithinPrefix(lim, cs, more, n - 1, a, b);
      BucketBeforePrefix(lim, cs, more, n - 1);
    }
  }

  lemma {:induction false} RunGrantsByKey(lim: Limits, calls: seq<Call>, key: string, a: real, b: real)
    ensures var cs := CallsOf(calls, key);
            RunGranted(lim, calls, key, a, b) == GrantedWithin(lim, cs, |cs|, a, b)
  {
    if calls != [] {
      var n := |calls| - 1;
      var cs := CallsOf(calls[..n], key);
      RunGrantsByKey(lim, calls[..n], key, a, b);
      if calls[n].key != key {
        assert CallsOf(calls, key) == cs;
      } else {
        var all := cs + [calls[n]];
        assert CallsOf(calls, key) == all && all[|cs|] == calls[n];
        GrantedWithinPrefix(lim, cs, [calls[n]], |cs|, a, b);
        KeysAreIndependent(lim, calls[..n], key);
        assert BucketBefore(lim, all, |cs|) == BucketFor(lim, Run(lim, calls[..n]), calls[n]) by {
          if cs != [] {
            BucketBeforePrefix(lim, cs, [calls[n]], |cs| - 1);
            assert all[|cs| - 1] == cs[|cs| - 1];
          }
        }
      }
    }
  }

  /** In any run over any keys, with clock readings in any order, no key is granted more within a window
      than the capacity and what is refilled over the window. */
  lemma RunWindowBound(lim: Limits, calls: seq<Call>, key: string, a: real, b: real)
    requires NonNegative(lim, calls) && a <= b
    ensures RunGranted(lim, calls, key, a, b) <= lim.capacity + lim.refill * (b - a)
  {
    var cs := CallsOf(calls, key);
    RunGrantsByKey(lim, calls, key, a, b);
    CallsOfAreCalls(calls, key);
    WindowBound(lim, cs, |cs|, a, b);
  }

  lemma {:induction false} CallsOfAreCalls(calls: seq<Call>, key: string)
    ensures forall c :: c in CallsOf(calls, key) ==> c in calls
  {
    if calls != [] {
      CallsOfAreCalls(calls[..|calls| - 1], key);
    }
  }

  // ---- Waiting ----

  lemma WaitIsQuotient(need: real, refill: real, span: real)
    requires refill > 0.0
    ensures refill * span >= need <==> span >= need / refill
  {
    var q := need / refill;
    assert refill * q == need;
    if span >= q {
      RefillGrows(refill, q, span);
    } else {
      assert refill * (q - span) > 0.0;
      assert refill * (q - span) == refill * q - refill * span;
    }
  }

  /** A bucket that holds too little grants a call as soon as enough time has passed for the missing tokens, and
      not before. */
  lemma GrantedAfterWaiting(lim: Limits, b: Bucket, c: Call)
    requires lim.refill > 0.0 && b.tokens < c.cost <= lim.capacity
    ensures Grants(lim, b, c) <==> c.now - b.last >= (c.cost - b.tokens) / lim.refill
  {
    WaitIsQuotient(c.cost - b.tokens, lim.refill, c.now - b.last);
  }

  /** A call that costs more than the capacity is never granted, however long the bucket was left alone. */
  lemma BeyondCapacityIsDenied(lim: Limits, b: Bucket, c: Call)
    requires c.cost > lim.capacity
    ensures !Grants(lim, b, c)
  {
  }
}

/** The aggregations behind the charts. A row is what the query returns: a sender label, the two
    evaluations, the disposition and a count; the day is that of the report. */
module Stats {
  import opened Options
  import opened Tally

  datatype Row = Row(day: Option<int>, sender: string, dkim: Option<string>, spf: Option<string>,
                     disposition: Option<string>, count: int)

  predicate Aligned(dkim: Option<string>, spf: Option<string>) {
    dkim == Some("pass") || spf == Some("pass")
  }

  predicate RowAligned(r: Row) {
    Aligned(r.dkim, r.spf)
  }

  /** The counts of the rows with a property. */
  function Volume(rows: seq<Row>, p: Row -> bool): int {
    if rows == [] then 0
    else
      var before, last := Volume(rows[..|rows| - 1], p), rows[|rows| - 1];
      if p(last) then before + last.count else before
  }

  /** One dictionary entry per key, with the counts of its rows. */
  function Flows<K(==)>(rows: seq<Row>, key: Row -> K): Dict<K> {
    if rows == [] then []
    else Bump(Flows(rows[..|rows| - 1], key), key(rows[|rows| - 1]), rows[|rows| - 1].count)
  }

  lemma FlowsSnoc<K>(rows: seq<Row>, r: Row, key: Row -> K)
    ensures Flows(rows + [r], key) == Bump(Flows(rows, key), key(r), r.count)
  {
    assert (rows + [r])[..|rows|] == rows;
  }

  function PairCount<K>(e: (K, int)): int {
    e.1
  }

  function Keys<K>(d: Dict<K>): (r: seq<K>)
    ensures |r| == |d| && forall i :: 0 <= i < |d| ==> r[i] == d[i].0
  {
    seq(|d|, i requires 0 <= i < |d| => d[i].0)
  }

  function First<T>(s: seq<T>, n: nat): seq<T> {
    if |s| <= n then s else s[..n]
  }

  /** The keys of the `n` largest entries. */
  function Top<K>(d: Dict<K>, n: nat): seq<K> {
    First(Keys(SortDesc(d, PairCount)), n)
  }

  // ---- Totals ----

  datatype Totals = Totals(passed: int, failed: int, quarantined: int, rejected: int, total: int)

  predicate Every(r: Row) {
    true
  }

  predicate NotAligned(r: Row) {
    !RowAligned(r)
  }

  predicate IsQuarantined(r: Row) {
    r.disposition == Some("quarantine")
  }

  predicate IsRejected(r: Row) {
    r.disposition == Some("reject")
  }

  function TotalsOf(rows: seq<Row>): Totals {
    Totals(Volume(rows, RowAligned), Volume(rows, NotAligned), Volume(rows, IsQuarantined), Volume(rows, IsRejected),
           Volume(rows, Every))
  }

  lemma VolumeSnoc(rows: seq<Row>, r: Row, p: Row -> bool)
    ensures Volume(rows + [r], p) == Volume(rows, p) + if p(r) then r.count else 0
  {
    assert (rows + [r])[..|rows|] == rows;
  }

  method DomainTotals(rows: seq<Row>) returns (t: Totals)
    ensures t == TotalsOf(rows)
  {
    t := Totals(0, 0, 0, 0, 0);
    for i := 0 to |rows|
      invariant t == TotalsOf(rows[..i])
    {
      var r := rows[i];
      var c := r.count;
      t := t.(total := t.total + c);
      if Aligned(r.dkim, r.spf) {
        t := t.(passed := t.passed + c);
      } else {
        t := t.(failed := t.failed + c);
      }
      if r.disposition == Some("quarantine") {
        t := t.(quarantined := t.quarantined + c);
      } else if r.disposition == Some("reject") {
        t := t.(rejected := t.rejected + c);
      }
      assert rows[..i + 1] == rows[..i] + [r];
      VolumeSnoc(rows[..i], r, Every);
      VolumeSnoc(rows[..i], r, RowAligned);
      VolumeSnoc(rows[..i], r, NotAligned);
      VolumeSnoc(rows[..i], r, IsQuarantined);
      VolumeSnoc(rows[..i], r, IsRejected);
    }
    assert rows[..|rows|] == rows;
  }

  // ---- Breakdown by sender ----

  datatype Bucket = Bucket(sender: string, total: int, passed: int, failed: int)

  function BucketTotal(b: Bucket): int { b.total }

  function BucketPassed(b: Bucket): int { b.passed }

  function BucketFailed(b: Bucket): int { b.failed }

  function Grown(b: Bucket, r: Row): Bucket {
    if Aligned(r.dkim, r.spf) then b.(total := b.total + r.count, passed := b.passed + r.count)
    else b.(total := b.total + r.count, failed := b.failed + r.count)
  }

  function AddRow(bs: seq<Bucket>, r: Row): seq<Bucket> {
    if bs == [] then [Grown(Bucket(r.sender, 0, 0, 0), r)]
    else if bs[0].sender == r.sender then [Grown(bs[0], r)] + bs[1..]
    else [bs[0]] + AddRow(bs[1..], r)
  }

  function Collect(rows: seq<Row>): seq<Bucket> {
    if rows == [] then [] else AddRow(Collect(rows[..|rows| - 1]), rows[|rows| - 1])
  }

  function Others(rest: seq<Bucket>): Bucket {
    Bucket("Andere", SumOf(rest, BucketTotal), SumOf(rest, BucketPassed), SumOf(rest, BucketFailed))
  }

  function Breakdown(rows: seq<Row>, limit: nat): seq<Bucket> {
    var sorted := SortDesc(Collect(rows), BucketTotal);
    if |sorted| > limit then sorted[..limit] + [Others(sorted[limit..])] else sorted
  }

  method SenderBreakdown(rows: seq<Row>, limit: nat) returns (out: seq<Bucket>)
    ensures out == Breakdown(rows, limit)
  {
    var buckets: seq<Bucket> := [];
    for i := 0 to |rows|
      invariant buckets == Collect(rows[..i])
    {
      buckets := AddRow(buckets, rows[i]);
      assert rows[..i + 1][..i] == rows[..i];
    }
    assert rows[..|rows|] == rows;
    out := SortDesc(buckets, BucketTotal);
    if |out| > limit {
      var rest := out[limit..];
      out := out[..limit] + [Others(rest)];
    }
  }

  // ---- Daily stack ----

  datatype Series = Series(sender: string, data: seq<int>)

  datatype Stack = Stack(days: seq<int>, datasets: seq<Series>)

  predicate IsDated(r: Row) {
    r.day.Some?
  }

  function Dated(rows: seq<Row>): (r: seq<Row>)
    ensures forall i :: 0 <= i < |r| ==> r[i].day.Some?
  {
    if rows == [] then []
    else
      var before, last := Dated(rows[..|rows| - 1]), rows[|rows| - 1];
      if last.day.Some? then before + [last] else before
  }

  function LabelOf(r: Row): string {
    r.sender
  }

  /** The key of a row in the dictionary of days and, inside it, the dictionary of senders. */
  function DayLabel(r: Row): (int, string) {
    (if r.day.Some? then r.day.value else 0, r.sender)
  }

  /** The days, in order of appearance and without repetition. */
  function DaysOf(d: Dict<(int, string)>): seq<int> {
    if d == [] then []
    else
      var before, day := DaysOf(d[..|d| - 1]), d[|d| - 1].0.0;
      if day in before then before else before + [day]
  }

  function Earlier(day: int): int {
    -day
  }

  function SortedDays(d: Dict<(int, string)>): seq<int> {
    SortDesc(DaysOf(d), Earlier)
  }

  function InDay(day: int): ((int, string)) -> bool {
    (k: (int, string)) => k.0 == day
  }

  function OutsideTop(day: int, top: seq<string>): ((int, string)) -> bool {
    (k: (int, string)) => k.0 == day && k.1 !in top
  }

  function SenderSeries(d: Dict<(int, string)>, days: seq<int>, sender: string): Series {
    Series(sender, seq(|days|, i requires 0 <= i < |days| => Get(d, (days[i], sender))))
  }

  function OtherData(d: Dict<(int, string)>, days: seq<int>, top: seq<string>): (r: seq<int>)
    ensures |r| == |days|
  {
    seq(|days|, i requires 0 <= i < |days| => SumWhere(d, OutsideTop(days[i], top)))
  }

  function NamedSeries(d: Dict<(int, string)>, days: seq<int>, top: seq<string>): (r: seq<Series>)
    ensures |r| == |top| && forall i :: 0 <= i < |r| ==> r[i] == SenderSeries(d, days, top[i])
  {
    seq(|top|, i requires 0 <= i < |top| => SenderSeries(d, days, top[i]))
  }

  predicate AnyPositive(data: seq<int>) {
    exists i :: 0 <= i < |data| && data[i] > 0
  }

  function Datasets(d: Dict<(int, string)>, days: seq<int>, top: seq<string>): seq<Series> {
    var others := OtherData(d, days, top);
    if AnyPositive(others) then NamedSeries(d, days, top) + [Series("Andere", others)]
    else NamedSeries(d, days, top)
  }

  function DailyStack(rows: seq<Row>, topN: nat): Stack {
    var dated := Dated(rows);
    var daily, top := Flows(dated, DayLabel), Top(Flows(dated, LabelOf), topN);
    Stack(SortedDays(daily), Datasets(daily, SortedDays(daily), top))
  }

  method SenderDailyStack(rows: seq<Row>, topN: nat) returns (stack: Stack)
    ensures stack == DailyStack(rows, topN)
  {
    var totals: Dict<string>, daily: Dict<(int, string)> := [], [];
    for i := 0 to |rows|
      invariant totals == Flows(Dated(rows[..i]), LabelOf)
      invariant daily == Flows(Dated(rows[..i]), DayLabel)
    {
      var r := rows[i];
      assert rows[..i + 1][..i] == rows[..i];
      if r.day.Some? {
        FlowsSnoc(Dated(rows[..i]), r, LabelOf);
        FlowsSnoc(Dated(rows[..i]), r, DayLabel);
        totals := Bump(totals, r.sender, r.count);
        daily := Bump(daily, (r.day.value, r.sender), r.count);
      }
    }
    assert rows[..|rows|] == rows;
    var top, days := Top(totals, topN), SortedDays(daily);
    var datasets := StackSeries(daily, days, top);
    stack := Stack(days, datasets);
  }

  method StackSeries(daily: Dict<(int, string)>, days: seq<int>, top: seq<string>) returns (out: seq<Series>)
    ensures out == Datasets(daily, days, top)
  {
    out := [];
    for i := 0 to |top|
      invariant out == NamedSeries(daily, days, top)[..i]
    {
      out := out + [SenderSeries(daily, days, top[i])];
    }
    assert out == NamedSeries(daily, days, top);
    var others, any := OtherSeries(daily, days, top);
    if any {
      out := out + [Series("Andere", others)];
    }
  }

  method OtherSeries(daily: Dict<(int, string)>, days: seq<int>, top: seq<string>) returns (others: seq<int>, any: bool)
    ensures others == OtherData(daily, days, top) && any == AnyPositive(others)
  {
    others, any := [], false;
    for i := 0 to |days|
      invariant others == OtherData(daily, days, top)[..i] && any == AnyPositive(others)
    {
      var rest := SumWhere(daily, OutsideTop(days[i], top));
      any := any || rest > 0;
      assert AnyPositive(others + [rest]) == any by {
        assert (others + [rest])[i] == rest;
        assert forall j :: 0 <= j < i ==> (others + [rest])[j] == others[j];
      }
      others := others + [rest];
    }
  }

  // ---- Sankey ----

  datatype Link = Link(source: string, target: string, flow: int)

  function Positive(rows: seq<Row>): (r: seq<Row>)
    ensures forall i :: 0 <= i < |r| ==> r[i].count > 0
  {
    if rows == [] then []
    else
      var before, last := Positive(rows[..|rows| - 1]), rows[|rows| - 1];
      if last.count > 0 then before + [last] else before
  }

  function SenderNode(top: seq<string>, r: Row): string {
    if r.sender in top then r.sender else "Andere"
  }

  function AlignmentNode(r: Row): string {
    if Aligned(r.dkim, r.spf) then "Aligned" else "Not aligned"
  }

  /** An absent or empty disposition counts as none; `title` is Python's title-casing. */
  function DispositionNode(title: string -> string, r: Row): string {
    var d := if r.disposition.Some? && r.disposition.value != "" then r.disposition.value else "none";
    if d == "none" then "Delivered"
    else if d == "quarantine" then "Quarantined"
    else if d == "reject" then "Rejected"
    else title(d)
  }

  function FirstLeg(top: seq<string>): Row -> (string, string) {
    (r: Row) => (SenderNode(top, r), AlignmentNode(r))
  }

  function SecondLeg(title: string -> string): Row -> (string, string) {
    (r: Row) => (AlignmentNode(r), DispositionNode(title, r))
  }

  function LinkOf(e: ((string, string), int)): Link {
    Link(e.0.0, e.0.1, e.1)
  }

  function Links(d: Dict<(string, string)>): seq<Link> {
    seq(|d|, i requires 0 <= i < |d| => LinkOf(d[i]))
  }

  function Sankey(rows: seq<Row>, topN: nat, title: string -> string): seq<Link> {
    var kept := Positive(rows);
    var top := Top(Flows(kept, LabelOf), topN);
    Links(Flows(kept, FirstLeg(top))) + Links(Flows(kept, SecondLeg(title)))
  }

  lemma PositiveSnoc(rows: seq<Row>, r: Row)
    ensures Positive(rows + [r]) == if r.count > 0 then Positive(rows) + [r] else Positive(rows)
  {
    assert (rows + [r])[..|rows|] == rows;
  }

  method CollectSenders(rows: seq<Row>) returns (senders: Dict<string>, kept: seq<Row>)
    ensures kept == Positive(rows) && senders == Flows(kept, LabelOf)
  {
    senders, kept := [], [];
    for i := 0 to |rows|
      invariant kept == Positive(rows[..i]) && senders == Flows(kept, LabelOf)
    {
      var r := rows[i];
      assert rows[..i + 1] == rows[..i] + [r];
      PositiveSnoc(rows[..i], r);
      if r.count > 0 {
        FlowsSnoc(kept, r, LabelOf);
        senders := Bump(senders, r.sender, r.count);
        kept := kept + [r];
      }
    }
    assert rows[..|rows|] == rows;
  }

  method Legs(kept: seq<Row>, top: seq<string>, title: string -> string)
    returns (first: Dict<(string, string)>, second: Dict<(string, string)>)
    ensures first == Flows(kept, FirstLeg(top)) && second == Flows(kept, SecondLeg(title))
  {
    first, second := [], [];
    for i := 0 to |kept|
      invariant first == Flows(kept[..i], FirstLeg(top))
      invariant second == Flows(kept[..i], SecondLeg(title))
    {
      var r := kept[i];
      assert kept[..i + 1] == kept[..i] + [r];
      FlowsSnoc(kept[..i], r, FirstLeg(top));
      FlowsSnoc(kept[..i], r, SecondLeg(title));
      var alignment := AlignmentNode(r);
      first := Bump(first, (SenderNode(top, r), alignment), r.count);
      second := Bump(second, (alignment, DispositionNode(title, r)), r.count);
    }
    assert kept[..|kept|] == kept;
  }

  method ToLinks(flows: Dict<(string, string)>) returns (out: seq<Link>)
    ensures out == Links(flows)
  {
    out := [];
    for i := 0 to |flows|
      invariant out == Links(flows)[..i]
    {
      var (source, target) := flows[i].0;
      out := out + [Link(source, target, flows[i].1)];
    }
  }

  method SankeyData(rows: seq<Row>, topN: nat, title: string -> string) returns (out: seq<Link>)
    ensures out == Sankey(rows, topN, title)
  {
    var senders, kept := CollectSenders(rows);
    var first, second := Legs(kept, Top(senders, topN), title);
    out := ToLinks(first);
    var rest := ToLinks(second);
    out := out + rest;
  }
}

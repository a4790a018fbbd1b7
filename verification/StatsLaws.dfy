/** What the charts agree on: flows are conserved, days add up, and all views show the same total. */
module StatsLaws {
  import opened Lists
  import opened Options
  import opened Stats
  import opened Tally

  // ---- Volumes ----

  lemma {:induction false} VolumeCongruent(rows: seq<Row>, p: Row -> bool, q: Row -> bool)
    requires forall i :: 0 <= i < |rows| ==> p(rows[i]) == q(rows[i])
    ensures Volume(rows, p) == Volume(rows, q)
  {
    if rows != [] {
      VolumeCongruent(rows[..|rows| - 1], p, q);
    }
  }

  lemma {:induction false} VolumeSplit(rows: seq<Row>, whole: Row -> bool, p: Row -> bool, q: Row -> bool)
    requires forall i :: 0 <= i < |rows| ==> whole(rows[i]) == (p(rows[i]) || q(rows[i])) && !(p(rows[i]) && q(rows[i]))
    ensures Volume(rows, whole) == Volume(rows, p) + Volume(rows, q)
  {
    if rows != [] {
      VolumeSplit(rows[..|rows| - 1], whole, p, q);
    }
  }

  ghost predicate NonNegative(rows: seq<Row>) {
    forall i :: 0 <= i < |rows| ==> rows[i].count >= 0
  }

  lemma {:induction false} VolumeIsNonNegative(rows: seq<Row>, p: Row -> bool)
    requires NonNegative(rows)
    ensures Volume(rows, p) >= 0
  {
    if rows != [] {
      VolumeIsNonNegative(rows[..|rows| - 1], p);
    }
  }

  lemma {:induction false} VolumeAtLeast(rows: seq<Row>, p: Row -> bool, i: nat)
    requires NonNegative(rows) && i < |rows| && p(rows[i])
    ensures Volume(rows, p) >= rows[i].count
  {
    var n := |rows| - 1;
    if i < n {
      VolumeAtLeast(rows[..n], p, i);
    } else {
      VolumeIsNonNegative(rows[..n], p);
    }
  }

  lemma {:induction false} VolumeOfZeros(rows: seq<Row>, p: Row -> bool)
    requires forall i :: 0 <= i < |rows| && p(rows[i]) ==> rows[i].count == 0
    ensures Volume(rows, p) == 0
  {
    if rows != [] {
      VolumeOfZeros(rows[..|rows| - 1], p);
    }
  }

  /** Positive rows have volume exactly where there is one. */
  lemma {:induction false} VolumeOfPositive(rows: seq<Row>, p: Row -> bool)
    requires forall i :: 0 <= i < |rows| ==> rows[i].count > 0
    ensures Volume(rows, p) >= 0
    ensures Volume(rows, p) == 0 <==> forall i :: 0 <= i < |rows| ==> !p(rows[i])
  {
    if rows != [] {
      var n := |rows| - 1;
      VolumeOfPositive(rows[..n], p);
      assert forall i :: 0 <= i < n ==> rows[..n][i] == rows[i];
    }
  }

  predicate IsPositive(r: Row) {
    r.count > 0
  }

  lemma NonNegativeSnoc(rows: seq<Row>, r: Row)
    ensures NonNegative(rows + [r]) <==> NonNegative(rows) && r.count >= 0
  {
    var all := rows + [r];
    assert all[|rows|] == r && forall i :: 0 <= i < |rows| ==> all[i] == rows[i];
  }

  lemma PositiveVolumeSnoc(rows: seq<Row>, r: Row)
    ensures var more := if r.count > 0 then r.count else 0;
            && Volume(Positive(rows + [r]), Every) == Volume(Positive(rows), Every) + more
            && Volume(rows + [r], IsPositive) == Volume(rows, IsPositive) + more
            && Volume(rows + [r], Every) == Volume(rows, Every) + r.count
  {
    PositiveSnoc(rows, r);
    VolumeSnoc(Positive(rows), r, Every);
    VolumeSnoc(rows, r, IsPositive);
    VolumeSnoc(rows, r, Every);
  }

  /** Only negative counts are lost with the rows that are not positive. */
  lemma {:induction false} PositiveVolume(rows: seq<Row>)
    ensures Volume(Positive(rows), Every) == Volume(rows, IsPositive)
    ensures Volume(rows, IsPositive) >= Volume(rows, Every)
    ensures Volume(rows, IsPositive) == Volume(rows, Every) <==> NonNegative(rows)
  {
    if rows != [] {
      var front, last := rows[..|rows| - 1], rows[|rows| - 1];
      assert rows == front + [last];
      PositiveVolume(front);
      PositiveVolumeSnoc(front, last);
      NonNegativeSnoc(front, last);
    }
  }

  lemma {:induction false} DatedKeepsVolume(rows: seq<Row>, p: Row -> bool)
    requires forall i :: 0 <= i < |rows| && p(rows[i]) ==> rows[i].day.Some?
    ensures Volume(Dated(rows), p) == Volume(rows, p)
  {
    if rows != [] {
      var n := |rows| - 1;
      DatedKeepsVolume(rows[..n], p);
      VolumeSnoc(Dated(rows[..n]), rows[n], p);
    }
  }

  /** What a dictionary holds under some keys is the volume of the rows with these keys. */
  lemma {:induction false} FlowsSum<K>(rows: seq<Row>, key: Row -> K, p: K -> bool, q: Row -> bool)
    requires forall i :: 0 <= i < |rows| ==> p(key(rows[i])) == q(rows[i])
    ensures SumWhere(Flows(rows, key), p) == Volume(rows, q)
  {
    if rows != [] {
      var n := |rows| - 1;
      FlowsSum(rows[..n], key, p, q);
      SumWhereBump(Flows(rows[..n], key), key(rows[n]), rows[n].count, p);
    }
  }

  lemma {:induction false} FlowsKeys<K(!new)>(rows: seq<Row>, key: Row -> K)
    ensures Distinct(Flows(rows, key))
    ensures forall i :: 0 <= i < |rows| ==> HasKey(Flows(rows, key), key(rows[i]))
  {
    if rows != [] {
      var n := |rows| - 1;
      FlowsKeys(rows[..n], key);
      BumpKeys(Flows(rows[..n], key), key(rows[n]), rows[n].count);
      assert forall i :: 0 <= i < n ==> rows[..n][i] == rows[i];
    }
  }

  // ---- Totals ----

  /** Passed and failed make up the total. */
  lemma TotalsAddUp(rows: seq<Row>)
    ensures var t := TotalsOf(rows);
            t.total == t.passed + t.failed
    ensures NonNegative(rows) ==> TotalsOf(rows).quarantined + TotalsOf(rows).rejected <= TotalsOf(rows).total
  {
    VolumeSplit(rows, Every, RowAligned, NotAligned);
    if NonNegative(rows) {
      var held := (r: Row) => IsQuarantined(r) || IsRejected(r);
      var free := (r: Row) => !held(r);
      VolumeSplit(rows, held, IsQuarantined, IsRejected);
      VolumeSplit(rows, Every, held, free);
      VolumeIsNonNegative(rows, free);
    }
  }

  // ---- Breakdown ----

  ghost predicate Balanced(bs: seq<Bucket>) {
    forall i :: 0 <= i < |bs| ==> bs[i].total == bs[i].passed + bs[i].failed
  }

  lemma {:induction false} AddRowSums(bs: seq<Bucket>, r: Row, f: Bucket -> int, gain: int)
    requires f(Bucket(r.sender, 0, 0, 0)) == 0
    requires forall b :: f(Grown(b, r)) == f(b) + gain
    ensures SumOf(AddRow(bs, r), f) == SumOf(bs, f) + gain
  {
    if bs == [] {
      SumOfAppend([], Grown(Bucket(r.sender, 0, 0, 0), r), f);
    } else {
      assert bs == [bs[0]] + bs[1..];
      SumOfConcat([bs[0]], bs[1..], f);
      if bs[0].sender == r.sender {
        SumOfConcat([Grown(bs[0], r)], bs[1..], f);
        SumOfOne(Grown(bs[0], r), f);
        SumOfOne(bs[0], f);
      } else {
        AddRowSums(bs[1..], r, f, gain);
        SumOfConcat([bs[0]], AddRow(bs[1..], r), f);
      }
    }
  }

  lemma SumOfOne<T>(x: T, f: T -> int)
    ensures SumOf([x], f) == f(x)
  {
    SumOfAppend([], x, f);
    assert [] + [x] == [x];
  }

  lemma {:induction false} AddRowKeepsBalance(bs: seq<Bucket>, r: Row)
    requires Balanced(bs)
    ensures Balanced(AddRow(bs, r))
  {
    if bs != [] && bs[0].sender != r.sender {
      AddRowKeepsBalance(bs[1..], r);
    }
  }

  lemma {:induction false} CollectIsBalanced(rows: seq<Row>)
    ensures Balanced(Collect(rows))
  {
    if rows != [] {
      CollectIsBalanced(rows[..|rows| - 1]);
      AddRowKeepsBalance(Collect(rows[..|rows| - 1]), rows[|rows| - 1]);
    }
  }

  lemma {:induction false} CollectSums(rows: seq<Row>)
    ensures SumOf(Collect(rows), BucketTotal) == Volume(rows, Every)
    ensures SumOf(Collect(rows), BucketPassed) == Volume(rows, RowAligned)
    ensures SumOf(Collect(rows), BucketFailed) == Volume(rows, NotAligned)
  {
    if rows != [] {
      var n := |rows| - 1;
      var r := rows[n];
      CollectSums(rows[..n]);
      AddRowSums(Collect(rows[..n]), r, BucketTotal, r.count);
      AddRowSums(Collect(rows[..n]), r, BucketPassed, if RowAligned(r) then r.count else 0);
      AddRowSums(Collect(rows[..n]), r, BucketFailed, if RowAligned(r) then 0 else r.count);
    }
  }

  lemma {:induction false} BalancedSums(bs: seq<Bucket>)
    requires Balanced(bs)
    ensures SumOf(bs, BucketTotal) == SumOf(bs, BucketPassed) + SumOf(bs, BucketFailed)
  {
    if bs != [] {
      BalancedSums(bs[..|bs| - 1]);
    }
  }

  lemma BalancedAfterSort(bs: seq<Bucket>)
    requires Balanced(bs)
    ensures Balanced(SortDesc(bs, BucketTotal))
  {
    var sorted := SortDesc(bs, BucketTotal);
    SortOrders(bs, BucketTotal);
    forall i | 0 <= i < |sorted|
      ensures sorted[i].total == sorted[i].passed + sorted[i].failed
    {
      assert sorted[i] in multiset(bs);
    }
  }

  /** The first `limit` buckets, and the sum of the others if there are more. */
  function Cut(bs: seq<Bucket>, limit: nat): seq<Bucket> {
    if |bs| > limit then bs[..limit] + [Others(bs[limit..])] else bs
  }

  /** Cutting the list keeps every sum. */
  lemma CutKeepsSum(bs: seq<Bucket>, limit: nat, f: Bucket -> int)
    requires |bs| > limit ==> f(Others(bs[limit..])) == SumOf(bs[limit..], f)
    ensures SumOf(Cut(bs, limit), f) == SumOf(bs, f)
  {
    if |bs| > limit {
      SumOfAppend(bs[..limit], Others(bs[limit..]), f);
      assert bs == bs[..limit] + bs[limit..];
      SumOfConcat(bs[..limit], bs[limit..], f);
    }
  }

  lemma CutIsBalanced(bs: seq<Bucket>, limit: nat)
    requires Balanced(bs)
    ensures Balanced(Cut(bs, limit))
  {
    if |bs| > limit {
      BalancedSums(bs[limit..]);
    }
  }

  lemma CutIsOrdered(bs: seq<Bucket>, limit: nat)
    requires Descending(bs, BucketTotal)
    ensures |Cut(bs, limit)| <= limit + 1 && Descending(First(Cut(bs, limit), limit), BucketTotal)
  {
    if |bs| > limit {
      assert First(Cut(bs, limit), limit) == bs[..limit];
    }
  }

  /** In every row, the one of the others included, passed and failed make up the total; the columns add up to
      the volumes of all rows; at most `limit` senders are shown, largest first. */
  lemma BreakdownAddsUp(rows: seq<Row>, limit: nat)
    ensures var out := Breakdown(rows, limit);
            && Balanced(out)
            && SumOf(out, BucketTotal) == Volume(rows, Every)
            && SumOf(out, BucketPassed) == Volume(rows, RowAligned)
            && SumOf(out, BucketFailed) == Volume(rows, NotAligned)
            && |out| <= limit + 1 && Descending(First(out, limit), BucketTotal)
  {
    var sorted := SortDesc(Collect(rows), BucketTotal);
    assert Breakdown(rows, limit) == Cut(sorted, limit);
    assert Balanced(Cut(sorted, limit)) by {
      CollectIsBalanced(rows);
      BalancedAfterSort(Collect(rows));
      CutIsBalanced(sorted, limit);
    }
    BreakdownSums(rows, limit);
    SortOrders(Collect(rows), BucketTotal);
    CutIsOrdered(sorted, limit);
  }

  lemma BreakdownSums(rows: seq<Row>, limit: nat)
    ensures var out := Cut(SortDesc(Collect(rows), BucketTotal), limit);
            && SumOf(out, BucketTotal) == Volume(rows, Every)
            && SumOf(out, BucketPassed) == Volume(rows, RowAligned)
            && SumOf(out, BucketFailed) == Volume(rows, NotAligned)
  {
    var sorted := SortDesc(Collect(rows), BucketTotal);
    CollectSums(rows);
    CutKeepsSum(sorted, limit, BucketTotal);
    SumOfSort(Collect(rows), BucketTotal, BucketTotal);
    CutKeepsSum(sorted, limit, BucketPassed);
    SumOfSort(Collect(rows), BucketTotal, BucketPassed);
    CutKeepsSum(sorted, limit, BucketFailed);
    SumOfSort(Collect(rows), BucketTotal, BucketFailed);
  }

  // ---- What each bucket holds ----

  function SenderIs(sender: string): Row -> bool {
    (r: Row) => r.sender == sender
  }

  function PassedOf(sender: string): Row -> bool {
    (r: Row) => r.sender == sender && RowAligned(r)
  }

  function FailedOf(sender: string): Row -> bool {
    (r: Row) => r.sender == sender && !RowAligned(r)
  }

  /** The bucket of a sender, empty if it has none. */
  function Held(bs: seq<Bucket>, sender: string): Bucket {
    if bs == [] then Bucket(sender, 0, 0, 0)
    else if bs[0].sender == sender then bs[0]
    else Held(bs[1..], sender)
  }

  lemma {:induction false} HeldAfterAdd(bs: seq<Bucket>, r: Row, sender: string)
    ensures Held(AddRow(bs, r), sender) == if r.sender == sender then Grown(Held(bs, sender), r) else Held(bs, sender)
  {
    if bs != [] && bs[0].sender != r.sender {
      HeldAfterAdd(bs[1..], r, sender);
      assert AddRow(bs, r)[1..] == AddRow(bs[1..], r);
    } else if bs != [] {
      assert AddRow(bs, r)[1..] == bs[1..];
    }
  }

  function VolumesOf(rows: seq<Row>, sender: string): Bucket {
    Bucket(sender, Volume(rows, SenderIs(sender)), Volume(rows, PassedOf(sender)), Volume(rows, FailedOf(sender)))
  }

  lemma {:induction false} HeldIsVolume(rows: seq<Row>, sender: string)
    ensures Held(Collect(rows), sender) == VolumesOf(rows, sender)
  {
    if rows != [] {
      var n := |rows| - 1;
      HeldIsVolume(rows[..n], sender);
      HeldAfterAdd(Collect(rows[..n]), rows[n], sender);
    }
  }

  function Senders(bs: seq<Bucket>): (r: seq<string>)
    ensures |r| == |bs| && forall i :: 0 <= i < |bs| ==> r[i] == bs[i].sender
  {
    seq(|bs|, i requires 0 <= i < |bs| => bs[i].sender)
  }

  lemma SendersCons(b: Bucket, bs: seq<Bucket>)
    ensures Senders([b] + bs) == [b.sender] + Senders(bs)
  {
  }

  function OnceMore(senders: seq<string>, sender: string): seq<string> {
    if sender in senders then senders else senders + [sender]
  }

  lemma OnceMoreCons(first: string, rest: seq<string>, sender: string)
    ensures OnceMore([first] + rest, sender)
         == if first == sender then [first] + rest else [first] + OnceMore(rest, sender)
  {
    if first != sender && sender !in rest {
      Associate([first], rest, [sender]);
    }
  }

  lemma {:induction false} SendersAfterAdd(bs: seq<Bucket>, r: Row)
    ensures Senders(AddRow(bs, r)) == OnceMore(Senders(bs), r.sender)
  {
    if bs != [] {
      assert bs == [bs[0]] + bs[1..];
      SendersCons(bs[0], bs[1..]);
      OnceMoreCons(bs[0].sender, Senders(bs[1..]), r.sender);
      if bs[0].sender == r.sender {
        SendersCons(Grown(bs[0], r), bs[1..]);
      } else {
        SendersAfterAdd(bs[1..], r);
        SendersCons(bs[0], AddRow(bs[1..], r));
      }
    }
  }

  lemma {:induction false} CollectSendersOnce(rows: seq<Row>)
    ensures NoDuplicates(Senders(Collect(rows)))
  {
    if rows != [] {
      var n := |rows| - 1;
      CollectSendersOnce(rows[..n]);
      SendersAfterAdd(Collect(rows[..n]), rows[n]);
    }
  }

  lemma {:induction false} HeldAt(bs: seq<Bucket>, i: nat)
    requires NoDuplicates(Senders(bs)) && i < |bs|
    ensures Held(bs, bs[i].sender) == bs[i]
  {
    if i > 0 {
      var rest := bs[1..];
      assert Senders(bs)[0] != Senders(bs)[i];
      assert Senders(bs) == [bs[0].sender] + Senders(rest);
      assert NoDuplicates(Senders(rest)) by {
        assert forall j :: 0 <= j < |rest| ==> Senders(rest)[j] == Senders(bs)[j + 1];
      }
      HeldAt(rest, i - 1);
    }
  }

  lemma CollectHolds(rows: seq<Row>, b: Bucket)
    requires b in Collect(rows)
    ensures b == VolumesOf(rows, b.sender)
  {
    var i :| 0 <= i < |Collect(rows)| && Collect(rows)[i] == b;
    CollectSendersOnce(rows);
    HeldAt(Collect(rows), i);
    HeldIsVolume(rows, b.sender);
  }

  /** Every shown sender is shown once, with the volumes of its own rows. */
  lemma ShownSendersAreTheirVolumes(rows: seq<Row>, limit: nat)
    ensures var shown := First(Breakdown(rows, limit), limit);
            && NoDuplicates(Senders(shown))
            && forall i :: 0 <= i < |shown| ==> shown[i] == VolumesOf(rows, shown[i].sender)
  {
    var sorted := SortDesc(Collect(rows), BucketTotal);
    SortedHolds(rows);
    if |sorted| > limit {
      assert First(Breakdown(rows, limit), limit) == sorted[..limit];
    } else {
      assert First(Breakdown(rows, limit), limit) == sorted;
    }
  }

  lemma SortedHolds(rows: seq<Row>)
    ensures var sorted := SortDesc(Collect(rows), BucketTotal);
            && NoDuplicates(Senders(sorted))
            && forall i :: 0 <= i < |sorted| ==> sorted[i] == VolumesOf(rows, sorted[i].sender)
  {
    var bs, sorted := Collect(rows), SortDesc(Collect(rows), BucketTotal);
    SortOrders(bs, BucketTotal);
    forall i | 0 <= i < |sorted|
      ensures sorted[i] == VolumesOf(rows, sorted[i].sender)
    {
      assert sorted[i] in multiset(bs);
      CollectHolds(rows, sorted[i]);
    }
    CollectSendersOnce(rows);
    assert NoDuplicates(bs) by {
      assert forall i, j :: 0 <= i < j < |bs| ==> Senders(bs)[i] != Senders(bs)[j];
    }
    NoDuplicatesPermuted(bs, sorted);
  }

  // ---- The largest senders ----

  lemma SenderVolume(rows: seq<Row>, sender: string)
    ensures Get(Flows(rows, LabelOf), sender) == Volume(rows, SenderIs(sender))
  {
    var one := (k: string) => k == sender;
    FlowsKeys(rows, LabelOf);
    SumWhereOne(Flows(rows, LabelOf), sender, one);
    FlowsSum(rows, LabelOf, one, SenderIs(sender));
  }

  lemma {:induction false} GetEntry<K(!new)>(d: Dict<K>, i: nat)
    requires Distinct(d) && i < |d|
    ensures Get(d, d[i].0) == d[i].1
  {
    if i > 0 {
      assert d[0].0 != d[i].0;
      GetEntry(d[1..], i - 1);
    }
  }

  lemma SortedEntry<K(!new)>(d: Dict<K>, j: nat)
    requires Distinct(d) && j < |SortDesc(d, PairCount)|
    ensures var e := SortDesc(d, PairCount)[j];
            Get(d, e.0) == e.1
  {
    var e := SortDesc(d, PairCount)[j];
    SortOrders(d, PairCount);
    assert e in multiset(d);
    var i :| 0 <= i < |d| && d[i] == e;
    GetEntry(d, i);
  }

  /** No sender that is left out has more volume than one that is shown by name. */
  lemma TopAreLargest(rows: seq<Row>, n: nat, shown: string, i: nat)
    requires i < |rows| && shown in Top(Flows(rows, LabelOf), n) && rows[i].sender !in Top(Flows(rows, LabelOf), n)
    ensures Volume(rows, SenderIs(shown)) >= Volume(rows, SenderIs(rows[i].sender))
  {
    var d := Flows(rows, LabelOf);
    var sorted := SortDesc(d, PairCount);
    FlowsKeys(rows, LabelOf);
    SortOrders(d, PairCount);
    SortKeepsKeys(d, PairCount);
    var a :| 0 <= a < |Top(d, n)| && Top(d, n)[a] == shown;
    assert HasKey(sorted, rows[i].sender);
    var b :| 0 <= b < |sorted| && sorted[b].0 == rows[i].sender;
    assert b >= |Top(d, n)|;
    SortedEntry(d, a);
    SortedEntry(d, b);
    SenderVolume(rows, shown);
    SenderVolume(rows, rows[i].sender);
  }

  // ---- Daily stack ----

  function OnDay(day: int): Row -> bool {
    (r: Row) => r.day == Some(day)
  }

  function InTop(day: int, top: seq<string>): ((int, string)) -> bool {
    (k: (int, string)) => k.0 == day && k.1 in top
  }

  /** The value of a series at a position, for a position within its data. */
  function At(i: nat): Series -> int {
    (s: Series) => if i < |s.data| then s.data[i] else 0
  }

  lemma TopHasNoDuplicates(rows: seq<Row>, n: nat)
    ensures NoDuplicates(Top(Flows(rows, LabelOf), n))
  {
    FlowsKeys(rows, LabelOf);
    SortKeepsKeys(Flows(rows, LabelOf), PairCount);
  }

  /** At one day, the series of some senders add up to what is stored under them. */
  lemma {:induction false} NamedColumn(d: Dict<(int, string)>, days: seq<int>, top: seq<string>, i: nat)
    requires Distinct(d) && NoDuplicates(top) && i < |days|
    ensures SumOf(NamedSeries(d, days, top), At(i)) == SumWhere(d, InTop(days[i], top))
  {
    if top == [] {
      var never := (k: (int, string)) => false;
      SumWhereCongruent(d, InTop(days[i], top), never);
      SumWhereSplit(d, never, never, never);
    } else {
      var n := |top| - 1;
      var front, one := top[..n], (k: (int, string)) => k == (days[i], top[n]);
      NamedColumn(d, days, front, i);
      assert NamedSeries(d, days, top) == NamedSeries(d, days, front) + [SenderSeries(d, days, top[n])];
      SumOfAppend(NamedSeries(d, days, front), SenderSeries(d, days, top[n]), At(i));
      SumWhereOne(d, (days[i], top[n]), one);
      assert forall k :: k in top <==> k in front || k == top[n];
      SumWhereSplit(d, InTop(days[i], top), InTop(days[i], front), one);
    }
  }

  /** The senders that are stacked by name. */
  function TopOf(rows: seq<Row>, topN: nat): seq<string> {
    Top(Flows(Dated(rows), LabelOf), topN)
  }

  function OnDayIn(day: int, top: seq<string>): Row -> bool {
    (r: Row) => r.day == Some(day) && r.sender in top
  }

  function OnDayOutside(day: int, top: seq<string>): Row -> bool {
    (r: Row) => r.day == Some(day) && r.sender !in top
  }

  /** Whether on some day the other senders have a positive volume. */
  ghost predicate OthersShown(rows: seq<Row>, days: seq<int>, top: seq<string>) {
    exists i :: 0 <= i < |days| && Volume(rows, OnDayOutside(days[i], top)) > 0
  }

  /** The named series make up their senders' part of the day, and the series of the others the rest. */
  lemma DayColumn(rows: seq<Row>, days: seq<int>, top: seq<string>, i: nat)
    requires NoDuplicates(top) && i < |days|
    ensures var d := Flows(Dated(rows), DayLabel);
            && SumOf(NamedSeries(d, days, top), At(i)) == Volume(rows, OnDayIn(days[i], top))
            && OtherData(d, days, top)[i] == Volume(rows, OnDayOutside(days[i], top))
  {
    var dated := Dated(rows);
    var d := Flows(dated, DayLabel);
    FlowsKeys(dated, DayLabel);
    NamedColumn(d, days, top, i);
    FlowsSum(dated, DayLabel, InTop(days[i], top), OnDayIn(days[i], top));
    DatedKeepsVolume(rows, OnDayIn(days[i], top));
    FlowsSum(dated, DayLabel, OutsideTop(days[i], top), OnDayOutside(days[i], top));
    DatedKeepsVolume(rows, OnDayOutside(days[i], top));
  }

  lemma OthersAreVolumes(rows: seq<Row>, topN: nat)
    ensures var stack, top := DailyStack(rows, topN), TopOf(rows, topN);
            AnyPositive(OtherData(Flows(Dated(rows), DayLabel), stack.days, top))
            <==> OthersShown(rows, stack.days, top)
  {
    var stack, top := DailyStack(rows, topN), TopOf(rows, topN);
    TopHasNoDuplicates(Dated(rows), topN);
    forall i | 0 <= i < |stack.days|
      ensures OtherData(Flows(Dated(rows), DayLabel), stack.days, top)[i]
           == Volume(rows, OnDayOutside(stack.days[i], top))
    {
      DayColumn(rows, stack.days, top, i);
    }
  }

  /** What is stacked on a day: the named senders, and the others if they are shown. */
  lemma StackColumn(rows: seq<Row>, topN: nat, i: nat)
    requires i < |DailyStack(rows, topN).days|
    ensures var stack, top := DailyStack(rows, topN), TopOf(rows, topN);
            SumOf(stack.datasets, At(i))
            == if OthersShown(rows, stack.days, top) then Volume(rows, OnDay(stack.days[i]))
               else Volume(rows, OnDayIn(stack.days[i], top))
  {
    var stack, top := DailyStack(rows, topN), TopOf(rows, topN);
    var d := Flows(Dated(rows), DayLabel);
    var others := OtherData(d, stack.days, top);
    var day := stack.days[i];
    TopHasNoDuplicates(Dated(rows), topN);
    DayColumn(rows, stack.days, top, i);
    OthersAreVolumes(rows, topN);
    if AnyPositive(others) {
      SumOfAppend(NamedSeries(d, stack.days, top), Series("Andere", others), At(i));
      VolumeSplit(rows, OnDay(day), OnDayIn(day, top), OnDayOutside(day, top));
    }
  }

  /** On each day the stacked series add up to the volume of that day, if and only if the others are shown or
      have no volume on it. Without negative counts they always do. */
  lemma StackAddsUpPerDay(rows: seq<Row>, topN: nat, i: nat)
    requires i < |DailyStack(rows, topN).days|
    ensures var stack, top := DailyStack(rows, topN), TopOf(rows, topN);
            var day := stack.days[i];
            && (SumOf(stack.datasets, At(i)) == Volume(rows, OnDay(day))
                <==> OthersShown(rows, stack.days, top) || Volume(rows, OnDayOutside(day, top)) == 0)
            && (NonNegative(rows) ==> SumOf(stack.datasets, At(i)) == Volume(rows, OnDay(day)))
  {
    var top, day := TopOf(rows, topN), DailyStack(rows, topN).days[i];
    StackColumn(rows, topN, i);
    VolumeSplit(rows, OnDay(day), OnDayIn(day, top), OnDayOutside(day, top));
    if NonNegative(rows) {
      VolumeIsNonNegative(rows, OnDayOutside(day, top));
    }
  }

  /** The series behind the named ones, if there is one, carries the name and the volumes of the others. */
  lemma OthersAreNamed(rows: seq<Row>, topN: nat)
    ensures var stack, top := DailyStack(rows, topN), TopOf(rows, topN);
            if OthersShown(rows, stack.days, top) then
              && |stack.datasets| == |top| + 1 && stack.datasets[|top|].sender == "Andere"
              && |stack.datasets[|top|].data| == |stack.days|
              && forall i :: 0 <= i < |stack.days| ==>
                   stack.datasets[|top|].data[i] == Volume(rows, OnDayOutside(stack.days[i], top))
            else |stack.datasets| == |top|
  {
    var stack, top := DailyStack(rows, topN), TopOf(rows, topN);
    OthersAreVolumes(rows, topN);
    TopHasNoDuplicates(Dated(rows), topN);
    forall i | 0 <= i < |stack.days|
      ensures OtherData(Flows(Dated(rows), DayLabel), stack.days, top)[i]
           == Volume(rows, OnDayOutside(stack.days[i], top))
    {
      DayColumn(rows, stack.days, top, i);
    }
  }

  function OnDayFrom(day: int, sender: string): Row -> bool {
    (r: Row) => r.day == Some(day) && r.sender == sender
  }

  /** Every value of a named series is the volume of its sender on that day. */
  lemma SeriesAreVolumes(rows: seq<Row>, topN: nat, k: nat, i: nat)
    requires var top := Top(Flows(Dated(rows), LabelOf), topN); k < |top|
    requires i < |DailyStack(rows, topN).days|
    ensures var stack, top := DailyStack(rows, topN), Top(Flows(Dated(rows), LabelOf), topN);
            && k < |stack.datasets| && stack.datasets[k].sender == top[k] && |stack.datasets[k].data| == |stack.days|
            && stack.datasets[k].data[i] == Volume(rows, OnDayFrom(stack.days[i], top[k]))
  {
    var dated, stack := Dated(rows), DailyStack(rows, topN);
    var d, top := Flows(dated, DayLabel), Top(Flows(dated, LabelOf), topN);
    var day := stack.days[i];
    assert stack.datasets[k] == SenderSeries(d, stack.days, top[k]);
    CellIsVolume(rows, day, top[k]);
  }

  lemma CellIsVolume(rows: seq<Row>, day: int, sender: string)
    ensures Get(Flows(Dated(rows), DayLabel), (day, sender)) == Volume(rows, OnDayFrom(day, sender))
  {
    var dated := Dated(rows);
    var one := (k: (int, string)) => k == (day, sender);
    FlowsKeys(dated, DayLabel);
    SumWhereOne(Flows(dated, DayLabel), (day, sender), one);
    FlowsSum(dated, DayLabel, one, OnDayFrom(day, sender));
    DatedKeepsVolume(rows, OnDayFrom(day, sender));
  }

  /** The days are listed once, in order. */
  lemma DaysIncrease(rows: seq<Row>, topN: nat)
    ensures var days := DailyStack(rows, topN).days;
            forall i, j :: 0 <= i < j < |days| ==> days[i] < days[j]
  {
    var d := Flows(Dated(rows), DayLabel);
    DaysOfLists(d);
    SortOrders(DaysOf(d), Earlier);
    NoDuplicatesPermuted(DaysOf(d), SortedDays(d));
  }

  function OnDayOf(day: int, p: Row -> bool): Row -> bool {
    (r: Row) => r.day == Some(day) && p(r)
  }

  /** The volume of the rows with `p` on a day. */
  function DayVolume(rows: seq<Row>, p: Row -> bool): int -> int {
    (day: int) => Volume(rows, OnDayOf(day, p))
  }

  function OnDays(days: seq<int>, p: Row -> bool): Row -> bool {
    (r: Row) => r.day.Some? && r.day.value in days && p(r)
  }

  lemma {:induction false} DaysAddUp(rows: seq<Row>, days: seq<int>, p: Row -> bool)
    requires NoDuplicates(days)
    ensures SumOf(days, DayVolume(rows, p)) == Volume(rows, OnDays(days, p))
  {
    if days == [] {
      var never := (r: Row) => false;
      VolumeCongruent(rows, OnDays(days, p), never);
      VolumeSplit(rows, never, never, never);
    } else {
      var n := |days| - 1;
      DaysAddUp(rows, days[..n], p);
      assert forall k :: k in days <==> k in days[..n] || k == days[n];
      VolumeSplit(rows, OnDays(days, p), OnDays(days[..n], p), OnDayOf(days[n], p));
    }
  }

  lemma {:induction false} DaysOfLists(d: Dict<(int, string)>)
    ensures NoDuplicates(DaysOf(d))
    ensures forall i :: 0 <= i < |d| ==> d[i].0.0 in DaysOf(d)
  {
    if d != [] {
      DaysOfLists(d[..|d| - 1]);
    }
  }

  lemma {:induction false} DatedKeepsRows(rows: seq<Row>, i: nat)
    requires i < |rows| && rows[i].day.Some?
    ensures rows[i] in Dated(rows)
  {
    var n := |rows| - 1;
    if i < n {
      DatedKeepsRows(rows[..n], i);
    }
  }

  lemma EveryDayIsListed(rows: seq<Row>, i: nat)
    requires i < |rows| && rows[i].day.Some?
    ensures rows[i].day.value in DaysOf(Flows(Dated(rows), DayLabel))
  {
    var dated := Dated(rows);
    var d := Flows(dated, DayLabel);
    DatedKeepsRows(rows, i);
    var j :| 0 <= j < |dated| && dated[j] == rows[i];
    FlowsKeys(dated, DayLabel);
    assert HasKey(d, DayLabel(dated[j]));
    DaysOfLists(d);
  }

  /** The sum over the first `n` days of what is stacked there. */
  function StackTotal(stack: Stack, n: nat): int {
    if n == 0 then 0 else StackTotal(stack, n - 1) + SumOf(stack.datasets, At(n - 1))
  }

  lemma {:induction false} StackTotalIsSumOfDays(rows: seq<Row>, stack: Stack, p: Row -> bool, n: nat)
    requires n <= |stack.days|
    requires forall i :: 0 <= i < |stack.days| ==>
                           SumOf(stack.datasets, At(i)) == Volume(rows, OnDayOf(stack.days[i], p))
    ensures StackTotal(stack, n) == SumOf(stack.days[..n], DayVolume(rows, p))
  {
    if n > 0 {
      StackTotalIsSumOfDays(rows, stack, p, n - 1);
      assert stack.days[..n] == stack.days[..n - 1] + [stack.days[n - 1]];
      SumOfAppend(stack.days[..n - 1], stack.days[n - 1], DayVolume(rows, p));
    }
  }

  function DatedAnd(p: Row -> bool): Row -> bool {
    (r: Row) => r.day.Some? && p(r)
  }

  /** A stack that holds the rows with `p` on each day holds all dated rows with `p`. */
  lemma StackTotalIsVolume(rows: seq<Row>, topN: nat, p: Row -> bool)
    requires var stack := DailyStack(rows, topN);
             forall i :: 0 <= i < |stack.days| ==>
                           SumOf(stack.datasets, At(i)) == Volume(rows, OnDayOf(stack.days[i], p))
    ensures var stack := DailyStack(rows, topN);
            StackTotal(stack, |stack.days|) == Volume(rows, DatedAnd(p))
  {
    var stack := DailyStack(rows, topN);
    var d := Flows(Dated(rows), DayLabel);
    StackTotalIsSumOfDays(rows, stack, p, |stack.days|);
    assert stack.days[..|stack.days|] == stack.days;
    SumOfSort(DaysOf(d), Earlier, DayVolume(rows, p));
    DaysOfLists(d);
    DaysAddUp(rows, DaysOf(d), p);
    forall i | 0 <= i < |rows|
      ensures OnDays(DaysOf(d), p)(rows[i]) == DatedAnd(p)(rows[i])
    {
      if rows[i].day.Some? {
        EveryDayIsListed(rows, i);
      }
    }
    VolumeCongruent(rows, OnDays(DaysOf(d), p), DatedAnd(p));
  }

  function InList(top: seq<string>): Row -> bool {
    (r: Row) => r.sender in top
  }

  function DatedOutside(top: seq<string>): Row -> bool {
    (r: Row) => r.day.Some? && r.sender !in top
  }

  /** The rows that the stack holds. */
  function Stacked(top: seq<string>, others: bool): Row -> bool {
    if others then Every else InList(top)
  }

  lemma StackIsStacked(rows: seq<Row>, topN: nat)
    ensures var stack, top := DailyStack(rows, topN), TopOf(rows, topN);
            var p := Stacked(top, OthersShown(rows, stack.days, top));
            StackTotal(stack, |stack.days|) == Volume(rows, DatedAnd(p))
  {
    var stack, top := DailyStack(rows, topN), TopOf(rows, topN);
    var others := OthersShown(rows, stack.days, top);
    var p := Stacked(top, others);
    forall i | 0 <= i < |stack.days|
      ensures SumOf(stack.datasets, At(i)) == Volume(rows, OnDayOf(stack.days[i], p))
    {
      StackColumn(rows, topN, i);
      VolumeCongruent(rows, if others then OnDay(stack.days[i]) else OnDayIn(stack.days[i], top),
                      OnDayOf(stack.days[i], p));
    }
    StackTotalIsVolume(rows, topN, p);
  }

  /** Others that are not shown have no volume at all, if there are no negative counts. */
  lemma NoVolumeOutside(rows: seq<Row>, topN: nat)
    requires NonNegative(rows)
    requires !OthersShown(rows, DailyStack(rows, topN).days, TopOf(rows, topN))
    ensures Volume(rows, DatedOutside(TopOf(rows, topN))) == 0
  {
    var days, top := DailyStack(rows, topN).days, TopOf(rows, topN);
    var d := Flows(Dated(rows), DayLabel);
    SortOrders(DaysOf(d), Earlier);
    forall i | 0 <= i < |rows| && DatedOutside(top)(rows[i])
      ensures rows[i].count == 0
    {
      var day := rows[i].day.value;
      EveryDayIsListed(rows, i);
      assert day in multiset(days);
      var j :| 0 <= j < |days| && days[j] == day;
      VolumeAtLeast(rows, OnDayOutside(days[j], top), i);
    }
    VolumeOfZeros(rows, DatedOutside(top));
  }

  /** The whole stack shows the volume of all rows that have a day, if and only if the others are shown or have
      no volume in total. Without negative counts it always does. */
  lemma StackAddsUp(rows: seq<Row>, topN: nat)
    ensures var stack, top := DailyStack(rows, topN), TopOf(rows, topN);
            && (StackTotal(stack, |stack.days|) == Volume(rows, IsDated)
                <==> OthersShown(rows, stack.days, top) || Volume(rows, DatedOutside(top)) == 0)
            && (NonNegative(rows) ==> StackTotal(stack, |stack.days|) == Volume(rows, IsDated))
  {
    var stack, top := DailyStack(rows, topN), TopOf(rows, topN);
    StackIsStacked(rows, topN);
    if OthersShown(rows, stack.days, top) {
      VolumeCongruent(rows, DatedAnd(Every), IsDated);
    } else {
      VolumeSplit(rows, IsDated, DatedAnd(InList(top)), DatedOutside(top));
      if NonNegative(rows) {
        NoVolumeOutside(rows, topN);
      }
    }
  }

  /** A sender with one mail and another with a count of minus one, on the same day. */
  function MinusOne(): seq<Row> {
    [Row(Some(0), "x", None, None, None, 1), Row(Some(0), "y", None, None, None, -1)]
  }

  lemma MinusOneVolume(p: Row -> bool)
    ensures Volume(MinusOne(), p) == (if p(MinusOne()[0]) then 1 else 0) - if p(MinusOne()[1]) then 1 else 0
  {
    var rows := MinusOne();
    assert rows[..1] == [rows[0]] && rows[..1][..0] == [];
  }

  lemma MinusOneTop()
    ensures TopOf(MinusOne(), 1) == ["x"]
  {
    var rows := MinusOne();
    assert rows == [rows[0]] + [rows[1]] && [] + [rows[0]] == [rows[0]];
    assert Dated(rows) == rows by {
      assert rows[..1] == [rows[0]] && rows[..1][..0] == [];
    }
    FlowsSnoc([], rows[0], LabelOf);
    FlowsSnoc([rows[0]], rows[1], LabelOf);
    assert "x"[0] != "y"[0];
    var x, y := ("x", 1), ("y", -1);
    assert Flows(rows, LabelOf) == [x, y];
    SortedPair(x, y);
  }

  lemma SortedPair(x: (string, int), y: (string, int))
    requires x.1 >= y.1
    ensures Top([x, y], 1) == [x.0]
  {
    assert [x, y][..1] == [x] && [x][..0] == [];
    assert SortDesc([x], PairCount) == [x];
    assert SortDesc([x, y], PairCount) == [x, y];
  }

  /** With one sender shown by name, the stack holds one mail, and the volume is zero. */
  lemma NegativeCountIsNotStacked()
    ensures var stack := DailyStack(MinusOne(), 1);
            StackTotal(stack, |stack.days|) != Volume(MinusOne(), IsDated)
  {
    MinusOneTop();
    assert "x"[0] != "y"[0];
    StackAddsUp(MinusOne(), 1);
    MinusOneVolume(DatedOutside(["x"]));
    forall i | 0 <= i < |DailyStack(MinusOne(), 1).days|
      ensures Volume(MinusOne(), OnDayOutside(DailyStack(MinusOne(), 1).days[i], ["x"])) <= 0
    {
      MinusOneVolume(OnDayOutside(DailyStack(MinusOne(), 1).days[i], ["x"]));
    }
  }

  // ---- Sankey ----

  function FlowInto(node: string): Link -> int {
    (l: Link) => if l.target == node then l.flow else 0
  }

  function FlowFrom(node: string): Link -> int {
    (l: Link) => if l.source == node then l.flow else 0
  }

  function AllFlow(l: Link): int {
    l.flow
  }

  lemma {:induction false} LinksSum(d: Dict<(string, string)>, f: Link -> int, p: ((string, string)) -> bool)
    requires forall e :: f(LinkOf(e)) == if p(e.0) then e.1 else 0
    ensures SumOf(Links(d), f) == SumWhere(d, p)
  {
    if d != [] {
      LinksSum(d[1..], f, p);
      assert Links(d) == [LinkOf(d[0])] + Links(d[1..]);
      SumOfConcat([LinkOf(d[0])], Links(d[1..]), f);
      SumOfOne(LinkOf(d[0]), f);
    }
  }

  /** The links of one leg carry the volume of the rows they stand for. */
  lemma LegSum(rows: seq<Row>, key: Row -> (string, string), f: Link -> int, p: ((string, string)) -> bool,
               q: Row -> bool)
    requires forall e :: f(LinkOf(e)) == if p(e.0) then e.1 else 0
    requires forall i :: 0 <= i < |rows| ==> p(key(rows[i])) == q(rows[i])
    ensures SumOf(Links(Flows(rows, key)), f) == Volume(rows, q)
  {
    LinksSum(Flows(rows, key), f, p);
    FlowsSum(rows, key, p, q);
  }

  function AlignmentIs(node: string): Row -> bool {
    (r: Row) => AlignmentNode(r) == node
  }

  function SenderNodeIs(top: seq<string>, node: string): Row -> bool {
    (r: Row) => SenderNode(top, r) == node
  }

  function DispositionIs(title: string -> string, node: string): Row -> bool {
    (r: Row) => DispositionNode(title, r) == node
  }

  /** What flows into and out of a node, in terms of the rows. */
  lemma NodeFlows(rows: seq<Row>, topN: nat, title: string -> string, node: string)
    ensures var out, kept := Sankey(rows, topN, title), Positive(rows);
            var top := Top(Flows(kept, LabelOf), topN);
            && SumOf(out, FlowInto(node)) == Volume(kept, AlignmentIs(node)) + Volume(kept, DispositionIs(title, node))
            && SumOf(out, FlowFrom(node)) == Volume(kept, SenderNodeIs(top, node)) + Volume(kept, AlignmentIs(node))
  {
    var kept := Positive(rows);
    var top := Top(Flows(kept, LabelOf), topN);
    var first, second := Links(Flows(kept, FirstLeg(top))), Links(Flows(kept, SecondLeg(title)));
    var source := (k: (string, string)) => k.0 == node;
    var target := (k: (string, string)) => k.1 == node;
    SumOfConcat(first, second, FlowInto(node));
    SumOfConcat(first, second, FlowFrom(node));
    LegSum(kept, FirstLeg(top), FlowInto(node), target, AlignmentIs(node));
    LegSum(kept, SecondLeg(title), FlowInto(node), target, DispositionIs(title, node));
    LegSum(kept, FirstLeg(top), FlowFrom(node), source, SenderNodeIs(top, node));
    LegSum(kept, SecondLeg(title), FlowFrom(node), source, AlignmentIs(node));
  }

  predicate IsAlignmentNode(node: string) {
    node == "Aligned" || node == "Not aligned"
  }

  lemma OthersIsNoAlignmentNode(node: string)
    requires IsAlignmentNode(node)
    ensures node != "Andere"
  {
    assert "Andere"[1] == 'n' && "Aligned"[1] == 'l' && "Not aligned"[1] == 'o';
  }

  lemma {:induction false} NoSenderFlow(rows: seq<Row>, top: seq<string>, node: string)
    requires node != "Andere" && forall i :: 0 <= i < |rows| ==> rows[i].sender != node
    ensures Volume(Positive(rows), SenderNodeIs(top, node)) == 0
  {
    if rows != [] {
      var n := |rows| - 1;
      NoSenderFlow(rows[..n], top, node);
      VolumeSnoc(Positive(rows[..n]), rows[n], SenderNodeIs(top, node));
    }
  }

  ghost predicate NoDispositionNamed(rows: seq<Row>, title: string -> string, node: string) {
    forall i :: 0 <= i < |rows| && rows[i].count > 0 ==> DispositionNode(title, rows[i]) != node
  }

  lemma {:induction false} PositiveKeepsNames(rows: seq<Row>, title: string -> string, node: string)
    ensures NoDispositionNamed(rows, title, node) <==> NoDispositionNamed(Positive(rows), title, node)
  {
    if rows != [] {
      var n := |rows| - 1;
      PositiveKeepsNames(rows[..n], title, node);
      NamesSnoc(rows[..n], rows[n], title, node);
      NamesSnoc(Positive(rows[..n]), rows[n], title, node);
      assert rows == rows[..n] + [rows[n]];
    }
  }

  lemma NamesSnoc(rows: seq<Row>, r: Row, title: string -> string, node: string)
    ensures NoDispositionNamed(rows + [r], title, node)
       <==> NoDispositionNamed(rows, title, node) && NoDispositionNamed([r], title, node)
  {
    var s := rows + [r];
    assert [r][0] == r && s[|rows|] == r && forall i :: 0 <= i < |rows| ==> s[i] == rows[i];
  }

  /** Where no sender has the name of an alignment node, as much flows out of the node as into it, if and only
      if no row with a positive count has a disposition whose title is that name. */
  lemma AlignmentNodesBalance(rows: seq<Row>, topN: nat, title: string -> string, node: string)
    requires IsAlignmentNode(node) && forall i :: 0 <= i < |rows| ==> rows[i].sender != node
    ensures SumOf(Sankey(rows, topN, title), FlowInto(node)) == SumOf(Sankey(rows, topN, title), FlowFrom(node))
       <==> NoDispositionNamed(rows, title, node)
  {
    NodeFlows(rows, topN, title, node);
    OthersIsNoAlignmentNode(node);
    NoSenderFlow(rows, Top(Flows(Positive(rows), LabelOf), topN), node);
    VolumeOfPositive(Positive(rows), DispositionIs(title, node));
    PositiveKeepsNames(rows, title, node);
  }

  /** A mail that passed, under a disposition whose title is the name of the node. */
  function TitledRow(): Row {
    Row(Some(0), "x", Some("pass"), None, Some("aligned"), 1)
  }

  /** It flows into the node twice and out of it once. */
  lemma TitledDispositionUnbalances(topN: nat, title: string -> string)
    requires title("aligned") == "Aligned"
    ensures SumOf(Sankey([TitledRow()], topN, title), FlowInto("Aligned"))
         != SumOf(Sankey([TitledRow()], topN, title), FlowFrom("Aligned"))
  {
    var rows := [TitledRow()];
    assert DispositionNode(title, rows[0]) == "Aligned" by {
      assert "aligned"[0] == 'a' && "none"[0] == 'n' && "quarantine"[0] == 'q' && "reject"[0] == 'r';
    }
    assert |"x"| == 1 && |"Aligned"| == 7;
    AlignmentNodesBalance(rows, topN, title, "Aligned");
  }

  /** Each leg of the diagram carries the volume of the rows with a positive count, which is the volume of all
      rows if and only if no count is negative. */
  lemma SankeyAddsUp(rows: seq<Row>, topN: nat, title: string -> string)
    ensures var kept := Positive(rows);
            var top := Top(Flows(kept, LabelOf), topN);
            && SumOf(Links(Flows(kept, FirstLeg(top))), AllFlow) == Volume(rows, IsPositive)
            && SumOf(Links(Flows(kept, SecondLeg(title))), AllFlow) == Volume(rows, IsPositive)
    ensures Volume(rows, IsPositive) == Volume(rows, Every) <==> NonNegative(rows)
  {
    var kept := Positive(rows);
    var top := Top(Flows(kept, LabelOf), topN);
    var all := (k: (string, string)) => true;
    LegSum(kept, FirstLeg(top), AllFlow, all, Every);
    LegSum(kept, SecondLeg(title), AllFlow, all, Every);
    PositiveVolume(rows);
  }

  /** For dated rows the breakdown shows the total, and the daily stack and each leg of the diagram show it as
      well, if and only if no count is negative. */
  lemma AllViewsAgree(rows: seq<Row>, limit: nat, topN: nat, title: string -> string)
    requires forall i :: 0 <= i < |rows| ==> rows[i].day.Some?
    ensures SumOf(Breakdown(rows, limit), BucketTotal) == TotalsOf(rows).total
    ensures var total, stack, kept := TotalsOf(rows).total, DailyStack(rows, topN), Positive(rows);
            var top := Top(Flows(kept, LabelOf), topN);
            && StackTotal(stack, |stack.days|) == total
            && SumOf(Links(Flows(kept, FirstLeg(top))), AllFlow) == total
            && SumOf(Links(Flows(kept, SecondLeg(title))), AllFlow) == total
            <==> NonNegative(rows)
  {
    BreakdownAddsUp(rows, limit);
    StackAddsUp(rows, topN);
    VolumeCongruent(rows, IsDated, Every);
    SankeyAddsUp(rows, topN, title);
  }

  // ---- Single rows ----

  /** What one row adds to the totals: it has passed if DKIM or SPF passed, and is withheld by its disposition. */
  lemma TotalsOfOneRow(r: Row)
    ensures TotalsOf([r])
         == (var passed := r.dkim == Some("pass") || r.spf == Some("pass");
             Totals(if passed then r.count else 0, if passed then 0 else r.count,
                    if r.disposition == Some("quarantine") then r.count else 0,
                    if r.disposition == Some("reject") then r.count else 0,
                    r.count))
  {
    VolumeOfOne(r, RowAligned);
    VolumeOfOne(r, NotAligned);
    VolumeOfOne(r, IsQuarantined);
    VolumeOfOne(r, IsRejected);
    VolumeOfOne(r, Every);
  }

  lemma VolumeOfOne(r: Row, p: Row -> bool)
    ensures Volume([r], p) == if p(r) then r.count else 0
  {
    assert [r][..0] == [];
  }

  lemma {:induction false} VolumeConcat(a: seq<Row>, b: seq<Row>, p: Row -> bool)
    ensures Volume(a + b, p) == Volume(a, p) + Volume(b, p)
  {
    if b == [] {
      assert a + b == a;
    } else {
      assert (a + b)[..|a + b| - 1] == a + b[..|b| - 1];
      VolumeConcat(a, b[..|b| - 1], p);
    }
  }

  /** The totals of two lists of rows are added up, so single rows determine them. */
  lemma TotalsOfConcat(a: seq<Row>, b: seq<Row>)
    ensures var s, t, all := TotalsOf(a), TotalsOf(b), TotalsOf(a + b);
            && all.passed == s.passed + t.passed && all.failed == s.failed + t.failed
            && all.quarantined == s.quarantined + t.quarantined && all.rejected == s.rejected + t.rejected
            && all.total == s.total + t.total
  {
    VolumeConcat(a, b, RowAligned);
    VolumeConcat(a, b, NotAligned);
    VolumeConcat(a, b, IsQuarantined);
    VolumeConcat(a, b, IsRejected);
    VolumeConcat(a, b, Every);
  }

  /** Mail without a disposition, or with an empty one, counts as delivered like mail with none; the two policies
      have their own nodes, and anything else is shown under its title. */
  lemma DispositionNames(r: Row, title: string -> string)
    ensures r.disposition.None? ==> DispositionNode(title, r) == "Delivered"
    ensures r.disposition == Some("") || r.disposition == Some("none") ==> DispositionNode(title, r) == "Delivered"
    ensures r.disposition == Some("quarantine") ==> DispositionNode(title, r) == "Quarantined"
    ensures r.disposition == Some("reject") ==> DispositionNode(title, r) == "Rejected"
    ensures r.disposition.Some? && r.disposition.value !in {"", "none", "quarantine", "reject"} ==>
              DispositionNode(title, r) == title(r.disposition.value)
  {
    assert "none"[0] == 'n' && "quarantine"[0] == 'q' && "reject"[0] == 'r';
  }

  /** One row with a positive count is two links: from its sender, or the others if none is shown by name, to its
      alignment, and from there to its disposition. */
  lemma SankeyOfOneRow(r: Row, topN: nat, title: string -> string)
    requires r.count > 0
    ensures var sender := if topN > 0 then r.sender else "Andere";
            var alignment := if r.dkim == Some("pass") || r.spf == Some("pass") then "Aligned" else "Not aligned";
            Sankey([r], topN, title)
            == [Link(sender, alignment, r.count), Link(alignment, DispositionNode(title, r), r.count)]
  {
    assert [r][..0] == [] && Positive([r]) == [r];
    var top := Top(Flows([r], LabelOf), topN);
    FlowsOfOne(r, LabelOf);
    TopOfOne(r.sender, r.count, topN);
    FlowsOfOne(r, FirstLeg(top));
    FlowsOfOne(r, SecondLeg(title));
  }

  lemma FlowsOfOne<K>(r: Row, key: Row -> K)
    ensures Flows([r], key) == [(key(r), r.count)]
  {
    assert [r][..0] == [];
  }

  lemma TopOfOne(sender: string, count: int, n: nat)
    ensures Top([(sender, count)], n) == if n > 0 then [sender] else []
  {
    var d := [(sender, count)];
    assert d[..0] == [];
    assert SortDesc(d, PairCount) == d;
  }

  /** The bucket of everything beyond the limit carries the name of the others. */
  lemma RestIsNamed(rows: seq<Row>, limit: nat)
    ensures |Collect(rows)| > limit ==> |Breakdown(rows, limit)| == limit + 1
                                        && Breakdown(rows, limit)[limit].sender == "Andere"
    ensures |Collect(rows)| <= limit ==> |Breakdown(rows, limit)| == |Collect(rows)|
  {
    SortOrders(Collect(rows), BucketTotal);
    assert |multiset(Collect(rows))| == |Collect(rows)|;
    assert |multiset(SortDesc(Collect(rows), BucketTotal))| == |SortDesc(Collect(rows), BucketTotal)|;
  }
}

/** What the double opt-in promises over every sequence of requests and code entries. */
module VerifyLaws {
  import opened Options
  import opened Text
  import opened VerifyFlow

  datatype Event = Asked(request: Request) | Entered(token: string, code: string, now: Time)

  function Step(settings: Settings, make: CaseMaker, s: State, e: Event): (State, Page) {
    match e
    case Asked(r) => RequestStep(settings, s, r)
    case Entered(token, code, now) => VerifyStep(make, s, token, code, now)
  }

  function Run(settings: Settings, make: CaseMaker, s: State, events: seq<Event>): State {
    if events == [] then s
    else Step(settings, make, Run(settings, make, s, events[..|events| - 1]), events[|events| - 1]).0
  }

  // ---- One row: the first five attempts in time decide ----

  datatype Attempt = Attempt(code: string, now: Time)

  /** The code entries that reach the comparison by their time and characters. */
  function Attempts(events: seq<Event>, row: Row): seq<Attempt> {
    if events == [] then []
    else
      var before, last := Attempts(events[..|events| - 1], row), events[|events| - 1];
      if last.Entered? && last.token == row.token && last.now <= row.expiresAt && IsAscii(Strip(last.code)) then
        before + [Attempt(Strip(last.code), last.now)]
      else before
  }

  /** The position of the first right code, or the number of attempts if there is none. */
  function FirstRight(attempts: seq<Attempt>, code: string): (n: nat)
    ensures n <= |attempts| && (n < |attempts| ==> attempts[n].code == code)
    ensures forall j :: 0 <= j < n ==> attempts[j].code != code
  {
    if attempts == [] then 0
    else
      var last := |attempts| - 1;
      var n := FirstRight(attempts[..last], code);
      if n == last && attempts[last].code != code then n + 1 else n
  }

  predicate Fresh(row: Row) {
    row.attempts == 0 && row.verifiedAt.None? && row.sentAt.None?
  }

  /** What becomes of a fresh row: it is sent if the right code is among the first five attempts, at the time
      of that attempt, and otherwise counts wrong codes up to five. */
  function Decided(row: Row, attempts: seq<Attempt>): Row {
    var n := FirstRight(attempts, row.code);
    if n < |attempts| && n < 5 then
      row.(attempts := n, verifiedAt := Some(attempts[n].now), sentAt := Some(attempts[n].now))
    else row.(attempts := if n < 5 then n else 5)
  }

  lemma OneMoreAttempt(row: Row, attempts: seq<Attempt>, code: string, now: Time)
    requires Fresh(row)
    ensures CheckedRow(Decided(row, attempts), code, now)
         == if now <= row.expiresAt && IsAscii(Strip(code))
            then Decided(row, attempts + [Attempt(Strip(code), now)]) else Decided(row, attempts)
  {
    var more := attempts + [Attempt(Strip(code), now)];
    assert more[..|attempts|] == attempts;
  }

  ghost predicate UniqueTokens(rows: seq<Row>) {
    forall i, j :: 0 <= i < j < |rows| ==> rows[i].token != rows[j].token
  }

  lemma StepKeepsTokens(settings: Settings, make: CaseMaker, s: State, e: Event)
    requires UniqueTokens(s.rows)
    ensures UniqueTokens(Step(settings, make, s, e).0.rows)
    ensures |s.rows| <= |Step(settings, make, s, e).0.rows|
    ensures forall i :: 0 <= i < |s.rows| ==> Step(settings, make, s, e).0.rows[i].token == s.rows[i].token
  {
  }

  /** A step changes the row of its own token only. */
  lemma StepOnRow(settings: Settings, make: CaseMaker, s: State, e: Event, r: nat)
    requires UniqueTokens(s.rows) && r < |s.rows|
    ensures var after := Step(settings, make, s, e).0.rows;
            && r < |after|
            && after[r] == if e.Entered? && e.token == s.rows[r].token then CheckedRow(s.rows[r], e.code, e.now)
                           else s.rows[r]
  {
    if e.Entered? {
      var found := FindRow(s.rows, e.token);
      if found.Some? && found.value != r {
        assert s.rows[found.value].token != s.rows[r].token;
      }
    }
  }

  lemma {:induction false} RunKeepsTokens(settings: Settings, make: CaseMaker, s: State, events: seq<Event>)
    requires UniqueTokens(s.rows)
    ensures UniqueTokens(Run(settings, make, s, events).rows)
  {
    if events != [] {
      var n := |events| - 1;
      RunKeepsTokens(settings, make, s, events[..n]);
      StepKeepsTokens(settings, make, Run(settings, make, s, events[..n]), events[n]);
    }
  }

  /** Whatever else happens, a row follows its own attempts: its batch is released by the right code among the
      first five attempts before expiry, and by nothing else; five wrong ones lock it for good. */
  lemma {:induction false} RowFollowsItsAttempts(settings: Settings, make: CaseMaker, s: State, events: seq<Event>,
                                                 r: nat)
    requires UniqueTokens(s.rows) && r < |s.rows| && Fresh(s.rows[r])
    ensures var after := Run(settings, make, s, events).rows;
            r < |after| && after[r] == Decided(s.rows[r], Attempts(events, s.rows[r]))
  {
    if events != [] {
      var n := |events| - 1;
      var mid := Run(settings, make, s, events[..n]);
      RowFollowsItsAttempts(settings, make, s, events[..n], r);
      RunKeepsTokens(settings, make, s, events[..n]);
      StepOnRow(settings, make, mid, events[n], r);
      if events[n].Entered? {
        OneMoreAttempt(s.rows[r], Attempts(events[..n], s.rows[r]), events[n].code, events[n].now);
      }
    }
  }

  /** The same, in terms of the codes that were entered. */
  lemma SentIffCodeAmongFirstFive(settings: Settings, make: CaseMaker, s: State, events: seq<Event>, r: nat)
    requires UniqueTokens(s.rows) && r < |s.rows| && Fresh(s.rows[r])
    ensures var row, attempts := s.rows[r], Attempts(events, s.rows[r]);
            var after := Run(settings, make, s, events).rows;
            && r < |after|
            && after[r].attempts <= 5 && after[r].verifiedAt == after[r].sentAt
            && (after[r].sentAt.Some? <==> exists j :: 0 <= j < |attempts| && j < 5 && attempts[j].code == row.code)
            && (after[r].sentAt.Some? ==> after[r].sentAt.value <= row.expiresAt)
  {
    var row, attempts := s.rows[r], Attempts(events, s.rows[r]);
    RowFollowsItsAttempts(settings, make, s, events, r);
    AttemptsAreInTime(events, row);
    var n := FirstRight(attempts, row.code);
    if n < |attempts| && n < 5 {
      assert attempts[n].code == row.code;
    }
  }

  lemma {:induction false} AttemptsAreInTime(events: seq<Event>, row: Row)
    ensures forall j :: 0 <= j < |Attempts(events, row)| ==> Attempts(events, row)[j].now <= row.expiresAt
  {
    if events != [] {
      AttemptsAreInTime(events[..|events| - 1], row);
    }
  }

  function Number(digits: string): int
    requires forall i :: 0 <= i < |digits| ==> '0' <= digits[i] <= '9'
  {
    if digits == [] then 0
    else 10 * Number(digits[..|digits| - 1]) + (digits[|digits| - 1] as int - '0' as int)
  }

  function Pow10(n: nat): nat {
    if n == 0 then 1 else 10 * Pow10(n - 1)
  }

  lemma {:induction false} PaddedDenotes(n: nat, width: nat)
    requires n < Pow10(width)
    ensures Number(Padded(n, width)) == n
  {
    if width > 0 {
      PaddedDenotes(n / 10, width - 1);
      assert Padded(n, width)[..width - 1] == Padded(n / 10, width - 1);
    }
  }

  /** Six digits tell all numbers below a million apart. */
  lemma CodeDenotesNumber(n: nat)
    requires n < 1_000_000
    ensures |Padded(n, 6)| == 6 && Number(Padded(n, 6)) == n
  {
    assert Pow10(6) == 1_000_000;
    PaddedDenotes(n, 6);
  }

  /** The mailed code can be entered: it survives stripping and is readable. */
  lemma CodeCanBeEntered(r: Request)
    ensures Strip(NewRow(r).code) == NewRow(r).code && IsAscii(NewRow(r).code)
  {
    var code := Padded(r.number, 6);
    assert !IsSpace(code[0]) && !IsSpace(code[5]);
  }

  // ---- The queue: one batch for every sent row ----

  /** 1 if the batch of a row is `b` and was due, else 0. */
  function Due(row: Row, b: Batch): nat {
    if row.sentAt.Some? && BatchOf(row) == b then 1 else 0
  }

  /** The number of sent rows that have `b` as their batch. */
  function Times(rows: seq<Row>, b: Batch): nat {
    if rows == [] then 0 else Times(rows[..|rows| - 1], b) + Due(rows[|rows| - 1], b)
  }

  lemma {:induction false} TimesUpdate(rows: seq<Row>, i: nat, row: Row, b: Batch)
    requires i < |rows|
    ensures Times(rows[i := row], b) + Due(rows[i], b) == Times(rows, b) + Due(row, b)
  {
    var n := |rows| - 1;
    var updated := rows[i := row];
    if i < n {
      TimesUpdate(rows[..n], i, row, b);
      assert updated[..n] == rows[..n][i := row];
    } else {
      assert updated[..n] == rows[..n];
    }
  }

  ghost predicate RowsSound(rows: seq<Row>) {
    && UniqueTokens(rows)
    && forall i :: 0 <= i < |rows| ==> rows[i].verifiedAt == rows[i].sentAt && rows[i].attempts <= 5
  }

  lemma CheckKeepsRows(rows: seq<Row>, i: nat, code: string, now: Time)
    requires i < |rows| && RowsSound(rows)
    ensures RowsSound(rows[i := CheckedRow(rows[i], code, now)])
  {
  }

  /** Every row that is sent has its batch in the queue, once, and the queue holds nothing else; no row has
      taken more than five wrong codes, or was verified without being sent. */
  ghost predicate Accounted(s: State) {
    && RowsSound(s.rows)
    && forall b :: multiset(s.queue)[b] == Times(s.rows, b)
  }

  lemma RequestKeepsAccounts(settings: Settings, s: State, r: Request)
    requires Accounted(s)
    ensures Accounted(RequestStep(settings, s, r).0)
  {
    var after := RequestStep(settings, s, r).0;
    if after != s {
      assert after.rows[..|after.rows| - 1] == s.rows;
    }
  }

  lemma CheckKeepsQueue(rows: seq<Row>, queue: seq<Batch>, i: nat, code: string, now: Time, b: Batch)
    requires i < |rows| && multiset(queue)[b] == Times(rows, b)
    ensures multiset(QueueAfter(rows[i], queue, code, now))[b] == Times(rows[i := CheckedRow(rows[i], code, now)], b)
  {
    TimesUpdate(rows, i, CheckedRow(rows[i], code, now), b);
  }

  lemma VerifyKeepsAccounts(make: CaseMaker, s: State, token: string, code: string, now: Time)
    requires Accounted(s)
    ensures Accounted(VerifyStep(make, s, token, code, now).0)
  {
    var found := FindRow(s.rows, token);
    if found.Some? {
      forall b {
        CheckKeepsQueue(s.rows, s.queue, found.value, code, now, b);
      }
      CheckKeepsRows(s.rows, found.value, code, now);
    }
  }

  lemma {:induction false} RunKeepsAccounts(settings: Settings, make: CaseMaker, s: State, events: seq<Event>)
    requires Accounted(s)
    ensures Accounted(Run(settings, make, s, events))
  {
    if events != [] {
      var n := |events| - 1;
      var before := Run(settings, make, s, events[..n]);
      RunKeepsAccounts(settings, make, s, events[..n]);
      match events[n]
      case Asked(r) => RequestKeepsAccounts(settings, before, r);
      case Entered(token, code, now) => VerifyKeepsAccounts(make, before, token, code, now);
    }
  }

  lemma {:induction false} DueIsQueued(rows: seq<Row>, i: nat)
    requires i < |rows| && rows[i].sentAt.Some?
    ensures Times(rows, BatchOf(rows[i])) > 0
  {
    var n := |rows| - 1;
    if i < n {
      DueIsQueued(rows[..n], i);
      assert rows[..n][i] == rows[i];
    }
  }

  /** Whenever the confirmation page is shown, its batch is in the queue, and the page lists exactly the cases
      that the batch mails, under the same run id and recipient. */
  lemma PageMatchesBatch(make: CaseMaker, s: State, token: string, code: string, now: Time)
    requires Accounted(s)
    ensures var (after, page) := VerifyStep(make, s, token, code, now);
            page.DonePage? ==> exists b :: b in after.queue && page == DonePage(b.run, b.recipient, Mailed(make, b))
  {
    var (after, page) := VerifyStep(make, s, token, code, now);
    if page.DonePage? {
      var i := FindRow(s.rows, token).value;
      VerifyKeepsAccounts(make, s, token, code, now);
      DueIsQueued(after.rows, i);
      var b := BatchOf(after.rows[i]);
      assert b in multiset(after.queue);
      assert page == DonePage(b.run, b.recipient, Mailed(make, b));
    }
  }

  // ---- From the form to the batch ----

  lemma {:induction false} NonEmptyKeepsAll(parts: seq<string>)
    requires forall i :: 0 <= i < |parts| ==> parts[i] != ""
    ensures NonEmpty(parts) == parts
  {
    if parts != [] {
      NonEmptyKeepsAll(parts[..|parts| - 1]);
    }
  }

  lemma {:induction false} NonEmptyParts(parts: seq<string>)
    ensures forall p :: p in NonEmpty(parts) ==> p in parts && p != ""
  {
    if parts != [] {
      NonEmptyParts(parts[..|parts| - 1]);
    }
  }

  /** Ids that can be told apart in a text with commas between them. */
  predicate AreSeparable(ids: seq<string>) {
    forall i :: 0 <= i < |ids| ==> ids[i] != "" && ',' !in ids[i]
  }

  lemma SeparableIdsAreRead(ids: seq<string>)
    requires ids != [] && AreSeparable(ids)
    ensures NonEmpty(SplitOn(Join(ids, ","), ',')) == ids
  {
    SplitOnJoin(ids, ',');
    NonEmptyKeepsAll(ids);
  }

  lemma ReadIdsAreSeparable(text: string)
    ensures AreSeparable(NonEmpty(SplitOn(text, ',')))
  {
    var ids := NonEmpty(SplitOn(text, ','));
    NonEmptyParts(SplitOn(text, ','));
    SplitOnParts(text, ',');
    forall i | 0 <= i < |ids|
      ensures ids[i] != "" && ',' !in ids[i]
    {
      assert ids[i] in ids;
    }
  }

  /** The ids that were chosen in the form come back from the stored text if and only if none is empty or
      contains a comma. */
  lemma ChosenIdsAreStored(r: Request)
    requires r.form.cases != []
    ensures CaseIds(NewRow(r)) == r.form.cases
       <==> forall i :: 0 <= i < |r.form.cases| ==> r.form.cases[i] != "" && ',' !in r.form.cases[i]
  {
    var ids := r.form.cases;
    ReadIdsAreSeparable(Join(ids, ","));
    if AreSeparable(ids) {
      SeparableIdsAreRead(ids);
    }
  }

  // ---- The daily limit ----

  function CountOnDay(rows: seq<Row>, ip: string, day: int): nat {
    if rows == [] then 0
    else
      var before, last := CountOnDay(rows[..|rows| - 1], ip, day), rows[|rows| - 1];
      if last.ip == ip && Day(last.createdAt) == day then before + 1 else before
  }

  lemma DayHasStarted(earlier: Time, t: Time)
    requires Day(earlier) <= Day(t)
    ensures DayStart(earlier) <= t
  {
  }

  lemma {:induction false} DayIsWithinSince(rows: seq<Row>, ip: string, clock: Time, day: int)
    requires Day(clock) <= day
    ensures CountOnDay(rows, ip, day) <= CountSince(rows, ip, DayStart(clock))
  {
    if rows != [] {
      DayIsWithinSince(rows[..|rows| - 1], ip, clock, day);
      if Day(rows[|rows| - 1].createdAt) == day {
        DayHasStarted(clock, rows[|rows| - 1].createdAt);
      }
    }
  }

  lemma {:induction false} CheckKeepsDays(rows: seq<Row>, i: nat, code: string, now: Time, ip: string, day: int)
    requires i < |rows|
    ensures CountOnDay(rows[i := CheckedRow(rows[i], code, now)], ip, day) == CountOnDay(rows, ip, day)
  {
    var n := |rows| - 1;
    var updated := rows[i := CheckedRow(rows[i], code, now)];
    if i < n {
      CheckKeepsDays(rows[..n], i, code, now, ip, day);
      assert updated[..n] == rows[..n][i := CheckedRow(rows[i], code, now)];
    } else {
      assert updated[..n] == rows[..n];
    }
  }

  /** The clock is not set back between the limit check and the creation of the row. */
  ghost predicate ClockForward(events: seq<Event>) {
    forall i :: 0 <= i < |events| && events[i].Asked? ==> events[i].request.limitClock <= events[i].request.createClock
  }

  lemma RequestKeepsLimit(settings: Settings, rows: seq<Row>, r: Request, ip: string, day: int)
    requires ip !in settings.exempt && r.limitClock <= r.createClock
    requires Refusal(settings, rows, r).None? && CountOnDay(rows, ip, day) <= settings.maxPerDay
    ensures CountOnDay(rows + [NewRow(r)], ip, day) <= settings.maxPerDay
  {
    assert (rows + [NewRow(r)])[..|rows|] == rows;
    if r.ip == ip && Day(r.createClock) == day {
      DayIsWithinSince(rows, ip, r.limitClock, day);
    }
  }

  /** No address that is not exempt gets more than the allowed number of requests on one day. */
  lemma {:induction false} DayLimitHolds(settings: Settings, make: CaseMaker, events: seq<Event>, ip: string, day: int)
    requires ip !in settings.exempt && settings.maxPerDay >= 0 && ClockForward(events)
    ensures CountOnDay(Run(settings, make, State([], []), events).rows, ip, day) <= settings.maxPerDay
  {
    if events != [] {
      var n := |events| - 1;
      var before := Run(settings, make, State([], []), events[..n]);
      assert ClockForward(events[..n]) by {
        assert forall i :: 0 <= i < n ==> events[..n][i] == events[i];
      }
      DayLimitHolds(settings, make, events[..n], ip, day);
      match events[n]
      case Asked(r) =>
        if Refusal(settings, before.rows, r).None? {
          RequestKeepsLimit(settings, before.rows, r, ip, day);
        }
      case Entered(token, code, now) =>
        var found := FindRow(before.rows, token);
        if found.Some? {
          CheckKeepsDays(before.rows, found.value, code, now, ip, day);
        }
    }
  }
}

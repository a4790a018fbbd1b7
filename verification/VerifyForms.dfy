/** What the pages, rows and batches of the double opt-in say about the request they belong to. */
module VerifyForms {
  import opened Options
  import opened Text
  import opened TextLaws
  import opened VerifyFlow
  import opened VerifyLaws

  // ---- The code and its half hour ----

  /** The mailed code is right for thirty minutes, with any whitespace around it; nothing else ever is. */
  lemma CodeIsGoodForHalfAnHour(r: Request, code: string, now: Time)
    ensures CheckCode(NewRow(r), code, now) == Right
       <==> now <= r.createClock + 30 * 60 * 1_000_000 && Strip(code) == Padded(r.number, 6)
  {
    CodeCanBeEntered(r);
  }

  /** The entries of a token's code up to a deadline. */
  function EntriesUntil(events: seq<Event>, token: string, deadline: Time): seq<Attempt> {
    if events == [] then []
    else
      var before, last := EntriesUntil(events[..|events| - 1], token, deadline), events[|events| - 1];
      if last.Entered? && last.token == token && last.now <= deadline && IsAscii(Strip(last.code)) then
        before + [Attempt(Strip(last.code), last.now)]
      else before
  }

  lemma {:induction false} AttemptsAreEntries(events: seq<Event>, row: Row)
    ensures Attempts(events, row) == EntriesUntil(events, row.token, row.expiresAt)
  {
    if events != [] {
      AttemptsAreEntries(events[..|events| - 1], row);
    }
  }

  /** From the request on, whatever else happens: the batch is released if and only if its six digits are among the
      first five readable entries of the next thirty minutes. */
  lemma ReleasedByItsCode(settings: Settings, make: CaseMaker, s: State, r: Request, events: seq<Event>)
    requires UniqueTokens(s.rows) && Refusal(settings, s.rows, r).None?
    ensures var after := Run(settings, make, RequestStep(settings, s, r).0, events).rows;
            var entries := EntriesUntil(events, r.token, r.createClock + 30 * 60 * 1_000_000);
            && |s.rows| < |after|
            && (after[|s.rows|].sentAt.Some? <==>
                  exists j :: 0 <= j < |entries| && j < 5 && entries[j].code == Padded(r.number, 6))
  {
    var asked := RequestStep(settings, s, r).0;
    StepKeepsTokens(settings, make, s, Asked(r));
    assert asked.rows[|s.rows|] == NewRow(r);
    SentIffCodeAmongFirstFive(settings, make, asked, events, |s.rows|);
    AttemptsAreEntries(events, NewRow(r));
  }

  // ---- The request as it is kept ----

  /** A text typed with any use of capitals and any whitespace around it. */
  ghost predicate IsTyped(typed: string, s: string) {
    exists pad, w, pad' :: IsBlank(pad) && IsBlank(pad') && IsStripped(w) && IsCasingOf(w, s) && typed == pad + w + pad'
  }

  lemma TypedIsNormalised(typed: string, s: string)
    requires IsTyped(typed, s)
    ensures Lower(Strip(typed)) == s
  {
    var pad, w, pad' :| IsBlank(pad) && IsBlank(pad') && IsStripped(w) && IsCasingOf(w, s) && typed == pad + w + pad';
    StripTakesPads(pad, w, pad');
    LowerOfCasing(w, s);
  }

  /** Addresses are kept in small letters without the whitespace around them; an empty one as none. */
  lemma AddressesAreNormalised(r: Request, recipient: string, spoof: string)
    requires IsTyped(r.form.recipient, recipient) && IsTyped(r.form.spoofFrom, spoof)
    ensures NewRow(r).recipient == recipient
    ensures NewRow(r).spoofFrom == if spoof == "" then None else Some(spoof)
  {
    TypedIsNormalised(r.form.recipient, recipient);
    TypedIsNormalised(r.form.spoofFrom, spoof);
  }

  /** A name keeps its capitals. */
  lemma NameKeepsCapitals(r: Request, pad: string, name: string, pad': string)
    requires IsBlank(pad) && IsBlank(pad') && IsStripped(name) && r.form.impersonate == pad + name + pad'
    ensures NewRow(r).impersonate == if name == "" then None else Some(name)
  {
    StripTakesPads(pad, name, pad');
  }

  /** A right entry queues one batch: to the recipient and with the cases of the form, under a run id of its time
      and the first four characters of the token. */
  lemma BatchIsOfRequest(r: Request, queue: seq<Batch>, code: string, now: Time)
    requires CheckCode(NewRow(r), code, now) == Right && r.form.cases != []
    requires forall i :: 0 <= i < |r.form.cases| ==> r.form.cases[i] != "" && ',' !in r.form.cases[i]
    ensures var row, after := NewRow(r), QueueAfter(NewRow(r), queue, code, now);
            && |after| == |queue| + 1 && after[..|queue|] == queue
            && var b := after[|queue|];
               && b.recipient == row.recipient && b.caseIds == r.form.cases
               && b.spoofFrom == row.spoofFrom && b.impersonate == row.impersonate
               && b.run.at == now && b.run.prefix <= r.token
               && |b.run.prefix| == if |r.token| < 4 then |r.token| else 4
  {
    ChosenIdsAreStored(r);
  }

  // ---- The cases ----

  /** The cases of a batch are those chosen cases that are not skipped; the spoofed sender and the impersonated name
      are handed on only for their own cases. */
  lemma {:induction false} ChosenCases(all: seq<TestCase>, ids: seq<string>, c: TestCase)
    ensures c in Choose(all, ids) <==> c in all && c.id in ids && !c.skipped
  {
    if all != [] {
      var front, last := all[..|all| - 1], all[|all| - 1];
      ChosenCases(front, ids, c);
      assert c in all <==> c in front || c == last;
    }
  }

  lemma CasesNeedTheirIds(make: CaseMaker, ids: seq<string>, spoof: Option<string>, name: Option<string>, c: TestCase)
    ensures c in CasesFor(make, ids, spoof, name)
       <==> c.id in ids && !c.skipped
            && c in if "spoof-from" in ids then make(spoof, if "impersonation" in ids then name else None)
                    else make(None, if "impersonation" in ids then name else None)
  {
    ChosenCases(make(if "spoof-from" in ids then spoof else None, if "impersonation" in ids then name else None),
                ids, c);
  }

  // ---- The daily limit ----

  ghost function RequestsSince(rows: seq<Row>, ip: string, since: Time): set<int> {
    set i | 0 <= i < |rows| && rows[i].ip == ip && rows[i].createdAt >= since
  }

  lemma RequestsSnoc(rows: seq<Row>, row: Row, ip: string, since: Time)
    ensures |RequestsSince(rows + [row], ip, since)|
         == |RequestsSince(rows, ip, since)| + if row.ip == ip && row.createdAt >= since then 1 else 0
  {
    var all := rows + [row];
    assert all[|rows|] == row && forall i :: 0 <= i < |rows| ==> all[i] == rows[i];
    assert RequestsSince(all, ip, since)
        == RequestsSince(rows, ip, since) + if row.ip == ip && row.createdAt >= since then {|rows|} else {};
  }

  lemma {:induction false} CountIsCardinality(rows: seq<Row>, ip: string, since: Time)
    ensures CountSince(rows, ip, since) == |RequestsSince(rows, ip, since)|
  {
    if rows != [] {
      var front, last := rows[..|rows| - 1], rows[|rows| - 1];
      assert rows == front + [last];
      CountIsCardinality(front, ip, since);
      RequestsSnoc(front, last, ip, since);
    }
  }

  lemma RefusedByCount(settings: Settings, rows: seq<Row>, r: Request)
    ensures Refusal(settings, rows, r) == Some(FormPage(DayLimit))
       <==> FormProblem(settings, r.form).None? && r.ip !in settings.exempt
            && CountSince(rows, r.ip, DayStart(r.limitClock)) >= settings.maxPerDay
  {
  }

  /** The moment at which the day of `t` starts, in UTC. */
  ghost predicate IsMidnightOf(midnight: Time, t: Time) {
    midnight % 86_400_000_000 == 0 && midnight <= t < midnight + 86_400_000_000
  }

  lemma MidnightIsDayStart(midnight: Time, t: Time)
    requires IsMidnightOf(midnight, t)
    ensures DayStart(t) == midnight
  {
  }

  /** A request is refused for the daily limit if and only if its form is in order, its address is not exempt, and
      the address made as many requests as allowed, or more, since midnight. */
  lemma DayLimitIsExact(settings: Settings, rows: seq<Row>, r: Request, midnight: Time)
    requires IsMidnightOf(midnight, r.limitClock)
    ensures Refusal(settings, rows, r) == Some(FormPage(DayLimit))
       <==> FormProblem(settings, r.form).None? && r.ip !in settings.exempt
            && |RequestsSince(rows, r.ip, midnight)| >= settings.maxPerDay
  {
    RefusedByCount(settings, rows, r);
    MidnightIsDayStart(midnight, r.limitClock);
    CountIsCardinality(rows, r.ip, midnight);
  }

  // ---- Pages ----

  /** What each page says about a form, in the order of the checks. */
  lemma ProblemTellsForm(settings: Settings, form: Form)
    ensures var p := FormProblem(settings, form);
            var mailbox := IsMailbox(Lower(Strip(form.recipient)));
            var spoof := "spoof-from" in form.cases && Strip(form.spoofFrom) == "";
            var name := "impersonation" in form.cases && Strip(form.impersonate) == "";
            && (p == Some(SmtpMissing) <==> !settings.smtp)
            && (p == Some(BadRecipient) <==> settings.smtp && !mailbox)
            && (p == Some(NoCases) <==> settings.smtp && mailbox && form.cases == [])
            && (p == Some(SpoofMissing) <==> settings.smtp && mailbox && spoof)
            && (p == Some(NameMissing) <==> settings.smtp && mailbox && !spoof && name)
  {
    MailboxBySplitting(Lower(Strip(form.recipient)));
  }

  /** What the page of a code entry says about the request, with the number of entries that are left. */
  lemma PageTellsOutcome(make: CaseMaker, s: State, token: string, code: string, now: Time)
    requires UniqueTokens(s.rows)
    ensures var (after, page) := VerifyStep(make, s, token, code, now);
            var found := FindRow(s.rows, token);
            && (page == FormPage(NotFound) <==> found.None?)
            && (found.Some? ==>
                  var row, row' := s.rows[found.value], after.rows[found.value];
                  && (page.DonePage? <==> row'.sentAt.Some?)
                  && (page == FormPage(Expired) <==> row.sentAt.None? && now > row.expiresAt)
                  && (page == FormPage(TooMany) <==> row.sentAt.None? && now <= row.expiresAt && row.attempts >= 5)
                  && (page.VerifyPage? <==> row'.attempts == row.attempts + 1)
                  && (page.VerifyPage? ==> page.recipient == row.recipient && page.left == Some(5 - row'.attempts))
                  && (row' == row || now <= row.expiresAt))
  {
  }
}

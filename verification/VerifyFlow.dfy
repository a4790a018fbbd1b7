/** The double opt-in in front of the threat-policy test: a code is mailed, and entering it queues the batch. */
module VerifyFlow {
  import opened Options
  import opened Text

  /** Microseconds since the epoch, UTC. */
  type Time = int

  const CODE_TTL: int := 1_800_000_000
  const MAX_ATTEMPTS: nat := 5

  datatype TestCase = TestCase(id: string, skipped: bool)

  /** How the case list is built from the spoofed sender and the impersonated name. */
  type CaseMaker = (Option<string>, Option<string>) -> seq<TestCase>

  datatype Settings = Settings(smtp: bool, exempt: set<string>, maxPerDay: int)

  datatype Form = Form(recipient: string, cases: seq<string>, spoofFrom: string, impersonate: string)

  datatype Row = Row(token: string, createdAt: Time, expiresAt: Time, ip: string, recipient: string,
                     caseIds: string, spoofFrom: Option<string>, impersonate: Option<string>, code: string,
                     attempts: nat, verifiedAt: Option<Time>, sentAt: Option<Time>)

  datatype RunId = RunId(at: Time, prefix: string)

  /** The arguments of the background task that sends the test mails. */
  datatype Batch = Batch(recipient: string, caseIds: seq<string>, spoofFrom: Option<string>, run: RunId,
                         impersonate: Option<string>)

  datatype Problem =
    | SmtpMissing | BadRecipient | NoCases | SpoofMissing | NameMissing | DayLimit | CodeNotSent
    | NotFound | Expired | TooMany

  datatype Page =
    | FormPage(problem: Problem)
    | VerifyPage(recipient: string, left: Option<int>)
    | DonePage(run: RunId, recipient: string, cases: seq<TestCase>)
    | ServerError

  datatype State = State(rows: seq<Row>, queue: seq<Batch>)

  // ---- Batches and the page that reports them ----

  function NonEmpty(parts: seq<string>): seq<string> {
    if parts == [] then []
    else
      var before := NonEmpty(parts[..|parts| - 1]);
      if parts[|parts| - 1] == "" then before else before + [parts[|parts| - 1]]
  }

  function CaseIds(row: Row): seq<string> {
    NonEmpty(SplitOn(row.caseIds, ','))
  }

  function Prefix(token: string): string {
    if |token| <= 4 then token else token[..4]
  }

  function Choose(all: seq<TestCase>, ids: seq<string>): seq<TestCase> {
    if all == [] then []
    else
      var before, last := Choose(all[..|all| - 1], ids), all[|all| - 1];
      if last.id in ids && !last.skipped then before + [last] else before
  }

  function CasesFor(make: CaseMaker, ids: seq<string>, spoofFrom: Option<string>, impersonate: Option<string>)
    : seq<TestCase>
  {
    Choose(make(if "spoof-from" in ids then spoofFrom else None,
                if "impersonation" in ids then impersonate else None),
           ids)
  }

  /** The cases that the background task mails. */
  function Mailed(make: CaseMaker, b: Batch): seq<TestCase> {
    CasesFor(make, b.caseIds, b.spoofFrom, b.impersonate)
  }

  /** The page that confirms a verified request, also when it is asked for again. */
  function Done(make: CaseMaker, row: Row): Page {
    DonePage(RunId(if row.sentAt.Some? then row.sentAt.value else row.createdAt, Prefix(row.token)),
             row.recipient,
             CasesFor(make, CaseIds(row), row.spoofFrom, row.impersonate))
  }

  // ---- Requesting a code ----

  /** A number in decimal with exactly `width` digits. */
  function Padded(n: nat, width: nat): (r: string)
    ensures |r| == width && forall i :: 0 <= i < width ==> '0' <= r[i] <= '9'
  {
    if width == 0 then "" else Padded(n / 10, width - 1) + ['0' + (n % 10) as char]
  }

  function NoneIfEmpty(s: string): Option<string> {
    if s == "" then None else Some(s)
  }

  /** The number of the day, in UTC, and the moment it starts. */
  function Day(t: Time): int {
    t / 86_400_000_000
  }

  function DayStart(t: Time): (start: Time)
    ensures start <= t < start + 86_400_000_000 && Day(start) == Day(t)
  {
    t - t % 86_400_000_000
  }

  function CountSince(rows: seq<Row>, ip: string, since: Time): nat {
    if rows == [] then 0
    else
      var before, last := CountSince(rows[..|rows| - 1], ip, since), rows[|rows| - 1];
      if last.ip == ip && last.createdAt >= since then before + 1 else before
  }

  function LastOf(parts: seq<string>): string
    requires parts != []
  {
    parts[|parts| - 1]
  }

  /** What is wrong with a request, if anything. */
  function FormProblem(settings: Settings, form: Form): Option<Problem> {
    var recipient := Lower(Strip(form.recipient));
    var parts := SplitOn(recipient, '@');
    if !settings.smtp then Some(SmtpMissing)
    else if '@' !in recipient || '.' !in LastOf(parts) then Some(BadRecipient)
    else if form.cases == [] then Some(NoCases)
    else if "spoof-from" in form.cases && Strip(form.spoofFrom) == "" then Some(SpoofMissing)
    else if "impersonation" in form.cases && Strip(form.impersonate) == "" then Some(NameMissing)
    else None
  }

  /** There is an "@", and a dot behind the last one. */
  ghost predicate IsMailbox(r: string) {
    exists i :: IsLastAt(r, i) && '.' in r[i + 1..]
  }

  ghost predicate IsLastAt(r: string, i: int) {
    0 <= i < |r| && r[i] == '@' && forall j :: i < j < |r| ==> r[j] != '@'
  }

  /** `part` is what stands behind the last "@", at `i`. */
  ghost predicate IsTail(s: string, i: int, part: string) {
    IsLastAt(s, i) && part == s[i + 1..]
  }

  lemma SplitOnce(s: string)
    requires '@' in s
    ensures var head, rest := Before(s, '@'), After(s, '@');
            s == head + ['@'] + rest && |rest| < |s| && LastOf(SplitOn(s, '@')) == LastOf(SplitOn(rest, '@'))
  {
    BeforeAfter(s, '@');
  }

  lemma TailBehind(head: string, rest: string, j: int, part: string)
    requires IsTail(rest, j, part)
    ensures IsTail(head + ['@'] + rest, |head| + 1 + j, part)
  {
    var s := head + ['@'] + rest;
    assert forall k :: |head| < k < |s| ==> s[k] == rest[k - |head| - 1];
    assert s[|head| + 1 + j + 1..] == rest[j + 1..];
  }

  lemma OnePart(rest: string)
    requires '@' !in rest
    ensures LastOf(SplitOn(rest, '@')) == rest
  {
    BeforeWithout(rest, '@');
  }

  lemma TailAt(head: string, rest: string)
    requires '@' !in rest
    ensures IsTail(head + ['@'] + rest, |head|, rest)
  {
    var s := head + ['@'] + rest;
    assert s[|head| + 1..] == rest;
    forall k | |head| < k < |s|
      ensures s[k] != '@'
    {
      assert s[k] == rest[k - |head| - 1];
    }
  }

  lemma {:induction false} LastPart(s: string, part: string) returns (i: int)
    requires '@' in s && part == LastOf(SplitOn(s, '@'))
    ensures IsTail(s, i, part)
    decreases |s|
  {
    var head, rest := Before(s, '@'), After(s, '@');
    SplitOnce(s);
    if '@' in rest {
      var j := LastPart(rest, part);
      TailBehind(head, rest, j, part);
      i := |head| + 1 + j;
    } else {
      OnePart(rest);
      TailAt(head, rest);
      i := |head|;
    }
  }

  lemma MailboxBySplitting(r: string)
    ensures IsMailbox(r) <==> '@' in r && '.' in LastOf(SplitOn(r, '@'))
  {
    if '@' in r {
      var i := LastPart(r, LastOf(SplitOn(r, '@')));
      assert forall k :: IsLastAt(r, k) ==> k == i;
    }
  }

  /** What a request must bring. */
  ghost predicate IsComplete(form: Form) {
    && IsMailbox(Lower(Strip(form.recipient)))
    && form.cases != []
    && ("spoof-from" in form.cases ==> Strip(form.spoofFrom) != "")
    && ("impersonation" in form.cases ==> Strip(form.impersonate) != "")
  }

  /** A request as it arrives, with what the clock, the random source and the mail server contribute. */
  datatype Request = Request(form: Form, ip: string, limitClock: Time, createClock: Time, token: string, number: nat,
                             mailSent: bool)

  function NewRow(r: Request): Row {
    Row(r.token, r.createClock, r.createClock + CODE_TTL, r.ip, Lower(Strip(r.form.recipient)),
        Join(r.form.cases, ","), NoneIfEmpty(Lower(Strip(r.form.spoofFrom))), NoneIfEmpty(Strip(r.form.impersonate)),
        Padded(r.number, 6), 0, None, None)
  }

  /** The first row with a token, if any. */
  function FindRow(rows: seq<Row>, token: string): (r: Option<nat>)
    ensures r.Some? ==> r.value < |rows| && rows[r.value].token == token
    ensures r.None? ==> forall i :: 0 <= i < |rows| ==> rows[i].token != token
  {
    if rows == [] then None
    else
      var before := FindRow(rows[..|rows| - 1], token);
      if before.Some? then before
      else if rows[|rows| - 1].token == token then Some(|rows| - 1)
      else None
  }

  /** Whether a request leads to a new row; the token column refuses a second row with the same token. */
  function Refusal(settings: Settings, rows: seq<Row>, r: Request): Option<Page> {
    var problem := FormProblem(settings, r.form);
    if problem.Some? then Some(FormPage(problem.value))
    else if r.ip !in settings.exempt && CountSince(rows, r.ip, DayStart(r.limitClock)) >= settings.maxPerDay then
      Some(FormPage(DayLimit))
    else if FindRow(rows, r.token).Some? then Some(ServerError)
    else None
  }

  function RequestStep(settings: Settings, s: State, r: Request): (State, Page) {
    var refusal := Refusal(settings, s.rows, r);
    if refusal.Some? then (s, refusal.value)
    else
      (s.(rows := s.rows + [NewRow(r)]),
       if r.mailSent then VerifyPage(NewRow(r).recipient, None) else FormPage(CodeNotSent))
  }

  // ---- Entering the code ----

  datatype Check = AlreadySent | TooLate | Locked | Unreadable | Wrong | Right

  /** Comparing strings in constant time raises an exception for characters outside ASCII. */
  function CheckCode(row: Row, code: string, now: Time): Check {
    if row.sentAt.Some? then AlreadySent
    else if now > row.expiresAt then TooLate
    else if row.attempts >= MAX_ATTEMPTS then Locked
    else if !IsAscii(Strip(code)) then Unreadable
    else if Strip(code) != row.code then Wrong
    else Right
  }

  function CheckedRow(row: Row, code: string, now: Time): Row {
    match CheckCode(row, code, now)
    case Wrong => row.(attempts := row.attempts + 1)
    case Right => row.(verifiedAt := Some(now), sentAt := Some(now))
    case _ => row
  }

  function BatchOf(row: Row): Batch
    requires row.sentAt.Some?
  {
    Batch(row.recipient, CaseIds(row), row.spoofFrom, RunId(row.sentAt.value, Prefix(row.token)), row.impersonate)
  }

  function QueueAfter(row: Row, queue: seq<Batch>, code: string, now: Time): seq<Batch> {
    if CheckCode(row, code, now) == Right then queue + [BatchOf(CheckedRow(row, code, now))] else queue
  }

  function VerifyPageOf(make: CaseMaker, row: Row, code: string, now: Time): Page {
    match CheckCode(row, code, now)
    case AlreadySent => Done(make, row)
    case TooLate => FormPage(Expired)
    case Locked => FormPage(TooMany)
    case Unreadable => ServerError
    case Wrong => VerifyPage(row.recipient, Some(MAX_ATTEMPTS - row.attempts - 1))
    case Right => Done(make, CheckedRow(row, code, now))
  }

  function VerifyStep(make: CaseMaker, s: State, token: string, code: string, now: Time): (State, Page) {
    var found := FindRow(s.rows, token);
    if found.None? then (s, FormPage(NotFound))
    else
      var i, row := found.value, s.rows[found.value];
      (State(s.rows[i := CheckedRow(row, code, now)], QueueAfter(row, s.queue, code, now)),
       VerifyPageOf(make, row, code, now))
  }

  /** The table of requests and the tasks queued so far. */
  class Tool {
    const settings: Settings
    const make: CaseMaker
    var rows: seq<Row>
    var queue: seq<Batch>

    function Now(): State
      reads this
    {
      State(rows, queue)
    }

    constructor (settings: Settings, make: CaseMaker)
      ensures this.settings == settings && this.make == make && Now() == State([], [])
    {
      this.settings, this.make := settings, make;
      rows, queue := [], [];
    }

    method CheckForm(form: Form) returns (problem: Option<Problem>)
      ensures problem == FormProblem(settings, form)
      ensures problem.None? <==> settings.smtp && IsComplete(form)
      ensures problem == Some(BadRecipient) <==> settings.smtp && !IsMailbox(Lower(Strip(form.recipient)))
    {
      MailboxBySplitting(Lower(Strip(form.recipient)));
      if !settings.smtp {
        return Some(SmtpMissing);
      }
      var recipient := Lower(Strip(form.recipient));
      var parts := SplitOn(recipient, '@');
      if '@' !in recipient || '.' !in LastOf(parts) {
        return Some(BadRecipient);
      }
      if form.cases == [] {
        return Some(NoCases);
      }
      if "spoof-from" in form.cases && NoneIfEmpty(Lower(Strip(form.spoofFrom))).None? {
        return Some(SpoofMissing);
      }
      if "impersonation" in form.cases && NoneIfEmpty(Strip(form.impersonate)).None? {
        return Some(NameMissing);
      }
      problem := None;
    }

    method RequestCode(r: Request) returns (page: Page)
      modifies this`rows
      ensures (Now(), page) == RequestStep(settings, old(Now()), r)
    {
      var problem := CheckForm(r.form);
      if problem.Some? {
        return FormPage(problem.value);
      }
      if r.ip !in settings.exempt {
        if CountSince(rows, r.ip, DayStart(r.limitClock)) >= settings.maxPerDay {
          return FormPage(DayLimit);
        }
      }
      if FindRow(rows, r.token).Some? {
        return ServerError;
      }
      rows := rows + [NewRow(r)];
      page := if r.mailSent then VerifyPage(NewRow(r).recipient, None) else FormPage(CodeNotSent);
    }

    method Verify(token: string, code: string, now: Time) returns (page: Page)
      modifies this
      ensures (Now(), page) == VerifyStep(make, old(Now()), token, code, now)
    {
      var found := FindRow(rows, token);
      if found.None? {
        return FormPage(NotFound);
      }
      var i, row := found.value, rows[found.value];
      assert rows[i := row] == rows;
      if row.sentAt.Some? {
        return Done(make, row);
      }
      if now > row.expiresAt {
        return FormPage(Expired);
      }
      if row.attempts >= MAX_ATTEMPTS {
        return FormPage(TooMany);
      }
      var entered := Strip(code);
      if !IsAscii(entered) {
        return ServerError;
      }
      if entered != row.code {
        rows := rows[i := row.(attempts := row.attempts + 1)];
        return VerifyPage(row.recipient, Some(MAX_ATTEMPTS - rows[i].attempts));
      }
      rows := rows[i := row.(verifiedAt := Some(now), sentAt := Some(now))];
      var caseIds := NonEmpty(SplitOn(row.caseIds, ','));
      queue := queue + [Batch(row.recipient, caseIds, row.spoofFrom, RunId(now, Prefix(token)), row.impersonate)];
      page := Done(make, rows[i]);
    }
  }
}

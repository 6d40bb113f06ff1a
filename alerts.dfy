/**
 * The alert manager: a process-wide rate limiter over the time the last
 * alert e-mail was sent, the checks that come before sending (mail enabled,
 * recipient configured), the HTML fragment per failure detail, the rendering
 * of the alert template, and the commit of the rate limiter after the mail
 * transport reports success.
 */
module Alerts {
  import opened Decimal
  import opened Json
  import opened Text
  import opened Template
  import opened Markup

  /**
   * The process environment, read once at start. An unset variable is None;
   * `cooldownSeconds` is the numeric value of EMAIL_COOLDOWN, None when that
   * value is NaN (unset or not a number).
   */
  datatype Config = Config(
    smtpHost: Option<string>,
    smtpUsername: Option<string>,
    smtpPort: Option<string>,
    recipient: Option<string>,
    fromAddress: Option<string>,
    cooldownSeconds: Option<int>)

  /** An environment string that is truthy: set and not empty. */
  predicate Present(v: Option<string>) {
    v.Some? && v.value != ""
  }

  /** `mailEnabled`: an SMTP host and a user name are both configured. */
  predicate MailEnabled(c: Config) {
    Present(c.smtpHost) && Present(c.smtpUsername)
  }

  /** The ports on which the SMTP connection uses TLS from the start. */
  const ImplicitTlsPorts: seq<string> := ["465", "8465", "443"]

  /** `useImplicit`, the transport's `secure` option: the port, compared as text, is an implicit-TLS port. */
  function UseImplicitTls(port: Option<string>): (secure: bool)
    ensures secure <==> port == Some("465") || port == Some("8465") || port == Some("443")
    ensures port == Some("587") || port == Some("25") || port == Some("0465") ==> !secure
  {
    port.Some? && port.value in ImplicitTlsPorts
  }

  /**
   * The rate limit: less than the cooldown has passed since the last alert
   * was sent. A NaN cooldown makes the comparison false, so it never holds.
   */
  predicate Throttled(c: Config, now: int, lastSentAt: int) {
    match c.cooldownSeconds
    case None => false
    case Some(seconds) => now - lastSentAt < seconds * 1000
  }

  /** The arguments of one reportIssue call; times are epoch milliseconds, None for an invalid date. */
  datatype Issue = Issue(
    report: Value,
    orgName: Value,
    reportId: Value,
    contactInfo: Value,
    domain: Value,
    startTime: Option<int>,
    endTime: Option<int>,
    successCount: Value,
    failCount: Value,
    failures: seq<Value>)

  /** The message handed to the mail transport. */
  datatype Mail = Mail(
    from: Option<string>,
    to: string,
    subject: string,
    text: string,
    html: string,
    attachmentName: string,
    attachment: Value)

  /** Why reportIssue stops before sending. */
  datatype Halt =
    | RateLimited       // logged, the call resolves
    | MailNotEnabled    // the call rejects with an Error
    | NoRecipients      // logged with the domain, the call resolves
    | BadFailureDetail  // a failure detail is null, or a field it shows will not convert: rejects with a TypeError
    | UnprintableValue  // the domain for the no-recipient log line, or a value for the subject or the template,
                        // will not convert: rejects with a TypeError

  /** What reportIssue has done by the time it would call the mail transport. */
  datatype Prepared = Stopped(reason: Halt) | Ready(mail: Mail)

  /** What the mail transport reports. */
  datatype Delivery = Delivered(messageId: string) | Undelivered(error: string)

  /** How one reportIssue call ends. */
  datatype Outcome =
    | Halted(reason: Halt)
    | DeliveryFailed(mail: Mail, error: string)
    | Sent(mail: Mail, messageId: string)

  /** The call's promise rejects (the caller never awaits it). */
  predicate Rejects(o: Outcome) {
    o.DeliveryFailed? || o == Halted(MailNotEnabled) || o == Halted(BadFailureDetail) || o == Halted(UnprintableValue)
  }

  // ---------------------------------------------------------------------
  // One HTML fragment per failure detail

  const RowIndent := "\n                "
  const CellIndent := "\n                    "

  /** The fragment text up to its counter. */
  const FragmentLabel := "<table" + RowIndent + "<tr>" + CellIndent + "<td><strong>Failure "

  /** One two-cell row of a fragment, with the line breaks and indentation of the source's template literal. */
  function Row(heading: string, value: string): string {
    RowIndent + "<tr>" + CellIndent + "<td>" + heading + "</td>" + CellIndent + "<td>" + value + "</td>" + RowIndent + "</tr>"
  }

  /**
   * A failure detail whose fragment can be built: it is not null or
   * undefined, and every field the fragment interpolates converts to a
   * string (the additional-info-uri only when it is shown).
   */
  predicate DetailReadable(fail: Value) {
    && !Nullish(fail)
    && (Truthy(Get(fail, "additional-info-uri")) ==> Stringable(Get(fail, "additional-info-uri")))
    && Stringable(Get(fail, "result-type"))
    && Stringable(Get(fail, "sending-mta-ip"))
    && Stringable(Get(fail, "receiving-mx-hostname"))
    && Stringable(Get(fail, "receiving-ip"))
    && Stringable(Get(fail, "failed-session-count"))
    && Stringable(Get(fail, "failure-reason-code"))
  }

  /** `extraInfo`: a link to the additional-info-uri when that field is truthy, otherwise nothing. */
  function InfoCell(fail: Value): (cell: string)
    requires DetailReadable(fail)
    ensures cell == "" <==> !Truthy(Get(fail, "additional-info-uri"))
  {
    var uri := Get(fail, "additional-info-uri");
    if Truthy(uri) then "<a href=\"" + ToStr(uri) + "\">" + ToStr(uri) + "</a>" else ""
  }

  /** The fragment for the failure detail at position `counter`. */
  function Fragment(fail: Value, counter: nat): string
    requires DetailReadable(fail)
  {
    FragmentLabel + NatToString(counter) + FragmentRows(fail)
  }

  /** The rows of a fragment, one per (heading, value) cell, in order. */
  function Rows(cells: seq<(string, string)>): string
    decreases |cells|
  {
    if cells == [] then "" else Row(cells[0].0, cells[0].1) + Rows(cells[1..])
  }

  /** The headings and values of the six rows a failure detail fills. */
  function Cells(fail: Value): seq<(string, string)>
    requires DetailReadable(fail)
  {
    [ ("Result type", ToStr(Get(fail, "result-type"))),
      ("Sender server IP", ToStr(Get(fail, "sending-mta-ip"))),
      ("Receiver", ToStr(Get(fail, "receiving-mx-hostname")) + " (" + ToStr(Get(fail, "receiving-ip")) + ")"),
      ("No. Failed sessions", ToStr(Get(fail, "failed-session-count"))),
      ("Additional information", InfoCell(fail)),
      ("Failure reason", ToStr(Get(fail, "failure-reason-code"))) ]
  }

  /** The fragment after its counter: the end of the label cell, then one row per field of the detail. */
  function FragmentRows(fail: Value): (rows: string)
    requires DetailReadable(fail)
    ensures "</strong>" <= rows
  {
    "</strong></td>" + RowIndent + "</tr>" + Rows(Cells(fail)) + "\n            </table>"
  }

  /** The counter a fragment is labelled with, read back from its text. */
  function LabelOf(fragment: string): nat
    requires |FragmentLabel| <= |fragment|
  {
    DigitsValue(LeadingDigits(fragment[|FragmentLabel|..]))
  }

  /** Fragment `i` is labelled "Failure i". */
  lemma FragmentLabelled(fail: Value, i: nat)
    requires DetailReadable(fail)
    ensures FragmentLabel <= Fragment(fail, i)
    ensures LabelOf(Fragment(fail, i)) == i
  {
    var digits, rest := NatToString(i), FragmentRows(fail);
    LabelledPrefix(FragmentLabel, digits, rest);
    assert rest[0] == '<' by {
      assert "</strong>"[0] == '<';
    }
    LeadingDigitsOfConcat(digits, rest);
    NatToStringRoundTrip(i);
  }

  lemma LabelledPrefix(prefix: string, digits: string, rest: string)
    ensures prefix <= prefix + digits + rest
    ensures (prefix + digits + rest)[|prefix|..] == digits + rest
  {
  }

  /** Fragments of distinct positions differ, whatever the details hold. */
  lemma FragmentsDistinct(a: Value, i: nat, b: Value, j: nat)
    requires DetailReadable(a) && DetailReadable(b) && i != j
    ensures Fragment(a, i) != Fragment(b, j)
  {
    FragmentLabelled(a, i);
    FragmentLabelled(b, j);
  }

  /** Every failure detail can be read and shown. */
  predicate Readable(failures: seq<Value>) {
    forall i :: 0 <= i < |failures| ==> DetailReadable(failures[i])
  }

  /** The fragments of all failure details, in input order. */
  function Fragments(failures: seq<Value>): seq<string>
    requires Readable(failures)
  {
    seq(|failures|, i requires 0 <= i < |failures| => Fragment(failures[i], i))
  }

  /** The loop that pushes one fragment per failure detail; None where reading or converting a field throws. */
  method BuildFragments(failures: seq<Value>) returns (r: Option<seq<string>>)
    ensures r.Some? <==> Readable(failures)
    ensures r.Some? ==> |r.value| == |failures|
    ensures r.Some? ==> forall i :: 0 <= i < |failures| ==> r.value[i] == Fragment(failures[i], i)
  {
    var reports: seq<string> := [];
    var counter := 0;
    while counter < |failures|
      invariant 0 <= counter <= |failures|
      invariant |reports| == counter
      invariant forall i :: 0 <= i < counter ==> DetailReadable(failures[i]) && reports[i] == Fragment(failures[i], i)
    {
      var fail := failures[counter];
      if !DetailReadable(fail) {
        return None;
      }
      reports := reports + [Fragment(fail, counter)];
      counter := counter + 1;
    }
    return Some(reports);
  }

  // ---------------------------------------------------------------------
  // Dates and times (UTC), from epoch milliseconds

  const MsPerMinute := 60000
  const MsPerHour := 3600000
  const MsPerDay := 86400000

  /** getUTCHours. */
  function UtcHours(t: int): (h: int)
    ensures 0 <= h < 24
  {
    (t / MsPerHour) % 24
  }

  /** getUTCMinutes. */
  function UtcMinutes(t: int): (m: int)
    ensures 0 <= m < 60
  {
    (t / MsPerMinute) % 60
  }

  /** Hours since the epoch are whole minutes since the epoch, divided by 60. */
  lemma HoursFromMinutes(t: int)
    ensures (t / MsPerMinute) / 60 == t / MsPerHour
  {
  }

  /** The minute of the day is the minute since the epoch, modulo a day's minutes. */
  lemma MinuteOfDay(t: int)
    ensures (t / MsPerMinute) % 1440 == (t % MsPerDay) / MsPerMinute
  {
  }

  /** Splitting a minute count into hours and minutes commutes with dropping whole days. */
  lemma ClockOfMinutes(m: int)
    ensures (m / 60) % 24 == (m % 1440) / 60
    ensures m % 60 == (m % 1440) % 60
  {
  }

  /** The hour and minute shown are the ones the time of day falls in. */
  lemma ClockWithinDay(t: int)
    ensures UtcHours(t) * MsPerHour + UtcMinutes(t) * MsPerMinute <= t % MsPerDay
    ensures t % MsPerDay < UtcHours(t) * MsPerHour + (UtcMinutes(t) + 1) * MsPerMinute
  {
    var minutes := t / MsPerMinute;
    HoursFromMinutes(t);
    MinuteOfDay(t);
    ClockOfMinutes(minutes);
  }

  /** The proleptic Gregorian (year, month, day) of a day number counted from 1970-01-01. */
  function CivilFromDays(days: int): (int, int, int) {
    var z := days + 719468;
    var era := z / 146097;
    var doe := z - era * 146097;
    var yoe := (doe - doe / 1460 + doe / 36524 - doe / 146096) / 365;
    var doy := doe - (365 * yoe + yoe / 4 - yoe / 100);
    var mp := (5 * doy + 2) / 153;
    var d := doy - (153 * mp + 2) / 5 + 1;
    var m := if mp < 10 then mp + 3 else mp - 9;
    (if m <= 2 then yoe + era * 400 + 1 else yoe + era * 400, m, d)
  }

  /** The first day of the epoch. */
  lemma CivilFromDaysAtEpoch()
    ensures CivilFromDays(0) == (1970, 1, 1)
  {
    // era, day of era, year of era, day of year, shifted month, day
    assert 719468 / 146097 == 4;
    assert (719468 - 4 * 146097) == 135080;
    assert (135080 - 135080 / 1460 + 135080 / 36524 - 135080 / 146096) / 365 == 369;
    assert 135080 - (365 * 369 + 369 / 4 - 369 / 100) == 306;
    assert (5 * 306 + 2) / 153 == 10;
    assert 306 - (153 * 10 + 2) / 5 + 1 == 1;
  }

  /** A leap day. */
  lemma CivilFromDaysLeapDay()
    ensures CivilFromDays(19782) == (2024, 2, 29)
  {
    // era, day of era, year of era, day of year, shifted month, day
    assert (19782 + 719468) / 146097 == 5;
    assert 739250 - 5 * 146097 == 8765;
    assert (8765 - 8765 / 1460 + 8765 / 36524 - 8765 / 146096) / 365 == 23;
    assert 8765 - (365 * 23 + 23 / 4 - 23 / 100) == 365;
    assert (5 * 365 + 2) / 153 == 11;
    assert 365 - (153 * 11 + 2) / 5 + 1 == 29;
  }

  /** `${getUTCDate()}/${getUTCMonth() + 1}/${getUTCFullYear()}`; an invalid date shows NaN. */
  function DateText(t: Option<int>): string {
    match t
    case None => "NaN/NaN/NaN"
    case Some(ms) =>
      var (y, m, d) := CivilFromDays(ms / MsPerDay);
      IntToString(d) + "/" + IntToString(m) + "/" + IntToString(y)
  }

  /** `${getUTCHours()}:${getUTCMinutes()}`, unpadded. */
  function ClockText(t: Option<int>): string {
    match t
    case None => "NaN:NaN"
    case Some(ms) => IntToString(UtcHours(ms)) + ":" + IntToString(UtcMinutes(ms))
  }

  // ---------------------------------------------------------------------
  // Rendering and composing the mail

  /**
   * The values the subject and the template interpolate all convert to a
   * string (the dates are shown through their getters and cannot throw).
   */
  predicate ValuesStringable(issue: Issue) {
    && Stringable(issue.orgName)
    && Stringable(issue.contactInfo)
    && Stringable(issue.reportId)
    && Stringable(issue.domain)
    && Stringable(issue.successCount)
    && Stringable(issue.failCount)
  }

  /** The subject line of the mail. */
  function MailSubject(issue: Issue): string
    requires ValuesStringable(issue)
  {
    "TLS report from " + ToStr(issue.orgName) + " has failure for " + ToStr(issue.domain)
  }

  /** The value object passed to fillTemplate, keys in the order the object literal lists them. */
  function TemplateValues(issue: Issue, fragments: seq<string>): seq<(string, string)>
    requires ValuesStringable(issue)
  {
    [ ("orgName", ToStr(issue.orgName)),
      ("contactInfo", ToStr(issue.contactInfo)),
      ("reportId", ToStr(issue.reportId)),
      ("domain", ToStr(issue.domain)),
      ("failureDetails", Join(fragments, "\r\n")),
      ("date", DateText(issue.startTime)),
      ("start", ClockText(issue.startTime)),
      ("end", ClockText(issue.endTime)),
      ("subject", "TLS report from " + ToStr(issue.orgName) + " has error for " + ToStr(issue.domain)),
      ("successCount", ToStr(issue.successCount)),
      ("failureCount", ToStr(issue.failCount)) ]
  }

  /** The message for an issue whose failure details could be rendered. */
  function Compose(c: Config, template: string, issue: Issue, fragments: seq<string>): (m: Mail)
    requires Present(c.recipient) && ValuesStringable(issue)
    ensures m.to == c.recipient.value && m.from == c.fromAddress
    ensures m.attachmentName == "report.json" && m.attachment == issue.report
    ensures m.subject == "TLS report from " + ToStr(issue.orgName) + " has failure for " + ToStr(issue.domain)
    ensures m.html == Fill(template, TemplateValues(issue, fragments))
    ensures m.text == Plaintext(m.html)
    ensures Subseq(m.text, m.html) && NoTagLeft(m.text)
  {
    var html := Fill(template, TemplateValues(issue, fragments));
    PlaintextOfHtml(html);
    Mail(c.fromAddress, c.recipient.value, MailSubject(issue), Plaintext(html), html, "report.json", issue.report)
  }

  /**
   * Everything reportIssue does before it awaits the transport, as a function
   * of the configuration, the template, the rate limiter's state and the clock.
   * The checks come in the source's order: the rate limit before the mail
   * configuration, the mail configuration before the recipient (whose absence
   * is logged with the domain), the recipient before the fragment loop, and the loop before the subject and
   * template values are converted to strings.
   */
  function Decide(c: Config, template: string, lastSentAt: int, now: int, issue: Issue): (r: Prepared)
    ensures r == Stopped(RateLimited) <==> Throttled(c, now, lastSentAt)
    ensures r == Stopped(MailNotEnabled) <==> !Throttled(c, now, lastSentAt) && !MailEnabled(c)
    ensures r == Stopped(NoRecipients) <==>
      !Throttled(c, now, lastSentAt) && MailEnabled(c) && !Present(c.recipient) && Stringable(issue.domain)
    ensures r == Stopped(BadFailureDetail) <==>
      !Throttled(c, now, lastSentAt) && MailEnabled(c) && Present(c.recipient) && !Readable(issue.failures)
    ensures r == Stopped(UnprintableValue) <==>
      !Throttled(c, now, lastSentAt) && MailEnabled(c) &&
      ((!Present(c.recipient) && !Stringable(issue.domain)) ||
       (Present(c.recipient) && Readable(issue.failures) && !ValuesStringable(issue)))
    ensures r.Ready? ==>
      Present(c.recipient) && Readable(issue.failures) && ValuesStringable(issue) &&
      r.mail == Compose(c, template, issue, Fragments(issue.failures))
  {
    if Throttled(c, now, lastSentAt) then Stopped(RateLimited)
    else if !MailEnabled(c) then Stopped(MailNotEnabled)
    else if !Present(c.recipient) then (if Stringable(issue.domain) then Stopped(NoRecipients) else Stopped(UnprintableValue))
    else if !Readable(issue.failures) then Stopped(BadFailureDetail)
    else if !ValuesStringable(issue) then Stopped(UnprintableValue)
    else Ready(Compose(c, template, issue, Fragments(issue.failures)))
  }

  /** The end of a call, once the transport has answered (if it was called at all). */
  function Finish(p: Prepared, d: Delivery): (o: Outcome)
    ensures o.Sent? <==> p.Ready? && d.Delivered?
    ensures p.Stopped? ==> o == Halted(p.reason)
  {
    match p
    case Stopped(reason) => Halted(reason)
    case Ready(mail) =>
      match d
      case Delivered(id) => Sent(mail, id)
      case Undelivered(error) => DeliveryFailed(mail, error)
  }

  /** The rate limiter's value after the calls of one request have finished, in order. */
  function LastCommit(lastSentAt: int, outcomes: seq<Outcome>, sentAts: seq<int>): (t: int)
    requires |sentAts| == |outcomes|
    ensures (forall i :: 0 <= i < |outcomes| ==> !outcomes[i].Sent?) ==> t == lastSentAt
    ensures t == lastSentAt || exists i :: 0 <= i < |outcomes| && outcomes[i].Sent? && t == sentAts[i]
    decreases |outcomes|
  {
    if outcomes == [] then lastSentAt
    else
      var n := |outcomes| - 1;
      var t := LastCommit(lastSentAt, outcomes[..n], sentAts[..n]);
      if outcomes[n].Sent? then sentAts[n] else t
  }

  /** With at least one send, the limiter ends at the clock reading of the last call sent. */
  lemma {:induction false} LastCommitIsLastSend(lastSentAt: int, outcomes: seq<Outcome>, sentAts: seq<int>, k: nat)
    requires |sentAts| == |outcomes|
    requires k < |outcomes| && outcomes[k].Sent?
    requires forall m :: k < m < |outcomes| ==> !outcomes[m].Sent?
    ensures LastCommit(lastSentAt, outcomes, sentAts) == sentAts[k]
    decreases |outcomes|
  {
    var n := |outcomes| - 1;
    if k < n {
      assert !outcomes[n].Sent?;
      LastCommitIsLastSend(lastSentAt, outcomes[..n], sentAts[..n], k);
    }
  }

  /**
   * The module state of the alert manager: the configuration and template it
   * was loaded with, and the time the last alert was sent.
   */
  class AlertManager {
    const config: Config
    const template: string
    var lastSentAt: int

    constructor (config: Config, template: string)
      ensures this.config == config && this.template == template
      ensures lastSentAt == 0
    {
      this.config := config;
      this.template := template;
      lastSentAt := 0;
    }

    /** reportIssue up to the call of the transport; it reads the rate limiter and changes nothing. */
    method Prepare(now: int, issue: Issue) returns (p: Prepared)
      ensures p == Decide(config, template, lastSentAt, now, issue)
    {
      if Throttled(config, now, lastSentAt) {
        return Stopped(RateLimited);
      }
      if !MailEnabled(config) {
        return Stopped(MailNotEnabled);
      }
      if !Present(config.recipient) {
        if !Stringable(issue.domain) {
          return Stopped(UnprintableValue);
        }
        return Stopped(NoRecipients);
      }
      var fragments := BuildFragments(issue.failures);
      if fragments.None? {
        return Stopped(BadFailureDetail);
      }
      assert fragments.value == Fragments(issue.failures);
      if !ValuesStringable(issue) {
        return Stopped(UnprintableValue);
      }
      var html := FillTemplate(template, TemplateValues(issue, fragments.value));
      PlaintextOfHtml(html);
      var mail := Mail(config.fromAddress, config.recipient.value, MailSubject(issue), Plaintext(html), html,
                       "report.json", issue.report);
      return Ready(mail);
    }

    /**
     * One reportIssue call run to its end. `now` is the clock read by the
     * rate-limit check, `sentAt` the clock read after the transport answered,
     * `delivery` the transport's answer.
     */
    method ReportIssue(now: int, sentAt: int, issue: Issue, delivery: Delivery) returns (o: Outcome)
      modifies this`lastSentAt
      ensures o == Finish(Decide(config, template, old(lastSentAt), now, issue), delivery)
      ensures lastSentAt == if o.Sent? then sentAt else old(lastSentAt)
      ensures Throttled(config, now, old(lastSentAt)) ==> o == Halted(RateLimited)
      ensures !o.Sent? ==> lastSentAt == old(lastSentAt)
    {
      var p := Prepare(now, issue);
      o := Finish(p, delivery);
      if o.Sent? {
        lastSentAt := sentAt;
      }
    }

    /** The checks of several calls made in a row without awaiting: each sees the same rate limiter. */
    method PrepareAll(now: int, issues: seq<Issue>) returns (prepared: seq<Prepared>)
      ensures |prepared| == |issues|
      ensures forall k :: 0 <= k < |issues| ==> prepared[k] == Decide(config, template, lastSentAt, now, issues[k])
    {
      prepared := [];
      var i := 0;
      while i < |issues|
        invariant 0 <= i <= |issues| && |prepared| == i
        invariant forall k :: 0 <= k < i ==> prepared[k] == Decide(config, template, lastSentAt, now, issues[k])
      {
        var p := Prepare(now, issues[i]);
        DecidedStep(config, template, lastSentAt, now, issues, prepared, p);
        prepared := prepared + [p];
        i := i + 1;
      }
    }

    /** The transport's answers arriving for prepared calls, in order; each success commits its clock reading. */
    method CommitAll(prepared: seq<Prepared>, deliveries: seq<Delivery>, sentAts: seq<int>)
      returns (outcomes: seq<Outcome>)
      requires |deliveries| == |prepared| && |sentAts| == |prepared|
      modifies this`lastSentAt
      ensures |outcomes| == |prepared|
      ensures forall k :: 0 <= k < |prepared| ==> outcomes[k] == Finish(prepared[k], deliveries[k])
      ensures lastSentAt == LastCommit(old(lastSentAt), outcomes, sentAts)
    {
      outcomes := [];
      var i := 0;
      while i < |prepared|
        invariant 0 <= i <= |prepared| && |outcomes| == i
        invariant forall k :: 0 <= k < i ==> outcomes[k] == Finish(prepared[k], deliveries[k])
        invariant lastSentAt == LastCommit(old(lastSentAt), outcomes, sentAts[..i])
      {
        var o := Finish(prepared[i], deliveries[i]);
        LastCommitStep(old(lastSentAt), outcomes, sentAts[..i], o, sentAts[i]);
        assert sentAts[..i + 1] == sentAts[..i] + [sentAts[i]];
        outcomes := outcomes + [o];
        if o.Sent? {
          lastSentAt := sentAts[i];
        }
        i := i + 1;
      }
      assert sentAts[..i] == sentAts;
    }

    /**
     * The reportIssue calls of one request, which the handler does not
     * await: every call passes its checks before any of them reaches the
     * transport, so all see the rate limiter as it was before the request;
     * each successful send then commits its own clock reading. Calls are
     * taken to finish in the order they were made.
     */
    method DispatchRequest(now: int, issues: seq<Issue>, deliveries: seq<Delivery>, sentAts: seq<int>)
      returns (outcomes: seq<Outcome>)
      requires |deliveries| == |issues| && |sentAts| == |issues|
      modifies this`lastSentAt
      ensures |outcomes| == |issues|
      ensures forall i :: 0 <= i < |issues| ==>
        outcomes[i] == Finish(Decide(config, template, old(lastSentAt), now, issues[i]), deliveries[i])
      ensures lastSentAt == LastCommit(old(lastSentAt), outcomes, sentAts)
    {
      var prepared := PrepareAll(now, issues);
      outcomes := CommitAll(prepared, deliveries, sentAts);
    }
  }

  /** One more call decided against the same state. */
  lemma DecidedStep(c: Config, template: string, lastSentAt: int, now: int, issues: seq<Issue>,
                    prepared: seq<Prepared>, p: Prepared)
    requires |prepared| < |issues|
    requires forall k :: 0 <= k < |prepared| ==> prepared[k] == Decide(c, template, lastSentAt, now, issues[k])
    requires p == Decide(c, template, lastSentAt, now, issues[|prepared|])
    ensures forall k :: 0 <= k < |prepared| + 1 ==>
      (prepared + [p])[k] == Decide(c, template, lastSentAt, now, issues[k])
  {
  }

  /** LastCommit of one more finished call. */
  lemma LastCommitStep(lastSentAt: int, outcomes: seq<Outcome>, sentAts: seq<int>, o: Outcome, t: int)
    requires |sentAts| == |outcomes|
    ensures LastCommit(lastSentAt, outcomes + [o], sentAts + [t]) ==
      if o.Sent? then t else LastCommit(lastSentAt, outcomes, sentAts)
  {
    assert (outcomes + [o])[..|outcomes|] == outcomes;
    assert (sentAts + [t])[..|sentAts|] == sentAts;
  }
}

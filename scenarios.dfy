/**
 * Clients of the alert manager: what callers can conclude from its
 * contracts alone, for a sequence of separate reports and for the calls of
 * one report.
 */
module Scenarios {
  import opened Json
  import opened Text
  import opened Alerts

  /** Mail enabled, one recipient, a cooldown of 60 seconds. */
  function SampleConfig(): Config {
    Config(Some("smtp.example.com"), Some("alerts"), Some("465"), Some("ops@example.com"),
           Some("tlsrpt@example.com"), Some(60))
  }

  function Detail(resultType: string): Value {
    Obj(map["result-type" := Str(resultType), "failed-session-count" := Num(3)])
  }

  /** A policy with two failure details. */
  function SampleIssue(domain: string): Issue {
    Issue(Obj(map[]), Str("Example Org"), Str("r-1"), Str("mailto:tls@example.org"), Str(domain),
          Some(0), Some(0), Num(10), Num(2),
          [Detail("starttls-not-supported"), Detail("certificate-expired")])
  }

  /** A sample detail shows two fields, both of which convert to strings. */
  lemma DetailPrintable(resultType: string)
    ensures DetailReadable(Detail(resultType))
  {
    var d := Detail(resultType);
    assert Get(d, "result-type") == Str(resultType);
    assert Get(d, "failed-session-count") == Num(3);
  }

  /** The sample's details and values all convert to strings. */
  lemma SamplePrintable(domain: string)
    ensures Readable(SampleIssue(domain).failures) && ValuesStringable(SampleIssue(domain))
  {
    DetailPrintable("starttls-not-supported");
    DetailPrintable("certificate-expired");
  }

  /**
   * Two reports 30 s and 61 s after a send at time 0: the first is suppressed
   * and changes nothing, the second is sent and moves the gate; a third 20 s
   * after that is suppressed again.
   */
  method SeparateReports() {
    var manager := new AlertManager(SampleConfig(), "<html>{{subject}}</html>");
    var first := manager.ReportIssue(30000, 30000, SampleIssue("example.com"), Delivered("m1"));
    assert first == Halted(RateLimited) && manager.lastSentAt == 0;
    var second := manager.ReportIssue(61000, 61200, SampleIssue("example.com"), Delivered("m2"));
    SamplePrintable("example.com");
    assert second.Sent? && manager.lastSentAt == 61200;
    assert second.mail.attachmentName == "report.json" && second.mail.to == "ops@example.com";
    var third := manager.ReportIssue(81200, 81200, SampleIssue("example.org"), Delivered("m3"));
    assert third == Halted(RateLimited) && manager.lastSentAt == 61200;
  }

  /** A failed delivery leaves the gate open for the next report. */
  method FailedDelivery() {
    var manager := new AlertManager(SampleConfig(), "{{domain}}");
    var first := manager.ReportIssue(100000, 100500, SampleIssue("example.com"), Undelivered("timeout"));
    SamplePrintable("example.com");
    assert first.DeliveryFailed? && Rejects(first) && manager.lastSentAt == 0;
    var second := manager.ReportIssue(100600, 100700, SampleIssue("example.com"), Delivered("m"));
    assert second.Sent? && manager.lastSentAt == 100700;
  }

  /**
   * Two policies with failures in one report, whatever the template and the
   * details: both calls pass the rate limit, because neither send has
   * finished when the other is checked.
   */
  method OneReportTwoPolicies(template: string, a: Issue, b: Issue)
    requires Readable(a.failures) && Readable(b.failures) && ValuesStringable(a) && ValuesStringable(b)
  {
    var manager := new AlertManager(SampleConfig(), template);
    var outcomes := manager.DispatchRequest(100000, [a, b], [Delivered("a"), Delivered("b")], [100100, 100200]);
    assert outcomes[0].Sent? && outcomes[1].Sent?;
    assert manager.lastSentAt == 100200;
  }

  /** Without mail configured the call rejects, unless the rate limit stops it first. */
  method MailDisabled() {
    var config := SampleConfig().(smtpHost := None);
    var manager := new AlertManager(config, "");
    var open := manager.ReportIssue(100000, 100000, SampleIssue("example.com"), Delivered("m"));
    assert open == Halted(MailNotEnabled) && Rejects(open);
    var early := manager.ReportIssue(10000, 10000, SampleIssue("example.com"), Delivered("m"));
    assert early == Halted(RateLimited) && !Rejects(early);
  }

  /**
   * Without a recipient the call logs the domain and resolves, but a domain
   * that will not convert to a string makes that log line throw.
   */
  method NoRecipient() {
    var config := SampleConfig().(recipient := None);
    var manager := new AlertManager(config, "");
    var plain := manager.ReportIssue(100000, 100000, SampleIssue("example.com"), Delivered("m"));
    assert plain == Halted(NoRecipients) && !Rejects(plain);
    var odd := SampleIssue("example.com").(domain := Obj(map["toString" := Num(0)]));
    var thrown := manager.ReportIssue(100000, 100000, odd, Delivered("m"));
    assert thrown == Halted(UnprintableValue) && Rejects(thrown) && manager.lastSentAt == 0;
  }
}

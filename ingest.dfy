/**
 * The inbound side: the POST handler that takes a TLS report (RFC 8460),
 * decompresses it when its content type says gzip (section 5.2 of RFC 8460),
 * parses it, and makes one reportIssue call per policy whose
 * `failure-details` array is not empty (field names from section 4.4 of
 * RFC 8460).
 */
module Ingest {
  import opened Json
  import opened Text
  import opened Alerts

  newtype byte = x: int | 0 <= x < 256

  type Bytes = seq<byte>

  /** `willDecompress`: the content-type header ends with "gzip" (case-sensitive). */
  predicate WillDecompress(contentType: string) {
    EndsWith(contentType, "gzip")
  }

  /** The two media types of section 5.2 of RFC 8460, and how the header is matched against them. */
  lemma MediaTypes()
    ensures WillDecompress("application/tlsrpt+gzip")
    ensures !WillDecompress("application/tlsrpt+json")
    ensures !WillDecompress("application/tlsrpt+GZIP")
  {
    assert "application/tlsrpt+gzip"[19..] == "gzip";
  }

  /** `do_unzip`: the decompressed bytes, or the bytes as they came when decompression fails. */
  function DoUnzip(buf: Bytes, inflate: Bytes -> Option<Bytes>): (r: Bytes)
    ensures inflate(buf).None? ==> r == buf
    ensures inflate(buf).Some? ==> r == inflate(buf).value
  {
    match inflate(buf)
    case Some(out) => out
    case None => buf
  }

  /** The bytes handed to the parser. */
  function Decode(contentType: string, raw: Bytes, inflate: Bytes -> Option<Bytes>): (r: Bytes)
    ensures !WillDecompress(contentType) ==> r == raw
    ensures inflate(raw).None? ==> r == raw
    ensures WillDecompress(contentType) && inflate(raw).Some? ==> r == inflate(raw).value
  {
    if WillDecompress(contentType) then DoUnzip(raw, inflate) else raw
  }

  /** Compressing with the inverse of `inflate` and declaring gzip gives the original bytes back. */
  lemma DecodeCompressed(contentType: string, original: Bytes, deflate: Bytes -> Bytes, inflate: Bytes -> Option<Bytes>)
    requires WillDecompress(contentType)
    requires inflate(deflate(original)) == Some(original)
    ensures Decode(contentType, deflate(original), inflate) == original
  {
  }

  /** A policy that leads to a reportIssue call: it has a non-empty `failure-details` array. */
  predicate Qualifies(policy: Value) {
    !Nullish(policy) && Get(policy, "failure-details").Arr? && |Get(policy, "failure-details").items| > 0
  }

  /** What one turn of the handler's loop does. */
  datatype Step = Throws | Skip | Emit(issue: Issue)

  /**
   * The log line of each turn converts the organisation name and the two
   * session counts to strings; it throws when one of them will not convert.
   */
  predicate Loggable(body: Value, summary: Value)
    requires !Nullish(body) && !Nullish(summary)
  {
    && Stringable(Get(body, "organization-name"))
    && Stringable(Get(summary, "total-successful-session-count"))
    && Stringable(Get(summary, "total-failure-session-count"))
  }

  /** One turn of the loop over `policies`. */
  function PolicyStep(body: Value, policy: Value, toDate: Value -> Option<int>): Step
    requires !Nullish(body)
  {
    if Nullish(policy) then Throws
    else
      var summary := Get(policy, "summary");
      var failureDetails := Get(policy, "failure-details");
      if Nullish(summary) then Throws
      else if !Loggable(body, summary) then Throws
      else if !(failureDetails.Arr? && |failureDetails.items| > 0) then Skip
      else
        var dateRange := Get(body, "date-range");
        if Nullish(dateRange) then Throws
        else if !Stringable(Get(dateRange, "start-datetime")) then Throws
        else
          var identity := Get(policy, "policy");
          if Nullish(identity) then Throws
          else
            var start := toDate(Get(dateRange, "start-datetime"));
            Emit(Issue(body, Get(body, "organization-name"), Get(body, "report-id"), Get(body, "contact-info"),
                       Get(identity, "policy-domain"), start, start,
                       Get(summary, "total-successful-session-count"), Get(summary, "total-failure-session-count"),
                       failureDetails.items))
  }

  /**
   * What one turn does. Destructuring a null policy or a null `summary`
   * throws; so does reading `date-range` or `policy` when they are missing,
   * but only for a policy with failures. Both ends of the range are read
   * from `start-datetime`.
   */
  lemma PolicyStepMeaning(body: Value, policy: Value, toDate: Value -> Option<int>, r: Step)
    requires !Nullish(body) && r == PolicyStep(body, policy, toDate)
    ensures r.Skip? <==>
      !Nullish(policy) && !Nullish(Get(policy, "summary")) && Loggable(body, Get(policy, "summary")) && !Qualifies(policy)
    ensures r.Emit? ==> Qualifies(policy) && !Nullish(Get(policy, "summary")) && !Nullish(Get(policy, "policy"))
    ensures r.Emit? ==> Loggable(body, Get(policy, "summary"))
    ensures r.Emit? ==>
      !Nullish(Get(body, "date-range")) && Stringable(Get(Get(body, "date-range"), "start-datetime"))
    ensures r.Emit? ==>
      && r.issue.report == body
      && r.issue.orgName == Get(body, "organization-name")
      && r.issue.reportId == Get(body, "report-id")
      && r.issue.contactInfo == Get(body, "contact-info")
      && r.issue.domain == Get(Get(policy, "policy"), "policy-domain")
      && r.issue.successCount == Get(Get(policy, "summary"), "total-successful-session-count")
      && r.issue.failCount == Get(Get(policy, "summary"), "total-failure-session-count")
      && r.issue.failures == Get(policy, "failure-details").items
      && r.issue.startTime == r.issue.endTime == toDate(Get(Get(body, "date-range"), "start-datetime"))
    ensures (Qualifies(policy) && !Nullish(Get(policy, "summary")) && !Nullish(Get(policy, "policy"))
      && Loggable(body, Get(policy, "summary"))
      && !Nullish(Get(body, "date-range")) && Stringable(Get(Get(body, "date-range"), "start-datetime"))) ==> r.Emit?
  {
  }

  /** The reportIssue calls the loop made, and whether it ended by throwing. */
  datatype Extraction = Extraction(issued: seq<Issue>, aborted: bool)

  /** Turns of the loop taken in order, up to the end or the first throw. */
  function Run(steps: seq<Step>): Extraction
    decreases |steps|
  {
    if steps == [] then Extraction([], false)
    else
      match steps[0]
      case Throws => Extraction([], true)
      case Skip => Run(steps[1..])
      case Emit(issue) =>
        var rest := Run(steps[1..]);
        Extraction([issue] + rest.issued, rest.aborted)
  }

  /** The turn each policy leads to. */
  function Steps(body: Value, policies: seq<Value>, toDate: Value -> Option<int>): (steps: seq<Step>)
    requires !Nullish(body)
    ensures |steps| == |policies|
    ensures forall i :: 0 <= i < |policies| ==> steps[i] == PolicyStep(body, policies[i], toDate)
  {
    seq(|policies|, i requires 0 <= i < |policies| => PolicyStep(body, policies[i], toDate))
  }

  /** The loop over `policies`, in order, up to its end or its first throw. */
  function Extract(body: Value, policies: seq<Value>, toDate: Value -> Option<int>): Extraction
    requires !Nullish(body)
  {
    Run(Steps(body, policies, toDate))
  }

  /** No turn of the loop throws. */
  predicate Completes(body: Value, policies: seq<Value>, toDate: Value -> Option<int>)
    requires !Nullish(body)
  {
    forall i :: 0 <= i < |policies| ==> !PolicyStep(body, policies[i], toDate).Throws?
  }

  /** Running two stretches of turns is running the first, then (unless it threw) the second. */
  lemma {:induction false} RunAppend(s: seq<Step>, t: seq<Step>)
    ensures Run(s + t) ==
      if Run(s).aborted then Run(s) else Extraction(Run(s).issued + Run(t).issued, Run(t).aborted)
    decreases |s|
  {
    if s == [] {
      assert s + t == t;
    } else {
      assert (s + t)[0] == s[0] && (s + t)[1..] == s[1..] + t;
      RunAppend(s[1..], t);
      if s[0].Emit? {
        assert [s[0].issue] + (Run(s[1..]).issued + Run(t).issued) == [s[0].issue] + Run(s[1..]).issued + Run(t).issued;
      }
    }
  }

  /** The loop over a concatenation is the loop over the first part, then (unless it threw) over the second. */
  lemma ExtractAppend(body: Value, a: seq<Value>, b: seq<Value>, toDate: Value -> Option<int>)
    requires !Nullish(body)
    ensures Extract(body, a + b, toDate) ==
      if Extract(body, a, toDate).aborted then Extract(body, a, toDate)
      else Extraction(Extract(body, a, toDate).issued + Extract(body, b, toDate).issued, Extract(body, b, toDate).aborted)
  {
    assert Steps(body, a + b, toDate) == Steps(body, a, toDate) + Steps(body, b, toDate);
    RunAppend(Steps(body, a, toDate), Steps(body, b, toDate));
  }

  /** No policies, no turns: the loop neither calls nor throws. */
  lemma ExtractEmpty(body: Value, toDate: Value -> Option<int>)
    requires !Nullish(body)
    ensures Extract(body, [], toDate) == Extraction([], false)
  {
    assert Steps(body, [], toDate) == [];
  }

  /** The loop unfolded once, by the kind of turn the first policy takes. */
  lemma ExtractCons(body: Value, policies: seq<Value>, toDate: Value -> Option<int>)
    requires !Nullish(body) && policies != []
    ensures Extract(body, policies, toDate) ==
      match PolicyStep(body, policies[0], toDate)
      case Throws => Extraction([], true)
      case Skip => Extract(body, policies[1..], toDate)
      case Emit(issue) =>
        Extraction([issue] + Extract(body, policies[1..], toDate).issued, Extract(body, policies[1..], toDate).aborted)
  {
    assert Steps(body, policies, toDate)[1..] == Steps(body, policies[1..], toDate);
  }

  /** The loop throws exactly when some turn throws. */
  lemma {:induction false} ExtractAbortsIffThrow(body: Value, policies: seq<Value>, toDate: Value -> Option<int>)
    requires !Nullish(body)
    ensures Extract(body, policies, toDate).aborted <==> !Completes(body, policies, toDate)
    decreases |policies|
  {
    if policies != [] {
      ExtractCons(body, policies, toDate);
      ExtractAbortsIffThrow(body, policies[1..], toDate);
      if !Completes(body, policies[1..], toDate) {
        var i :| 0 <= i < |policies[1..]| && PolicyStep(body, policies[1..][i], toDate).Throws?;
        assert PolicyStep(body, policies[i + 1], toDate).Throws?;
      }
      if Completes(body, policies[1..], toDate) && !PolicyStep(body, policies[0], toDate).Throws? {
        forall i | 0 <= i < |policies|
          ensures !PolicyStep(body, policies[i], toDate).Throws?
        {
          if i > 0 {
            assert policies[i] == policies[1..][i - 1];
          }
        }
      }
    }
  }

  /** The policies that qualify, in their order: the reference for which calls are made. */
  function QualifyingPolicies(policies: seq<Value>): (q: seq<Value>)
    ensures forall p :: p in q ==> Qualifies(p) && p in policies
    decreases |policies|
  {
    if policies == [] then []
    else
      var n := |policies| - 1;
      QualifyingPolicies(policies[..n]) + if Qualifies(policies[n]) then [policies[n]] else []
  }

  /**
   * When no turn throws, exactly one call is made per qualifying policy, in
   * policy order, and it is the call that policy's turn makes.
   */
  lemma {:induction false} ExtractOnePerQualifyingPolicy(body: Value, policies: seq<Value>, toDate: Value -> Option<int>)
    requires !Nullish(body)
    requires Completes(body, policies, toDate)
    ensures !Extract(body, policies, toDate).aborted
    ensures |Extract(body, policies, toDate).issued| == |QualifyingPolicies(policies)|
    ensures forall k :: 0 <= k < |QualifyingPolicies(policies)| ==>
      PolicyStep(body, QualifyingPolicies(policies)[k], toDate) == Emit(Extract(body, policies, toDate).issued[k])
    decreases |policies|
  {
    if policies != [] {
      var n := |policies| - 1;
      var init, last := policies[..n], policies[n];
      assert policies == init + [last];
      assert Completes(body, init, toDate) by {
        forall i | 0 <= i < |init| ensures !PolicyStep(body, init[i], toDate).Throws? {
          assert init[i] == policies[i];
        }
      }
      ExtractOnePerQualifyingPolicy(body, init, toDate);
      ExtractAppend(body, init, [last], toDate);
      ExtractCons(body, [last], toDate);
      assert [last][1..] == [];
      assert !PolicyStep(body, policies[n], toDate).Throws?;
    }
  }

  /** A report in which no policy qualifies leads to no call at all, whether or not the loop throws. */
  lemma {:induction false} NoFailuresNoCalls(body: Value, policies: seq<Value>, toDate: Value -> Option<int>)
    requires !Nullish(body)
    requires forall i :: 0 <= i < |policies| ==> !Qualifies(policies[i])
    ensures Extract(body, policies, toDate).issued == []
    decreases |policies|
  {
    if policies != [] {
      assert !Qualifies(policies[0]);
      ExtractCons(body, policies, toDate);
      NoFailuresNoCalls(body, policies[1..], toDate);
    }
  }

  /** Calls made before the first throwing turn stay made; nothing after it runs. */
  lemma ExtractStopsAtThrow(body: Value, policies: seq<Value>, toDate: Value -> Option<int>, i: nat)
    requires !Nullish(body)
    requires i < |policies| && PolicyStep(body, policies[i], toDate).Throws?
    requires Completes(body, policies[..i], toDate)
    ensures Extract(body, policies, toDate) == Extraction(Extract(body, policies[..i], toDate).issued, true)
  {
    assert policies == policies[..i] + policies[i..];
    ExtractAppend(body, policies[..i], policies[i..], toDate);
    ExtractAbortsIffThrow(body, policies[..i], toDate);
    assert policies[i..][0] == policies[i];
    ExtractCons(body, policies[i..], toDate);
  }

  /** The handler's answer and the reportIssue calls it made. */
  datatype Response = Response(status: nat, issued: seq<Issue>)

  /**
   * The second handler, on the parsed body: a null body, or a turn of the loop
   * that throws, ends in the error path (500) after the calls already made.
   */
  function Handle(body: Value, toDate: Value -> Option<int>): (r: Response)
    ensures r.status == 204 || r.status == 500
    ensures Nullish(body) ==> r == Response(500, [])
  {
    if Nullish(body) then Response(500, [])
    else
      var policies := Get(body, "policies");
      if !policies.Arr? then Response(204, [])
      else
        var e := Extract(body, policies.items, toDate);
        Response(if e.aborted then 500 else 204, e.issued)
  }

  /** A request, from its content-type header and raw bytes to the handlers' answer. */
  function HandleRequest(contentType: Option<string>, raw: Bytes, inflate: Bytes -> Option<Bytes>,
                         parse: Bytes -> Option<Value>, toDate: Value -> Option<int>): (r: Response)
    ensures contentType.Some? && parse(Decode(contentType.value, raw, inflate)).None? ==> r == Response(500, [])
    ensures contentType.None? ==> r == Response(500, [])
  {
    match contentType
    case None => Response(500, [])
    case Some(ct) =>
      match parse(Decode(ct, raw, inflate))
      case None => Response(500, [])
      case Some(body) => Handle(body, toDate)
  }

  /** Without a `policies` array no call is made and the answer is 204. */
  lemma NoPoliciesArray(body: Value, toDate: Value -> Option<int>)
    requires !Nullish(body) && !Get(body, "policies").Arr?
    ensures Handle(body, toDate) == Response(204, [])
  {
  }

  /**
   * The answer is 204 exactly when the loop runs to its end, and then the
   * calls made are one per qualifying policy, in order.
   */
  lemma HandleStatus(body: Value, toDate: Value -> Option<int>)
    requires !Nullish(body) && Get(body, "policies").Arr?
    ensures Handle(body, toDate).status == 204 <==> Completes(body, Get(body, "policies").items, toDate)
    ensures Handle(body, toDate).status == 204 ==>
      |Handle(body, toDate).issued| == |QualifyingPolicies(Get(body, "policies").items)|
    ensures Handle(body, toDate).status == 204 ==>
      forall k :: 0 <= k < |QualifyingPolicies(Get(body, "policies").items)| ==>
        PolicyStep(body, QualifyingPolicies(Get(body, "policies").items)[k], toDate) == Emit(Handle(body, toDate).issued[k])
  {
    var policies := Get(body, "policies").items;
    ExtractAbortsIffThrow(body, policies, toDate);
    if Completes(body, policies, toDate) {
      ExtractOnePerQualifyingPolicy(body, policies, toDate);
    }
  }

  /** Every call of a request has the same start and end time, both from `start-datetime`. */
  lemma RangeFromStartOnly(body: Value, toDate: Value -> Option<int>)
    ensures forall issue :: issue in Handle(body, toDate).issued ==>
      !Nullish(Get(body, "date-range")) &&
      issue.startTime == issue.endTime == toDate(Get(Get(body, "date-range"), "start-datetime"))
  {
    if !Nullish(body) && Get(body, "policies").Arr? {
      var policies := Get(body, "policies").items;
      forall issue | issue in Handle(body, toDate).issued
        ensures !Nullish(Get(body, "date-range"))
        ensures issue.startTime == issue.endTime == toDate(Get(Get(body, "date-range"), "start-datetime"))
      {
        IssuedFromSteps(body, policies, toDate, issue);
      }
    }
  }

  /**
   * Every call of a request comes after its turn's log line: the organisation
   * name and the two session counts it carries all convert to strings.
   */
  lemma IssuedLogged(body: Value, toDate: Value -> Option<int>)
    ensures forall issue :: issue in Handle(body, toDate).issued ==>
      Stringable(issue.orgName) && Stringable(issue.successCount) && Stringable(issue.failCount)
  {
    if !Nullish(body) && Get(body, "policies").Arr? {
      var policies := Get(body, "policies").items;
      forall issue | issue in Handle(body, toDate).issued
        ensures Stringable(issue.orgName) && Stringable(issue.successCount) && Stringable(issue.failCount)
      {
        IssuedFromSteps(body, policies, toDate, issue);
        var i :| 0 <= i < |policies| && PolicyStep(body, policies[i], toDate) == Emit(issue);
        PolicyStepMeaning(body, policies[i], toDate, Emit(issue));
      }
    }
  }

  /** Every call the loop makes is the call of some policy's turn. */
  lemma {:induction false} IssuedFromSteps(body: Value, policies: seq<Value>, toDate: Value -> Option<int>, issue: Issue)
    requires !Nullish(body)
    requires issue in Extract(body, policies, toDate).issued
    ensures exists i :: 0 <= i < |policies| && PolicyStep(body, policies[i], toDate) == Emit(issue)
    decreases |policies|
  {
    ExtractEmpty(body, toDate);
    ExtractCons(body, policies, toDate);
    var step := PolicyStep(body, policies[0], toDate);
    if step == Emit(issue) {
      assert 0 < |policies| && PolicyStep(body, policies[0], toDate) == Emit(issue);
    } else {
      IssuedFromSteps(body, policies[1..], toDate, issue);
      var i :| 0 <= i < |policies[1..]| && PolicyStep(body, policies[1..][i], toDate) == Emit(issue);
      assert policies[1..][i] == policies[i + 1];
    }
  }

  /**
   * A request served end to end: the handlers answer, then the reportIssue
   * calls they made run against the alert manager, all decided against the
   * rate limiter as it was before the request. The answer does not depend on
   * what the calls do, and an unusable request leaves the rate limiter alone.
   */
  method Serve(manager: AlertManager, now: int, contentType: Option<string>, raw: Bytes,
               inflate: Bytes -> Option<Bytes>, parse: Bytes -> Option<Value>, toDate: Value -> Option<int>,
               deliveries: seq<Delivery>, sentAts: seq<int>)
    returns (status: nat, outcomes: seq<Outcome>)
    requires |deliveries| == |HandleRequest(contentType, raw, inflate, parse, toDate).issued|
    requires |sentAts| == |deliveries|
    modifies manager`lastSentAt
    ensures status == HandleRequest(contentType, raw, inflate, parse, toDate).status
    ensures |outcomes| == |deliveries|
    ensures forall i :: 0 <= i < |outcomes| ==>
      outcomes[i] == Finish(Decide(manager.config, manager.template, old(manager.lastSentAt), now,
                                   HandleRequest(contentType, raw, inflate, parse, toDate).issued[i]), deliveries[i])
    ensures manager.lastSentAt == LastCommit(old(manager.lastSentAt), outcomes, sentAts)
    ensures HandleRequest(contentType, raw, inflate, parse, toDate).issued == [] ==>
      outcomes == [] && manager.lastSentAt == old(manager.lastSentAt)
  {
    var response := HandleRequest(contentType, raw, inflate, parse, toDate);
    status := response.status;
    outcomes := manager.DispatchRequest(now, response.issued, deliveries, sentAts);
  }
}

# TLS-RPT alert service, modelled in Dafny

The service receives SMTP TLS reports (RFC 8460) over HTTP POST. It may
gunzip a report, then parses it as JSON. For every policy in the report
that lists failure details, it calls `reportIssue`, which sends one alert
e-mail through an SMTP transport. A process-wide rate limiter sits in front
of the mail: `lastEmailSentAt` is the time of the last successful send, and
a call arriving less than `EMAIL_COOLDOWN` seconds after it sends nothing.

The model covers the two core files.

- `alerts.mjs` is modelled in `alerts.dfy`, `template.dfy` and `markup.dfy`:
  - the implicit-TLS port decision;
  - the rate limiter as a class `Alerts.AlertManager` whose field `lastSentAt` the calls update;
  - the guards in source order: rate limit, then mail enabled, then recipient;
  - the loop that builds one HTML fragment per failure detail (`BuildFragments`);
  - `fillTemplate` (`Template.FillTemplate`, a loop over the keys, specified by the function `Template.Fill`);
  - the derivation of the plaintext body from the HTML body (`Markup.Plaintext`);
  - the commit of the rate limiter after a successful send.
- `index.mjs` is modelled in `ingest.dfy`:
  - the decompression decision (`willDecompress`) and the fallback of `do_unzip`;
  - the loop over `policies`, including the ways it can throw;
  - the HTTP status the two handlers end in.
- Helper modules:
  - `json.dfy` holds JavaScript values: property access that throws on null and undefined, truthiness, and `String(v)`.
  - `text.dfy` holds string search and the subsequence relation.
  - `decimal.dfy` holds decimal number text.
  - `scenarios.dfy` holds client methods that drive the alert manager through example sequences.

Clock readings, the mail transport's answer, decompression, JSON parsing
and date parsing are parameters of the model. `now` is the clock read by
the rate-limit check. `sentAt` is the clock read after the transport
answered; the source reads `Date.now()` twice. A `Delivery` is what
`sendMail` resolved or rejected with. `inflate`, `parse` and `toDate` stand
for zlib's `unzip`, `JSON.parse` of the UTF-8 text, and `new Date(...)`.

Behaviour of the code worth knowing, which the model follows:

- The handler does not always answer 204 once the body has parsed. The second handler throws a `TypeError` on:
  - a null body;
  - a null policy;
  - a missing `summary`;
  - an organisation name or session count that the log line cannot convert to a string;
  - a missing `date-range` or `policy` object in a policy with failures;
  - a `start-datetime` that `new Date` cannot convert.

  Express then answers 500, and the `reportIssue` calls already made stay made (`Ingest.Handle`, `Ingest.HandleStatus`, `Ingest.ExtractStopsAtThrow`).
- The `reportIssue` calls of one request are not awaited, so they do not pass the rate limit one after another. Every call of one request passes its checks before any send completes. So two policies with failures can both be mailed even with a cooldown in force (`Alerts.AlertManager.DispatchRequest`, `Scenarios.OneReportTwoPolicies`).
- JavaScript's string conversion throws a `TypeError` on a parsed object with its own `toString` field, because that field cannot be called and `valueOf` gives back the object itself. An array throws when one of its elements does. This reaches the log line of each turn, `new Date(start-datetime)`, the domain in the no-recipient log line of `reportIssue` (alerts.mjs:67), the fields of a failure detail shown in its fragment, the subject line and the template values (`Json.Stringable`, `Ingest.PolicyStep`, `Alerts.BuildFragments`, `Alerts.Decide`). In `reportIssue` such a value rejects the call's promise before the send.
- The commit stores a second clock reading, taken after the send, not the `now` of the check.
- The subject of the mail says "has failure for", while the `subject` value offered to the template says "has error for" (`Alerts.Compose`, `Alerts.TemplateValues`).
- An unset or non-numeric `EMAIL_COOLDOWN` makes the cooldown NaN. The comparison is then false, and the rate limit never applies (`Alerts.Throttled`).
- Both `startTime` and `endTime` of an issue come from `start-datetime`; `end-datetime` is never read (`Ingest.RangeFromStartOnly`).

## Model

| member | source | states |
|---|---|---|
| Alerts.Present | alerts.mjs:16 | an environment string is truthy: set and not empty; also the recipient test at alerts.mjs:66 |
| Alerts.MailEnabled | alerts.mjs:16 | mail is enabled exactly when SMTP_HOST and SMTP_USERNAME are both set and not empty |
| Alerts.Throttled | alerts.mjs:62 | a call is rate-limited exactly when less than the cooldown, in milliseconds, has passed since the last send; a NaN cooldown never limits |
| Alerts.UseImplicitTls | alerts.mjs:19-21 | the transport is `secure` exactly when SMTP_PORT is the text "465", "8465" or "443"; "587", "25" and "0465" are not secure |
| Alerts.Row | alerts.mjs:77-80 | one two-cell row of a fragment, with the line breaks and indentation of the template literal |
| Alerts.Cells | alerts.mjs:78-99 | the six headings of a fragment, in order, each with the field of the detail it shows; the receiver row shows the host name and the IP in brackets |
| Alerts.Fragment | alerts.mjs:73-101 | the fragment of a detail: the "Failure <counter>" label, then the six rows, then the closing tag |
| Alerts.InfoCell | alerts.mjs:72 | the additional-information cell is empty exactly when `additional-info-uri` is not truthy |
| Alerts.DetailReadable | alerts.mjs:70-99 | a failure detail whose fragment can be built: it is not null or undefined, and every field the fragment shows converts to a string, the `additional-info-uri` only when it is truthy |
| Alerts.FragmentLabelled | alerts.mjs:73-75 | the fragment built at position `counter` starts with the fixed label and reads back as "Failure counter" |
| Alerts.FragmentsDistinct | alerts.mjs:70-101 | fragments built at different positions differ, whatever the details contain |
| Alerts.BuildFragments | alerts.mjs:69-102 | the loop succeeds exactly when every failure detail is readable: none is null or undefined, and every field its fragment shows converts to a string; it then yields one fragment per detail, in order, fragment i built from detail i with counter i |
| Alerts.DateText | alerts.mjs:113 | day/month/year of the UTC date, unpadded, month counted from 1; "NaN/NaN/NaN" for an invalid date |
| Alerts.ClockText | alerts.mjs:114-115 | hours:minutes of the UTC time, unpadded; "NaN:NaN" for an invalid date |
| Alerts.CivilFromDays | alerts.mjs:113 | the proleptic Gregorian year, month and day of a day number counted from 1 January 1970 |
| Alerts.UtcHours | alerts.mjs:114 | getUTCHours lies in 0..23 |
| Alerts.UtcMinutes | alerts.mjs:114 | getUTCMinutes lies in 0..59 |
| Alerts.ClockWithinDay | alerts.mjs:114-115 | the hour and minute shown bracket the instant's time of day: h*3600000 + m*60000 <= t mod day < that plus one minute |
| Alerts.CivilFromDaysAtEpoch | alerts.mjs:113 | day 0 is shown as 1/1/1970 |
| Alerts.CivilFromDaysLeapDay | alerts.mjs:113 | day 19782 is 29/2/2024 |
| Alerts.ValuesStringable | alerts.mjs:107-125 | the six values the subject and the template interpolate all convert to a string |
| Alerts.MailSubject | alerts.mjs:125 | "TLS report from <orgName> has failure for <domain>", each value written as String writes it |
| Alerts.TemplateValues | alerts.mjs:107-119 | the eleven keys in the order the object literal lists them, with their values; `subject` says "has error for" |
| Alerts.Compose | alerts.mjs:107-134 | the mail goes from FROM_ADDRESS to RECIPIENT; its subject is "TLS report from <orgName> has failure for <domain>"; it attaches the whole report as `report.json`; its HTML body is the template filled with the eleven values; its text body is Plaintext of the HTML body, hence a subsequence of it with nothing tag-like left |
| Alerts.Decide | alerts.mjs:62-126 | each halt happens exactly when its guard fails and every earlier guard passed: rate limit, then mail enabled, then a recipient (without one, the call halts as NoRecipients only when the logged domain converts to a string, and otherwise rejects), then readable failure details, then values that convert to strings; otherwise the mail Compose builds from the fragments of the failure details |
| Alerts.Rejects | alerts.mjs:64-67 | the call's promise rejects exactly on the thrown Error of disabled mail (alerts.mjs:64), a TypeError from the no-recipient log line (alerts.mjs:67), the fragment loop (alerts.mjs:70-99), the subject literals (alerts.mjs:116, alerts.mjs:125) or the replace (alerts.mjs:52), and a failed send (alerts.mjs:122-134); a rate-limited or no-recipient call resolves |
| Alerts.Finish | alerts.mjs:122-135 | a call ends as sent exactly when it reached the transport and the transport succeeded; a halted call ends with its halt reason |
| Alerts.LastCommit | alerts.mjs:135 | after a request's calls, the limiter holds either its old value or the clock reading of a call that was sent; with no send it is unchanged |
| Alerts.LastCommitIsLastSend | alerts.mjs:135 | when some call was sent, the limiter ends at the clock reading of the last call sent |
| Alerts.AlertManager.constructor | alerts.mjs:39 | the limiter starts at 0 |
| Alerts.AlertManager.Prepare | alerts.mjs:62-119 | the checks, fragment loop and template fill of one call, read against the limiter without changing it, give Decide's answer |
| Alerts.AlertManager.ReportIssue | alerts.mjs:57-137 | the outcome is Finish of Decide against the limiter before the call; the limiter moves to the second clock reading exactly when the mail was sent, and a throttled call is halted with the limiter unchanged |
| Alerts.AlertManager.PrepareAll | alerts.mjs:62-119 | calls started in a row, before any of them awaits, all decide against the same limiter value |
| Alerts.AlertManager.CommitAll | alerts.mjs:122-135 | answers arriving in order give each call Finish of its decision, and the limiter ends at LastCommit of the outcomes |
| Alerts.AlertManager.DispatchRequest | index.mjs:58-71 | the un-awaited calls of one request are all decided against the limiter from before the request, and the limiter ends at LastCommit of the outcomes: the reading of the last call sent, or its old value when none was sent |
| Template.Token | alerts.mjs:51 | the token of a key is four characters longer than the key |
| Template.TokenBraces | alerts.mjs:51 | in the token of a brace-free key, braces are exactly its first two and last two characters, and the key lies between them |
| Template.TokenAbsentFromOther | alerts.mjs:51 | the token of one brace-free key does not occur in the token of another |
| Template.ReplaceKeepsOccurrence | alerts.mjs:51-52 | an occurrence of a text that no match of the token overlaps comes through the global replace intact, between the replaced text before it and the replaced text after it |
| Template.ReplaceAll | alerts.mjs:51-52 | the global replace of a literal token: scans from the left, replaces each match, resumes behind it |
| Template.Fill | alerts.mjs:48-53 | the template after replacing the tokens of the keys one key after another, in key order |
| Template.ReplaceAbsent | alerts.mjs:51-52 | a text without the token is unchanged by the global replace |
| Template.ReplaceLeftmost | alerts.mjs:51-52 | the global replace substitutes the leftmost occurrence and continues after it, never rescanning the inserted value |
| Template.ReplaceBySelf | alerts.mjs:51-52 | replacing a token by its own text changes nothing |
| Template.FillAppend | alerts.mjs:48-53 | keys are applied in order: filling with a + b is filling with a, then with b |
| Template.FillWithoutTokens | alerts.mjs:45-55 | a template holding none of the tokens comes back unchanged |
| Template.FillIgnoresAbsentKey | alerts.mjs:48-53 | a key whose token is not in the text it meets can be dropped without changing the result |
| Template.FillTwoTokens | alerts.mjs:45-55 | "{{x}}{{y}}" filled with x=A, y=B renders as "AB" |
| Template.FillKeepsUnknownToken | alerts.mjs:45-55 | with brace-free keys, a token of a key that is not among the keys still occurs in the output, for every template and every list of values |
| Template.FillResubstitutes | alerts.mjs:48-53 | with brace-free keys, the value put in for a key's token is searched by every later key and by no earlier one: filling `{{key}}` gives the value filled with the later keys only |
| Template.FillTemplate | alerts.mjs:45-55 | the loop over the keys, reassigning the text, yields Fill of the template with all values in key order |
| Markup.RemoveHead | alerts.mjs:126 | the first replacement: the match of `<head>[\s\S]*</head>` is cut out, or nothing when there is none |
| Markup.StripTags | alerts.mjs:126 | the second replacement: each `<` with a `>` behind it starts a match up to the first such `>`, which is removed |
| Markup.Plaintext | alerts.mjs:126 | the text body: the head block removed, then every tag |
| Markup.FindBlock | alerts.mjs:126 | a match found for `open[\s\S]*close` lies inside the text, with `close` starting after the end of `open` |
| Markup.FindBlockLeftmostLongest | alerts.mjs:126 | the match found starts at the leftmost `open` and ends at the last `close` of any match; nothing is found only when the text holds no match |
| Markup.RemoveHeadCutsLeftmostLongest | alerts.mjs:126 | the first replacement cuts the leftmost `<head>...</head>` block, extended to the last `</head>` after it; without such a block the text is unchanged |
| Markup.RemoveHeadSubseq | alerts.mjs:126 | removing the head block only deletes characters |
| Markup.StripTagsSubseq | alerts.mjs:126 | stripping tags only deletes characters |
| Markup.StripTagsLeavesNoTag | alerts.mjs:126 | after stripping, no `<` is followed anywhere later by a `>` |
| Markup.StripTagsKeepsPlainText | alerts.mjs:126 | text with nothing tag-like is left unchanged by stripping |
| Markup.StripTagsCutsTag | alerts.mjs:126 | a tag is cut out whole and the text before it, holding no `<`, is kept: `x<y>z` strips to x followed by z stripped |
| Markup.StripTagsIdempotent | alerts.mjs:126 | stripping twice equals stripping once |
| Markup.PlaintextOfHtml | alerts.mjs:126 | the text body is a subsequence of the HTML body and contains no tag |
| Text.FindFirst | alerts.mjs:126 | an occurrence found lies at or after the start of the search |
| Text.FindFirstLeftmost | alerts.mjs:126 | no occurrence lies before the one found, and none at all when nothing is found |
| Text.FindLast | alerts.mjs:126 | an occurrence found lies at or after the bound |
| Text.FindLastRightmost | alerts.mjs:126 | no occurrence lies after the one found, and none at or after the bound when nothing is found |
| Text.Join | alerts.mjs:112 | joining no fragments gives the empty text, and joining one fragment gives that fragment |
| Text.JoinAppend | alerts.mjs:112 | one more fragment is appended behind the separator, so the fragments appear in input order separated by "\r\n" |
| Json.Truthy | alerts.mjs:72 | JavaScript truthiness, as the `additional-info-uri` test uses it: undefined, null, false, 0 and the empty string are falsy |
| Json.Get | index.mjs:59-60 | reading a property of a non-nullish value gives the parsed field when present, otherwise undefined |
| Json.Stringable | alerts.mjs:79 | String(v) does not throw: v is not an object with its own `toString` field, nor an array with such an element |
| Json.ToStr | alerts.mjs:79 | for a value that converts, a string interpolates as itself, and undefined as "undefined" |
| Decimal.NatToString | alerts.mjs:75 | the counter is written as non-empty decimal digits without a leading zero |
| Decimal.IntToString | alerts.mjs:113-115 | a number's text is non-empty and starts with '-' exactly when the number is negative |
| Decimal.NatToStringRoundTrip | alerts.mjs:75 | reading the digits back gives the counter again |
| Decimal.NatToStringInjective | alerts.mjs:75 | different counters have different texts |
| Ingest.WillDecompress | index.mjs:37 | the content-type header ends with "gzip", compared case-sensitively |
| Ingest.MediaTypes | index.mjs:37 | `application/tlsrpt+gzip` is decompressed; `application/tlsrpt+json` and the upper-case `+GZIP` are not |
| Ingest.DoUnzip | index.mjs:16-23 | the decompressed bytes when decompression succeeds, otherwise the input bytes unchanged |
| Ingest.Decode | index.mjs:37-39 | the bytes are decompressed only when the content type ends in "gzip", and they pass through unchanged when decompression fails |
| Ingest.DecodeCompressed | index.mjs:37-39 | a body compressed by the inverse of inflate and labelled gzip decodes to the original bytes |
| Ingest.Loggable | index.mjs:59-61 | the log line of a turn converts: the organisation name and both session counts convert to strings |
| Ingest.PolicyStep | index.mjs:58-69 | one turn of the loop: throws on a nullish policy or summary or a log line that does not convert, skips a policy without failure details, throws on a missing `date-range`, a `start-datetime` that does not convert or a missing `policy`, and otherwise makes its call |
| Ingest.Run | index.mjs:58-71 | the turns taken in order, collecting the calls, stopping at the first throw |
| Ingest.Extract | index.mjs:58-71 | the loop over `policies`: Run of each policy's turn |
| Ingest.PolicyStepMeaning | index.mjs:59-68 | one loop turn skips exactly when the policy and its summary are readable, its log line converts, and it has no failure details; it emits exactly when it qualifies, its log line converts, `date-range` and `policy` are present and `start-datetime` converts, with the issue fields taken from the named properties and both times from `start-datetime`; otherwise it throws |
| Ingest.RunAppend | index.mjs:58-71 | running two stretches of turns is running the first, then the second unless the first threw |
| Ingest.ExtractAppend | index.mjs:58-71 | looping over a + b is looping over a, then over b unless a threw |
| Ingest.ExtractEmpty | index.mjs:57-58 | an empty `policies` array makes no call and does not throw |
| Ingest.ExtractAbortsIffThrow | index.mjs:58-71 | the loop aborts exactly when some turn throws |
| Ingest.Qualifies | index.mjs:64 | a policy leads to a call exactly when its `failure-details` is an array with at least one element |
| Ingest.QualifyingPolicies | index.mjs:64 | every policy selected has a non-empty `failure-details` array and comes from the input |
| Ingest.ExtractOnePerQualifyingPolicy | index.mjs:58-71 | when no turn throws, there is exactly one call per qualifying policy, in order, and call k is the issue that policy's turn builds |
| Ingest.NoFailuresNoCalls | index.mjs:64-69 | a report where no policy has failure details leads to no call |
| Ingest.ExtractStopsAtThrow | index.mjs:58-71 | at the first throwing turn the loop stops; the calls made before it stay made and nothing after it runs |
| Ingest.IssuedFromSteps | index.mjs:58-69 | every call made is the issue of some policy's turn |
| Ingest.Handle | index.mjs:49-76 | the second handler answers 204 or 500, and 500 with no call for a null body |
| Ingest.HandleRequest | index.mjs:36-48 | a missing content-type header or an unparseable body answers 500 with no call |
| Ingest.NoPoliciesArray | index.mjs:57 | without a `policies` array the answer is 204 and no call is made |
| Ingest.HandleStatus | index.mjs:57-75 | with a `policies` array the answer is 204 exactly when no turn throws, and then the calls are one per qualifying policy, in order, call k being the issue qualifying policy k's turn builds |
| Ingest.IssuedLogged | index.mjs:59-68 | every call made carries an organisation name and session counts that convert to strings, since its turn's log line did not throw |
| Ingest.RangeFromStartOnly | index.mjs:66 | every call's start and end time are the same value, parsed from `start-datetime` |
| Ingest.Serve | index.mjs:36-76 | a request served end to end answers with the handlers' status whatever the deliveries do; each call made ends as Finish of Decide against the limiter from before the request; the limiter ends at LastCommit of the outcomes, unchanged when no call was made |

## Left out

- HTTP plumbing is not modelled: Express routing, the static `index.html` route, `listen`, `x-powered-by`, and the `port` variable.
- `getRawBody` failures are not modelled; the raw bytes are a parameter.
- zlib's `unzip` is the parameter `inflate`; gzip itself is not modelled.
- The UTF-8 decoding of the body and `JSON.parse` together are the parameter `parse`. A failed parse is `None`.
- `new Date(...)` parsing is the parameter `toDate`; the ±8.64e15 ms range of a JavaScript Date is not modelled.
- Decimal.IntToString writes every digit of an integer. JavaScript writes numbers of magnitude 1e21 or more in exponent form, and integers beyond 2^53 are rounded; neither is modelled.
- Numbers are integers. Fractional numbers, NaN and the infinities are not modelled, and neither is the fractional text `String` gives them. A fractional EMAIL_COOLDOWN is not modelled.
- Alerts.CivilFromDays has no general contract: the day, month and year are proved only at the two sample days, not bounded for every input.
- Alerts.AlertManager.DispatchRequest uses one `now` for all calls of a request. The source reads the clock once per call, within one synchronous run.
- Alerts.AlertManager.DispatchRequest: the transport's answers are taken to arrive in call order.
- Interleaving with calls still pending from earlier requests is not modelled.
- nodemailer is not modelled: transport creation (`logger`, `debug`, `host`, `port`, `auth`, SMTP_PASSWORD) and `sendMail`. The transport's answer is the parameter `Delivery`; only the `secure` flag is modelled (`Alerts.UseImplicitTls`).
- The attachment is carried as the report value. `JSON.stringify` of it is not modelled.
- Reading `alert-email.html` is not modelled; the template is a constructor parameter. The Buffer-to-string conversion and a failed read are not modelled.
- Logging (`console.log`, `console.error`) is not modelled.
- The branch for an array recipient list in `to` (alerts.mjs:124) is not modelled: RECIPIENT is always a string, so that branch cannot be taken.
- Replacement patterns in values are not modelled: a value holding `$$`, `$&`, `` $` `` or `$'` would be expanded by `replace`. The token regex has no capture groups, so `$1` and `$<` stay literal. Regular-expression metacharacters in keys are not modelled either; the eleven keys are plain identifiers.
- Property access sees only the fields JSON.parse created: inherited properties of objects (`constructor`, `toString`) and the own properties of strings and arrays are not modelled. An own `toString` field is modelled where String conversion meets it (`Json.Stringable`).
- What Node does with an unhandled rejection is not modelled; `Alerts.Rejects` names the outcomes whose promise rejects.

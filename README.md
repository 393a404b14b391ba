# Gmail auto-reply: a Dafny model of its core

Gemail-Auto_Replay is a small Python service. It polls a Gmail inbox for unread
personal messages. It answers those whose subject holds a configured keyword,
and it shows what it did on a Flask dashboard. This project models the
sequential logic inside that service and proves its properties:

- **Subject classifier**, `categorize_email` in helpers.py (`Classifier`). It runs
  a first-match, case-insensitive substring scan over the keyword list and gives
  the capitalised keyword or "Other".
- **The triage cycle**, `mail_parser` in mail_parser.py (`Parser`, with the
  properties in `CycleProps`). It has several parts:
  - the header scan, where the last header of each name wins;
  - the plain-text body selection;
  - the reply-or-ignore decision;
  - the two record lists and the mark-read call for each replied record;
  - the early return on an empty listing and on `HttpError`.

  The provider's answers are inputs: the listing and, for each message, its
  content and whether its `get`, `send` and `modify` calls raise. The OpenAI
  call is a function parameter `ai: string -> Option<string>`.
- **The reply composer**, `mail_reply` in mail_reply.py (`Reply`). It picks the
  reply text, applies the `Re:` subject rule and fills a `MimeText` object header
  by header. It builds the send request in the original's thread and returns the
  text or `None`.
- **The dashboard**, app.py:
  - the search filters, date formatting, totals and most recent entries of
    `index` (`DashboardIndex`);
  - the per-day and per-category counting of `charts` (`DashboardCharts`);
  - the keyword parsing of `edit_config` (`DashboardConfig`).

  The records are JSON objects, `map<string, Json>` (`Records`). Date parsing is
  a function parameter.

`Text` gives Python's `lower`, `capitalize`, `in`, `startswith`, `strip`,
`split`, `join` and string `<` on `seq<char>`. `Counting` gives the insertion
order and counts of a `defaultdict`.

A failed send is still recorded as replied, with `reply` set to `None`, and the
`modify` call that removes UNREAD is still made for it, with its thread id
(mail_parser.py:77-83, mail_reply.py:54-56).
`CycleProps.SendFailureStillMarked` states the behaviour.

The model also keeps two more details as written:

- The eligibility test compares each keyword without lowercasing it
  (mail_parser.py:74). A keyword holding an upper-case letter therefore never
  triggers a reply, although the classifier, which lowercases both sides, still
  files the message under that keyword (`CycleProps.UppercaseKeywordsNeverReply`).
- The mark-read call is made with the thread id, not the message id.

## Model

| member | source | states |
|---|---|---|
| Classifier.FirstMatchFrom | helpers.py:14-16 | finds the first keyword at or after position i whose lowercase form occurs in the lowercased subject; `None` exactly when no later keyword matches |
| Classifier.CategorizeFirstMatch | helpers.py:13-17 | a falsy subject gives "Other"; otherwise the result is the capitalisation of the first matching keyword, with no earlier keyword matching, or "Other" when no keyword matches; either way the result is "Other" or some keyword capitalised |
| Classifier.CategorizeCaseInsensitive | helpers.py:15 | two subjects that are equal after lowercasing get the same category |
| Classifier.CategorizeEmptyKeyword | helpers.py:15 | an empty keyword matches every non-empty subject, so the result comes from that keyword or an earlier one |
| Classifier.CategorizeExamples | helpers.py:13-17 | "Invoice Due" is "Invoice" and "Hello" is "Other" for the keyword list ["invoice"] |
| Text.LowerChar | helpers.py:15 | an ASCII upper-case letter becomes the lower-case letter 32 code points above it; any other character is kept |
| Text.UpperChar | helpers.py:16 | an ASCII lower-case letter becomes the upper-case letter 32 code points below it; any other character is kept |
| Text.CaseRoundTrip | helpers.py:15-16 | upper-casing a lowercased capital, or lowercasing an upper-cased small letter, gives the letter back |
| Text.Lower | helpers.py:15 | `lower` keeps the length, turns each upper-case letter into the lower-case letter whose upper-case form it is, keeps every other character, and leaves no upper-case letter |
| Text.Capitalize | helpers.py:16 | `capitalize` keeps the length, gives the first character's upper-case form, and lowercases the rest |
| Text.Contains | helpers.py:15 | `needle in hay` holds exactly when the needle occurs at some position |
| Text.ContainsEmpty | helpers.py:15 | the empty string occurs in every string |
| Text.UpperNotInLower | mail_parser.py:74 | a needle holding an upper-case letter never occurs in a lowercased string |
| Text.Strip | app.py:171 | `strip` leaves neither end blank and removes only whitespace from the two ends |
| Text.StripStripped | app.py:171 | a string with no blank end is its own strip |
| Text.Split | app.py:171 | `split(",")` gives one piece more than there are separators; no piece holds the separator; joining the pieces gives the input back |
| Text.SplitJoin | app.py:171 | splitting a join restores the pieces when none holds the separator |
| Text.LessTotal | app.py:132 | string order is total on distinct strings |
| Text.LessTransitive | app.py:132 | string order is transitive |
| Text.LessIrreflexive | app.py:132 | no string is below itself |
| MailTypes.LastValueIsLast | mail_parser.py:54-70 | the value kept for a header name is `None` exactly when no header has that name; otherwise it is the value at the last position holding that name |
| MailTypes.IsLastUnique | mail_parser.py:60-70 | there is only one last position for a name |
| MailTypes.FirstValue | mail_reply.py:30-39 | reading a header of the MIME message gives the value of a header with that name at a position before which no header has that name, or `None` exactly when no header has that name |
| Parser.FirstPlainFrom | mail_parser.py:49-52 | gives the first `text/plain` part at or after i; `None` when no later part is plain text |
| Parser.PlainBody | mail_parser.py:44-52 | the body is the payload's own body for a `text/plain` payload, else the first `text/plain` part's body, else "" |
| Parser.SelectBody | mail_parser.py:44-52 | the break-on-first-match loop over the parts computes `PlainBody` |
| Parser.ExtractHeaders | mail_parser.py:54-70 | the overwrite-as-you-scan loop leaves, for each of From, To, Message-ID, Subject and Date, the last value with that name |
| Parser.OutcomeAt | mail_parser.py:36-88 | the outcome at position i is the triage decision for the i-th listed message |
| Parser.FirstFailure | mail_parser.py:36-94 | the first message whose processing raises (its `get` fails, or it is replied to and its `modify` fails); no earlier message raises |
| Parser.CollectStep | mail_parser.py:78-88 | each processed message appends its record to its list, and its thread to the marked ones when replied |
| Parser.CycleOfFailsAt | mail_parser.py:36-94 | when message k is the first to raise, the cycle keeps the records before it, plus its own replied record when its `modify` raised |
| Parser.CycleOfClean | mail_parser.py:36-88 | without an exception the cycle collects every message's outcome |
| Parser.HandleMessage | mail_parser.py:37-88 | the loop body for one fetched message produces the triage outcome |
| Parser.ProcessMessages | mail_parser.py:36-94 | the message loop, stopped by the first `HttpError`, yields exactly the specified cycle: records and marked threads |
| Parser.MailParser | mail_parser.py:13-94 | `mail_parser` yields nothing on a failed or empty listing and the message loop's cycle otherwise |
| CycleProps.TriageOk | mail_parser.py:72-88 | a replied record has a truthy subject and receiver, a keyword in its subject and the classifier's category, and it is paired with the message's own thread; its reply is `None` exactly when the send failed, and otherwise is the AI's answer for the message's plain-text body when AI is on and that answer is truthy, else the template; an ignored record has the classifier's category |
| CycleProps.CollectOk | mail_parser.py:74-88 | every outcome leaves exactly one record and every replied record one marked thread |
| CycleProps.RepliedInOrder | mail_parser.py:78-83 | replied records follow the listing's order, and the thread marked read at each position belongs to the record at that position |
| CycleProps.IgnoredInOrder | mail_parser.py:84-88 | ignored records follow the listing's order |
| CycleProps.CycleResultOk | mail_parser.py:72-94 | every cycle's records satisfy the record invariants (a reply is the template or a non-empty AI answer); each replied record is, in listing order, the record the decision gives for a distinct listed message; the j-th thread marked read is that message's thread; only the last replied record can be unmarked, and then its `modify` raised |
| CycleProps.CleanCycleCounts | mail_parser.py:36-88 | when nothing raises, replied plus ignored equals the number of listed messages, and every replied thread is marked read |
| CycleProps.TriageRouting | mail_parser.py:74-88 | a message is replied to exactly when its last Subject and last To headers are non-empty and some keyword, not lowercased, occurs in the lowercased subject |
| CycleProps.UppercaseKeywordsNeverReply | mail_parser.py:74 | when every keyword holds an upper-case letter, a cycle replies to nothing and marks nothing read |
| CycleProps.SendFailureStillMarked | mail_parser.py:77-83 | an eligible message whose send fails is recorded as replied with no reply text, and its thread is marked read |
| CycleProps.NothingListed | mail_parser.py:26-33 | a failed or empty listing gives no records and marks nothing |
| CycleProps.FirstFetchFails | mail_parser.py:37-39 | a `get` that raises on the first message ends the cycle with nothing recorded |
| Reply.ReplyText | mail_reply.py:22-27 | with AI off the text is the template; with AI on it is the AI's text when truthy, else the template |
| Reply.ReplySubject | mail_reply.py:30-33 | the subject is kept when it starts with "re:" in any case, else "Re: " is prepended; the result always has the prefix |
| Reply.ReplySubjectIdempotent | mail_reply.py:30-33 | applying the subject rule twice equals applying it once |
| Reply.ReplyHeadersLookup | mail_reply.py:30-39 | the reply's Subject, To ("receiver"), From ("me") and In-Reply-To (the message id) headers read back as assigned; References is present exactly when the original's Message-ID is truthy, and then equals it |
| Reply.MimeText.constructor | mail_reply.py:29 | a new message holds the text and no header |
| Reply.MimeText.Set | mail_reply.py:31-39 | assigning a header appends it and changes nothing else |
| Reply.BuildReply | mail_reply.py:29-39 | the header-by-header filling of the message yields the reply text with exactly the specified headers |
| Reply.MailReply | mail_reply.py:10-56 | the request carries the reply in the original's thread; the result is the reply text when the send succeeds and `None` when it raises |
| DashboardIndex.Filter | app.py:53-58 | a mail is kept exactly when it is in the list and the lowercased query occurs in one of its lowercased searched fields; each hit mail is kept as often as it occurs, and no other mail is kept |
| DashboardIndex.Search | app.py:52-65 | an empty query keeps the list unchanged; otherwise each hit mail is kept as often as it occurs, and no other mail is kept |
| DashboardIndex.FilterSubsequence | app.py:53-58 | the filtered list is an order-preserving subsequence of its input |
| DashboardIndex.SearchSubsequence | app.py:52-65 | both searches keep an order-preserving subsequence |
| DashboardIndex.AnyFieldAgrees | app.py:55-57 | the `or` chain as written either raises on a `null` field it reaches or agrees with the hit test |
| DashboardIndex.FilterAgrees | app.py:53-58 | the comprehension as written either raises, which needs some mail with a `null` searched field, or equals the intended filter |
| DashboardIndex.SearchAgrees | app.py:52-65 | without `null` searched fields the search as written equals the intended one |
| DashboardIndex.NullReplyBreaksSearch | app.py:53-58 | a replied record whose send failed makes the search as written raise for a query in neither its `to` nor its `subject`; the intended search leaves the mail out |
| DashboardIndex.NullSubjectBreaksSearch | app.py:61-65 | an ignored record of a message without a Subject header makes the search as written raise for a query not in its `from`; the intended search leaves the mail out |
| DashboardIndex.WithDateFields | app.py:68-71 | formatting a mail's date sets a string "date" and leaves every other key as it was |
| DashboardIndex.FormatDates | app.py:68-71 | the in-place loop replaces each mail of the array by its date-formatted version |
| DashboardIndex.Dated | app.py:68-71 | the formatted list keeps the length, and position i is mail i with its date formatted |
| DashboardIndex.DateList | app.py:68-71 | a list copied into an array and run through the in-place date loop comes out as `Dated` of the list |
| DashboardIndex.Index | app.py:49-79 | the page lists are the searched, date-formatted lists; the totals are their lengths; the recent entries are their last mails |
| Counting.DistinctMembers | app.py:114-131 | the defaultdict's keys are exactly the values counted |
| Counting.DistinctNoDuplicates | app.py:132 | the defaultdict's keys are pairwise distinct |
| Counting.CountsOf | app.py:146-149 | the values list holds, position by position, how often each key was counted |
| Counting.SumCountsDistinct | app.py:138-149 | the counts over the distinct keys add up to the number of counted items |
| DashboardCharts.TallyReplied | app.py:115-122 | one more replied day keeps `daily_counts` equal to the counts of the days so far |
| DashboardCharts.TallyIgnored | app.py:123-130 | one more ignored day keeps `daily_counts` equal to the counts of the days so far |
| DashboardCharts.TallyRepliedDays | app.py:115-122 | the replied loop counts each parsable date's day once per mail, with keys in first-seen order |
| DashboardCharts.TallyIgnoredDays | app.py:123-130 | the ignored loop continues those counts with each parsable ignored date |
| DashboardCharts.DailyCounts | app.py:114-130 | `daily_counts` has every counted day once, in first-seen order, and each entry holds that day's replied and ignored counts |
| DashboardCharts.Insert | app.py:132 | inserting a new label keeps the list strictly ascending and adds exactly that label |
| DashboardCharts.SortLabels | app.py:132 | `sorted` of the distinct keys is strictly ascending with the same elements |
| DashboardCharts.SortedUnique | app.py:132 | two strictly ascending lists with the same elements are equal, so the labels are the only sorted order of the days |
| DashboardCharts.Chart | app.py:133-135 | both series have the labels' length, and position i reads the count of label i |
| DashboardCharts.Daily | app.py:113-135 | the labels are strictly ascending and are exactly the counted days; each series is aligned with them and holds that kind's number of mails on each day |
| DashboardCharts.Categories | app.py:139-144 | the category of each mail, with a missing one read as "Other" |
| DashboardCharts.CountStep | app.py:139-140 | `counts[c] += 1` keeps the defaultdict equal to the counts so far |
| DashboardCharts.CategoryCounts | app.py:138-149 | the pie labels are the categories in first-seen order; the data are their counts; the counts sum to the number of mails |
| DashboardConfig.StripKeepsAbsent | app.py:171 | stripping adds no character, so a comma-free piece stays comma-free |
| DashboardConfig.ParseKeywordsPieces | app.py:171 | a present field gives one keyword more than it has commas; each keyword is the strip of its piece, free of commas and blank ends; a missing field raises |
| DashboardConfig.EditConfig | app.py:163-175 | a missing keywords field leaves config.py truncated; otherwise it saves the parsed keywords, the template text as written between the quotes ("None" when the field is missing), and the AI switch on exactly when the box sent "on" |
| DashboardConfig.KeywordsRoundTrip | app.py:171-183 | saving the page as shown keeps a non-empty list of stripped, comma-free keywords |
| DashboardConfig.EmptyKeywordsDoNotRoundTrip | app.py:171-183 | an empty keyword list is shown as "" and saved back as [""] |
| DashboardConfig.EmptyFieldMatchesEverything | app.py:171 | saving an empty keywords field makes every message with a non-empty subject eligible, with category "" |

## Left out

- Gmail API calls (`list`, `get`, `send`, `modify`) are not modelled as calls. Their results and whether they raise are inputs of the listing.
- What is passed to `modify`, apart from the thread id. The model returns the ids of the threads marked read.
- base64 decoding of bodies and encoding of the MIME message. Bodies are given decoded, and the request's `raw` field is the message as a value.
- The headers `MIMEText` adds itself, such as Content-Type and MIME-Version. Header order is the assignment order.
- The OpenAI call in ai_reply.py is an arbitrary function of the body. google_auth.py, main.py, the poll loop and `time.sleep` are not part of this model.
- Flask routing, templates, flash messages, redirects and starting `main.py` as a subprocess.
- Reading data.json and status.json. The mail lists are given as inputs.
- Writing config.py. `EditConfig` returns the saved settings, or `Truncated` when the keywords field is missing.
- DashboardConfig.EditConfig: states the template as the text written between the quotes of `MAILTEMPLATE`, not as the value config.py yields when imported again. Python decodes backslash escapes such as `\n`, `\t` and `\\` in that literal, and a quote or a newline in the template corrupts the file. The model does not capture either.
- dateutil's `parse` and `strftime`. They are function parameters, `None` standing for `ParserError`. Other exceptions a parser may raise are not modelled.
- Case mapping covers ASCII letters only. Python's full Unicode `lower` and `capitalize` are not modelled.
- `KeyError` or `AttributeError` on a malformed Gmail payload (a missing `payload`, `headers`, `mimeType` or `body.data`). These end the cycle in the source and are not modelled. Only `HttpError` is.
- Logging.
- DashboardIndex.Index: is stated on the corrected `Search`, which reads a `null` field as "". The as-written search, which can raise, is modelled separately (see Findings).
- DashboardCharts.SortLabels: sorting is modelled as insertion into an ascending list, not as Python's sort algorithm. The result is the same because `SortedUnique` shows the ascending order is unique.

## Findings

| source | as written | input that shows it | evidently intended | confidence | as-written member | corrected member |
|---|---|---|---|---|---|---|
| app.py:53-58 | `mail.get("reply", "").lower()` on a stored reply that is `null` raises `AttributeError`, so the index page fails. `null` is what a failed send records (mail_parser.py:78, mail_reply.py:56); the ignored search has the same problem with a `null` sender or subject, such as that of a message without a Subject header (`DashboardIndex.NullSubjectBreaksSearch`) | a replied mail `{"to": "a", "subject": "b", "reply": null, ...}` searched for "c" | treat a `null` field as "" and skip the mail | medium (depends on data.json holding the records as mail_parser builds them); not executed | DashboardIndex.NullReplyBreaksSearch | DashboardIndex.Search |

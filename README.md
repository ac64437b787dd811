# email-demo: a Dafny model of the campaign dispatch engine

email-demo is a small Flask application. An operator uploads a CSV or Excel
file of recipients and writes an HTML message containing a `[VERIFY_BUTTON]`
placeholder. A background worker then sends one personalised copy to every
pending recipient over a single SMTP session. Each copy carries a
per-recipient click link and a 1x1 open-tracking pixel, and the worker
records every delivery outcome as it goes. Two tracking routes log at most
one open and one click per recipient. The campaign detail page and
`Campaign.to_dict` count recipients, deliveries, opens and clicks.

The model has six modules, one file each:

- `common.dfy` (`Common`): `Option`, `Result`, Python truthiness of an
  optional string, and lists without repeats (`Distinct`), shared by the
  other modules.
- `text.dfy` (`Text`): the Python string operations the core uses.
  - `in` (substring test), `replace`, `split`/`join`.
  - `strip`, ASCII `lower`, and `str(n)` for ids.
  - Lemmas relating them: replace is join-of-split, split/join round trip,
    replace of an absent pattern, strip keeps the slice, decimal round trip.
  - The core calls `replace` but never `split` or `join`. Those two serve
    only as a reference description of `replace`.
- `models.dfy` (`Models`): the three tables as datatypes, and the
  `Database` class holding one map per table plus the next primary key of
  each.
  - `Consistent` states the store invariants: keys below the counters,
    both foreign keys, `sent_at` set exactly on `Sent` recipients, at most
    one event of each type per recipient.
  - Also here: the counts of `to_dict`, and the cascade of deleting a
    campaign.
- `utils.dfy` (`Utils`): `allowed_file`, and the recipient-file pipeline
  of `parse_recipient_file`. The pipeline drops nulls, removes exact
  duplicates in first-seen order, then keeps and strips values containing
  `@`. `FirstSeen` is an independent reference for the pipeline: the
  distinct `@`-values of the column in order of first occurrence.
- `sender.dfy` (`Sender`): the message composer and `send_async`.
  - `SendAsync` and its loop `DeliverAll` are methods on the `Database`.
  - They are proved against the pure function `Dispatch`, which all the
    lemmas of the run are about.
- `routes.dfy` (`Routes`): the routes as functions on the tables, each
  with a method on the `Database` that applies it.
  - `track_open` and `track_click`.
  - `start_campaign`, `create_campaign` (with its review of the form and
    the upload), and `delete_campaign`.
  - The statistics of `campaign_detail`.

The SMTP server, the clock and the background thread are outside the
model. They enter as inputs:

- `Smtp(opens, accepts, quits)` says whether connecting, STARTTLS and
  login succeed.
  - `accepts(i)` says whether the `i`-th `sendmail` of the run succeeds.
  - The run's `mails` list records every `sendmail` call, accepted or
    refused. A message leaves only when its call is accepted, which is
    exactly when its recipient ends `Sent`.
  - `quits` says whether the final `server.quit()` succeeds.
- `clock(i)` is the `datetime.utcnow()` reading taken when the send to the
  `i`-th snapshotted recipient is accepted. It is read only for accepted
  sends.
- Timestamps of created rows are a `now` parameter.
- The outcome of starting the thread is a `launchRaises` flag.

Recipients are visited in ascending id order (`PendingSnapshot`). The
`.all()` query has no `ORDER BY`, so no order is guaranteed. In practice
SQLite returns a full-table scan in rowid order, and the model fixes that
order.

In these places the code behaves in ways one might not expect; the model
follows the code:

- When the SMTP connection collapses in mid-run, every later `sendmail`
  raises. The per-recipient handler then marks each remaining recipient
  `Failed` rather than leaving it `Pending`. The loop completes, and the
  campaign ends `Completed` unless `server.quit()` also raises
  (`DispatchAfterCollapse`, `FinalStatus`).
- `start_campaign` does not look at the campaign's current status
  (`StartIgnoresPriorStatus`).
- A run for a missing campaign returns without touching anything
  (`Dispatch`).
- The pause between sends follows only successful sends. It is timing
  only and is not modelled.

## Model

| member | source | states |
|---|---|---|
| Sender.SendAsync | app/sender.py:10-90 | keeps the store consistent; the new campaigns and recipients and the `sendmail` calls made, accepted or refused, are exactly those of `Dispatch` on the old store; events and id counters are unchanged |
| Sender.DeliverAll | app/sender.py:30-81 | the per-recipient loop: afterwards the recipient table is the old one with every attempt of the snapshot applied in order, and the `sendmail` calls made, accepted or refused, are the `Outbox` of the snapshot; nothing else changes |
| Sender.Record | app/sender.py:71-73 | recording one attempt replaces exactly that recipient by its `Attempt` outcome; nothing else changes |
| Sender.Dispatch | app/sender.py:10-90 | the run changes no keys; for an unknown campaign it changes nothing and makes no `sendmail` call; the campaign ends in `FinalStatus`; if the session cannot be opened no recipient changes and no `sendmail` call is made |
| Sender.FinalStatus | app/sender.py:83-90 | the campaign ends `Completed` exactly when the session opened and `quit` succeeded, `Failed` otherwise |
| Sender.PendingSnapshot | app/sender.py:19 | the snapshot lists, in strictly ascending order, exactly the pending recipients of the campaign |
| Sender.Attempt | app/sender.py:71-81 | an accepted send sets status `Sent` and `sent_at` to the time; a refused one sets `Failed` and keeps `sent_at`; campaign and email are kept |
| Sender.Outbox | app/sender.py:32-35 | one `sendmail` call per snapshot recipient, accepted or refused, in order, from the sender, to that recipient's address, with the campaign's subject |
| Sender.RunPrefixKeepsIdentity | app/sender.py:30-81 | no attempt changes a recipient's campaign or address |
| Sender.RunPrefixUntouched | app/sender.py:19 | recipients not yet visited are unchanged |
| Sender.RunPrefixAttempted | app/sender.py:71-81 | each visited recipient holds the outcome of its own send |
| Sender.RunPrefixKeepsSentAt | app/sender.py:71-72 | the run preserves "`sent_at` is set exactly on `Sent` recipients" |
| Sender.DispatchTouchesOnlyPending | app/sender.py:19 | a recipient that is not pending for the campaign is unchanged by the run |
| Sender.DispatchOutcome | app/sender.py:30-81 | the `j`-th snapshot recipient ends `Sent` with the clock's time if its send was accepted and `Failed` otherwise, and the `j`-th `sendmail` call carries its personalised message, so a message leaves exactly when its recipient ends `Sent` |
| Sender.DispatchLeavesNoPending | app/sender.py:30-81 | once the session opened, no recipient of the campaign is left `Pending` and a new snapshot is empty |
| Sender.NoneLeftPending | app/sender.py:19 | every recipient of the campaign has left `Pending` at the end of the loop |
| Sender.SnapshotOfNone | app/sender.py:19 | a campaign with no pending recipient has an empty snapshot |
| Sender.DispatchAfterCollapse | app/sender.py:78-81 | after the server stops accepting, every remaining recipient ends `Failed` |
| Sender.DispatchConsistent | app/sender.py:10-90 | a run keeps the store consistent |
| Sender.SnapshotOfThree | app/sender.py:19 | three pending recipients with ids 1, 2, 3 are visited in that order |
| Sender.DispatchThreeRecipientsExample | app/sender.py:30-85 | with sends 1 and 3 accepted and 2 refused, the statuses are Sent, Failed, Sent, the campaign is `Completed`, and three `sendmail` calls are made to the three addresses in order, of which the first and third are accepted and leave |
| Sender.ClickLink | app/sender.py:45 | definition, no contract: the base URL, `/track/click/`, and the decimal id; `ExampleLinks`, `ClickLinkFree` and `Text.NatToStringInjective` are about it |
| Sender.OpenLink | app/sender.py:39 | definition, no contract: the base URL, `/track/open/`, and the decimal id; `ComposeEndsWithPixel` proves the id reads back from it |
| Sender.PixelTag | app/sender.py:39 | definition, no contract: the hidden 1x1 `<img>` loading the open link; `ComposeEndsWithPixel` proves every body ends with it |
| Sender.ButtonHtml | app/sender.py:53-57 | definition, no contract: the anchor text of the triple-quoted literal, character for character, built from short pieces; `ButtonHtmlFree` is about it |
| Sender.Substitute | app/sender.py:59-63 | definition, no contract: the guarded button replacement, then the link replacement; `ButtonGuardRedundant`, `VerifyButtonReplacedInPlace` and `LinkTokenReplacedInPlace` are about it |
| Sender.Compose | app/sender.py:65 | definition, no contract: the envelope around the substituted body, a line break and the pixel; `ComposeEndsWithPixel`, `ComposeWithoutTokens`, `ComposeWithLinkToken` and `ComposeWithVerifyButton` are about it |
| Sender.ButtonHtmlFree | app/sender.py:53-57 | the anchor holds no `[` and no `{` unless its link does, so the button cannot create a new placeholder |
| Sender.ClickLinkFree | app/sender.py:28-45 | the click link for the fixed base URL holds no `[` and no `{` |
| Sender.VerifyButtonReplacedInPlace | app/sender.py:59-63 | a lone `[VERIFY_BUTTON]` between text without `[` or `{` becomes the anchor where it stands, and the link replacement then changes nothing |
| Sender.ComposeWithVerifyButton | app/sender.py:45-65 | such a body becomes the envelope around the text with the anchor linking to `/track/click/<id>` in place of the token, followed by the pixel loading `/track/open/<id>` |
| Sender.RunPrefix | app/sender.py:30-81 | the first `k` iterations of the loop; they keep the set of recipient ids, and `RunPrefixKeepsIdentity`, `RunPrefixUntouched`, `RunPrefixAttempted` and `RunPrefixKeepsSentAt` are about them |
| Sender.ButtonGuardRedundant | app/sender.py:59-63 | guarding the button replacement by the `in` test gives the same body as replacing unconditionally |
| Sender.ComposeWithoutTokens | app/sender.py:65 | a body with neither placeholder is wrapped as `<html><body>` body `<br>` pixel `</body></html>` |
| Sender.ComposeEndsWithPixel | app/sender.py:39 | every composed body starts with `<html><body>` and ends with the pixel and `</body></html>`; the pixel URL ends in the decimal id, which reads back as the id |
| Sender.LinkTokenBecomesClickLink | app/sender.py:63 | without a button placeholder, the body is its pieces around `{{ tracking_link }}` joined by the click link |
| Sender.ExampleLinks | app/sender.py:28 | for id 42, the click and open URLs are the fixed base URL followed by `/track/click/42` and `/track/open/42` |
| Sender.VerifyTokenReplacedInPlace | app/sender.py:59-60 | a `[VERIFY_BUTTON]` between text without `[` is replaced in place by the button |
| Sender.LinkTokenReplacedInPlace | app/sender.py:62-63 | a `{{ tracking_link }}` between text without `[` or `{` is replaced in place by the link |
| Sender.ComposeWithLinkToken | app/sender.py:45-65 | such a body becomes the envelope around the text with the click link in place of the token, followed by the pixel |
| Routes.LogOnce | app/routes.py:176-186 | an unknown recipient or a repeat changes nothing; otherwise exactly one event, of that type for that recipient and stamped with the request time, is added under the next key, every other event is kept and the next key advances by one |
| Routes.LogOnceFrame | app/routes.py:182-186 | for any other recipient or type, whether it has an event and which events it has are unchanged |
| Routes.LogOnceCounts | app/routes.py:182-186 | `to_dict`'s counts after a request: a first open (click) of a known recipient raises its own campaign's open (click) count by one; every other count of every campaign is unchanged |
| Routes.LogOnceConsistent | app/routes.py:176-204 | a tracking request keeps the store consistent, in particular one event per type per recipient |
| Routes.LogOnceIdempotent | app/routes.py:182-186 | a second identical request changes nothing |
| Routes.RepeatedRequestsLeaveOneEvent | app/routes.py:176-204 | any non-empty series of requests for a known recipient leaves exactly one event of that type and a consistent store |
| Routes.OneEventOfKind | app/models.py:38-42 | with unique events, a recipient with an event of a type has exactly one |
| Routes.TransparentGifIsOnePixel | app/routes.py:190 | the pixel is 43 bytes: the GIF89a signature, a 1x1 screen, and the trailer byte |
| Routes.TrackOpen | app/routes.py:176-191 | applies `LogOnce` for an open on the store, keeps it consistent, and answers with the pixel |
| Routes.TrackClick | app/routes.py:193-204 | applies `LogOnce` for a click on the store and keeps it consistent |
| Routes.Start | app/routes.py:120-147 | unknown campaign: not found; missing email or password: session expired and nothing changes; otherwise the campaign becomes `Sending`, and goes back to `Draft` if the launch raises |
| Routes.StartConsistent | app/routes.py:131-145 | starting keeps the store consistent |
| Routes.StartIgnoresPriorStatus | app/routes.py:131-132 | a campaign is launched whatever its current status |
| Routes.RestartSendsNothing | app/routes.py:120-147 | a second run after a run whose session opened sends nothing and changes no recipient |
| Routes.StartCampaign | app/routes.py:120-147 | applies `Start` to the store and keeps it consistent; recipients and events are unchanged |
| Routes.EmailColumn | app/routes.py:84 | the select field wins when it is non-empty, otherwise the text field; a column is given exactly when either is non-empty |
| Routes.Review | app/routes.py:86-101 | missing file or column is rejected first; a submission is accepted exactly when the sheet was read, has the column and yields emails, and then the emails are the parsed ones; a parse error has a non-empty message |
| Routes.MissingColumnReported | app/routes.py:93-97 | a column the sheet lacks is reported with the not-found message naming it |
| Routes.EmptyErrorMessageFallsThrough | app/routes.py:95-101 | a read error with an empty message is not reported as an error but as "no valid emails" |
| Routes.NewRecipients | app/routes.py:109-111 | one new `Pending` recipient per email, in order, with consecutive fresh ids |
| Routes.KeyRange | app/routes.py:109-111 | the block of consecutive ids has exactly `n` members |
| Routes.CreateConsistent | app/routes.py:103-111 | creating a campaign with its recipients keeps the store consistent |
| Routes.CreatedCampaignCounts | app/routes.py:104-111 | the new campaign is a `Draft` with one recipient per email and nothing sent, opened or clicked |
| Routes.FilePresent | app/routes.py:88 | definition, no contract: an upload is present exactly when there is one and its file name is non-empty; `Review` rejects a submission without it first |
| Routes.Create | app/routes.py:104-111 | definition, no contract: the campaign added under the next campaign id and the new recipients added to the recipient table; `CreateConsistent` and `CreatedCampaignCounts` are about it |
| Routes.AddCampaign | app/routes.py:104-111 | the store afterwards is exactly `Create` of the old store under the next ids; events are unchanged; the store stays consistent |
| Routes.CreateCampaign | app/routes.py:74-113 | a rejected submission writes nothing; an accepted one writes the campaign and its recipients under the next ids; the store stays consistent |
| Routes.DeleteCampaign | app/routes.py:149-155 | an unknown campaign changes nothing; otherwise the campaign, its recipients and their events are removed and the store stays consistent |
| Routes.Listing | app/routes.py:166 | `campaign.recipients` lists, in ascending order, exactly the campaign's recipients |
| Routes.Tally | app/routes.py:167-169 | a generator sum is at most the number of recipients |
| Routes.DetailStats | app/routes.py:162-170 | statistics exist exactly for a known campaign, and each count is at most the total |
| Routes.MatchingMembers | app/routes.py:167-169 | the recipients a generator counts are exactly those it tests true |
| Routes.TallyIsCardinality | app/routes.py:167-169 | over a list without repeats, the generator sum equals the number of matching recipients |
| Routes.ListingMembers | app/routes.py:166 | the listed recipients are exactly `RecipientsOf` the campaign |
| Routes.ListingLength | app/routes.py:166 | the listing has one entry per recipient of the campaign, so `len(campaign.recipients)` is the recipient count |
| Routes.TallyIsCounted | app/routes.py:167-169 | each generator sum equals the corresponding count in `CampaignCounts` |
| Routes.TalliesAreCounts | app/routes.py:165-170 | the four statistics are the four `CampaignCounts` |
| Routes.DetailAgreesWithToDict | app/routes.py:162-170 | on a consistent store, the detail page's statistics are exactly the counts `to_dict` shows |
| Common.DistinctTail | app/routes.py:166 | a generic list fact, a helper of `Routes.ListingLength`: the tail of a list without repeats has no repeats and does not hold the head |
| Common.DistinctCardinality | app/routes.py:166 | a list without repeats has as many distinct members as entries; used for the listing and for the parsed addresses |
| Models.NewCampaign | app/models.py:9-10 | a new campaign is a `Draft` created now with the given fields |
| Models.NewRecipient | app/models.py:32-33 | a new recipient is `Pending` with no `sent_at` |
| Models.Database.constructor | app/models.py:4-42 | the empty store is consistent |
| Models.CampaignCounts | app/models.py:22-25 | the total is the number of recipients, and sent, open and click counts are each at most the total |
| Models.ToDict | app/models.py:15-26 | the view carries the id, name, subject and status, and counts bounded by the number of recipients |
| Models.SubsetCardinality | app/models.py:23-25 | a generic set fact, a helper of `Models.CampaignCounts`: a subset has at most as many members |
| Models.RepeatEventNotCounted | app/models.py:24-25 | an extra event of a type the recipient already has changes no count |
| Models.Consistent | app/models.py:4-42 | definition, no contract: the store invariant (keys below the counters, both foreign keys, `sent_at` set exactly on `Sent` recipients, one event per type per recipient); every state-changing method preserves it |
| Models.RecipientsAfterDelete | app/models.py:13 | definition, no contract: the recipients of other campaigns, which the cascade keeps; `CascadeDelete` is about it |
| Models.EventsAfterDelete | app/models.py:36 | definition, no contract: the events of recipients of other campaigns, which the cascade keeps; `CascadeDelete` is about it |
| Models.CascadeDelete | app/models.py:13 | deleting a campaign keeps the store consistent, removes its recipients and their events, and keeps every other campaign's counts |
| Utils.LastDot | app/utils.py:8 | finds the last `.`, if any |
| Utils.LastDotUnique | app/utils.py:8 | a dot with no dot after it is the last dot |
| Utils.AfterLastDot | app/utils.py:8 | no dot follows the last dot |
| Utils.AllowedFileMeaning | app/utils.py:7-8 | a name is allowed exactly when, after its last dot, the lower-cased extension is `csv` or `xlsx` |
| Utils.AllowedUpperCase | app/utils.py:8 | the extension comparison ignores case |
| Utils.AllowedLastExtensionOnly | app/utils.py:8 | only the extension after the last dot counts |
| Utils.RefusedWithoutDot | app/utils.py:8 | a name without a dot is refused |
| Utils.AllowedFile | app/utils.py:7-8 | definition, no contract: the extension after the last dot, lower-cased, is allowed; `AllowedFileMeaning` characterises it |
| Utils.Positions | app/utils.py:28-31 | the positions at which a test holds, strictly increasing, each passing the test, and every passing position included |
| Utils.DropNull | app/utils.py:28 | keeps the values of the non-null cells, never more than the cells, and a value is kept exactly when some cell holds it |
| Utils.DropNullPositions | app/utils.py:28 | the `k`-th value kept is the cell at the `k`-th non-null position, so the column order is kept and repeats stay |
| Utils.FirstIndex | app/utils.py:28 | the first index at which a value occurs |
| Utils.FirstIndexInPrefix | app/utils.py:28 | the first occurrence inside a prefix is the first occurrence overall |
| Utils.Unique | app/utils.py:28 | no repeats, the same values, in first-seen order |
| Utils.WithAt | app/utils.py:31 | the filter of the comprehension: a value is kept exactly when it contains `@` |
| Utils.WithAtPositions | app/utils.py:31 | the `k`-th value kept is the one at the `k`-th position holding `@`, so the input order is kept |
| Utils.StripAll | app/utils.py:31 | definition, no contract: the map of the comprehension, stripping each value; `KeepAddressesMembers` and `ParseEmails` are about it |
| Utils.KeepAddresses | app/utils.py:31 | each address kept contains `@` and has no surrounding whitespace; never more than the values |
| Utils.KeepAddressesPositions | app/utils.py:31 | the `k`-th address is the stripped value at the `k`-th position holding `@` |
| Utils.KeepAddressesMembers | app/utils.py:31 | an address is kept exactly when some value holding `@` strips to it |
| Utils.FirstSeen | app/utils.py:27-31 | the reference result: no repeats, and a value is listed exactly when some non-null cell holds it and it contains `@` |
| Utils.FirstSeenOrder | app/utils.py:28 | `FirstSeen` lists its values in the order of their first cells |
| Utils.PipelineIsFirstSeen | app/utils.py:28-31 | dropping nulls, then repeats, then values without `@` leaves exactly `FirstSeen`, in its order |
| Utils.ParseEmails | app/utils.py:27-31 | the result is `FirstSeen` of the column with every value stripped; an address is extracted exactly when some non-null cell contains `@` and strips to it; each has `@` and no surrounding whitespace; never more addresses than cells |
| Utils.ParseEmailsCount | app/utils.py:27-31 | the number of addresses is the number of distinct non-null raw values containing `@` |
| Utils.StripOfStripped | app/utils.py:31 | stripping an already stripped value changes nothing |
| Utils.StripPadded | app/utils.py:31 | stripping removes one blank on each side |
| Utils.WhitespaceVariantsBothSurvive | app/utils.py:28-31 | for any stripped address `a`, the column `a`, ` a ` gives `[a, a]`: both survive de-duplication and strip to the same address |
| Utils.RepeatsAndBlanksDropped | app/utils.py:28-31 | for an address `a` and a value `b` without `@`, the column `a`, null, `b`, `a` gives `[strip(a)]`: the exact repeat is kept once, and the null and `b` are dropped |
| Utils.MissingColumnMessage | app/utils.py:25 | definition, no contract: the not-found message naming the column; `Routes.MissingColumnReported` proves it is what a missing column returns |
| Utils.ParseRecipientFile | app/utils.py:10-36 | a read error gives its message; a missing column gives the not-found message; otherwise the emails are `ParseEmails` of the column and there is no error |
| Text.Contains | app/sender.py:59 | definition, no contract: the substring test `in`; `AbsentWithoutFirst` and `ReplaceAbsent` are about it |
| Text.ReplaceAll | app/sender.py:60 | definition, no contract: `replace`, scanning left to right and replacing non-overlapping occurrences; the lemmas below are about it |
| Text.Split | app/sender.py:60 | a reference for `replace` (the core never calls `split`): a split has at least one piece |
| Text.Join | app/sender.py:60 | definition, no contract: `sep.join(pieces)`, a reference for `replace` with `Split` |
| Text.ReplaceIsJoinOfSplit | app/sender.py:60 | `replace` equals joining the split pieces with the replacement |
| Text.SplitJoinRoundTrip | app/sender.py:60 | about the `split`/`join` reference for `replace`: splitting on a pattern and joining with it gives the input back |
| Text.ReplaceBySelf | app/sender.py:60 | replacing a pattern by itself changes nothing |
| Text.ReplaceAbsent | app/sender.py:59-60 | a text without the pattern is unchanged by `replace` |
| Text.ReplaceSkipPrefix | app/sender.py:60 | a prefix without the pattern's first character passes through `replace` unchanged |
| Text.IsSpace | app/utils.py:31 | definition, no contract: exactly the characters Python's `str.isspace` accepts (space, `\t` to `\r`, U+001C to U+001F, U+0085, U+00A0, U+1680, U+2000 to U+200A, U+2028, U+2029, U+202F, U+205F, U+3000), which `strip()` removes |
| Text.TrimLeft | app/utils.py:31 | `lstrip`: a suffix of the input, everything cut off is whitespace, and it does not start with whitespace |
| Text.TrimRight | app/utils.py:31 | `rstrip`: a prefix of the input, everything cut off is whitespace, and it does not end with whitespace |
| Text.Strip | app/utils.py:31 | the result has no surrounding whitespace |
| Text.StripIsSlice | app/utils.py:31 | the result is a slice of the input and everything cut off is whitespace |
| Text.StripKeeps | app/utils.py:31 | every non-whitespace character, such as `@`, survives stripping |
| Text.Lower | app/utils.py:8 | definition, no contract: lower-cases ASCII letters position by position and keeps every other character; `AllowedFileMeaning` and `AllowedUpperCase` are about it |
| Text.NatToString | app/sender.py:39 | the decimal form of an id is digits without a leading zero |
| Text.ParseNat | app/routes.py:176 | definition, no contract: the value of a string of decimal digits, as the `<int:recipient_id>` converter reads it; `ParseNatToString` is about it |
| Text.ParseNatToString | app/sender.py:39 | reading back the decimal form gives the id |
| Text.NatToStringInjective | app/sender.py:45 | two ids never share a decimal form, so at any one time a tracking URL names one recipient id |

## Left out

- The background thread (`start_sending_thread`, app/sender.py:92-95) is not modelled. A launch is a flag of `Start`, and the worker's run is a separate call of `SendAsync` on the store, so no interleaving of the worker with requests is modelled.
- SMTP, MIME and the network are not modelled. The server's behaviour is the `Smtp` input, and only the sender, the recipient, the subject and the HTML body of each message are kept.
- The `print` calls that log a failed send and an SMTP error (app/sender.py:79, app/sender.py:88) are console logging and are not modelled; the status changes beside them are.
- `time.sleep(1)` is timing only and is not modelled. `datetime.utcnow()` is an input (`clock`, `now`).
- A failing `db.session.commit()` is not modelled: every commit succeeds.
- Flask sessions, login, logout, `flash`, redirects and templates are not modelled. The `sender_email` login guard on the create and detail routes is not modelled either.
- The dashboard, new-campaign, review and login pages, and the column-listing helper, only render; they are left out.
- Reading the file with pandas, `secure_filename`, and the choice between CSV and Excel are not modelled. The sheet is an input: a table of columns of optional strings, or the text of the exception raised while reading it.
- `str()` of a non-string cell is not modelled: cells are strings or null.
- Formatting `created_at` with `strftime` in `to_dict` is left out.
- `str.lower` is modelled on ASCII letters only. Python also lower-cases some non-ASCII letters to ASCII: U+0130 becomes `i` plus a combining dot, and U+212A (Kelvin sign) becomes `k`. Neither gives `c`, `s`, `v`, `x` or `l`, so which file names are accepted is still exact.
- Primary keys come from the store's counters, not from SQLite's rowid allocation. The tables are declared without `AUTOINCREMENT`, so SQLite hands out the largest id in use plus one. After the highest-numbered rows are deleted, their ids are reused. An old tracking URL can then log an open or a click for a different, newer recipient. The counters never reuse an id, so the model does not show this.
- `track_open` and `track_click` (app/routes.py:182-186 and 198-202) check for an existing event and then insert, without a lock or a unique constraint. Two concurrent requests can both pass the check and both insert, leaving two events of one type. The model runs every request alone, so `Consistent` (one event per type per recipient) holds in it but is not guaranteed under concurrency.
- Two concurrent starts of one campaign (app/routes.py:131-140) are not modelled. The second start is not refused, since the status is not checked. Each worker would snapshot the same pending recipients (app/sender.py:19) and mail every one of them, so each recipient gets two copies. If the second worker's send fails after the first one's succeeded, the row ends `Failed` while `sent_at` stays set. The model runs one worker at a time, and a second run finds nothing pending (`RestartSendsNothing`).
- A form field that is missing (and would violate a `nullable=False` column) is not modelled: the form's text fields are always present.
- The front-end script, the application factory and the configuration files are not part of this model.
- Routes.LogOnce: when the next event id is already a key, the model overwrites that event. `Consistent` rules this out for the store, and `LogOnceFrame` and `LogOnceCounts` require the next id to be free.

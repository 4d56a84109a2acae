# bulk_send — a Dafny model of the bulk-SMS importer and sender

bulk_send is a small web application for sending personalised SMS to a list
of Cameroonian contacts. A user imports a CSV or XLSX file. Every row becomes
a contact whose phone number is checked against the number ranges of the four
carriers (Orange, MTN, Nexttel, Camtel). The user picks a carrier, or "All",
and sends one templated message to every eligible contact through an HTTP SMS
gateway. The delivery receipts are then polled every ten seconds, and each
contact's status is updated from them. A preview table shows the contacts
with coloured status and carrier badges.

This project models that core as pure functions and proves properties of them:

| module | file | what it models |
|---|---|---|
| `Results` | `results.dfy` | `Option` and `Result` (a value, or a thrown error's message) |
| `Seqs` | `seqs.dfy` | `filter`, duplicate removal through a `Set`, order-keeping (subsequences) |
| `Text` | `text.dfy` | the JavaScript string operations the code uses: `trim`, `toLowerCase`, `split`, `startsWith`, `endsWith`, `replace` with a string pattern (and the search for the first occurrence it makes), number printing |
| `Phone` | `phone.dfy` | `validatePhoneNumber`; the four regular expressions are represented as data |
| `Gateway` | `gateway.dfy` | `sendSMS` and `filterDLR`: the request sent, and how each reply becomes a body or a thrown error |
| `Contacts` | `contacts.dfy` | `parseCSV`, the spreadsheet grid-to-contacts mapping, `validateAndFormatContact` |
| `Session` | `session.dfy` | the importer's state, plus `handleSend`, `checkStatus`, the polling guard, `handleCancel` and `handleFileImport` |
| `Preview` | `preview.dfy` | the preview's column list, `getStatusColor` and `getOperatorColor` |

Each handler is one function from the state before to the state after. Anything
the handler waits for is a parameter:
- the gateway's reply to each send, as an `HttpReply`;
- the receipts, or the error of the receipt request;
- the file's text and the spreadsheet library's reading of it;
- the clock's value.

Notes on what the code does:
- The validator does not strip a leading country code `237`, and it computes no
  normalised "formatted" phone.
- The Orange and MTN patterns are anchored only at the end. A prefix such as
  `237` therefore keeps their verdict (`Phone.PrefixKeepsOrangeMtn`).
- The Nexttel and Camtel patterns are anchored at both ends. The same numbers
  with `237` in front are invalid (`Phone.CountryCodeBreaksNexttelCamtel`).
- Contacts hold only `email`, `name`, `phone`, `status`, `operator` and, after a
  send, `messageId`. Other imported columns are not kept. The raw phone is
  stored as imported, or tagged `Invalid: ` when it does not validate.
- Statuses are plain strings. A refresh copies whatever status string the
  receipt carries.

The send merge matches contacts by phone. When two contacts share a phone,
both take the result of the first send made to that phone. The per-contact
send lemmas therefore assume distinct phones.

## Model

| member | source | states |
|---|---|---|
| Phone.DigitsOf | src/lib/utils.ts:9 | removing non-digits leaves only ASCII digits and never lengthens the string |
| Phone.Validate | src/lib/utils.ts:8-22 | the validator is total; the number is valid exactly when the operator is one of the four carriers, and invalid exactly when it is `Unknown` |
| Phone.OrangeTestIff | src/lib/utils.ts:11 | on a digit string, the Orange pattern matches iff the last nine digits start with 655-659, 69 or 685-689 |
| Phone.MtnTestIff | src/lib/utils.ts:12 | on a digit string, the MTN pattern matches iff the last nine digits start with 650-654, 67, 680 or 681-684 |
| Phone.NexttelTestIff | src/lib/utils.ts:13 | on a digit string, the Nexttel pattern matches iff the string is exactly `66` and seven digits |
| Phone.CamtelTestIff | src/lib/utils.ts:14 | on a digit string, the Camtel pattern matches iff the string is exactly `2` and eight digits |
| Phone.ClassifyClosedForm | src/lib/utils.ts:11-21 | on digit strings, the pattern-driven classifier equals a reference classifier written over digit ranges |
| Phone.ValidateClosedForm | src/lib/utils.ts:8-22 | the validator equals the reference classifier applied to the number's digits |
| Phone.OnlyDigitsMatter | src/lib/utils.ts:9 | digit extraction is idempotent, and validating the digits alone gives the same verdict |
| Phone.PatternsDisjoint | src/lib/utils.ts:11-14 | no digit string matches two carriers' patterns |
| Phone.ValidateExact | src/lib/utils.ts:16-21 | a number gets a carrier iff that carrier's pattern matches its digits, and gets `Unknown` iff no pattern matches |
| Phone.CheckOrderIrrelevant | src/lib/utils.ts:16-19 | testing the patterns in reverse order gives the same verdict |
| Phone.ShortNumbersInvalid | src/lib/utils.ts:11-21 | a number with fewer than nine digits is invalid |
| Phone.PrefixKeepsOrangeMtn | src/lib/utils.ts:11-12 | any prefix in front of an Orange or MTN number leaves its verdict unchanged |
| Phone.CountryCodeBreaksNexttelCamtel | src/lib/utils.ts:13-14 | a Nexttel or Camtel number with `237` in front is invalid |
| Gateway.RequestFor | src/lib/smsApi.ts:33-39 | the request goes to `237` followed by the stored phone, unchanged, and carries the message as given |
| Gateway.ClassifySend | src/lib/smsApi.ts:42-68 | a send returns a body exactly when the status is 2xx, the body parses, is not null, is not a rejection, is an object and has an `sms` array; the body is then returned unchanged |
| Gateway.ClassifyDlr | src/lib/smsApi.ts:91-110 | a receipt request returns a body exactly when the status is 2xx, the body parses, is a non-null object and has a `dlrlist` array; the body is then returned unchanged |
| Gateway.HttpErrors | src/lib/smsApi.ts:42-47 | both endpoints treat a non-2xx status the same way: 401 gives the authentication message, any other status N gives "HTTP error! status: " followed by N in decimal |
| Gateway.AuthOnlyFromCredentials | src/lib/smsApi.ts:42-66 | the authentication error comes only from a 401 or from a rejection whose message is the credentials message; no other failure produces it |
| Gateway.RejectionBeforeShape | src/lib/smsApi.ts:53-66 | a rejection is reported before any shape check, with the gateway's message, the credentials message, or "Error sending SMS" when the message is falsy |
| Gateway.DestinationVerdict | src/lib/smsApi.ts:38 | the destination keeps an Orange or MTN number's verdict, and makes a Nexttel or Camtel number invalid |
| Gateway.FirstMessageId | src/components/FileImporter.tsx:192-196 | the id read is `m` exactly when the body's `sms` is a non-empty array whose first entry has the non-empty string `messageid` `m`; otherwise no id is read |
| Text.TrimIsSlice | src/components/FileImporter.tsx:145 | `trim` removes only white space, and only from the two ends |
| Text.TrimIdempotent | src/components/FileImporter.tsx:138 | trimming twice is trimming once |
| Text.TrimEmptyIffAllSpace | src/components/FileImporter.tsx:133 | a line trims to empty iff it is all white space |
| Text.Lower | src/components/FileImporter.tsx:159 | lower-casing maps each ASCII upper-case letter to lower case and keeps every other character |
| Text.LowerIdempotent | src/components/FileImporter.tsx:138 | lower-casing leaves no upper-case letter, and a second lower-casing changes nothing |
| Text.JoinSplit | src/components/FileImporter.tsx:133 | joining the pieces of a split with the separator gives back the text |
| Text.SplitJoin | src/components/FileImporter.tsx:142 | splitting a join of separator-free pieces gives back the pieces |
| Text.SplitPiecesHaveNoSeparator | src/components/FileImporter.tsx:142 | no piece of a split contains the separator |
| Text.SplitTrailingSeparator | src/components/FileImporter.tsx:133 | a separator at the end adds exactly one empty last piece |
| Text.FindFirst | src/components/FileImporter.tsx:185 | the search `replace` makes finds the first position where the pattern occurs, or none when it does not occur |
| Text.ReplaceFirstOnlyFirst | src/components/FileImporter.tsx:185 | `replace` with a string pattern changes nothing when the pattern is absent; otherwise it replaces only the first occurrence, keeps the text before it and the text after it, and so keeps every later occurrence |
| Text.NatToStringRoundTrip | src/lib/smsApi.ts:46 | the decimal text of a status code reads back as the same number |
| Seqs.FilterMembership | src/components/FileImporter.tsx:175-178 | an element survives a filter iff it was present and is accepted |
| Seqs.FilterSubseq | src/components/FileImporter.tsx:175-178 | a filter keeps the survivors in their original order |
| Seqs.Dedupe | src/components/DataPreview.tsx:31-35 | `Array.from(new Set(...))` has no repeats and the same members |
| Seqs.DedupeSubseq | src/components/DataPreview.tsx:31-35 | the result of duplicate removal is a subsequence of the input |
| Seqs.DedupeFirstOrder | src/components/DataPreview.tsx:31-35 | the elements of the result come in the order of their first occurrences in the input, as a `Set` keeps insertion order |
| Contacts.FieldOr | src/components/FileImporter.tsx:152-154 | an empty or missing primary column falls back to the second column, then to '' |
| Contacts.FormatContact | src/components/FileImporter.tsx:151-165 | a formatted contact is "Not sent" with no message id; its operator is the validator's; its phone is the raw phone when valid and tagged "Invalid: " otherwise; its email is lower-cased |
| Contacts.FallbackColumns | src/components/FileImporter.tsx:154-156 | `phone number` is used when `phone` is empty or missing, and it decides the operator |
| Contacts.FormattedContactConsistent | src/components/FileImporter.tsx:156-163 | validating the stored phone, tagged or not, gives back the stored operator |
| Contacts.FormattedEmailLower | src/components/FileImporter.tsx:159 | the stored email has no upper-case letter |
| Contacts.RowOf | src/components/FileImporter.tsx:143-146 | a key is bound in the row object exactly when it is one of the headers |
| Contacts.RowOfAt | src/components/FileImporter.tsx:144-146 | a header that does not repeat later is bound to its own cell, trimmed |
| Contacts.MissingCellIsEmpty | src/components/FileImporter.tsx:145 | a header without a cell gets '' |
| Contacts.ExtraCellsIgnored | src/components/FileImporter.tsx:144-146 | cells past the last header are ignored |
| Contacts.RowOfCells | src/components/FileImporter.tsx:144-146 | the row depends only on the cells under the headers |
| Contacts.PhoneFromColumn | src/components/FileImporter.tsx:144-154 | with a single non-empty `phone` column, the raw phone is that cell, trimmed |
| Contacts.NormalizedHeaderIsNormal | src/components/FileImporter.tsx:138 | a normalised header has no surrounding white space and no upper-case letter |
| Contacts.NormalizeHeaderIdempotent | src/components/FileImporter.tsx:138 | normalising a header twice is normalising it once |
| Contacts.RowsToContacts | src/components/FileImporter.tsx:141-148 | each data row becomes exactly one contact, in order |
| Contacts.ContactsOfLines | src/components/FileImporter.tsx:134-148 | fewer than two lines is the "empty or contains no valid data" error; otherwise there is one contact per line after the first |
| Contacts.ParseCsv | src/components/FileImporter.tsx:132-149 | parsing fails iff the text has fewer than two non-blank lines, and otherwise yields one contact per non-blank data line |
| Contacts.CsvContactPerLine | src/components/FileImporter.tsx:138-148 | the i-th contact is the (i+1)-th non-blank line's comma-split cells bound to the normalised header cells |
| Contacts.CsvLinesTrailingNewline | src/components/FileImporter.tsx:133 | a trailing line break adds no line |
| Contacts.CsvTrailingNewline | src/components/FileImporter.tsx:133 | a trailing line break does not change the parse |
| Contacts.CsvNeedsTwoLines | src/components/FileImporter.tsx:133-136 | a text without a line break is rejected |
| Contacts.GridContacts | src/components/FileImporter.tsx:101-104 | an empty grid gives no contacts; otherwise there is one contact per non-blank row after the header row |
| Contacts.GridContactPerRow | src/components/FileImporter.tsx:101-110 | the k-th contact is the k-th non-blank data row's cells bound to the normalised header cells |
| Contacts.GridContactsExact | src/components/FileImporter.tsx:101-110 | a contact comes from the grid exactly when it is the contact of some non-blank row after the header row |
| Contacts.GridBlankRowIgnored | src/components/FileImporter.tsx:102 | a row of empty cells anywhere after the header row adds no contact and changes nothing else |
| Contacts.LinesAgreeWithGrid | src/components/FileImporter.tsx:101-110 | the CSV mapping and the grid mapping agree on the same lines when no data line is a row of empty cells |
| Contacts.CsvAgreesWithGrid | src/components/FileImporter.tsx:138-147 | the CSV path agrees with the grid path on a text's non-blank lines |
| Session.EligibleContacts | src/components/FileImporter.tsx:175-178 | every contact sent to is eligible, and there are no more of them than contacts |
| Session.EligibleContactsExact | src/components/FileImporter.tsx:175-178 | the contacts sent to are exactly the eligible ones (chosen operator or "All", phone not starting with "Invalid"), in data order |
| Session.InvalidNeverSent | src/components/FileImporter.tsx:177 | a contact tagged invalid by the importer is never sent to, whatever operator is chosen |
| Session.RequestsGoToEligible | src/components/FileImporter.tsx:184-187 | request k goes to "237" and the phone of the k-th eligible contact (the one settled with the k-th reply), a loaded contact, with the template personalised by its name |
| Session.Settle | src/components/FileImporter.tsx:188-211 | after a send, a contact is PENDING with the gateway's id iff the reply carries a non-empty id; otherwise it is FAILED and keeps its old id; nothing else changes |
| Session.CountOk | src/components/FileImporter.tsx:188-189 | the success counter is the number of sends that returned normally, and never exceeds the number of sends |
| Session.CountOkBounds | src/components/FileImporter.tsx:188-189 | the counter equals the batch size iff no send threw, and is zero iff every send threw |
| Session.FindByPhone | src/components/FileImporter.tsx:215 | `find` by phone returns the first batch contact with that phone, or none |
| Session.Merge | src/components/FileImporter.tsx:214-217 | the merge keeps length, order and every phone, and leaves unmatched contacts unchanged |
| Session.MergeTakesFirstMatch | src/components/FileImporter.tsx:214-217 | a matched contact is replaced by the first batch result with its phone |
| Session.HandleSend | src/components/FileImporter.tsx:167-230 | nothing happens without data or an operator. An authentication failure leaves the data and last-update time unchanged and sets the credentials banner. Otherwise the data becomes the merge of the settled batch (each eligible contact settled with its own reply), time-stamped, and the banner is cleared. Either way the batch ends idle at 100% with every non-throwing send counted |
| Session.SendUpdatesEligible | src/components/FileImporter.tsx:184-217 | in a batch not aborted by an authentication failure and with distinct phones, each eligible contact is settled with its own send's outcome, and every other contact is unchanged |
| Session.SendArmsPolling | src/components/FileImporter.tsx:274 | with distinct phones, a batch not aborted by an authentication failure in which some send returned a message id arms the status timer |
| Session.ProgressRounding | src/components/FileImporter.tsx:190 | progress is the percentage of sends that returned normally, rounded to the nearest integer, halves up, and at most 100 |
| Session.ProgressMonotone | src/components/FileImporter.tsx:188-190 | the progress formula never goes backwards as the count of normal returns grows, and runs from 0 to 100 |
| Session.ProgressAfterMonotone | src/components/FileImporter.tsx:171-190 | the progress shown during a batch (set from the count of normal returns so far, unchanged by a send that throws) starts at 0, never goes backwards and never exceeds 100 |
| Session.FindReceipt | src/components/FileImporter.tsx:243 | `find` returns the first receipt whose message id equals the contact's, or none |
| Session.Refreshed | src/components/FileImporter.tsx:243-250 | a refresh changes only a contact's status |
| Session.ApplyReceipts | src/components/FileImporter.tsx:242-251 | a refresh keeps length and order, and changes only statuses |
| Session.ReceiptDecidesStatus | src/components/FileImporter.tsx:242-251 | a contact takes the status of the first receipt with its id, and is unchanged without one |
| Session.ApplyReceiptsIdempotent | src/components/FileImporter.tsx:242-251 | applying the same receipts twice is applying them once |
| Session.UnsentUnchanged | src/components/FileImporter.tsx:243 | when every receipt has an id, contacts never sent to keep their status |
| Session.RefreshStatus | src/components/FileImporter.tsx:232-260 | without data nothing happens. A failed request only sets the "Failed to check message statuses: " banner. Otherwise only the data and the last-update time change, and the data becomes the contacts with the receipts applied |
| Session.CheckStatus | src/components/FileImporter.tsx:232-260 | every error of the receipt request, read through `filterDLR`, sets only the status banner with its message; a returned body applies its receipts and time-stamps the data |
| Session.StatusAuthFailureKeepsData | src/components/FileImporter.tsx:256-259 | a 401 on the receipt request keeps the contacts and reports the credentials message under the status banner, not the send's authentication banner |
| Session.RefreshSettlesPolling | src/components/FileImporter.tsx:274 | a refresh that gives every PENDING contact a final status stops the timer |
| Session.NoReceiptsKeepPolling | src/components/FileImporter.tsx:242-251 | a refresh without receipts leaves the timer as it was |
| Session.CancelEndsSession | src/components/FileImporter.tsx:281-289 | cancel resets data, file name, last update, progress, counter, banner and operator, and keeps the sending flag; it is idempotent, disarms the timer, and makes later sends and refreshes no-ops |
| Session.ImportContacts | src/components/FileImporter.tsx:81-115 | a `.csv` name is parsed as CSV first; a name that is neither `.csv` nor `.xlsx` is the unsupported-type error |
| Session.ImportFile | src/components/FileImporter.tsx:72-130 | the file name is always recorded; only the data and the banner can change besides it; a read error keeps the data and sets the read-error banner |
| Session.ImportCsvFile | src/components/FileImporter.tsx:81-83 | a CSV with at least two non-blank lines replaces the data and keeps the banner; otherwise the data is kept and the import error is reported |
| Session.ImportXlsxFile | src/components/FileImporter.tsx:84-112 | a sheet whose used range has no second row is refused with "No data rows found in the file"; otherwise its grid's contacts replace the data |
| Session.ImportUnsupportedFile | src/components/FileImporter.tsx:113-115 | any other file type changes only the file name and the banner |
| Preview.Columns | src/components/DataPreview.tsx:38-43 | the columns start with `Phone` and end with `operator`, `status` |
| Preview.ColumnsExact | src/components/DataPreview.tsx:31-43 | the columns are exactly `Phone`, `operator`, `status` and the shown keys; `phone`, `formattedPhone` and `messageId` never appear; no column repeats; the contact's keys keep their relative order |
| Preview.MiddleColumnsMembers | src/components/DataPreview.tsx:31-40 | a key is a middle column iff the contact has it and it is neither internal nor pinned |
| Preview.MiddleColumnsInOrder | src/components/DataPreview.tsx:31-40 | the middle columns keep the contact's key order |
| Preview.ColumnsNoDuplicates | src/components/DataPreview.tsx:38-43 | pinning `Phone`, `operator` and `status` around a repeat-free middle keeps it repeat-free |
| Preview.PreviewColumns | src/components/DataPreview.tsx:28 | nothing is rendered exactly when the data is null or empty |
| Preview.ImportedContactColumns | src/components/DataPreview.tsx:31-43 | for imported contacts the table shows `Phone`, `email`, `name`, `operator`, `status`, with or without a message id |
| Preview.StatusColor | src/components/DataPreview.tsx:45-58 | a status gets the grey default exactly when it is none of DELIVRD, UNDELIV, PENDING, FAILED |
| Preview.OperatorColor | src/components/DataPreview.tsx:60-73 | an operator gets the grey default exactly when it is none of the four carriers |
| Preview.ColorsDistinguish | src/components/DataPreview.tsx:45-73 | the four statuses have four different colours and the four carriers have four different colours; "Not sent" is grey; an imported contact's carrier badge is grey exactly when its phone is invalid |

## Left out

- Network, environment and JSON: `fetch`, the environment variables (gateway URL, user, password, sender id) and `response.json()` are not modelled. A reply is given as a status code and an already parsed body, or as the error `fetch` or the parser threw.
- JSON numbers are integers in the model. Fractional numbers do not affect any check, because the only numeric test is `responsecode === 0`.
- A truthy `messageid` that is not a string (a number, say) would be stored by the source. The model reads only string ids.
- Session.CheckStatus: the receipts are a parameter, taken as the `dlrlist` entries the client's interface declares: a message id (absent allowed) and a status string. The unchecked cast from the body is not modelled, so a `null` entry (on which `find` would throw) or a non-string id or status is outside the model.
- The date window of the receipt request (one hour back, then whole days) depends on the clock and is not modelled.
- Concurrency: `Promise.all`, the interleaving of settlements and the ten-second `setInterval` are not modelled. A batch is modelled as one reply per eligible contact. The timer is modelled as the predicate `PollArmed`, meaning the guard holds.
- Session.HandleSend: settlements that arrive after an authentication abort can still raise the counter and overwrite the progress after the final 100%. The model counts every normal return and ends at 100. The state after the batch holds only the final progress; the progress shown while it runs is `Session.ProgressAfter`, with the outcomes taken in the order the sends settle.
- Session.ProgressRounding: uses exact rational arithmetic. It does not model floating-point rounding error in `sentCount / totalContacts * 100`.
- Text.ReplaceFirstOnlyFirst: `$` substitution patterns in a contact's name are not interpreted.
- Text.Lower: `toLowerCase` is modelled on ASCII letters only.
- The message template comes from an application configuration file that is not part of this model. It is a parameter of the requests (`Session.Requests`); the state after a batch depends only on the replies.
- The outer "Failed to send SMS: ..." banner of `handleSend` cannot be reached: the inner handler rethrows only the authentication error. The model has no branch for it.
- The "Error checking message statuses" banner of the polling wrapper cannot be reached: `checkStatus` catches every error itself.
- "Invalid file content" cannot occur: the file is read with `readAsBinaryString`, which always produces a string. The model takes the text as a string.
- The spreadsheet library (`XLSX.read`, `decode_range`, `sheet_to_json`) is not modelled. The model starts from its outputs: the last row index of the used range and the cell grid as text with blank rows removed.
- A change event without a file does nothing in the source. The model's import always has a file.
- Saving and restoring state in `localStorage`, the API route handlers, the React components' markup and animation, and the `cn` class-name helper are not modelled.
- The error message V8 produces when `responsecode` is read from a `null` body is written out as a constant. Other engines word it differently.

# invOCR document pipeline, modelled in Dafny

This project models the core of invOCR, a service that reads repair-shop
invoices. The model covers three parts.

- **Text-to-fields step** (`server/services/ocr.ts`): the recognised text is
  turned into an invoice number, a repair-order number, an amount, a date and a
  list of parts. The step also computes the confidence score and the
  validators' flags.
- **`processOCR`**: checks the file, takes the module-level Tesseract
  `worker` (created on demand and reused while set), recognises the text,
  writes `completed` or `failed` to the store, and in `finally` terminates the
  worker and clears the slot.
- **Posting** (`server/services/integrations.ts`): the two placeholder
  posters and the aggregation of their results into one invoice update.
- **Temporary phone numbers** (`server/services/phone.ts`): the in-memory
  registry of numbers, with acquire, release, list and cleanup.

Modules, one file each:

- `text.dfy` (`Text`): characters, digit strings, `split('\n')` and `trim()`.
- `patterns.dfy` (`Patterns`): the six regular expressions of `ocr.ts`, each in
  two forms.
  - A declarative language: `InLanguage` says which whole words the
    expression describes.
  - A scanner: `MatchLen` and `Find`.
  - The lemmas prove that the scanner reports the leftmost start position
    that has a language word, and the longest language word there.
  - That this leftmost, longest word is what JavaScript's backtracking
    `match` reports for these six expressions is argued in the comment at the
    head of `patterns.dfy`, not proved.
- `records.dfy` (`Records`): the invoice record, the extraction payload and the
  partial updates handed to the store.
- `ocr.dfy` (`Ocr`): the extractors, `parseFloat` as used here (in cents),
  `extractParts`, the validators and the payload `processOCR` writes.
- `scenarios.dfy` (`Scenarios`): concrete lines whose outcome the rules fix.
- `ocr_processing.dfy` (`OcrProcessing`): the `worker` slot as a class with
  `InitializeWorker` and `ProcessOCR`.
  - Every awaited call of the engine, the file system and the store is an input
    saying whether it returned or threw.
  - The store writes are returned in the order they are issued.
- `integrations.dfy` (`Integrations`): `postToQuickBooks`, `postToCCC` and
  `handleSimultaneousPosting`, as functions of the posters' outcomes.
- `phone.dfy` (`Phone`): `TempPhoneService` as a class whose table is updated
  in place.
  - `Math.random()` and `Date.now()` are parameters.
  - A JavaScript `Map` iterates in insertion order. The field `order` keeps that
    order.

Some outcomes of the code differ from what the intended invoice flow would
suggest. The model follows the code:

- The header line `INV-10234 RO55021 04/02/2024 $1,245.00` passes the
  part-line filter, so it yields one part.
  - `RO55021` is a run of seven `[A-Z0-9]` characters followed by `$1`.
  - The part is priced 1.00 and described as `INV-10234  04/02/2024 ,245.00`.
  - See `Scenarios.HeaderLineYieldsPart`.
- The confidence counts the non-empty amount *string*, not a non-zero total.
- `\d{1,3}` is not anchored, so `$1245.00` yields the amount `124`.
- Nothing checks the invoice's status before posting, so posting is not
  restricted to `completed` invoices.
- When the `completed` write itself throws, the `catch` writes `failed` after
  it. One run can therefore issue two writes.
- When `worker.terminate()` throws, the error is swallowed and the slot keeps
  the terminated worker, which the next run reuses.

## Model

| member | source | states |
|---|---|---|
| Patterns.MatchLenIsLongest | server/services/ocr.ts:42-45 | at every position, the scanner's length is that of the longest word of the expression starting there, and it is 0 exactly when no word starts there |
| Patterns.FindSpec | server/services/ocr.ts:42-45 | `Find` reports no match exactly when no word of the expression occurs anywhere, and otherwise the leftmost start and the longest word there |
| Patterns.Member | server/services/ocr.ts:42-45 | the word the scanner reports is in the expression's language |
| Patterns.Bound | server/services/ocr.ts:42-45 | no language word starting at the same position is longer than the scanner's match |
| Patterns.FindAt | server/services/ocr.ts:42-45 | a position with a match and none before it is the one `Find` reports |
| Patterns.CurrencyGroupSpec | server/services/ocr.ts:44 | the capture group `(...)` of `\$\s*(N)` is a number N, and it is exactly what follows `$` and its white space in the match |
| Ocr.MatchTextSpec | server/services/ocr.ts:42-45 | `text.match(re)?.[0] \|\| ''` is `""` exactly when nothing matches, and otherwise the leftmost, longest match |
| Ocr.CaptureTextSpec | server/services/ocr.ts:44 | the amount capture is `""` exactly when nothing matches, and otherwise the number of the first currency match |
| Ocr.ReplaceFirstSpec | server/services/ocr.ts:116 | `replace(re, '')` without `g` leaves a text without a match untouched, and otherwise cuts out exactly the first match, keeping the rest in order |
| Ocr.ParseCents | server/services/ocr.ts:64 | the parse fails (NaN) exactly when the string is empty or does not start with a digit |
| Ocr.ParseCentsWhole | server/services/ocr.ts:64 | a decimal rendering of n units parses back to n units |
| Ocr.ParseCentsDecimal | server/services/ocr.ts:112 | a number followed by `.` and two digits parses to its value in cents |
| Ocr.ParseCentsNumber | server/services/ocr.ts:64 | any run of digits followed by `.` and two digits, or by nothing, parses to its value in cents, leading zeros included |
| Ocr.TotalCentsSpec | server/services/ocr.ts:64 | `parseFloat(amount.replace(/,/g, '')) \|\| 0` is 0 for an absent amount, and for a grouped number with optional decimals it is the digits with the thousands separators dropped, in cents |
| Ocr.TotalOfText | server/services/ocr.ts:44-64 | the stored total is 0 when the text has no amount; otherwise there is a split of the captured amount into a grouped whole part and optional decimals, and the total is their value in cents |
| Ocr.PriceCentsSpec | server/services/ocr.ts:112 | `parseFloat(capture \|\| '0')` is 0 for an absent price, and for digits with optional decimals it is their value in cents |
| Ocr.PriceOfLine | server/services/ocr.ts:112 | a part line's price is 0 without a `$` price; otherwise the captured price splits into digits and optional decimals, and the price is their value in cents |
| Ocr.GroupedWithoutCommas | server/services/ocr.ts:64 | dropping the commas of a `\d{1,3}(,\d{3})*` number leaves a non-empty run of digits |
| Ocr.CurrencyNumberSplit | server/services/ocr.ts:44 | every capture of the two `$` patterns is a whole part followed by `.` and two digits or by nothing |
| Ocr.DollarDigitFrom | server/services/ocr.ts:107 | the scanner accepts exactly when a `$` followed by a digit comes later on the line with no line terminator before it |
| Ocr.IsPartLineSpec | server/services/ocr.ts:106-108 | a line passes the filter exactly when some `[A-Z0-9]{6,8}` run is followed, on the same line, by `$` and a digit |
| Ocr.PartLineIndices | server/services/ocr.ts:106-108 | the selected positions are increasing and lie in range, every selected line passes, and every passing line is selected |
| Ocr.PartIndicesExact | server/services/ocr.ts:106-108 | a line is selected exactly when it passes the filter |
| Ocr.PartLinesSpec | server/services/ocr.ts:106-108 | the filtered lines are the passing lines, each once, in text order, so there are no more of them than lines |
| Ocr.ExtractPartsAt | server/services/ocr.ts:110-121 | the k-th part is the parse of the k-th passing line |
| Ocr.ExtractPartsSpec | server/services/ocr.ts:98-122 | the parts correspond one to one, in order, to the passing lines; there are at most (number of newlines + 1) parts |
| Ocr.ValidatePartNumberSpec | server/services/ocr.ts:124-127 | a part number is valid exactly when it is 6 to 8 characters, all `[A-Z0-9]` |
| Ocr.ValidatePartNumberCaseSensitive | server/services/ocr.ts:124-127 | a lower-case letter anywhere makes a part number invalid |
| Ocr.OemDoesNotImplyValid | server/services/ocr.ts:129-132 | `startsWith('OEM')` can hold for a part number that is not valid |
| Ocr.ValidateDRPCompliance | server/services/ocr.ts:134-137 | DRP compliance holds exactly when every part is verified |
| Ocr.ValidatePartNumbers | server/services/ocr.ts:139-141 | the check holds exactly when every part number is valid |
| Ocr.PartNumberOfPartLine | server/services/ocr.ts:111-118 | a passing line always holds a part number of 6 to 8 characters: the leftmost, longest match, which is therefore verified |
| Ocr.ExtractedPartsVerified | server/services/ocr.ts:67-70 | every extracted part is verified, so `drpCompliant` and `partNumbersVerified` are always true |
| Ocr.ConfidenceSpec | server/services/ocr.ts:54-55 | the confidence counts the four patterns that match somewhere in the text |
| Ocr.ConfidenceRange | server/services/ocr.ts:55 | the confidence is one of 0, 0.25, 0.5, 0.75, 1 |
| Ocr.ExtractDataChecks | server/services/ocr.ts:67-73 | the payload is DRP-compliant, and its validation results are all true with no errors |
| Text.Lines | server/services/ocr.ts:106 | `split('\n')` gives one more piece than there are newlines, and no piece holds a newline |
| Text.LinesThenJoin | server/services/ocr.ts:106 | joining the pieces of `split('\n')` with newlines gives the text back |
| Text.JoinThenLines | server/services/ocr.ts:106 | splitting newline-free pieces joined by newlines gives the pieces back |
| Text.TrimSpec | server/services/ocr.ts:116 | `trim()` returns a slice with only white space cut off around it, and it neither starts nor ends with white space |
| Text.TrimIdempotent | server/services/ocr.ts:116 | trimming twice is trimming once |
| Text.Without | server/services/ocr.ts:64 | `replace(/,/g, '')` leaves no comma, is shorter than its input by the number of commas, and every other character of the input still occurs in it |
| Text.WithoutConcat | server/services/ocr.ts:64 | removal distributes over concatenation, so the kept characters stay in their order |
| Text.WithoutChar | server/services/ocr.ts:64 | one character is dropped exactly when it is the removed one; with `WithoutConcat` this fixes the result on every string |
| Text.WithoutAbsent | server/services/ocr.ts:64 | removing a character that does not occur changes nothing |
| Text.NatToStringRoundTrip | server/services/phone.ts:13 | the decimal rendering of a number reads back as that number |
| Text.NatToStringLength | server/services/phone.ts:13 | a number in [10^k, 10^(k+1)) renders with k+1 digits |
| Scenarios.HeaderLineFields | server/services/ocr.ts:42-45 | on `INV-10234 RO55021 04/02/2024 $1,245.00` the four fields are `INV-10234`, `RO55021`, `04/02/2024` and `1,245.00` |
| Scenarios.HeaderLineConfidence | server/services/ocr.ts:54-64 | on that line the confidence is 4 quarters and the total 1245.00 |
| Scenarios.HeaderLineYieldsPart | server/services/ocr.ts:98-122 | that line yields the single part `RO55021`, priced 1.00, described by the rest of the line |
| Scenarios.BumperLineYieldsPart | server/services/ocr.ts:98-122 | `OEM1234 Front Bumper $450.00` yields the single part `OEM1234`, `Front Bumper`, 450.00, verified and OEM |
| Scenarios.UngroupedAmountIsCut | server/services/ocr.ts:44 | the amount of `$1245.00` is `124` |
| Scenarios.UngroupedTotal | server/services/ocr.ts:64 | the total of `$1245.00` is 124.00 |
| OcrProcessing.OcrService.constructor | server/services/ocr.ts:6 | the slot starts empty |
| OcrProcessing.OcrService.InitializeWorker | server/services/ocr.ts:8-24 | a set slot is returned unchanged and names an earlier worker; otherwise a new worker, distinct from every earlier one, is stored as soon as `createWorker` returns, and the call fails with the first library error |
| OcrProcessing.SetSlotIsReused | server/services/ocr.ts:10-19 | with a set slot, initialisation never throws and the slot is kept |
| OcrProcessing.OcrService.ProcessOCR | server/services/ocr.ts:26-96 | the writes are those of `Writes` for the steps' outcomes; the slot is cleared when `terminate` returns, and otherwise keeps what initialisation left |
| OcrProcessing.IssueWrites | server/services/ocr.ts:29-84 | the `try`/`catch` issues exactly the writes `Writes` lists |
| OcrProcessing.WritesOutcome | server/services/ocr.ts:58-84 | a run issues one or two writes for the invoice; the last is `completed` with the full payload exactly when no step threw, and otherwise `failed` with the first thrown message alone |
| OcrProcessing.WritesTwice | server/services/ocr.ts:58-84 | two writes happen exactly when the `completed` write itself threw, and the second one is `failed` |
| OcrProcessing.CompletedPayload | server/services/ocr.ts:58-75 | a `completed` write carries a compliant payload with a confidence in whole quarters |
| Integrations.Posting | server/services/integrations.ts:11-27 | a poster succeeds exactly when its body returned, with a reference id stamped with the clock; on failure its message is the caught error's message or the default |
| Integrations.PostToQuickBooks | server/services/integrations.ts:10-28 | success exactly when the body returned, with the message `Successfully posted to QuickBooks` and a `QB-` reference id; on failure, no reference id |
| Integrations.PostToCCC | server/services/integrations.ts:30-48 | success exactly when the body returned, with the message `Successfully posted to CCC ONE` and a `CCC-` reference id; on failure, no reference id |
| Integrations.ReferenceIdRoundTrip | server/services/integrations.ts:19 | the clock reading can be read back from the reference id |
| Integrations.PostedIffBoth | server/services/integrations.ts:67 | the invoice becomes `posted` exactly when both posters succeeded, and `failed` otherwise |
| Integrations.ErrorsOfFailedPosters | server/services/integrations.ts:68-71 | the error list has one message per failed poster, QuickBooks first, and is empty exactly when the invoice is posted |
| Integrations.IntegrationStatusMerged | server/services/integrations.ts:61-65 | the two destination flags are the posters' results; every other prior flag is kept; no other key appears |
| Integrations.DataCarriedOver | server/services/integrations.ts:59-60 | the extraction payload is carried over unchanged |
| Integrations.NoStatusGuard | server/services/integrations.ts:50-72 | the update does not depend on the invoice's status or file name; posting again with the same results writes the same data |
| Integrations.PostBoth | server/services/integrations.ts:50-72 | through both posters, the invoice is posted exactly when neither body threw; when both threw, both messages are recorded in order |
| Phone.RandomTen | server/services/phone.ts:13 | the drawn integer lies in [1000000000, 9999999999] |
| Phone.PhoneNumberShape | server/services/phone.ts:13 | a drawn number is `+1` and ten digits that read back as the drawn integer |
| Phone.TempPhoneNumber.constructor | server/services/phone.ts:16-20 | a new record has the given number and expiry and is active |
| Phone.TempPhoneService.constructor | server/services/phone.ts:8 | the registry starts empty |
| Phone.TempPhoneService.AcquireNumber | server/services/phone.ts:10-24 | files a fresh active record under the drawn number, expiring a day later; an existing entry is overwritten and keeps its place in the order |
| Phone.TempPhoneService.ReleaseNumber | server/services/phone.ts:26-35 | returns whether the number was filed; if it was, its record becomes inactive and it leaves the table and the order; otherwise nothing changes |
| Phone.TempPhoneService.ListActiveNumbers | server/services/phone.ts:37-39 | the records, one per filed number, in insertion order, all active |
| Phone.TempPhoneService.Cleanup | server/services/phone.ts:42-49 | exactly the numbers with expiry at or after `now` stay, untouched and in their order; every expired record is inactive |
| Phone.TempPhoneService.VisitEntry | server/services/phone.ts:44-48 | one iteration of the cleanup loop keeps the loop's invariant |
| Phone.RemoveKeyMembers | server/services/phone.ts:31 | deleting a key from the order removes that key and keeps every other |
| Phone.RemoveKeyDistinct | server/services/phone.ts:31 | deleting a key keeps the order free of duplicates |
| Phone.UnexpiredMembers | server/services/phone.ts:44-48 | the order after cleanup holds exactly the unexpired numbers |
| Phone.UnexpiredDistinct | server/services/phone.ts:44-48 | the order after cleanup is free of duplicates |
| Phone.DistinctCard | server/services/phone.ts:38 | an order without duplicates that lists a key set has as many entries as the set |
| Phone.OrderStep | server/services/phone.ts:44-48 | visiting one more key keeps the shape of the order: unexpired visited keys, then unvisited ones |

## Left out

- Tesseract (`createWorker`, `loadLanguage`, `initialize`, `recognize`,
  `terminate`) and `fs.promises.access` are foreign calls. Each outcome is an
  input (`Step`, or the recognised text).
- The store's `updateInvoice` is not part of this model (`server/storage.ts`).
  The writes are returned in order instead of performed.
  - A failure of the `catch`'s own `failed` write is not modelled.
  - The rethrow in `handleSimultaneousPosting` when its write fails is not
    modelled either.
- Console logging is left out: it has no effect on the state.
- Concurrency is left out.
  - `Promise.all` runs the posters concurrently, but neither can see the
    other's result.
  - Two `processOCR` runs can race on the shared `worker` slot. The model runs
    them one after another.
- `parseFloat` is modelled only on the strings the pipeline feeds it: a digit
  run, then `.dd` when present. The result is exact cents, with no
  floating-point rounding.
- `Ocr.ParseCents` reads a fraction only as `.` followed by exactly two digits,
  and drops a fraction of any other length. The pipeline never feeds it one,
  because both patterns capture only `\.\d{2}`.
- `Phone.RandomTen` computes `Math.floor(x * 9000000000 + 1000000000)` on the
  reals, not in IEEE doubles. The draw is a parameter in [0, 1).
- The posters' placeholder bodies cannot throw. The model still takes a
  thrown value as input, so the `catch` branches are covered.
- `processOCR` with a thrown value that is not an `Error`, whose message is
  `undefined`, is not modelled. Every thrown step carries a message.
- Clock readings are naturals (milliseconds since the epoch); negative times
  are not modelled.
- The routes, the client pages and the database schema are not part of this
  model.

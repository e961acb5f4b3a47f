# Hog price extractor: a verified model of its data-shaping core

The application asks an AI model to read a Vietnamese news article, either
as a web page's HTML or as pasted text, and to return hog prices by province
as records `{id, date, province, price}` with `price` in VND/kg. The user
can filter and edit the records in a table, download them as a CSV file, or
save them to a new Google Sheets spreadsheet.

This project models the exact part of that pipeline in Dafny:

- `types.dfy`: the record, the editable field names and the Google
  credentials.
- `text.dfy`: the JavaScript string primitives the code relies on (`trim`,
  `toLowerCase`, `includes`, integer `toString`, and "strip non-digits, then
  `parseInt`").
- `price_display.dfy`: the one arithmetic rule shared by table, filter, CSV
  and spreadsheet. A price is shown as `Math.round(price / 1000)`, in
  thousands of VND/kg with halves rounded up.
- `data_table.dfy`: the table's search filter and its cell edit, as
  functions over sequences of records.
- `csv.dfy`: the CSV export.
  - `ExportToCsv` is a method that builds the lines in a loop, proved equal
    to the specification function `CsvDocument`.
  - A reader for the file's quoting shows that the export loses nothing.
- `sheets.dfy`: the Google Sheets export.
  - The credentials test.
  - The table of values written to the sheet.
  - `createSpreadsheet` as a function of the replies of the two API calls.
    It records the requests it would send.
- `gemini.dfy`: the AI extraction.
  - The two prompts, reproduced verbatim.
  - A JSON value type with JavaScript truthiness.
  - The acceptance test on the parsed reply.
  - The error rewrite.
  - The model call and `JSON.parse` are function parameters.

## Model

| member | source | states |
|---|---|---|
| Text.Trim | components/DataTable.tsx:20 | `trim()` yields a contiguous piece of its input that neither starts nor ends with ECMAScript whitespace, and is empty exactly when the input is all whitespace |
| Text.TrimStart | components/DataTable.tsx:20 | the result is a suffix of the input; everything dropped is ECMAScript whitespace; the result does not start with whitespace |
| Text.TrimEnd | components/DataTable.tsx:20 | the result is a prefix of the input; everything dropped is whitespace; the result does not end with whitespace |
| Text.TrimEmptyIffAllWhitespace | components/DataTable.tsx:20-22 | `!query.trim()` holds exactly when the query consists of whitespace only, the empty query included |
| Text.TrimIgnoresSurroundingWhitespace | services/geminiService.ts:100 | whitespace placed before and after a text does not change its trimmed form |
| Text.LowerChar | components/DataTable.tsx:23 | an upper-case letter maps to a different, lower-case character; any other character is unchanged |
| Text.Lower | components/DataTable.tsx:23 | `toLowerCase()` keeps the length, leaves no upper-case letter, and leaves every other character where it was |
| Text.LowerIdempotent | components/DataTable.tsx:23-27 | lower-casing an already lower-cased string changes nothing |
| Text.Includes | components/DataTable.tsx:25-27 | `hay.includes(needle)` holds exactly when the needle occurs at some index of the haystack |
| Text.IncludesMiddle | components/DataTable.tsx:25-27 | a string placed between two others is included in the concatenation |
| Text.NotIncludesMissingChar | components/DataTable.tsx:25-27 | a needle holding a character the haystack lacks is not included |
| Text.NatToString | components/DataTable.tsx:26 | `String(n)` for n ≥ 0 is a non-empty string of decimal digits without a leading zero |
| Text.IntToString | components/DataTable.tsx:26 | the text ends in a digit, and it starts with '-' exactly when the number is negative |
| Text.DigitsValueOfNatToString | components/DataTable.tsx:44 | `parseInt` of `String(n)` is n |
| Text.IntToStringRoundTrip | components/DataTable.tsx:26 | the decimal text of an integer parses back to that integer |
| Text.IntToStringInjective | components/DataTable.tsx:26 | two integers with the same decimal text are equal |
| Text.StripNonDigits | components/DataTable.tsx:44 | `replace(/[^0-9]/g, '')` keeps digits only, never lengthens its input, is empty exactly when the input has no digit, leaves a digit string as it is, and drops a single non-digit character |
| Text.StripNonDigitsAppend | components/DataTable.tsx:44 | stripping distributes over concatenation, so the result is the input's digits in their order |
| Text.ParseDigitsOnly | components/DataTable.tsx:44 | the result is NaN (None) exactly when the text holds no digit; otherwise it is the value of the input's digits taken in order |
| Text.SeparatorDropped | components/DataTable.tsx:44 | a single non-digit between two digit strings is ignored: the parse gives the value of the two strings joined |
| Text.ParseDigitsOnlyExamples | components/DataTable.tsx:44 | "68.000" parses as 68000 |
| PriceDisplay.DisplayPrice | components/DataTable.tsx:26 | the shown number k satisfies 1000k − 500 ≤ price < 1000k + 500 |
| PriceDisplay.DisplayPriceIsMathRound | utils/csv.ts:19 | the shown number is JavaScript's `Math.round(price / 1000)`, that is floor(price/1000 + 0.5) over exact reals |
| PriceDisplay.DisplayOfThousands | components/DataTable.tsx:45 | a price that is a whole number of thousands is shown as that number |
| PriceDisplay.DisplayText | components/DataTable.tsx:125 | the shown text ends in a digit, and it is all digits for every price from −500 up |
| PriceDisplay.DisplayTextDeterminesDisplay | components/DataTable.tsx:26 | equal shown texts mean equal shown numbers |
| PriceDisplay.HalfRoundsUp | utils/csv.ts:19 | 68500 VND/kg is shown as 69 |
| DataTable.MatchesQuery | components/DataTable.tsx:24-28 | a record matches exactly when the lower-cased query occurs in its lower-cased province, its shown price or its lower-cased date; the empty query matches every record |
| DataTable.KeepMatching | components/DataTable.tsx:24-28 | `data.filter(...)` yields a subsequence of the input, never longer, and holds each matching record exactly as often as the input does and every other record not at all |
| DataTable.FilterData | components/DataTable.tsx:19-29 | a blank query returns the table unchanged. Otherwise the result is an order-preserving subsequence, and a record appears in it exactly when the lower-cased, untrimmed query occurs in its lower-cased province, in its shown price, or in its lower-cased date |
| DataTable.FilterUsesShownPrice | components/DataTable.tsx:26 | a record stored at 68500 is not found by "68" and is found by "69" |
| DataTable.FoundByShownPrice | components/DataTable.tsx:26 | a record is always found when the query is the price the table shows for it |
| DataTable.KeepSingle | components/DataTable.tsx:24-28 | a one-record table keeps its record exactly when the record matches |
| DataTable.EditRecord | components/DataTable.tsx:41-50 | the id is kept and only the named field changes. A date or province is stored verbatim. A price edit without digits keeps the old price; otherwise the new price is 1000 × the digits' value, a non-negative multiple of 1000 |
| DataTable.HandleCellEdit | components/DataTable.tsx:40-52 | the length, order and ids are kept; records with another id are unchanged; each record with the id is edited |
| DataTable.PriceEditWithoutDigitsIsNoOp | components/DataTable.tsx:44-45 | a price edit to text without digits leaves the whole table unchanged |
| DataTable.EditOfAbsentIdIsNoOp | components/DataTable.tsx:40-51 | an edit of an id no record carries leaves the table unchanged |
| DataTable.EditIdempotent | components/DataTable.tsx:40-52 | applying the same edit twice equals applying it once |
| DataTable.EditsOfDifferentIdsCommute | components/DataTable.tsx:40-52 | edits of different ids can be applied in either order |
| DataTable.NatToStringOfDigitsValue | components/DataTable.tsx:44 | a digit string without a leading zero is the decimal text of its own value |
| DataTable.PriceEditShowsTypedDigits | components/DataTable.tsx:44-45 | after a price edit, the cell shows the digits that were typed, when they have no leading zero |
| DataTable.BlurOfUnchangedPriceCell | components/DataTable.tsx:124-125 | leaving a price cell without changing it stores the rounded thousands (68500 becomes 69000); a negative shown price loses its sign |
| DataTable.PriceEditExamples | components/DataTable.tsx:44-45 | "72" stores 72000; "abc" leaves the record unchanged |
| Csv.HeaderLineText | utils/csv.ts:10-11 | the first line is exactly `date,province,price (K VND/kg)` |
| Csv.CsvValue | utils/csv.ts:25-27 | a comma-free value is written as it is, any other inside double quotes |
| Csv.CsvRow | utils/csv.ts:14-30 | a data line starts with the written date and a comma, ends with the shown price, and is as long as the three written values and two commas |
| Csv.CsvLines | utils/csv.ts:11-31 | there are n+1 lines: the header, then line i+1 built from record i, in order |
| Csv.CsvDocument | utils/csv.ts:4-7 | no file for an empty table; otherwise the file is U+FEFF followed by the lines joined with line feeds |
| Csv.ExportToCsv | utils/csv.ts:3-35 | the loop's output equals `CsvDocument`: None for an empty table, otherwise the BOM followed by the lines joined with line feeds |
| Csv.SplitJoinLines | utils/csv.ts:33 | joining lines free of line feeds with `\n` and splitting again gives the lines back |
| Csv.ReadCsvRow | utils/csv.ts:14-30 | a data line reads back as date, province and shown price, quoted or not, when neither text field holds a double quote |
| Csv.ReadHeader | utils/csv.ts:10-11 | the header line reads back as the three column names |
| Csv.CsvRoundTrip | utils/csv.ts:13-35 | for a non-empty table without quotes or line feeds in its text fields: the file is the BOM followed by exactly one line per record after the header, and reading it back gives every record's date, province and shown price, in order |
| Csv.ReadLines | utils/csv.ts:13-31 | the data lines read back as the records' cells |
| Csv.CsvLinesHaveNoLineFeed | utils/csv.ts:33 | no line holds a line feed when the text fields hold none |
| Csv.JoinLinesEndsWithLastLine | utils/csv.ts:33 | the joined text ends with the last line's last character |
| Csv.CsvEndsWithDigit | utils/csv.ts:33 | the file ends with the last digit of the last shown price, so never with a line feed |
| Csv.CsvQuoting | utils/csv.ts:25-27 | in the date column and in the province column alike, a comma-free value is written verbatim and a comma-bearing value is wrapped in double quotes, with no escaping; the price column is never quoted |
| Csv.CsvIgnoresIds | utils/csv.ts:9-15 | tables that differ only in their ids give the same file |
| Csv.CsvExample | utils/csv.ts:3-35 | one record (2024-01-01, Hà Nội, 68500) gives the BOM, the header, a line feed and `2024-01-01,Hà Nội,69` |
| Sheets.AreGoogleKeysAvailable | services/googleSheetsService.ts:3-5 | true exactly when a configuration is present and its client id is non-empty |
| Sheets.KeysAvailableIffNonEmptyId | services/googleSheetsService.ts:3-5 | credentials are available exactly when present with a non-empty client id; a client id of a single space counts |
| Sheets.ValueTable | services/googleSheetsService.ts:94-96 | n+1 rows: first `['Date','Province','Price (K VND/kg)']`, then row i+1 = record i's date and province verbatim and its shown price |
| Sheets.SheetAgreesWithCsv | services/googleSheetsService.ts:94-96 | the spreadsheet's data rows equal what is read back from the CSV file, for text fields without quotes or line feeds |
| Sheets.SheetCellsAreVerbatim | services/googleSheetsService.ts:95 | a comma-bearing date reaches the sheet unquoted, unlike in the CSV file |
| Sheets.SaveErrorMessage | services/googleSheetsService.ts:111-114 | the reported message is the collaborator's `result.error.message` when it is a non-empty string, otherwise the generic message; it is never empty |
| Sheets.CreateSpreadsheet | services/googleSheetsService.ts:76-116 | without credentials, or without an initialised client, the save fails with its fixed message and sends nothing. Any request sent starts with the create request. Every update writes the value table at `A1`. The save succeeds exactly when both calls succeed and the new sheet has an id, and it then returns the sheet's URL. A failed create reports that call's message (or the generic one) after sending only the create request; a failed update reports the update's message after both requests |
| Sheets.MissingIdReportsGenericMessage | services/googleSheetsService.ts:89-92 | a created sheet without an id is reported with the generic message, and no values are written |
| Gemini.Truthy | services/geminiService.ts:104 | a JSON value is falsy exactly when it is `null`, `false`, `0` or the empty string |
| Gemini.Property | services/geminiService.ts:104 | `v.key` is defined exactly for an object holding that key |
| Gemini.AcceptResponse | services/geminiService.ts:104-107 | the parsed reply is returned unchanged exactly when it is an object with a truthy `extractedData` or a truthy `priceMovementSummary`; otherwise the result is `null` |
| Gemini.AcceptanceExamples | services/geminiService.ts:104-105 | an empty record array is accepted, and so is a string in its place; an empty summary with no records is rejected, and so is a bare array |
| Gemini.HandleReply | services/geminiService.ts:100-112 | a failed call, a missing text or a parse error give exactly the one fixed error message; success returns exactly what the acceptance test makes of the parse of the trimmed text |
| Gemini.ReplyWhitespaceIgnored | services/geminiService.ts:100 | whitespace around the model's JSON does not change the outcome |
| Gemini.ExtractHogPriceData | services/geminiService.ts:86-113 | it fails exactly when the call for the content's prompt fails, returns no text, or returns text that does not parse after trimming, always with the fixed message; otherwise it returns the acceptance test's result on the parsed reply |
| Gemini.GetPrompt | services/geminiService.ts:41-83 | the prompt is a fixed head chosen by the content type, then the content verbatim, then a fixed tail |
| Gemini.PromptDeterminesContent | services/geminiService.ts:66 | different contents give different prompts |
| Gemini.HtmlPromptParts | services/geminiService.ts:55-68 | the HTML prompt holds the find-the-article-body step, the shared instructions, and the content between two `---` lines |
| Gemini.TextPromptParts | services/geminiService.ts:70-81 | the article-text prompt holds the shared instructions and the content between two `---` lines |

## Left out

- `App.tsx` is not part of this model. It is React state orchestration over time and I/O: submission, id assignment with `Date.now()`, local storage, and waiting for the Google scripts.
- `services/articleService.ts` is not part of this model. It is a network fetch through a proxy.
- Google sign-in and client set-up (`initGoogleClient`, `handleAuthClick`, `handleSignOutClick`, the module-level handles) are not modelled. They are foreign library calls. The API calls' replies are inputs of `Sheets.CreateSpreadsheet`, and "client initialised" is a boolean input.
- The Gemini client, the API-key check at module load, the response schema and `JSON.parse` are not modelled. The model call and the parser are function parameters of `Gemini.ExtractHogPriceData`, and `console.error` is dropped.
- The instructions inside the prompts (date format, thousands separator, averaging of ranges) are text for the AI model, not computation of the application. They appear only as prompt text.
- The file download in `utils/csv.ts` (Blob, link, click) and `console.warn` are not modelled. `Csv.ExportToCsv` returns the file's contents instead.
- Presentation components and their small input guards are not modelled, because they are UI wiring.
- Prices are integers. Fractional prices that the AI model may return, and `parseInt` precision above 2^53, are not modelled. Neither is `toString` for magnitudes of 10^21 and more.
- Text.LowerChar: covers ASCII, Latin-1, Latin Extended-A U+0100–U+012F, Ũ, Ơ/Ư and the Vietnamese letters U+1EA0–U+1EF9. Other characters are left unchanged, whereas full Unicode case mapping would change some of them.
- Gemini.TextPromptParts: does not state that the article-text prompt lacks the find-the-article-body step. That is a fact about the characters of long string constants that the verifier does not evaluate.
- Csv.CsvRoundTrip: states the read-back for the data lines and the BOM. The header line's read-back is the separate `Csv.ReadHeader`.
- Csv.CsvRoundTrip: is stated for text fields without double quotes or line feeds only. The export neither doubles embedded quotes nor quotes line feeds, so such fields do not read back.
- Sheets.CreateSpreadsheet: does not model a `spreadsheets.create` reply without a `result` separately. Such a reply raises an error without `result`, which is a failed create reply whose message is missing.

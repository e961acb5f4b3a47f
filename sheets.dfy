/** The Google Sheets export (services/googleSheetsService.ts): the
    credentials test, the table of values written to the new spreadsheet, and
    `createSpreadsheet`'s control flow. The two API calls are collaborators:
    their replies are parameters, and the model records which requests it
    would send. OAuth, script loading and the client handles are not
    modelled. */
module Sheets {

  import opened Types
  import opened Text
  import opened PriceDisplay
  import Csv

  /** `areGoogleKeysAvailable(creds)`: a configuration is present and its
      client id is a non-empty string. */
  function AreGoogleKeysAvailable(creds: Option<GoogleCreds>): (b: bool)
    ensures b <==> creds.Some? && |creds.value.clientId| > 0
  {
    creds.Some? && creds.value.clientId != ""
  }

  /** The test looks at emptiness only: a client id made of spaces counts as
      configured, and only a missing configuration or an empty id does not. */
  lemma KeysAvailableIffNonEmptyId(creds: Option<GoogleCreds>)
    ensures AreGoogleKeysAvailable(creds) <==> exists id: string :: id != [] && creds == Some(GoogleCreds(id))
    ensures AreGoogleKeysAvailable(Some(GoogleCreds(" ")))
  {
    if AreGoogleKeysAvailable(creds) {
      assert creds == Some(GoogleCreds(creds.value.clientId));
    }
  }

  // ---------------------------------------------------------------------
  // The values written
  // ---------------------------------------------------------------------

  const SheetHeaderRow: seq<string> := ["Date", "Province", "Price (K VND/kg)"]

  /** One spreadsheet row: date and province verbatim, shown price as text. */
  function SheetRow(item: HogPriceData): seq<string> {
    [item.date, item.province, DisplayText(item.price)]
  }

  /** `headers.concat(data.map(...))`: the header row, then one row per
      record in order. */
  function ValueTable(data: seq<HogPriceData>): (values: seq<seq<string>>)
    ensures |values| == |data| + 1 && values[0] == SheetHeaderRow
    ensures forall i :: 0 <= i < |data| ==>
              values[i + 1] == [data[i].date, data[i].province, DisplayText(data[i].price)]
  {
    [SheetHeaderRow] + seq(|data|, i requires 0 <= i < |data| => SheetRow(data[i]))
  }

  /** The spreadsheet and the CSV file carry the same cells: reading the
      exported CSV back gives exactly the spreadsheet's data rows, whenever
      no date or province holds a double quote or a line feed. */
  lemma SheetAgreesWithCsv(data: seq<HogPriceData>)
    requires |data| > 0
    requires forall i :: 0 <= i < |data| ==> Csv.PlainText(data[i].date) && Csv.PlainText(data[i].province)
    ensures Csv.CsvDocument(data).Some?
    ensures Csv.ReadCsvDocument(Csv.CsvDocument(data).value).Some?
    ensures Csv.ReadCsvDocument(Csv.CsvDocument(data).value).value[1..] == ValueTable(data)[1..]
  {
    Csv.CsvRoundTrip(data);
    var table := ValueTable(data)[1..];
    var cells := Csv.Cells(data);
    assert |table| == |cells|;
    forall i | 0 <= i < |data| ensures table[i] == cells[i] {
      assert table[i] == ValueTable(data)[i + 1];
    }
  }

  /** Unlike the CSV file, the spreadsheet receives a comma-bearing value
      unquoted. */
  lemma SheetCellsAreVerbatim(item: HogPriceData)
    requires ',' in item.date
    ensures ValueTable([item])[1][0] == item.date
    ensures Csv.CsvValue(item.date) != item.date
  {
    assert |Csv.CsvValue(item.date)| == |item.date| + 2;
  }

  // ---------------------------------------------------------------------
  // createSpreadsheet
  // ---------------------------------------------------------------------

  const CredentialsMissingMessage := "Cannot save to Sheets: Google credentials are not configured."
  const ClientNotInitializedMessage := "Google client not initialized."
  const GenericSaveErrorMessage := "An unknown error occurred while saving to Google Sheets."

  /** What a rejected call inside the save carries at `error.result.error.message`
      (None when any step of that path is missing). The error raised for a
      missing spreadsheet id has no `result`. */
  datatype ThrownError = ThrownError(resultErrorMessage: Option<string>)

  /** The message reported for a failure inside the save: the collaborator's
      message when it is a non-empty string, the generic message otherwise. */
  function SaveErrorMessage(e: ThrownError): (m: string)
    ensures m != ""
    ensures m == GenericSaveErrorMessage || Some(m) == e.resultErrorMessage
    ensures (e.resultErrorMessage.Some? && e.resultErrorMessage.value != "") ==> m == e.resultErrorMessage.value
  {
    match e.resultErrorMessage
    case Some(msg) => if msg != "" then msg else GenericSaveErrorMessage
    case None => GenericSaveErrorMessage
  }

  /** The reply of `spreadsheets.create`. */
  datatype CreatedSpreadsheet = CreatedSpreadsheet(spreadsheetId: string, spreadsheetUrl: string)

  /** The requests the save sends, in order. */
  datatype SheetsRequest =
    | CreateRequest(title: string)
    | UpdateRequest(spreadsheetId: string, range: string, valueInputOption: string, values: seq<seq<string>>)

  /** The result of a save (the new sheet's URL, or the message of the error
      thrown) and the requests it sent. */
  datatype SaveAttempt = SaveAttempt(outcome: Result<string, string>, requests: seq<SheetsRequest>)

  /** `createSpreadsheet(creds, data, title)`, with the client's readiness
      and the replies of the two API calls as inputs. */
  function CreateSpreadsheet(creds: Option<GoogleCreds>, clientReady: bool, data: seq<HogPriceData>, title: string,
                             createReply: Result<CreatedSpreadsheet, ThrownError>,
                             updateReply: Result<(), ThrownError>): (a: SaveAttempt)
    // without credentials the save fails at once and sends nothing
    ensures !AreGoogleKeysAvailable(creds) ==> a == SaveAttempt(Failure(CredentialsMissingMessage), [])
    ensures AreGoogleKeysAvailable(creds) && !clientReady ==> a == SaveAttempt(Failure(ClientNotInitializedMessage), [])
    // every request sent comes after the checks; the first creates the sheet
    ensures a.requests != [] ==> AreGoogleKeysAvailable(creds) && clientReady && a.requests[0] == CreateRequest(title)
    ensures |a.requests| <= 2
    ensures forall r :: r in a.requests && r.UpdateRequest? ==> r.values == ValueTable(data) && r.range == "A1"
    // success exactly when both calls succeed and the sheet has an id
    ensures a.outcome.Success? <==>
              AreGoogleKeysAvailable(creds) && clientReady && createReply.Success? &&
              createReply.value.spreadsheetId != "" && updateReply.Success?
    ensures a.outcome.Success? ==>
              a.outcome.value == createReply.value.spreadsheetUrl &&
              a.requests == [CreateRequest(title),
                             UpdateRequest(createReply.value.spreadsheetId, "A1", "USER_ENTERED", ValueTable(data))]
    // a failing call is reported with that call's message, or the generic one
    ensures AreGoogleKeysAvailable(creds) && clientReady && createReply.Failure? ==>
              a == SaveAttempt(Failure(SaveErrorMessage(createReply.error)), [CreateRequest(title)])
    ensures AreGoogleKeysAvailable(creds) && clientReady && createReply.Success? &&
            createReply.value.spreadsheetId != "" && updateReply.Failure? ==>
              a.outcome == Failure(SaveErrorMessage(updateReply.error)) && |a.requests| == 2
    ensures a.outcome.Failure? && a.requests != [] ==>
              || a.outcome.error == GenericSaveErrorMessage
              || (createReply.Failure? && Some(a.outcome.error) == createReply.error.resultErrorMessage)
              || (updateReply.Failure? && Some(a.outcome.error) == updateReply.error.resultErrorMessage)
  {
    if !AreGoogleKeysAvailable(creds) then SaveAttempt(Failure(CredentialsMissingMessage), [])
    else if !clientReady then SaveAttempt(Failure(ClientNotInitializedMessage), [])
    else
      var create := CreateRequest(title);
      match createReply
      case Failure(e) => SaveAttempt(Failure(SaveErrorMessage(e)), [create])
      case Success(sheet) =>
        if sheet.spreadsheetId == "" then
          SaveAttempt(Failure(SaveErrorMessage(ThrownError(None))), [create])
        else
          var update := UpdateRequest(sheet.spreadsheetId, "A1", "USER_ENTERED", ValueTable(data));
          match updateReply
          case Failure(e) => SaveAttempt(Failure(SaveErrorMessage(e)), [create, update])
          case Success(_) => SaveAttempt(Success(sheet.spreadsheetUrl), [create, update])
  }

  /** A created sheet without an id is reported with the generic message,
      not with the message of the error raised for it, and no values are
      written. */
  lemma MissingIdReportsGenericMessage(creds: Option<GoogleCreds>, data: seq<HogPriceData>, title: string,
                                       url: string, updateReply: Result<(), ThrownError>)
    requires AreGoogleKeysAvailable(creds)
    ensures CreateSpreadsheet(creds, true, data, title, Success(CreatedSpreadsheet("", url)), updateReply)
         == SaveAttempt(Failure(GenericSaveErrorMessage), [CreateRequest(title)])
  {
  }
}

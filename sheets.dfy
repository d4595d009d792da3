/** `SheetsService.appendEntries`: one row per log entry, appended to the
    configured spreadsheet in a single call.  The Sheets API's answer is an
    input. */
module Sheets {
  import opened Common
  import opened Text

  /** One processed email, as logged. */
  datatype SheetLogEntry = SheetLogEntry(
    from: string,
    date: string,
    subject: string,
    invoiceNumber: Option<string>,
    driveFileIds: seq<string>,
    processedAt: string)

  /** `spreadsheets.values.append` */
  datatype AppendRequest = AppendRequest(
    spreadsheetId: string,
    range: string,
    valueInputOption: string,
    insertDataOption: string,
    values: seq<seq<string>>)

  /** How an append ended, and the request it sent, if any. */
  datatype Appended = Appended(outcome: Result<(), Exception>, request: Option<AppendRequest>)

  const SheetNotConfigured: string := "GOOGLE_SHEET_ID not configured"

  /** The column holding the Drive file ids: `driveFileIds.join(', ')`. */
  function IdsCell(ids: seq<string>): string
  {
    Join(ids, ", ")
  }

  /** The row of an entry: from, date, subject, invoice number (empty when
      there is none), file ids, time of processing. */
  function Row(e: SheetLogEntry): (row: seq<string>)
    ensures |row| == 6
  {
    [e.from, e.date, e.subject, OrElse(e.invoiceNumber, ""), IdsCell(e.driveFileIds), e.processedAt]
  }

  function Rows(entries: seq<SheetLogEntry>): (rows: seq<seq<string>>)
    ensures |rows| == |entries|
  {
    seq(|entries|, k requires 0 <= k < |entries| => Row(entries[k]))
  }

  /** The request appending `entries` to the first sheet, columns A to F,
      values interpreted as typed by a user, rows inserted. */
  function AppendRequestFor(sheetId: string, entries: seq<SheetLogEntry>): AppendRequest
  {
    AppendRequest(sheetId, "Sheet1!A:F", "USER_ENTERED", "INSERT_ROWS", Rows(entries))
  }

  /** `appendEntries`; `auth` is how `getClient` ends, `sheetId` the
      configured spreadsheet and `append` the API's answer to a request. */
  function AppendEntries(auth: Result<(), Exception>, sheetId: Option<string>, entries: seq<SheetLogEntry>,
                         append: AppendRequest -> Result<(), string>): (a: Appended)
    ensures a.request.Some? <==> auth.Success? && Truthy(sheetId)
    ensures a.request.Some? ==> a.request.value.values == Rows(entries) && a.request.value.spreadsheetId == sheetId.value
    ensures auth.Failure? ==> a.outcome == Failure(auth.error)
    ensures auth.Success? && !Truthy(sheetId) ==> a.outcome == Failure(Error(SheetNotConfigured))
    ensures a.request.Some? ==> (a.outcome.Success? <==> append(a.request.value).Success?)
  {
    if auth.Failure? then Appended(Failure(auth.error), None)
    else if !Truthy(sheetId) then Appended(Failure(Error(SheetNotConfigured)), None)
    else
      var request := AppendRequestFor(sheetId.value, entries);
      match append(request)
      case Failure(m) => Appended(Failure(Error(m)), Some(request))
      case Success(_) => Appended(Success(()), Some(request))
  }

  /** Each entry becomes one row, in order, and each row reads back as the
      entry: its text fields, its invoice number when it has one, and its
      ids joined by `, ` (nothing when it has none). */
  lemma RowsReadBack(entries: seq<SheetLogEntry>, k: nat)
    requires k < |entries|
    ensures var row := Rows(entries)[k];
      var e := entries[k];
      && row[0] == e.from && row[1] == e.date && row[2] == e.subject && row[5] == e.processedAt
      && (row[3] == "" <==> !Truthy(e.invoiceNumber))
      && (Truthy(e.invoiceNumber) ==> row[3] == e.invoiceNumber.value)
      && row[4] == IdsCell(e.driveFileIds)
      && (e.driveFileIds == [] ==> row[4] == "")
  {
  }

  /** The ids column of a logged row splits back into the entry's file ids,
      each after the `, ` that precedes it, when no id holds a comma. */
  lemma RowIdsReadBack(entries: seq<SheetLogEntry>, k: nat)
    requires k < |entries| && entries[k].driveFileIds != []
    requires forall j :: 0 <= j < |entries[k].driveFileIds| ==> ',' !in entries[k].driveFileIds[j]
    ensures var ids := entries[k].driveFileIds;
      var pieces := Split(Rows(entries)[k][4], ',');
      && |pieces| == |ids|
      && pieces[0] == ids[0]
      && forall j :: 1 <= j < |ids| ==> pieces[j] == " " + ids[j]
  {
    RowsReadBack(entries, k);
    IdsCellReadsBack(entries[k].driveFileIds);
  }

  /** Splitting `[c] + x` on a different character extends the first piece of `x`. */
  lemma SplitAfterOther(c: char, sep: char, x: string)
    requires c != sep
    ensures Split([c] + x, sep) == [[c] + Split(x, sep)[0]] + Split(x, sep)[1..]
  {
    assert ([c] + x)[1..] == x;
  }

  /** The ids column splits back, at its commas, into the ids: the first as
      it is, the others behind the space that follows each comma; no id is
      lost when none holds a comma. */
  lemma {:induction false} IdsCellReadsBack(ids: seq<string>)
    requires ids != [] && forall k :: 0 <= k < |ids| ==> ',' !in ids[k]
    ensures var pieces := Split(IdsCell(ids), ',');
      && |pieces| == |ids|
      && pieces[0] == ids[0]
      && forall k :: 1 <= k < |ids| ==> pieces[k] == " " + ids[k]
    decreases |ids|
  {
    if |ids| == 1 {
      SplitWithoutSeparator(ids[0], ',');
    } else {
      var rest := ids[1..];
      IdsCellReadsBack(rest);
      var tail := Split(IdsCell(rest), ',');
      assert IdsCell(ids) == ids[0] + [','] + ([' '] + IdsCell(rest));
      SplitAfterHead(ids[0], ',', [' '] + IdsCell(rest));
      SplitAfterOther(' ', ',', IdsCell(rest));
      var pieces := Split(IdsCell(ids), ',');
      assert pieces == [ids[0]] + ([[' '] + tail[0]] + tail[1..]);
      forall k | 1 <= k < |ids|
        ensures pieces[k] == " " + ids[k]
      {
        if k > 1 {
          assert pieces[k] == tail[k - 1];
        }
      }
    }
  }
}

/** `ScanService.runScan`: fetch the invoice emails, upload each one's
    attachments to Drive under structured names, and log one row per email
    to the spreadsheet in a single append. */
module Scan {
  import opened Common
  import opened Text
  import Gmail
  import Drive
  import Sheets

  /** Everything outside the service: how each `getClient` ends, Gmail's and
      Drive's answers, the configured folder and spreadsheet, the Sheets
      API's answer, the date conversion, and the time at which the `k`-th
      email is logged (`new Date().toISOString()`).  Drive's answer is
      indexed by email, then by attachment. */
  datatype ScanEnv = ScanEnv(
    auth: Result<(), Exception>,
    box: Gmail.Mailbox,
    driveFolderId: Option<string>,
    toIso: string -> Option<string>,
    create: nat -> nat -> Drive.CreateOutcome,
    sheetId: Option<string>,
    append: Sheets.AppendRequest -> Result<(), string>,
    clock: nat -> string)

  /** `{ processed, details }` */
  datatype ScanSummary = ScanSummary(processed: nat, details: seq<Sheets.SheetLogEntry>)

  /** How a scan ended, and what it asked of Gmail, Drive and Sheets. */
  datatype ScanRun = ScanRun(
    outcome: Result<ScanSummary, Exception>,
    gmailCalls: seq<Gmail.Call>,
    uploads: seq<Drive.CreateRequest>,
    append: Option<Sheets.AppendRequest>)

  function ContextOf(m: Gmail.GmailMessage): Drive.EmailContext
  {
    Drive.EmailContext(m.from, m.date, m.subject)
  }

  /** `uploads.map(u => u.fileId)` */
  function FileIds(uploads: seq<Drive.DriveUploadResult>): (ids: seq<string>)
    ensures |ids| == |uploads|
  {
    seq(|uploads|, j requires 0 <= j < |uploads| => uploads[j].fileId)
  }

  /** The log entry of an email whose attachments were stored as `uploads`. */
  function EntryOf(m: Gmail.GmailMessage, uploads: seq<Drive.DriveUploadResult>, processedAt: string): Sheets.SheetLogEntry
  {
    Sheets.SheetLogEntry(m.from, m.date, m.subject, Drive.InvoiceNumber(m.subject), FileIds(uploads), processedAt)
  }

  /** The upload of the `k`-th email's attachments. */
  function UploadsOf(env: ScanEnv, emails: seq<Gmail.GmailMessage>, k: nat): Result<seq<Drive.DriveUploadResult>, Exception>
    requires k < |emails|
  {
    Drive.Uploads(env.auth, env.driveFolderId, emails[k].attachments, Some(ContextOf(emails[k])), env.toIso, env.create(k))
  }

  function UploadRequestsOf(env: ScanEnv, emails: seq<Gmail.GmailMessage>, k: nat): seq<Drive.CreateRequest>
    requires k < |emails|
  {
    Drive.UploadRequests(env.auth, env.driveFolderId, emails[k].attachments, Some(ContextOf(emails[k])), env.toIso)
  }

  /** The entries for the first `n` emails, and the uploads requested; the
      first upload that throws ends the loop. */
  function EntriesUpTo(env: ScanEnv, emails: seq<Gmail.GmailMessage>, n: nat): (r: (Result<seq<Sheets.SheetLogEntry>, Exception>, seq<Drive.CreateRequest>))
    requires n <= |emails|
    ensures r.0.Success? ==> |r.0.value| == n
  {
    if n == 0 then (Success([]), [])
    else
      var (prev, requests) := EntriesUpTo(env, emails, n - 1);
      if prev.Failure? then (prev, requests)
      else
        var requests' := requests + UploadRequestsOf(env, emails, n - 1);
        match UploadsOf(env, emails, n - 1)
        case Failure(e) => (Failure(e), requests')
        case Success(uploads) => (Success(prev.value + [EntryOf(emails[n - 1], uploads, env.clock(n - 1))]), requests')
  }

  lemma {:induction false} EntriesFailureSticks(env: ScanEnv, emails: seq<Gmail.GmailMessage>, n: nat, n': nat)
    requires n <= n' <= |emails| && EntriesUpTo(env, emails, n).0.Failure?
    ensures EntriesUpTo(env, emails, n') == EntriesUpTo(env, emails, n)
    decreases n'
  {
    if n < n' {
      EntriesFailureSticks(env, emails, n, n' - 1);
    }
  }

  /** `runScan` */
  function ScanOf(env: ScanEnv): ScanRun
  {
    var fetched := Gmail.Fetch(env.auth, env.box);
    if fetched.outcome.Failure? then ScanRun(Failure(fetched.outcome.error), fetched.calls, [], None)
    else
      var emails := fetched.outcome.value;
      var (entries, uploads) := EntriesUpTo(env, emails, |emails|);
      if entries.Failure? then ScanRun(Failure(entries.error), fetched.calls, uploads, None)
      else if |entries.value| == 0 then ScanRun(Success(ScanSummary(0, [])), fetched.calls, uploads, None)
      else
        var appended := Sheets.AppendEntries(env.auth, env.sheetId, entries.value, env.append);
        var outcome := if appended.outcome.Failure? then Failure(appended.outcome.error)
                       else Success(ScanSummary(|entries.value|, entries.value));
        ScanRun(outcome, fetched.calls, uploads, appended.request)
  }

  /** `runScan`: nothing is caught, so a failing fetch, upload or append
      fails the scan; the append comes after every upload. */
  method RunScan(env: ScanEnv) returns (run: ScanRun)
    ensures run == ScanOf(env)
  {
    var emails, gmailCalls := Gmail.FetchInvoiceEmails(env.auth, env.box);
    if emails.Failure? {
      return ScanRun(Failure(emails.error), gmailCalls, [], None);
    }
    var entries: seq<Sheets.SheetLogEntry> := [];
    var uploads: seq<Drive.CreateRequest> := [];
    var i := 0;
    while i < |emails.value|
      invariant 0 <= i <= |emails.value|
      invariant EntriesUpTo(env, emails.value, i) == (Success(entries), uploads)
    {
      var email := emails.value[i];
      var results, requests := Drive.UploadAttachments(env.auth, env.driveFolderId, email.attachments,
                                                       Some(ContextOf(email)), env.toIso, env.create(i));
      uploads := uploads + requests;
      if results.Failure? {
        EntriesFailureSticks(env, emails.value, i + 1, |emails.value|);
        return ScanRun(Failure(results.error), gmailCalls, uploads, None);
      }
      var fileIds := FileIds(results.value);
      var invoiceNumber := Drive.InvoiceNumber(email.subject);
      entries := entries + [Sheets.SheetLogEntry(email.from, email.date, email.subject, invoiceNumber, fileIds, env.clock(i))];
      i := i + 1;
    }
    if |entries| > 0 {
      var appended := Sheets.AppendEntries(env.auth, env.sheetId, entries, env.append);
      if appended.outcome.Failure? {
        return ScanRun(Failure(appended.outcome.error), gmailCalls, uploads, appended.request);
      }
      return ScanRun(Success(ScanSummary(|entries|, entries)), gmailCalls, uploads, appended.request);
    }
    return ScanRun(Success(ScanSummary(|entries|, entries)), gmailCalls, uploads, None);
  }

  // ---------------------------------------------------------------------------
  // What a scan promises

  /** What the `n`-th email adds to a successful run of the loop. */
  lemma EntriesStep(env: ScanEnv, emails: seq<Gmail.GmailMessage>, n: nat)
    requires 0 < n <= |emails| && EntriesUpTo(env, emails, n).0.Success?
    ensures EntriesUpTo(env, emails, n - 1).0.Success? && UploadsOf(env, emails, n - 1).Success?
    ensures EntriesUpTo(env, emails, n).0.value ==
      EntriesUpTo(env, emails, n - 1).0.value + [EntryOf(emails[n - 1], UploadsOf(env, emails, n - 1).value, env.clock(n - 1))]
  {
  }

  /** The `k`-th entry of a successful run is the `k`-th email's. */
  lemma {:induction false} EntryAtIndex(env: ScanEnv, emails: seq<Gmail.GmailMessage>, n: nat, k: nat)
    requires k < n <= |emails| && EntriesUpTo(env, emails, n).0.Success?
    ensures UploadsOf(env, emails, k).Success?
    ensures EntriesUpTo(env, emails, n).0.value[k] == EntryOf(emails[k], UploadsOf(env, emails, k).value, env.clock(k))
    decreases n
  {
    EntriesStep(env, emails, n);
    if k < n - 1 {
      EntryAtIndex(env, emails, n - 1, k);
    }
  }

  /** A successful scan reports one entry per fetched email, in fetch order,
      and counts them; each entry carries its email's fields and the ids of
      exactly the attachments Drive stored for that email, in attachment
      order. */
  lemma EntriesFollowEmails(env: ScanEnv, emails: seq<Gmail.GmailMessage>, n: nat)
    requires n <= |emails| && EntriesUpTo(env, emails, n).0.Success?
    ensures |EntriesUpTo(env, emails, n).0.value| == n
    ensures forall k :: 0 <= k < n ==> UploadsOf(env, emails, k).Success?
    ensures forall k :: 0 <= k < n ==>
      EntriesUpTo(env, emails, n).0.value[k] == EntryOf(emails[k], UploadsOf(env, emails, k).value, env.clock(k))
  {
    forall k | 0 <= k < n
      ensures UploadsOf(env, emails, k).Success?
      ensures EntriesUpTo(env, emails, n).0.value[k] == EntryOf(emails[k], UploadsOf(env, emails, k).value, env.clock(k))
    {
      EntryAtIndex(env, emails, n, k);
    }
  }

  /** The ids logged for an email are those of its stored attachments. */
  lemma LoggedIdsAreStored(env: ScanEnv, emails: seq<Gmail.GmailMessage>, k: nat)
    requires k < |emails| && UploadsOf(env, emails, k).Success?
    ensures var ids := FileIds(UploadsOf(env, emails, k).value);
      var atts := emails[k].attachments;
      var ix := Drive.StoredPositions(Drive.Names(atts, Some(ContextOf(emails[k])), env.toIso), env.create(k), |atts|);
      && |ids| == |ix|
      && forall j :: 0 <= j < |ix| ==> ids[j] == env.create(k)(ix[j]).id.value
  {
    var atts := emails[k].attachments;
    Drive.ResultsAreStoredAttachments(atts, Drive.Names(atts, Some(ContextOf(emails[k])), env.toIso), env.create(k), |atts|);
  }

  /** The invoice number logged is the one in the file names: it is absent
      exactly when the names say `unknown`. */
  lemma LoggedInvoiceMatchesName(m: Gmail.GmailMessage, uploads: seq<Drive.DriveUploadResult>, processedAt: string)
    ensures var e := EntryOf(m, uploads, processedAt);
      && (e.invoiceNumber.None? <==> Drive.InvoiceSegment(m.subject) == "unknown")
      && (e.invoiceNumber.Some? ==> e.invoiceNumber.value == Drive.InvoiceSegment(m.subject) && e.invoiceNumber.value != "")
  {
    Drive.InvoiceSegmentUnknown(m.subject);
  }

  /** A successful scan processed every fetched email, and appended once,
      with one row per entry, exactly when there was at least one. */
  lemma ScanSucceeds(env: ScanEnv)
    requires ScanOf(env).outcome.Success?
    ensures var fetched := Gmail.Fetch(env.auth, env.box);
      var run := ScanOf(env);
      var s := run.outcome.value;
      && fetched.outcome.Success?
      && s.processed == |s.details| == |fetched.outcome.value|
      && (run.append.Some? <==> s.processed > 0)
      && (run.append.Some? ==> run.append.value == Sheets.AppendRequestFor(env.sheetId.value, s.details))
      && run.gmailCalls == fetched.calls
  {
  }

  /** In every run, failed or not, the scan asks Sheets for at most one
      append: only after the fetch succeeded and every email's uploads went
      through, and it carries one entry per fetched email, in fetch order. */
  lemma AppendCarriesEveryEntry(env: ScanEnv)
    requires ScanOf(env).append.Some?
    ensures var fetched := Gmail.Fetch(env.auth, env.box);
      && fetched.outcome.Success?
      && var emails := fetched.outcome.value;
      var entries := EntriesUpTo(env, emails, |emails|).0;
      && entries.Success?
      && |entries.value| == |emails| > 0
      && env.sheetId.Some?
      && ScanOf(env).append.value == Sheets.AppendRequestFor(env.sheetId.value, entries.value)
  {
    var emails := Gmail.Fetch(env.auth, env.box).outcome.value;
    EntriesFollowEmails(env, emails, |emails|);
  }

  /** An upload that throws (a missing Drive folder) fails the scan before
      anything is appended: the emails already marked read in Gmail are
      logged nowhere. */
  lemma FailedUploadLogsNothing(env: ScanEnv)
    requires Gmail.Fetch(env.auth, env.box).outcome.Success?
    requires Gmail.Fetch(env.auth, env.box).outcome.value != []
    requires !Truthy(env.driveFolderId)
    ensures ScanOf(env).outcome == Failure(Error(Drive.FolderNotConfigured))
    ensures ScanOf(env).append.None?
    ensures ScanOf(env).uploads == []
    ensures Gmail.Marked(ScanOf(env).gmailCalls) == Gmail.Ids(Gmail.Fetch(env.auth, env.box).outcome.value)
  {
    var fetched := Gmail.Fetch(env.auth, env.box);
    var emails := fetched.outcome.value;
    var refs := Gmail.Listed(env.box);
    assert env.auth.Success?;
    assert UploadRequestsOf(env, emails, 0) == [];
    assert UploadsOf(env, emails, 0) == Failure(Error(Drive.FolderNotConfigured));
    assert EntriesUpTo(env, emails, 0) == (Success([]), []);
    var empty: seq<Drive.CreateRequest> := [];
    assert empty + UploadRequestsOf(env, emails, 0) == [];
    assert EntriesUpTo(env, emails, 1) == (Failure(Error(Drive.FolderNotConfigured)), []);
    EntriesFailureSticks(env, emails, 1, |emails|);
    Gmail.FetchMarksReturned(env.box, refs, |refs|);
    Gmail.MarkedAppend([Gmail.List], Gmail.FetchUpTo(env.box, refs, |refs|).calls);
    assert Gmail.Marked([Gmail.List]) == [] by {
      assert [Gmail.List][..0] == [];
    }
  }

  /** No email, no append: the scan reports nothing processed. */
  lemma EmptyScanAppendsNothing(env: ScanEnv)
    requires Gmail.Fetch(env.auth, env.box).outcome == Success([])
    ensures ScanOf(env) == ScanRun(Success(ScanSummary(0, [])), Gmail.Fetch(env.auth, env.box).calls, [], None)
  {
  }
}

# financial-document-organizer, modelled in Dafny

The financial-document-organizer is a NestJS service that glues Google's APIs
together. It has two flows.

- **Archive upload.** It downloads a ZIP archive from a URL, extracts its
  files and uploads them into the Google Drive folder named by a shared
  link. An API key guards this endpoint.
- **Invoice scan.** It reads unread invoice emails from Gmail and stores
  their attachments in Drive under structured names
  (`<sender>_<invoice>_<date>.<ext>`). It marks each email read and logs one
  row per email to a Google Sheet.

Both flows obtain their Google client from an OAuth token service. That
service keeps its tokens in a file and refreshes them when they expire.

The model keeps the deterministic logic around the remote calls. Every
remote service is an input.

- An HTTP answer is a function from the request to the body or the error.
- An archive is its list of entries, each with readable or unreadable data.
- A Drive, Gmail or Sheets answer is a function indexed by the position of
  the call.
- How `getClient` ends is an `auth` outcome.
- The token file is an optional record.
- `new URL`, `new Date(...).toISOString()` and the clock are functions given
  as parameters.

Where the service loops and pushes into arrays, the model is a Dafny `method`
with a `while` loop. Each such method is proved equal to a recursive
specification function over prefixes (`…UpTo(n)`), and the properties are
proved as lemmas about that function. The token service updates its fields in
place, so it is a `class`.

Modules, one per source file (file-processor.service.ts is split in three):

- `Common`: `Option`, `Result`, the exceptions and JavaScript truthiness.
- `Text`: `split`, `join`, `trim`, `toLowerCase`, `\s`, `\d` and decimal
  printing, with their laws.
- `FolderLink`: `extractFolderIdFromLink`.
- `MimeTypes`: `getMimeType`.
- `FileProcessor`: `validateRequest`, `downloadFile`, `extractZipFile`,
  `uploadFilesToDrive` and `processFile`.
- `ApiKeyGuard`: `api-key.guard.ts`.
- `Gmail`: `fetchInvoiceEmails`.
- `Drive`: `uploadAttachments` and its file naming.
- `Sheets`: `appendEntries`.
- `Scan`: `runScan`.
- `GoogleAuth`: `GoogleAuthService`.

The repository's own description differs from its code on a few points. The
model follows the code on each of them:

- An archive entry is skipped when `__MACOSX` occurs anywhere in its name,
  not only as a leading directory.
- An entry whose data cannot be read aborts the whole extraction; it is not
  skipped.
- Every failure of `processFile`, including a refused request, reaches the
  caller as an internal server error. The message is prefixed by
  `File processing failed: `.
- A download refused for its size throws an axios error without a response.
  It is therefore classified as an internal error (`Download failed: …`),
  not as a bad request.
- `uploadAttachments` obtains the Google client before it checks the Drive
  folder. A failing client therefore wins over a missing folder.
- The token refresh test is strict: `(expiry_date ?? 0) < Date.now()`.

## Model

| member | source | states |
|---|---|---|
| FolderLink.CaptureIsLeftmost | src/file-processor/file-processor.service.ts:103-111 | a pattern's capture is the id run of its leftmost match |
| FolderLink.CaptureNoneIffNoMatch | src/file-processor/file-processor.service.ts:108-113 | a pattern captures nothing exactly when it matches at no position |
| FolderLink.FolderIdFromLink | src/file-processor/file-processor.service.ts:96-122 | an accepted id is non-empty; a rejection is always `Invalid Google Drive folder link format`; a folders capture wins, then an open capture, then a direct capture; with none, the last segment cut at `?` is accepted exactly when its `length`, counted in UTF-16 code units by `Utf16Length`, exceeds ten; when any pattern matches, the id is made of `[A-Za-z0-9_-]` only |
| Text.Utf16Length | src/file-processor/file-processor.service.ts:117 | `cleanId.length`: between the character count and twice it; equal to the character count exactly when no character lies outside the Basic Multilingual Plane, twice it when every character does |
| FolderLink.CleanIdShape | src/file-processor/file-processor.service.ts:116 | the fallback id is a prefix of the last `/`-segment, cut at its first `?`, and holds neither `/` nor `?` |
| FolderLink.FoldersMatchWins | src/file-processor/file-processor.service.ts:101-111 | the leftmost `/folders/` match gives the id, whatever the other patterns match |
| FolderLink.OpenMatchWins | src/file-processor/file-processor.service.ts:101-111 | with no `/folders/` match anywhere, the leftmost `[?&]id=` match gives the id |
| FolderLink.DirectMatchWins | src/file-processor/file-processor.service.ts:101-111 | the `/d/` pattern decides only when neither earlier pattern matches anywhere, and then its leftmost match gives the id |
| FolderLink.NoMatchFallsBack | src/file-processor/file-processor.service.ts:114-121 | with no match of any pattern, the result is the last segment cut at `?` when its UTF-16 length exceeds ten, the format error otherwise |
| FolderLink.PlainTextIsTakenWhole | src/file-processor/file-processor.service.ts:114-121 | a text without `/`, `?` or `&` is accepted whole when its UTF-16 length exceeds ten, whatever characters it holds |
| FolderLink.AstralTextIsTakenWhole | src/file-processor/file-processor.service.ts:116-118 | six characters outside the Basic Multilingual Plane have `length` twelve, so such a text is accepted as the id |
| FolderLink.FoldersLinkGivesId | src/file-processor/file-processor.service.ts:103-111 | `<host>/folders/<id><rest>` yields `<id>` whatever follows it, short ids included |
| FolderLink.OpenLinkGivesId | src/file-processor/file-processor.service.ts:104-111 | `<host>?id=<id><rest>` yields `<id>` when neither the host nor the rest could start an earlier match |
| FolderLink.BareIdGivesId | src/file-processor/file-processor.service.ts:115-121 | a bare run of `[A-Za-z0-9_-]` is accepted exactly when it is longer than ten characters; being ASCII, its UTF-16 length is its character count |
| FolderLink.LinkShapesAgree | src/file-processor/file-processor.service.ts:97-121 | the folders link, the folders link with `?usp=sharing`, the open link and the bare id all give the same id |
| FolderLink.GoogleLinkShapesAgree | src/file-processor/file-processor.service.ts:97-100 | the link shapes named in the source's comment, on drive.google.com, all give the folder id |
| FolderLink.ExtractFolderIdFromLink | src/file-processor/file-processor.service.ts:96-122 | the loop over the patterns with its early return, and the UTF-16 length test of the fallback, compute `FolderIdFromLink` |
| MimeTypes.MimeType | src/file-processor/file-processor.service.ts:261-309 | the type is `application/octet-stream` or one of the 32 table entries |
| MimeTypes.MimeTypeOfExtension | src/file-processor/file-processor.service.ts:262-308 | `<base>.<ext>` gets the table entry of lower-cased `<ext>`, whatever the base, else octet-stream |
| MimeTypes.MimeTypeWithoutDot | src/file-processor/file-processor.service.ts:262-308 | a name without a dot is looked up whole, lower-cased |
| MimeTypes.MimeTypeOfTableExtension | src/file-processor/file-processor.service.ts:262-308 | `<base>.<ext>`, for a table key written in lower-case letters, digits and `_` (such as `mp4` or `7z`), gets exactly that key's type |
| MimeTypes.MimeLookupAsWrittenLeaksPrototype | src/file-processor/file-processor.service.ts:264-308 | as written, extension `constructor` or `__proto__` yields an inherited `Object.prototype` member instead of a type |
| MimeTypes.MimeLookupAsWrittenAgreesElsewhere | src/file-processor/file-processor.service.ts:262-308 | for every other name the lookup as written agrees with `MimeType` |
| FileProcessor.ValidateRequestOrder | src/file-processor/file-processor.service.ts:72-91 | `ValidateRequest` refuses in order: absent or blank file URL, then absent or blank folder link, then a URL that does not parse; otherwise accepted |
| FileProcessor.DownloadFile | src/file-processor/file-processor.service.ts:127-162 | the GET carries the 5-minute timeout and the 500 MiB cap; a body is returned unchanged; every failure is a bad request or an internal error |
| FileProcessor.DownloadException | src/file-processor/file-processor.service.ts:150-161 | a bad request exactly for `ECONNABORTED` or a status ≥ 400, an internal error otherwise |
| FileProcessor.DownloadStatusInMessage | src/file-processor/file-processor.service.ts:157-159 | any other error status is named in the message and reads back from it as a decimal |
| FileProcessor.ExtractionFailsAtFirstUnreadable | src/file-processor/file-processor.service.ts:175-205 | extraction fails exactly when a kept entry cannot be read, with the message of the first such entry |
| FileProcessor.ExtractedAreKeptEntries | src/file-processor/file-processor.service.ts:175-193 | `ExtractZip` gives one file per entry that is not skipped, in entry order, named after the entry and holding its data |
| FileProcessor.ExtractZipKeepsNoSkippedEntries | src/file-processor/file-processor.service.ts:167-206 | no directory, dot-file or `__MACOSX` entry is extracted; name = path = entry name; size = data length; totals are the count and the sum of sizes |
| FileProcessor.PlainNameKept | src/file-processor/file-processor.service.ts:176-179 | a file entry whose name neither starts with `.` nor holds `_` is not skipped |
| FileProcessor.ExtractKeptSkippedKept | src/file-processor/file-processor.service.ts:175-201 | a kept, a skipped and a kept entry give the two kept files in order, a count of two and the sum of their sizes |
| FileProcessor.ExtractZipExample | src/file-processor/file-processor.service.ts:175-201 | `a.txt`, a directory and `sub/b.png` give two files typed `text/plain` and `image/png`, with the right totals |
| FileProcessor.ExtractZipFile | src/file-processor/file-processor.service.ts:167-206 | the loop over the entries computes `ExtractZip` |
| FileProcessor.UploadFilesToDrive | src/file-processor/file-processor.service.ts:211-256 | the loop computes `UploadFiles` and sends one create request per file, into the folder, with the file's type and data |
| FileProcessor.UploadsAreSuccessfulCalls | src/file-processor/file-processor.service.ts:217-253 | in `UploadFiles`, the results are, in file order, exactly the files whose call returned an id, each with that id |
| FileProcessor.OneFailedUploadIsSkipped | src/file-processor/file-processor.service.ts:249-252 | one failing upload among successes drops exactly that file and keeps the order |
| FileProcessor.AllUploaded | src/file-processor/file-processor.service.ts:217-247 | when every call returns an id, every file is reported in order |
| FileProcessor.ProcessFile | src/file-processor/file-processor.service.ts:29-67 | the composition computes `ProcessRun`: outcome and remote calls |
| FileProcessor.InvalidRequestMakesNoCall | src/file-processor/file-processor.service.ts:33-66 | a refused request makes no remote call and fails with the wrapped refusal |
| FileProcessor.InvalidFolderLinkMakesNoCall | src/file-processor/file-processor.service.ts:36-66 | an unparseable folder link makes no remote call |
| FileProcessor.ProcessFailuresAreInternal | src/file-processor/file-processor.service.ts:63-66 | every failure is an internal server error prefixed `File processing failed: ` |
| FileProcessor.ProcessSuccess | src/file-processor/file-processor.service.ts:29-61 | `ProcessRun`, on success: the request was valid; `driveFolder` is the parsed id; one download with the 5-minute timeout and the 500 MiB cap; one create per extracted file, into that folder; uploads ≤ `totalFiles` |
| FileProcessor.StagesSucceed | src/file-processor/file-processor.service.ts:29-61 | when validation, link parsing, download, extraction and the client all succeed, the response reports the uploads, the folder id and the extraction totals |
| FileProcessor.ProcessFileExample | src/file-processor/file-processor.service.ts:29-61 | a concrete folders link and archive yield two uploaded files of the right types in folder `ABCDEFG123` |
| ApiKeyGuard.ExtractApiKey | src/file-processor/api-key.guard.ts:30-55 | an extracted key is never empty |
| ApiKeyGuard.CanActivate | src/file-processor/api-key.guard.ts:9-28 | admits exactly when a key was presented, a key is configured and the two are equal; every refusal is Unauthorized |
| ApiKeyGuard.CanActivateFailures | src/file-processor/api-key.guard.ts:13-25 | the three refusal messages, in order: no key presented, then none configured, then a mismatch |
| ApiKeyGuard.AuthorizationGivesKey | src/file-processor/api-key.guard.ts:34-39 | `KeyFromAuthorization`: `Bearer <key>` and `ApiKey <key>` give the key, whatever words follow |
| ApiKeyGuard.AuthorizationKeyShape | src/file-processor/api-key.guard.ts:36-38 | a key taken from the header is non-empty without spaces, preceded by `Bearer ` or `ApiKey ` and followed by the end or a space |
| ApiKeyGuard.MalformedAuthorizationFallsThrough | src/file-processor/api-key.guard.ts:35-46 | a header that gives no key is treated as if absent |
| ApiKeyGuard.ApiKeySourcePriority | src/file-processor/api-key.guard.ts:33-54 | the header key wins, then a non-empty string `x-api-key`, then a non-empty string `api_key` query value |
| Gmail.LookupFindsFirst | src/gmail/gmail.service.ts:45-50 | `Lookup`: the first header whose name matches case-insensitively decides; a missing value gives `''` |
| Gmail.LookupMissing | src/gmail/gmail.service.ts:46-47 | without a matching header the lookup gives `''` |
| Gmail.AttachmentsAreMarkedParts | src/gmail/gmail.service.ts:53-68 | `IsAttachment` and `PartMimeType` select and type the parts: attachments come from the parts with a file name and an attachment id, in part order, with the part's name and type (default octet-stream); each one is fetched once, in that order |
| Gmail.AttachmentsMarkNothing | src/gmail/gmail.service.ts:54-68 | reading attachments makes only attachment requests and marks nothing read |
| Gmail.ReadAttachments | src/gmail/gmail.service.ts:53-68 | the loop over the parts computes `AttachmentsUpTo`: the attachments and the requests made |
| Gmail.FetchUpTo | src/gmail/gmail.service.ts:30-88 | no more messages are returned than were listed |
| Gmail.MessageCalls | src/gmail/gmail.service.ts:36-87 | `MessageStep`: a returned message was fetched, then its attachments were read, then it was marked read (`INBOX` added, `UNREAD` removed) last; threadId defaults to `''` |
| Gmail.SkippedMessageNotMarked | src/gmail/gmail.service.ts:34-42 | an entry without id or payload is never marked read |
| Gmail.FetchReturnsDeliveredInOrder | src/gmail/gmail.service.ts:33-90 | the messages returned are those of the listed entries that yield one, in list order |
| Gmail.FetchCountsDelivered | src/gmail/gmail.service.ts:33-90 | a successful fetch returns as many messages as there are entries that yield one |
| Gmail.FetchDeliveredAt | src/gmail/gmail.service.ts:33-90 | the `j`-th message returned is the one read from the `j`-th entry that yields one |
| Gmail.StepMarks | src/gmail/gmail.service.ts:34-87 | an entry read without failure marks read its own message when it yields one, and nothing otherwise |
| Gmail.FetchMarksReturned | src/gmail/gmail.service.ts:70-90 | a successful fetch marks read exactly the messages it returns, in order |
| Gmail.FailureEndsFetch | src/gmail/gmail.service.ts:16-91 | a failing call ends the fetch with its error; later entries are not touched; earlier messages stay marked read |
| Gmail.ReadMessage | src/gmail/gmail.service.ts:34-87 | one loop turn computes `MessageStep`: its outcome and calls |
| Gmail.ReadAll | src/gmail/gmail.service.ts:33-90 | the loop over the listed entries computes `FetchUpTo`: the messages returned and every call made |
| Gmail.FetchInvoiceEmails | src/gmail/gmail.service.ts:16-91 | the method computes `Fetch`: client first, then list (`?? []`), then each message |
| Drive.Sanitize | src/drive/drive.service.ts:41 | same length; each character outside `[A-Za-z0-9]` becomes `_`, the others are kept |
| Drive.SenderNameShape | src/drive/drive.service.ts:41 | `SenderName`: the sender is made of `[A-Za-z0-9_]` only and is the sanitized text before the first `@` |
| Drive.SenderOfAddress | src/drive/drive.service.ts:41 | `local@domain` gives the sanitized local part |
| Drive.InvoiceSegmentUnknown | src/drive/drive.service.ts:43-44 | `InvoiceSegment`: the segment is `unknown` exactly when the subject has no invoice number |
| Drive.SpaceRunSpan | src/drive/drive.service.ts:43 | the run `\s*` consumes white space only and stops at the end or at a character that is not white space |
| Drive.DigitRunSpan | src/drive/drive.service.ts:43 | the run `\d+` consumes digits only and stops at the end or at a non-digit |
| Drive.SpaceRunExact | src/drive/drive.service.ts:43 | white space followed by a non-space character is the whole `\s*` run |
| Drive.DigitRunLongest | src/drive/drive.service.ts:43 | every run of digits is at most the greedy one |
| Drive.CaptureSound | src/drive/drive.service.ts:43 | what `#?(\d+)` captures is digits, directly or behind a `#` |
| Drive.InvoiceAtComplete | src/drive/drive.service.ts:43 | every way `/invoice\s*#?(\d+)/i` can match at a position is found, with the greedy capture |
| Drive.CaptureAfterSpaces | src/drive/drive.service.ts:43 | behind the word and its white space, a digit after the optional `#` starts the greedy capture |
| Drive.InvoiceAtSound | src/drive/drive.service.ts:43 | what is found is a match: the word case-insensitively, spaces, an optional `#`, then the captured digits |
| Drive.CaptureAfterWord | src/drive/drive.service.ts:43 | a capture behind the word and its white space run completes a match of the expression |
| Drive.InvoiceIsLeftmost | src/drive/drive.service.ts:43 | `InvoiceNumber`: the number comes from the leftmost match |
| Drive.InvoiceNoneIffNoMatch | src/drive/drive.service.ts:43-44 | there is no number exactly when the expression matches nowhere |
| Drive.InvoiceExampleFound | src/drive/drive.service.ts:43-44 | `Invoice #4521 for March` gives `4521` |
| Drive.InvoiceExampleMissing | src/drive/drive.service.ts:43-44 | `Invoice # 12` gives `unknown` |
| Drive.FileExtension | src/drive/drive.service.ts:46 | the extension is non-empty and holds no dot |
| Drive.FileExtensionAfterLastDot | src/drive/drive.service.ts:46 | the extension of `<base>.<e>` is the text `e` after the last dot, or `file` when that text is empty |
| Drive.FileExtensionWithoutDot | src/drive/drive.service.ts:46 | a name without a dot is its own extension; the empty name gets `file` |
| Drive.StructuredNameKeepsExtension | src/drive/drive.service.ts:46-47 | `StructuredName`, through `Stem`: a structured name's own last `.`-piece is the attachment's extension |
| Drive.StructuredNameExample | src/drive/drive.service.ts:39-47 | `scan.pdf` from `billing@acme.com` about `Invoice #4521 for March` on 2024-03-01 is stored as `billing_4521_2024-03-01.pdf` |
| Drive.UploadAttachments | src/drive/drive.service.ts:22-90 | the auth and folder checks, then the upload loop, compute `Uploads` and the create requests `UploadRequests` |
| Drive.UploadNamed | src/drive/drive.service.ts:36-86 | given one name per attachment, the loop computes the results `ResultsUpTo` and requests `RequestsUpTo` over all attachments |
| Drive.ResultsAreStoredAttachments | src/drive/drive.service.ts:68-82 | one result per attachment whose upload returned an id, in order, with the original filename and type and that id |
| Drive.RequestsFollowAttachments | src/drive/drive.service.ts:39-66 | one request per attachment whose name could be built: its structured name, its type and data, the folder as only parent, `fields: 'id, webViewLink'` |
| Drive.NoContextKeepsNames | src/drive/drive.service.ts:39-40 | without an email context every attachment is uploaded under its own name |
| Drive.InvalidDateUploadsNothing | src/drive/drive.service.ts:42-86 | an email date without ISO form fails every attachment inside the try: no request, no result, no error |
| Drive.UploadFailures | src/drive/drive.service.ts:26-32 | a failing client wins; then a missing folder throws `GOOGLE_DRIVE_FOLDER_ID not configured`; a failure makes no upload |
| Sheets.AppendEntries | src/sheets/sheets.service.ts:20-49 | through `AppendRequestFor`, a request is made exactly when the client is obtained and the sheet is configured; it is a single request with one row per entry to that sheet; the two failure messages; success exactly when the append succeeds |
| Sheets.RowsReadBack | src/sheets/sheets.service.ts:30-37 | `Rows` gives row k from entry k through `Row`: from, date, subject, the invoice number (`''` exactly when there is none), the ids joined by `, ` (`''` when there are none), processedAt |
| Sheets.IdsCellReadsBack | src/sheets/sheets.service.ts:35 | the ids column splits back at its commas into the ids, each after its `, ` |
| Sheets.RowIdsReadBack | src/sheets/sheets.service.ts:35 | the ids column of a logged row splits back at its commas into the entry's ids, when no id holds a comma |
| Scan.RunScan | src/scan/scan.service.ts:22-57 | the method computes `ScanOf`: outcome, Gmail calls, upload requests and the append request |
| Scan.EntriesFollowEmails | src/scan/scan.service.ts:29-49 | `EntryOf` builds one entry per email, in order, from that email, its own uploads and the clock |
| Scan.EntryAtIndex | src/scan/scan.service.ts:29-49 | in a successful run, the `k`-th entry is built from the `k`-th email, its own successful uploads and the clock |
| Scan.LoggedIdsAreStored | src/scan/scan.service.ts:31-35 | an entry's ids are the ids Drive returned for that email's stored attachments, in order |
| Scan.LoggedInvoiceMatchesName | src/scan/scan.service.ts:38-39 | the logged invoice number is the name's invoice segment, absent exactly when that is `unknown` |
| Scan.ScanSucceeds | src/scan/scan.service.ts:29-56 | in `ScanOf`, `processed` = entries = fetched emails; one append with all entries exactly when there was an email |
| Scan.AppendCarriesEveryEntry | src/scan/scan.service.ts:22-54 | in every run, failed or not, an append request is made only after a successful fetch and successful uploads for every email, and it carries one entry per fetched email (at least one) to the configured sheet |
| Scan.FailedUploadLogsNothing | src/scan/scan.service.ts:24-34 | a missing Drive folder fails the scan: no upload, no append, yet every fetched email was marked read |
| Scan.EmptyScanAppendsNothing | src/scan/scan.service.ts:51-56 | no email: nothing processed, nothing uploaded, no append |
| GoogleAuth.Configure | src/google/google-auth/google-auth.service.ts:13-24 | accepted exactly when client id, secret and redirect URI are all set; the error message; the client; the token path |
| GoogleAuth.DefaultPath | src/google/google-auth/google-auth.service.ts:17 | without a configured path tokens live in `./tokens.json` |
| GoogleAuth.GoogleAuthService.constructor | src/google/google-auth/google-auth.service.ts:13-24 | the service holds the configured client and path, no credentials, and the token file's record |
| GoogleAuth.GoogleAuthService.GetAuthUrl | src/google/google-auth/google-auth.service.ts:29-41 | the four scopes, offline access, the consent prompt; no state changes |
| GoogleAuth.GoogleAuthService.SaveTokens | src/google/google-auth/google-auth.service.ts:46-50 | the exchanged tokens overwrite the record; a failing exchange changes nothing |
| GoogleAuth.GoogleAuthService.GetClient | src/google/google-auth/google-auth.service.ts:55-77 | the new credentials, record and outcome are those of `ClientStepOf` |
| GoogleAuth.NoTokensNoRefresh | src/google/google-auth/google-auth.service.ts:58-63 | no record: fails with `No tokens found at <path>`, no refresh, nothing changed |
| GoogleAuth.RefreshIffExpired | src/google/google-auth/google-auth.service.ts:68 | `Expired` and `ClientStepOf`: a refresh happens exactly when `(expiry ?? 0) < now`; a missing expiry refreshes at any positive time; an expiry equal to now does not |
| GoogleAuth.CredentialsFollowRecord | src/google/google-auth/google-auth.service.ts:65-76 | after a refresh the credentials and the record hold the same new tokens; without one the record is untouched |
| GoogleAuth.RefreshSettles | src/google/google-auth/google-auth.service.ts:68-72 | a refresh returning tokens valid now settles: a second call at the same time refreshes nothing |

## Left out

- The Google Drive, Gmail and Sheets clients, `OAuth2Client`, `fs`, axios and AdmZip are inputs: answers per call, an entry list, an optional stored record.
- The ZIP container format and the base64 decoding of Gmail attachments are library internals. An attachment's bytes are the Gmail answer.
- `new URL`, `new Date(date).toISOString()` and `new Date()` are parameters: a predicate, a partial function and a clock indexed by position.
- `formatBytes`, the download progress percentage and all logging use floating point or only log, and are not modelled.
- Gmail's server-side query, `maxResults: 20` and the subject keyword filter happen remotely. The listed messages are an input.
- The controllers, modules, `configuration.ts` and `app.module.ts` only route and wire dependencies.
- src/drive/types.ts and src/google/google-auth/types.ts are not part of this model. Their shapes are taken from the services' use of them.
- Concurrency and any locking around token refresh are not modelled; the code has none.
- Drive.Sanitize: the source replaces by UTF-16 code unit, so a character outside the Basic Multilingual Plane becomes two `_`. The model works on characters and gives one.
- Text.Lower: lowers only the ASCII capitals and the Kelvin sign, and keeps every other character. It agrees with `toLowerCase` wherever the lower case is ASCII, which is all a comparison with the ASCII table keys and header names can see.
- Scan.RunScan: every `getClient` in a scan is given one shared outcome. The token service's state across the calls is not threaded through the scan.
- GoogleAuth.GoogleAuthService.GetClient: a token file that parses to a non-object (such as `null`) and failing file writes are not modelled. The record is either absent or a record of tokens.
- GoogleAuth.GoogleAuthService.GetAuthUrl: returns the options given to `generateAuthUrl`, not the URL string the library builds from them.
- FileProcessor.ProcessFile: fields of the request body that are not strings are not modelled; each field is an optional string.
- Drive.UploadAttachments: the structured names are computed for all attachments before the loop, not one per turn. Naming is pure, so the order cannot be observed; a name that cannot be built still fails only its own attachment.
- FolderLink.DirectMatchWins: states when the `/d/` capture is returned for every link; no lemma works a concrete `…/file/d/<id>/view` link through, because the host conditions such a link needs are not stated.

## Findings

| source | as written | input that shows it | evidently intended | confidence | as-written member | corrected member |
|---|---|---|---|---|---|---|
| src/file-processor/file-processor.service.ts:264-308 | `mimeTypes[ext \|\| '']` indexes a plain object literal, so an extension naming an inherited `Object.prototype` member returns that member (a function or the prototype object), which is truthy and becomes the content type | an archive entry named `notes.constructor` (or `x.__proto__`) | such an extension is not in the table, so the type is `application/octet-stream` | not executed | MimeTypes.MimeLookupAsWrittenLeaksPrototype | MimeTypes.MimeType |

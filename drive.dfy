/** `DriveService.uploadAttachments`: each attachment of an email is stored
    in the configured Drive folder under a structured name
    `<sender>_<invoice>_<date>.<ext>`.  An attachment whose upload fails is
    skipped.  Drive's answer to each upload, and the conversion of the
    email's date to ISO form, are inputs. */
module Drive {
  import opened Common
  import opened Text
  import Gmail

  /** The email an attachment came from. */
  datatype EmailContext = EmailContext(from: string, date: string, subject: string)

  datatype DriveUploadResult = DriveUploadResult(filename: string, mimeType: string, fileId: string, webViewLink: Option<string>)

  /** `drive.files.create`: the file's metadata, then its media. */
  datatype CreateRequest = CreateRequest(
    name: string,
    mimeType: string,
    parents: seq<string>,
    mediaMimeType: string,
    body: Bytes,
    fields: string)

  /** Drive's answer to one upload: the `id` and `webViewLink` it returned,
      or the message of the error the client threw. */
  datatype CreateOutcome = Created(id: Option<string>, webViewLink: Option<string>) | Threw(message: string)

  const FolderNotConfigured: string := "GOOGLE_DRIVE_FOLDER_ID not configured"

  // ---------------------------------------------------------------------------
  // The sender

  /** `replace(/[^a-zA-Z0-9]/g, '_')` */
  function Sanitize(s: string): (r: string)
    ensures |r| == |s|
    ensures forall k :: 0 <= k < |s| ==> r[k] == if IsAlnum(s[k]) then s[k] else '_'
  {
    if s == [] then []
    else [if IsAlnum(s[0]) then s[0] else '_'] + Sanitize(s[1..])
  }

  /** `from.split('@')[0]`, sanitized. */
  function SenderName(from: string): string
  {
    Sanitize(Split(from, '@')[0])
  }

  /** The sender part of a name is made of letters, digits and `_` only, and
      is the address's local part when that is already alphanumeric. */
  lemma SenderNameShape(from: string)
    ensures forall k :: 0 <= k < |SenderName(from)| ==> IsAlnum(SenderName(from)[k]) || SenderName(from)[k] == '_'
    ensures var local := Split(from, '@')[0];
      (forall k :: 0 <= k < |local| ==> IsAlnum(local[k])) ==> SenderName(from) == local
  {
  }

  /** The local part of an address is what precedes its first `@`. */
  lemma SenderOfAddress(local: string, domain: string)
    requires '@' !in local
    ensures SenderName(local + "@" + domain) == Sanitize(local)
  {
    SplitAfterHead(local, '@', domain);
  }

  // ---------------------------------------------------------------------------
  // The invoice number: `/invoice\s*#?(\d+)/i`

  /** The word `invoice` at `i`, letters compared as a case-insensitive
      expression without the `u` flag compares them. */
  predicate WordAt(s: string, i: nat)
  {
    && i + 7 <= |s|
    && AsciiLower(s[i]) == 'i' && AsciiLower(s[i + 1]) == 'n' && AsciiLower(s[i + 2]) == 'v'
    && AsciiLower(s[i + 3]) == 'o' && AsciiLower(s[i + 4]) == 'i' && AsciiLower(s[i + 5]) == 'c'
    && AsciiLower(s[i + 6]) == 'e'
  }

  /** `s[a..b]` is all white space. */
  predicate Spaces(s: string, a: nat, b: nat)
    requires a <= b <= |s|
  {
    forall k :: a <= k < b ==> IsSpace(s[k])
  }

  /** `s[a..b]` is all digits. */
  predicate Digits(s: string, a: nat, b: nat)
    requires a <= b <= |s|
  {
    forall k :: a <= k < b ==> IsDigit(s[k])
  }

  /** The length of the run of `\s` starting at `j`. */
  function SpaceRun(s: string, j: nat): (n: nat)
    requires j <= |s|
    ensures j + n <= |s|
    decreases |s| - j
  {
    if j < |s| && IsSpace(s[j]) then 1 + SpaceRun(s, j + 1) else 0
  }

  /** The length of the run of `\d` starting at `j`. */
  function DigitRun(s: string, j: nat): (n: nat)
    requires j <= |s|
    ensures j + n <= |s|
    decreases |s| - j
  {
    if j < |s| && IsDigit(s[j]) then 1 + DigitRun(s, j + 1) else 0
  }

  /** The run of white space is white space up to the end of the text or to
      a character which is not. */
  lemma {:induction false} SpaceRunSpan(s: string, j: nat)
    requires j <= |s|
    ensures Spaces(s, j, j + SpaceRun(s, j))
    ensures j + SpaceRun(s, j) == |s| || !IsSpace(s[j + SpaceRun(s, j)])
    decreases |s| - j
  {
    if j < |s| && IsSpace(s[j]) {
      SpaceRunSpan(s, j + 1);
    }
  }

  /** The run of digits is digits up to the end of the text or to a
      character which is not one. */
  lemma {:induction false} DigitRunSpan(s: string, j: nat)
    requires j <= |s|
    ensures Digits(s, j, j + DigitRun(s, j))
    ensures j + DigitRun(s, j) == |s| || !IsDigit(s[j + DigitRun(s, j)])
    decreases |s| - j
  {
    if j < |s| && IsDigit(s[j]) {
      DigitRunSpan(s, j + 1);
    }
  }

  /** A run of white space that stops at a character which is not white
      space is the whole run. */
  lemma {:induction false} SpaceRunExact(s: string, j: nat, n: nat)
    requires j + n < |s| && Spaces(s, j, j + n) && !IsSpace(s[j + n])
    ensures SpaceRun(s, j) == n
    decreases n
  {
    if n > 0 {
      assert IsSpace(s[j]);
      assert Spaces(s, j + 1, j + n);
      SpaceRunExact(s, j + 1, n - 1);
    }
  }

  /** Any run of digits is at most the greedy one. */
  lemma {:induction false} DigitRunLongest(s: string, j: nat, d: nat)
    requires j + d <= |s| && Digits(s, j, j + d)
    ensures d <= DigitRun(s, j)
    decreases d
  {
    if d > 0 {
      assert IsDigit(s[j]);
      assert Digits(s, j + 1, j + d);
      DigitRunLongest(s, j + 1, d - 1);
    }
  }

  /** What `#?(\d+)` captures at `j`: all the digits, behind the `#` when a
      digit follows it. */
  function CaptureAt(s: string, j: nat): (r: Option<string>)
    requires j <= |s|
    ensures r.Some? ==> r.value != [] && IsDigit(r.value[0])
  {
    if j < |s| && IsDigit(s[j]) then Some(s[j..j + DigitRun(s, j)])
    else if j + 1 < |s| && s[j] == '#' && IsDigit(s[j + 1]) then Some(s[j + 1..j + 1 + DigitRun(s, j + 1)])
    else None
  }

  /** The capture of a match starting at `i`, as the greedy quantifiers take
      it: all the white space, the `#` when a digit follows it, all the digits. */
  function InvoiceAt(s: string, i: nat): (r: Option<string>)
    ensures r.Some? ==> r.value != [] && IsDigit(r.value[0])
  {
    if !WordAt(s, i) then None else CaptureAt(s, i + 7 + SpaceRun(s, i + 7))
  }

  /** The capture of the leftmost match starting at `i` or later. */
  function InvoiceFrom(s: string, i: nat): (r: Option<string>)
    ensures r.Some? ==> r.value != [] && IsDigit(r.value[0])
    decreases |s| - i
  {
    if i >= |s| then None
    else if InvoiceAt(s, i).Some? then InvoiceAt(s, i)
    else InvoiceFrom(s, i + 1)
  }

  /** `subject.match(/invoice\s*#?(\d+)/i)?.[1]` */
  function InvoiceNumber(subject: string): Option<string>
  {
    InvoiceFrom(subject, 0)
  }

  /** `invoiceMatch?.[1] || 'unknown'` */
  function InvoiceSegment(subject: string): string
  {
    if InvoiceNumber(subject).Some? then InvoiceNumber(subject).value else "unknown"
  }

  /** The name carries the placeholder `unknown` exactly when the subject
      has no invoice number; a number is never mistaken for it. */
  lemma InvoiceSegmentUnknown(subject: string)
    ensures InvoiceSegment(subject) == "unknown" <==> InvoiceNumber(subject).None?
  {
    if InvoiceNumber(subject).Some? {
      assert IsDigit(InvoiceSegment(subject)[0]);
    }
  }

  /** `h` hash signs (none or one) at `j`, then `d` digits: a way for
      `#?(\d+)` to match there. */
  predicate Capturable(s: string, j: nat, h: nat, d: nat)
  {
    && h <= 1 && d >= 1 && j + h + d <= |s|
    && (h == 1 ==> s[j] == '#')
    && Digits(s, j + h, j + h + d)
  }

  /** A way for the expression to match at `i`: the word, `n` characters of
      white space, `h` hash signs (none or one), then `d` digits. */
  predicate Admissible(s: string, i: nat, n: nat, h: nat, d: nat)
  {
    && WordAt(s, i)
    && i + 7 + n <= |s| && Spaces(s, i + 7, i + 7 + n)
    && Capturable(s, i + 7 + n, h, d)
  }

  /** Whenever the expression can match at `i` in some way, `InvoiceAt` finds
      a match there: the one a backtracking matcher settles on, with all the
      white space and the longest run of digits. */
  lemma InvoiceAtComplete(s: string, i: nat, n: nat, h: nat, d: nat)
    requires Admissible(s, i, n, h, d)
    ensures n == SpaceRun(s, i + 7)
    ensures InvoiceAt(s, i) == Some(s[i + 7 + n + h..i + 7 + n + h + DigitRun(s, i + 7 + n + h)])
    ensures d <= DigitRun(s, i + 7 + n + h)
  {
    AdmissibleSpaces(s, i, n, h, d);
    DigitRunLongest(s, i + 7 + n + h, d);
    CaptureAfterSpaces(s, i, n, h);
  }

  /** Once the white space is known to be the whole run, the capture is
      the run of digits behind the optional hash sign. */
  lemma CaptureAfterSpaces(s: string, i: nat, n: nat, h: nat)
    requires WordAt(s, i) && n == SpaceRun(s, i + 7)
    requires h <= 1 && i + 7 + n + h < |s| && IsDigit(s[i + 7 + n + h]) && (h == 1 ==> s[i + 7 + n] == '#')
    ensures InvoiceAt(s, i) == Some(s[i + 7 + n + h..i + 7 + n + h + DigitRun(s, i + 7 + n + h)])
  {
    CaptureGreedy(s, i + 7 + n, h);
    InvoiceAtWord(s, i, n);
  }

  /** Behind the word, `InvoiceAt` is the capture after the white space. */
  lemma InvoiceAtWord(s: string, i: nat, n: nat)
    requires WordAt(s, i) && n == SpaceRun(s, i + 7)
    ensures InvoiceAt(s, i) == CaptureAt(s, i + 7 + n)
  {
  }

  /** The white space of an admissible match is the whole run, and a digit
      follows the optional hash sign. */
  lemma AdmissibleSpaces(s: string, i: nat, n: nat, h: nat, d: nat)
    requires Admissible(s, i, n, h, d)
    ensures n == SpaceRun(s, i + 7) && IsDigit(s[i + 7 + n + h])
  {
    assert IsDigit(s[i + 7 + n + h]);
    assert !IsSpace(s[i + 7 + n]);
    SpaceRunExact(s, i + 7, n);
  }

  /** Where a digit follows `h` hash signs at `p`, all the digits from there
      are captured. */
  lemma CaptureGreedy(s: string, p: nat, h: nat)
    requires h <= 1 && p + h < |s| && IsDigit(s[p + h]) && (h == 1 ==> s[p] == '#')
    ensures CaptureAt(s, p) == Some(s[p + h..p + h + DigitRun(s, p + h)])
  {
  }

  /** What `CaptureAt` finds: digits right at `j`, or behind a `#` there. */
  lemma CaptureSound(s: string, j: nat)
    requires j <= |s| && CaptureAt(s, j).Some?
    ensures var c := CaptureAt(s, j).value;
      var h := if IsDigit(s[j]) then 0 else 1;
      Capturable(s, j, h, |c|) && c == s[j + h..j + h + |c|]
  {
    if IsDigit(s[j]) {
      DigitRunSpan(s, j);
    } else {
      DigitRunSpan(s, j + 1);
    }
  }

  /** Conversely, what `InvoiceAt` finds is a match of the expression. */
  lemma InvoiceAtSound(s: string, i: nat)
    requires InvoiceAt(s, i).Some?
    ensures var c := InvoiceAt(s, i).value;
      var n := SpaceRun(s, i + 7);
      var h := if IsDigit(s[i + 7 + n]) then 0 else 1;
      Admissible(s, i, n, h, |c|) && c == s[i + 7 + n + h..i + 7 + n + h + |c|]
  {
    assert WordAt(s, i);
    CaptureAfterWord(s, i, SpaceRun(s, i + 7));
  }

  /** The capture behind the word and its white space completes a match. */
  lemma CaptureAfterWord(s: string, i: nat, n: nat)
    requires WordAt(s, i) && n == SpaceRun(s, i + 7) && InvoiceAt(s, i).Some?
    ensures var c := InvoiceAt(s, i).value;
      var h := if IsDigit(s[i + 7 + n]) then 0 else 1;
      Admissible(s, i, n, h, |c|) && c == s[i + 7 + n + h..i + 7 + n + h + |c|]
  {
    InvoiceAtWord(s, i, n);
    SpaceRunSpan(s, i + 7);
    CaptureSound(s, i + 7 + n);
  }

  lemma {:induction false} InvoiceIsLeftmost(s: string, i: nat, j: nat)
    requires i <= j && InvoiceAt(s, j).Some?
    requires forall k: nat :: i <= k < j ==> InvoiceAt(s, k).None?
    ensures InvoiceFrom(s, i) == InvoiceAt(s, j)
    decreases j - i
  {
    if i < j {
      assert InvoiceAt(s, i).None?;
      InvoiceIsLeftmost(s, i + 1, j);
    }
  }

  /** There is no number exactly when the expression matches nowhere. */
  lemma {:induction false} InvoiceNoneIffNoMatch(s: string, i: nat)
    ensures InvoiceFrom(s, i).None? <==> forall k: nat :: i <= k ==> InvoiceAt(s, k).None?
    decreases |s| - i
  {
    if i < |s| && InvoiceAt(s, i).None? {
      InvoiceNoneIffNoMatch(s, i + 1);
    }
    if i >= |s| {
      forall k: nat | i <= k
        ensures InvoiceAt(s, k).None?
      {
      }
    }
  }

  /** `Invoice #4521 for March` yields `4521`. */
  lemma InvoiceExampleFound(a: string)
    requires a == "Invoice #4521 for March"
    ensures InvoiceNumber(a) == Some(a[9..13])
    ensures a[9..13] == "4521"
  {
    ExampleFoundRuns(a);
    InvoiceAtWord(a, 0, 1);
    CaptureGreedy(a, 8, 1);
    assert InvoiceAt(a, 0) == Some(a[9..13]);
  }

  /** The word, one space, the hash sign, then four digits. */
  lemma ExampleFoundRuns(a: string)
    requires a == "Invoice #4521 for March"
    ensures WordAt(a, 0) && SpaceRun(a, 7) == 1 && a[8] == '#' && IsDigit(a[9]) && DigitRun(a, 9) == 4
  {
    ExampleFoundWord(a);
    assert SpaceRun(a, 8) == 0;
    ExampleFoundDigits(a);
  }

  lemma ExampleFoundWord(a: string)
    requires a == "Invoice #4521 for March"
    ensures WordAt(a, 0)
  {
  }

  lemma ExampleFoundDigits(a: string)
    requires a == "Invoice #4521 for March"
    ensures DigitRun(a, 9) == 4
  {
    assert DigitRun(a, 13) == 0;
    assert DigitRun(a, 12) == 1;
    assert DigitRun(a, 10) == 3;
  }

  /** `Invoice # 12`, with a space after the hash sign, yields no number. */
  lemma InvoiceExampleMissing(b: string)
    requires b == "Invoice # 12"
    ensures InvoiceSegment(b) == "unknown"
  {
    assert SpaceRun(b, 7) == 1 by {
      assert SpaceRun(b, 8) == 0;
    }
    forall k: nat
      ensures InvoiceAt(b, k).None?
    {
      if k == 0 {
        assert !IsDigit(b[8]) && !IsDigit(b[9]);
        assert InvoiceAt(b, k).None?;
      } else if k + 7 <= |b| {
        assert !WordAt(b, k);
      } else {
        assert !WordAt(b, k);
      }
    }
    InvoiceNoneIffNoMatch(b, 0);
  }

  // ---------------------------------------------------------------------------
  // The structured name

  /** `filename.split('.').pop() || 'file'` */
  function FileExtension(filename: string): (ext: string)
    ensures ext != "" && '.' !in ext
  {
    SplitLastPiece(filename, '.');
    var last := Last(Split(filename, '.'));
    if last != "" then last else "file"
  }

  /** The extension is the text after the last dot, or `file` when that
      text is empty. */
  lemma FileExtensionAfterLastDot(base: string, e: string)
    requires '.' !in e
    ensures FileExtension(base + "." + e) == if e != "" then e else "file"
  {
    LastPieceAfterSeparator(base, '.', e);
  }

  /** A name without a dot is its own extension; an empty one gets `file`. */
  lemma FileExtensionWithoutDot(name: string)
    requires '.' !in name
    ensures FileExtension(name) == if name != "" then name else "file"
  {
    SplitWithoutSeparator(name, '.');
  }

  /** The name an attachment is stored under: its own name without an email
      context; otherwise `<sender>_<invoice>_<date>.<ext>`, where the date is
      the day part of the ISO form of the email's date.  `toIso` is
      `new Date(date).toISOString()`, `None` where that throws for an
      invalid date. */
  function StructuredName(filename: string, ctx: Option<EmailContext>, toIso: string -> Option<string>): Option<string>
  {
    if ctx.None? then Some(filename)
    else
      match Stem(ctx.value, toIso)
      case None => None
      case Some(stem) => Some(stem + "." + FileExtension(filename))
  }

  /** `<sender>_<invoice>_<date>`, which depends on the email only. */
  function Stem(ctx: EmailContext, toIso: string -> Option<string>): Option<string>
  {
    match toIso(ctx.date)
    case None => None
    case Some(iso) => Some(SenderName(ctx.from) + "_" + InvoiceSegment(ctx.subject) + "_" + Split(iso, 'T')[0])
  }

  /** A structured name ends with the attachment's extension, so its own
      extension is the attachment's. */
  lemma StructuredNameKeepsExtension(filename: string, ctx: EmailContext, toIso: string -> Option<string>)
    requires StructuredName(filename, Some(ctx), toIso).Some?
    ensures Last(Split(StructuredName(filename, Some(ctx), toIso).value, '.')) == FileExtension(filename)
  {
    var iso := toIso(ctx.date).value;
    var stem := SenderName(ctx.from) + "_" + InvoiceSegment(ctx.subject) + "_" + Split(iso, 'T')[0];
    assert StructuredName(filename, Some(ctx), toIso).value == stem + "." + FileExtension(filename);
    LastPieceAfterSeparator(stem, '.', FileExtension(filename));
  }

  lemma SenderExample(from: string)
    requires from == "billing@acme.com"
    ensures SenderName(from) == "billing"
  {
    var local := from[..7];
    assert from == local + "@" + from[8..];
    SenderOfAddress(local, from[8..]);
    assert local == "billing";
    assert forall k :: 0 <= k < |local| ==> IsAlnum(local[k]);
    assert Sanitize(local) == local;
  }

  lemma DayExample(iso: string)
    requires iso == "2024-03-01T00:00:00.000Z"
    ensures Split(iso, 'T')[0] == "2024-03-01"
  {
    assert iso == iso[..10] + "T" + iso[11..];
    SplitAfterHead(iso[..10], 'T', iso[11..]);
    assert iso[..10] == "2024-03-01";
  }

  lemma ExtensionExample(filename: string)
    requires filename == "scan.pdf"
    ensures FileExtension(filename) == "pdf"
  {
    assert filename == filename[..4] + "." + filename[5..];
    LastPieceAfterSeparator(filename[..4], '.', filename[5..]);
    assert filename[5..] == "pdf";
  }

  /** The example's stored name, piece by piece. */
  lemma NameExample(name: string)
    requires name == "billing_4521_2024-03-01.pdf"
    ensures name == "billing" + "_" + "4521" + "_" + "2024-03-01" + "." + "pdf"
  {
  }

  /** An email from `billing@acme.com` dated 1 March 2024 about `Invoice
      #4521 for March` stores `scan.pdf` as `billing_4521_2024-03-01.pdf`. */
  lemma StructuredNameExample(filename: string, from: string, subject: string, iso: string, name: string,
                              ctx: EmailContext, toIso: string -> Option<string>)
    requires filename == "scan.pdf" && from == "billing@acme.com" && subject == "Invoice #4521 for March"
    requires iso == "2024-03-01T00:00:00.000Z" && name == "billing_4521_2024-03-01.pdf"
    requires ctx.from == from && ctx.subject == subject && toIso(ctx.date) == Some(iso)
    ensures StructuredName(filename, Some(ctx), toIso) == Some(name)
  {
    SenderExample(from);
    InvoiceExampleFound(subject);
    DayExample(iso);
    ExtensionExample(filename);
    NameExample(name);
    assert InvoiceSegment(subject) == "4521";
    assert Stem(ctx, toIso) == Some("billing" + "_" + "4521" + "_" + "2024-03-01");
  }

  // ---------------------------------------------------------------------------
  // Uploading

  /** The upload of an attachment under `name` into folder `folderId`. */
  function CreateRequestFor(att: Gmail.GmailAttachment, name: string, folderId: string): CreateRequest
  {
    CreateRequest(name, att.mimeType, [folderId], att.mimeType, att.data, "id, webViewLink")
  }

  /** The name each attachment is stored under, `None` where it cannot be
      built. */
  function Names(atts: seq<Gmail.GmailAttachment>, ctx: Option<EmailContext>, toIso: string -> Option<string>): (names: seq<Option<string>>)
    ensures |names| == |atts|
  {
    seq(|atts|, k requires 0 <= k < |atts| => StructuredName(atts[k].filename, ctx, toIso))
  }

  /** Drive returned an id for the upload of attachment `k`, stored under
      `names[k]`. */
  predicate Stored(names: seq<Option<string>>, create: nat -> CreateOutcome, k: nat)
  {
    && k < |names|
    && names[k].Some?
    && create(k).Created? && Truthy(create(k).id)
  }

  /** What is reported for an uploaded attachment: its original name and
      type, the id, and the link when one was returned. */
  function ResultOf(att: Gmail.GmailAttachment, o: CreateOutcome): DriveUploadResult
    requires o.Created? && o.id.Some?
  {
    DriveUploadResult(att.filename, att.mimeType, o.id.value, if Truthy(o.webViewLink) then o.webViewLink else None)
  }

  /** The uploads requested for the first `n` attachments. */
  function RequestsUpTo(atts: seq<Gmail.GmailAttachment>, names: seq<Option<string>>, folderId: string, n: nat): (rs: seq<CreateRequest>)
    requires n <= |atts| == |names|
    ensures |rs| <= n
  {
    if n == 0 then []
    else
      var prev := RequestsUpTo(atts, names, folderId, n - 1);
      if names[n - 1].None? then prev else prev + [CreateRequestFor(atts[n - 1], names[n - 1].value, folderId)]
  }

  /** The results reported for the first `n` attachments. */
  function ResultsUpTo(atts: seq<Gmail.GmailAttachment>, names: seq<Option<string>>, create: nat -> CreateOutcome,
                       n: nat): (rs: seq<DriveUploadResult>)
    requires n <= |atts| == |names|
    ensures |rs| <= n
  {
    if n == 0 then []
    else
      var prev := ResultsUpTo(atts, names, create, n - 1);
      if Stored(names, create, n - 1) then prev + [ResultOf(atts[n - 1], create(n - 1))] else prev
  }

  /** What attachment `n - 1` adds to the requests and to the results. */
  lemma UploadStep(atts: seq<Gmail.GmailAttachment>, names: seq<Option<string>>, create: nat -> CreateOutcome,
                   folderId: string, n: nat)
    requires 0 < n <= |atts| == |names|
    ensures names[n - 1].None? ==> RequestsUpTo(atts, names, folderId, n) == RequestsUpTo(atts, names, folderId, n - 1)
    ensures names[n - 1].Some? ==>
      RequestsUpTo(atts, names, folderId, n) ==
        RequestsUpTo(atts, names, folderId, n - 1) + [CreateRequestFor(atts[n - 1], names[n - 1].value, folderId)]
    ensures Stored(names, create, n - 1) ==>
      ResultsUpTo(atts, names, create, n) == ResultsUpTo(atts, names, create, n - 1) + [ResultOf(atts[n - 1], create(n - 1))]
    ensures !Stored(names, create, n - 1) ==> ResultsUpTo(atts, names, create, n) == ResultsUpTo(atts, names, create, n - 1)
  {
  }

  /** `uploadAttachments`; `auth` is how `getClient` ends and `folderId` the
      configured folder. */
  function Uploads(auth: Result<(), Exception>, folderId: Option<string>, atts: seq<Gmail.GmailAttachment>,
                   ctx: Option<EmailContext>, toIso: string -> Option<string>,
                   create: nat -> CreateOutcome): Result<seq<DriveUploadResult>, Exception>
  {
    if auth.Failure? then Failure(auth.error)
    else if !Truthy(folderId) then Failure(Error(FolderNotConfigured))
    else Success(ResultsUpTo(atts, Names(atts, ctx, toIso), create, |atts|))
  }

  /** The uploads `uploadAttachments` requests. */
  function UploadRequests(auth: Result<(), Exception>, folderId: Option<string>, atts: seq<Gmail.GmailAttachment>,
                          ctx: Option<EmailContext>, toIso: string -> Option<string>): seq<CreateRequest>
  {
    if auth.Failure? || !Truthy(folderId) then []
    else RequestsUpTo(atts, Names(atts, ctx, toIso), folderId.value, |atts|)
  }

  /** `uploadAttachments`: an attachment whose name cannot be built, whose
      upload throws or whose upload returns no id is skipped; the rest go on. */
  method UploadAttachments(auth: Result<(), Exception>, folderId: Option<string>, attachments: seq<Gmail.GmailAttachment>,
                           emailContext: Option<EmailContext>, toIso: string -> Option<string>,
                           create: nat -> CreateOutcome)
    returns (r: Result<seq<DriveUploadResult>, Exception>, requests: seq<CreateRequest>)
    ensures r == Uploads(auth, folderId, attachments, emailContext, toIso, create)
    ensures requests == UploadRequests(auth, folderId, attachments, emailContext, toIso)
  {
    if auth.Failure? {
      return Failure(auth.error), [];
    }
    if folderId.None? || folderId.value == "" {
      return Failure(Error(FolderNotConfigured)), [];
    }
    var names := Names(attachments, emailContext, toIso);
    var results;
    results, requests := UploadNamed(attachments, names, folderId.value, create);
    return Success(results), requests;
  }

  /** The loop of `uploadAttachments`, over the names the attachments are
      stored under. */
  method UploadNamed(attachments: seq<Gmail.GmailAttachment>, names: seq<Option<string>>, folderId: string,
                     create: nat -> CreateOutcome)
    returns (results: seq<DriveUploadResult>, requests: seq<CreateRequest>)
    requires |names| == |attachments|
    ensures results == ResultsUpTo(attachments, names, create, |attachments|)
    ensures requests == RequestsUpTo(attachments, names, folderId, |attachments|)
  {
    results := [];
    requests := [];
    var i := 0;
    while i < |attachments|
      invariant 0 <= i <= |attachments|
      invariant results == ResultsUpTo(attachments, names, create, i)
      invariant requests == RequestsUpTo(attachments, names, folderId, i)
    {
      UploadStep(attachments, names, create, folderId, i + 1);
      var att := attachments[i];
      var structuredName := names[i];
      if structuredName.None? {
        i := i + 1;
        continue;
      }
      var request := CreateRequest(structuredName.value, att.mimeType, [folderId], att.mimeType, att.data, "id, webViewLink");
      requests := requests + [request];
      var res := create(i);
      if res.Threw? {
        i := i + 1;
        continue;
      }
      var webViewLink := if res.webViewLink.Some? && res.webViewLink.value != "" then res.webViewLink else None;
      if res.id.None? || res.id.value == "" {
        i := i + 1;
        continue;
      }
      results := results + [DriveUploadResult(att.filename, att.mimeType, res.id.value, webViewLink)];
      i := i + 1;
    }
  }

  // ---------------------------------------------------------------------------
  // What an upload promises

  /** The positions, below `n`, of the attachments that were stored. */
  function StoredPositions(names: seq<Option<string>>, create: nat -> CreateOutcome, n: nat): (ix: seq<nat>)
    ensures forall j :: 0 <= j < |ix| ==> ix[j] < n && Stored(names, create, ix[j])
  {
    var ok := (k: nat) => Stored(names, create, k);
    PositionsHold(ok, n);
    Positions(ok, n)
  }

  /** One result per stored attachment, in attachment order; the failed ones
      leave no trace. */
  lemma {:induction false} ResultsAreStoredAttachments(atts: seq<Gmail.GmailAttachment>, names: seq<Option<string>>,
                                                       create: nat -> CreateOutcome, n: nat)
    requires n <= |atts| == |names|
    ensures |ResultsUpTo(atts, names, create, n)| == |StoredPositions(names, create, n)|
    ensures forall j :: 0 <= j < |StoredPositions(names, create, n)| ==>
      ResultsUpTo(atts, names, create, n)[j] ==
        ResultOf(atts[StoredPositions(names, create, n)[j]], create(StoredPositions(names, create, n)[j]))
  {
    if n > 0 {
      ResultsAreStoredAttachments(atts, names, create, n - 1);
      UploadStep(atts, names, create, "", n);
      var prev := ResultsUpTo(atts, names, create, n - 1);
      var rs := ResultsUpTo(atts, names, create, n);
      var ix := StoredPositions(names, create, n);
      if Stored(names, create, n - 1) {
        assert ix == StoredPositions(names, create, n - 1) + [n - 1];
      } else {
        assert ix == StoredPositions(names, create, n - 1);
      }
      forall j | 0 <= j < |ix|
        ensures rs[j] == ResultOf(atts[ix[j]], create(ix[j]))
      {
        if j < |prev| {
          assert rs[j] == prev[j];
          assert ix[j] == StoredPositions(names, create, n - 1)[j];
        }
      }
    }
  }

  /** The positions, below `n`, of the attachments whose name could be built. */
  function NamedPositions(names: seq<Option<string>>, n: nat): (ix: seq<nat>)
    ensures forall j :: 0 <= j < |ix| ==> ix[j] < n && ix[j] < |names| && names[ix[j]].Some?
  {
    var ok := (k: nat) => k < |names| && names[k].Some?;
    PositionsHold(ok, n);
    Positions(ok, n)
  }

  /** Every upload goes into the configured folder, with the attachment's
      type and data, under its structured name; one per attachment whose
      name could be built. */
  lemma {:induction false} RequestsFollowAttachments(atts: seq<Gmail.GmailAttachment>, names: seq<Option<string>>,
                                                     folderId: string, n: nat)
    requires n <= |atts| == |names|
    ensures |RequestsUpTo(atts, names, folderId, n)| == |NamedPositions(names, n)|
    ensures forall j :: 0 <= j < |NamedPositions(names, n)| ==>
      RequestsUpTo(atts, names, folderId, n)[j] ==
        CreateRequestFor(atts[NamedPositions(names, n)[j]], names[NamedPositions(names, n)[j]].value, folderId)
  {
    if n > 0 {
      RequestsFollowAttachments(atts, names, folderId, n - 1);
      UploadStep(atts, names, _ => Threw(""), folderId, n);
      var prev := RequestsUpTo(atts, names, folderId, n - 1);
      var rs := RequestsUpTo(atts, names, folderId, n);
      var ix := NamedPositions(names, n);
      if names[n - 1].Some? {
        assert ix == NamedPositions(names, n - 1) + [n - 1];
      } else {
        assert ix == NamedPositions(names, n - 1);
      }
      forall j | 0 <= j < |ix|
        ensures rs[j] == CreateRequestFor(atts[ix[j]], names[ix[j]].value, folderId)
      {
        if j < |prev| {
          assert rs[j] == prev[j];
          assert ix[j] == NamedPositions(names, n - 1)[j];
        }
      }
    }
  }

  /** Without an email context every attachment is uploaded under its own name. */
  lemma {:induction false} NoContextKeepsNames(atts: seq<Gmail.GmailAttachment>, toIso: string -> Option<string>,
                                               folderId: string, n: nat)
    requires n <= |atts|
    ensures |RequestsUpTo(atts, Names(atts, None, toIso), folderId, n)| == n
    ensures forall k :: 0 <= k < n ==>
      RequestsUpTo(atts, Names(atts, None, toIso), folderId, n)[k] == CreateRequestFor(atts[k], atts[k].filename, folderId)
  {
    if n > 0 {
      NoContextKeepsNames(atts, toIso, folderId, n - 1);
      UploadStep(atts, Names(atts, None, toIso), _ => Threw(""), folderId, n);
    }
  }

  /** An email date that has no ISO form makes every attachment fail: nothing
      is uploaded and nothing reported, although the call succeeds. */
  lemma {:induction false} InvalidDateUploadsNothing(atts: seq<Gmail.GmailAttachment>, ctx: EmailContext,
                                                     toIso: string -> Option<string>, create: nat -> CreateOutcome,
                                                     folderId: string, n: nat)
    requires n <= |atts| && toIso(ctx.date).None?
    ensures RequestsUpTo(atts, Names(atts, Some(ctx), toIso), folderId, n) == []
    ensures ResultsUpTo(atts, Names(atts, Some(ctx), toIso), create, n) == []
  {
    if n > 0 {
      InvalidDateUploadsNothing(atts, ctx, toIso, create, folderId, n - 1);
      UploadStep(atts, Names(atts, Some(ctx), toIso), create, folderId, n);
    }
  }

  /** The client is obtained before the folder is checked: a failing
      authorisation wins over a missing folder, and neither uploads anything. */
  lemma UploadFailures(auth: Result<(), Exception>, folderId: Option<string>, atts: seq<Gmail.GmailAttachment>,
                       ctx: Option<EmailContext>, toIso: string -> Option<string>, create: nat -> CreateOutcome)
    ensures auth.Failure? ==> Uploads(auth, folderId, atts, ctx, toIso, create) == Failure(auth.error)
    ensures auth.Success? && !Truthy(folderId) ==>
      Uploads(auth, folderId, atts, ctx, toIso, create) == Failure(Error(FolderNotConfigured))
    ensures Uploads(auth, folderId, atts, ctx, toIso, create).Failure? ==> UploadRequests(auth, folderId, atts, ctx, toIso) == []
  {
  }
}

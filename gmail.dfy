/** `GmailService.fetchInvoiceEmails`: list the matching unread messages,
    read the From, Date and Subject headers and the attachments of each, and
    mark each one read.  Gmail is an input: the answers it gives to each
    call.  The calls made are recorded. */
module Gmail {
  import opened Common
  import opened Text

  // ---------------------------------------------------------------------------
  // Gmail's resources, as far as the service reads them

  datatype Header = Header(name: Option<string>, value: Option<string>)

  datatype PartBody = PartBody(attachmentId: Option<string>)

  datatype MessagePart = MessagePart(filename: Option<string>, mimeType: Option<string>, body: Option<PartBody>)

  datatype Payload = Payload(headers: Option<seq<Header>>, parts: Option<seq<MessagePart>>)

  /** A message fetched with `format: 'full'`. */
  datatype FullMessage = FullMessage(threadId: Option<string>, payload: Option<Payload>)

  /** An entry of the list response. */
  datatype MessageRef = MessageRef(id: Option<string>)

  datatype GmailAttachment = GmailAttachment(filename: string, mimeType: string, data: Bytes)

  datatype GmailMessage = GmailMessage(
    id: string,
    threadId: string,
    from: string,
    date: string,
    subject: string,
    attachments: seq<GmailAttachment>)

  /** The answers Gmail gives: the list response (its `messages`, which may be
      absent), each message, each attachment's decoded bytes, and each label
      change.  A failure is the message of the error the client throws. */
  datatype Mailbox = Mailbox(
    listed: Result<Option<seq<MessageRef>>, string>,
    get: string -> Result<FullMessage, string>,
    attachment: (string, string) -> Result<Bytes, string>,
    relabel: string -> Result<(), string>)

  /** A call made to Gmail. */
  datatype Call =
    | List
    | Get(id: string)
    | GetAttachment(messageId: string, attachmentId: string)
    | Modify(modified: string, addLabelIds: seq<string>, removeLabelIds: seq<string>)

  /** How a sequence of calls ended, and the calls it made. */
  datatype Trace<T> = Trace(outcome: Result<T, Exception>, calls: seq<Call>)

  /** `modify` with `addLabelIds: ['INBOX']` and `removeLabelIds: ['UNREAD']`. */
  function MarkRead(id: string): Call
  {
    Modify(id, ["INBOX"], ["UNREAD"])
  }

  // ---------------------------------------------------------------------------
  // Headers

  /** The headers the service reads. */
  const FromHeader: string := "From"
  const DateHeader: string := "Date"
  const SubjectHeader: string := "Subject"

  /** `h.name?.toLowerCase() === name.toLowerCase()`, exact for the ASCII
      names the service looks up. */
  predicate NameIs(h: Header, name: string)
  {
    h.name.Some? && Lower(h.name.value) == Lower(name)
  }

  /** `headers.find(h => ...)?.value ?? ''`: the value of the first header
      with that name, or the empty string. */
  function Lookup(headers: seq<Header>, name: string): string
  {
    if headers == [] then ""
    else if NameIs(headers[0], name) then (if headers[0].value.Some? then headers[0].value.value else "")
    else Lookup(headers[1..], name)
  }

  /** The first header with that name decides, even when it has no value;
      without one the result is empty. */
  lemma {:induction false} LookupFindsFirst(headers: seq<Header>, name: string, i: nat)
    requires i < |headers| && NameIs(headers[i], name)
    requires forall k :: 0 <= k < i ==> !NameIs(headers[k], name)
    ensures Lookup(headers, name) == if headers[i].value.Some? then headers[i].value.value else ""
    decreases i
  {
    if i > 0 {
      LookupFindsFirst(headers[1..], name, i - 1);
    }
  }

  lemma {:induction false} LookupMissing(headers: seq<Header>, name: string)
    requires forall k :: 0 <= k < |headers| ==> !NameIs(headers[k], name)
    ensures Lookup(headers, name) == ""
    decreases |headers|
  {
    if headers != [] {
      LookupMissing(headers[1..], name);
    }
  }

  // ---------------------------------------------------------------------------
  // Attachments

  /** `part.filename && part.body?.attachmentId` */
  predicate IsAttachment(p: MessagePart)
  {
    Truthy(p.filename) && p.body.Some? && Truthy(p.body.value.attachmentId)
  }

  /** `part.mimeType ?? 'application/octet-stream'` */
  function PartMimeType(p: MessagePart): string
  {
    if p.mimeType.Some? then p.mimeType.value else "application/octet-stream"
  }

  /** The attachments of the first `n` parts of message `id`. */
  function AttachmentsUpTo(box: Mailbox, id: string, parts: seq<MessagePart>, n: nat): (t: Trace<seq<GmailAttachment>>)
    requires n <= |parts|
    ensures t.outcome.Success? ==> |t.outcome.value| <= n
  {
    if n == 0 then Trace(Success([]), [])
    else
      var prev := AttachmentsUpTo(box, id, parts, n - 1);
      var p := parts[n - 1];
      if prev.outcome.Failure? || !IsAttachment(p) then prev
      else
        var aid := p.body.value.attachmentId.value;
        var calls := prev.calls + [GetAttachment(id, aid)];
        match box.attachment(id, aid)
        case Failure(m) => Trace(Failure(Error(m)), calls)
        case Success(data) =>
          Trace(Success(prev.outcome.value + [GmailAttachment(p.filename.value, PartMimeType(p), data)]), calls)
  }

  lemma {:induction false} AttachmentFailureSticks(box: Mailbox, id: string, parts: seq<MessagePart>, n: nat, n': nat)
    requires n <= n' <= |parts| && AttachmentsUpTo(box, id, parts, n).outcome.Failure?
    ensures AttachmentsUpTo(box, id, parts, n') == AttachmentsUpTo(box, id, parts, n)
    decreases n'
  {
    if n < n' {
      AttachmentFailureSticks(box, id, parts, n, n' - 1);
    }
  }

  /** The positions, below `n`, of the parts that carry an attachment. */
  function AttachmentPositions(parts: seq<MessagePart>, n: nat): (ix: seq<nat>)
    ensures forall j :: 0 <= j < |ix| ==> ix[j] < n && ix[j] < |parts| && IsAttachment(parts[ix[j]])
  {
    var ok := (k: nat) => k < |parts| && IsAttachment(parts[k]);
    PositionsHold(ok, n);
    Positions(ok, n)
  }

  /** The attachments read are those of the parts that have a file name and
      an attachment id, in part order, with the part's name and type; each
      of them was fetched once, in the same order, and nothing else was. */
  lemma {:induction false} AttachmentsAreMarkedParts(box: Mailbox, id: string, parts: seq<MessagePart>, n: nat)
    requires n <= |parts| && AttachmentsUpTo(box, id, parts, n).outcome.Success?
    ensures var t := AttachmentsUpTo(box, id, parts, n);
      var ix := AttachmentPositions(parts, n);
      && |t.outcome.value| == |ix| == |t.calls|
      && forall j :: 0 <= j < |ix| ==>
        && t.outcome.value[j].filename == parts[ix[j]].filename.value
        && t.outcome.value[j].mimeType == PartMimeType(parts[ix[j]])
        && t.calls[j] == GetAttachment(id, parts[ix[j]].body.value.attachmentId.value)
  {
    if n > 0 {
      assert AttachmentsUpTo(box, id, parts, n - 1).outcome.Success?;
      AttachmentsAreMarkedParts(box, id, parts, n - 1);
    }
  }

  // ---------------------------------------------------------------------------
  // Messages

  /** The message the service builds from a fetched message. */
  function MessageOf(id: string, threadId: Option<string>, headers: seq<Header>, attachments: seq<GmailAttachment>): GmailMessage
  {
    GmailMessage(id, OrElse(threadId, ""), Lookup(headers, FromHeader),
                 Lookup(headers, DateHeader), Lookup(headers, SubjectHeader), attachments)
  }

  /** The part of a turn after message `id` was fetched with a payload: its
      attachments are read, then it is marked read. */
  function ReadPayload(box: Mailbox, id: string, threadId: Option<string>, payload: Payload): Trace<Option<GmailMessage>>
  {
    var headers := if payload.headers.Some? then payload.headers.value else [];
    var parts := if payload.parts.Some? then payload.parts.value else [];
    var atts := AttachmentsUpTo(box, id, parts, |parts|);
    if atts.outcome.Failure? then Trace(Failure(atts.outcome.error), atts.calls)
    else
      var calls := atts.calls + [MarkRead(id)];
      match box.relabel(id)
      case Failure(m) => Trace(Failure(Error(m)), calls)
      case Success(_) => Trace(Success(Some(MessageOf(id, threadId, headers, atts.outcome.value))), calls)
  }

  /** What one listed message contributes: nothing when it has no id or no
      payload; otherwise its headers and attachments, once it was marked read. */
  function MessageStep(box: Mailbox, ref: MessageRef): Trace<Option<GmailMessage>>
  {
    if !Truthy(ref.id) then Trace(Success(None), [])
    else
      var id := ref.id.value;
      match box.get(id)
      case Failure(m) => Trace(Failure(Error(m)), [Get(id)])
      case Success(full) =>
        if full.payload.None? then Trace(Success(None), [Get(id)])
        else
          var t := ReadPayload(box, id, full.threadId, full.payload.value);
          Trace(t.outcome, [Get(id)] + t.calls)
  }

  /** The messages read from the first `n` listed entries. */
  function FetchUpTo(box: Mailbox, refs: seq<MessageRef>, n: nat): (t: Trace<seq<GmailMessage>>)
    requires n <= |refs|
    ensures t.outcome.Success? ==> |t.outcome.value| <= n
  {
    if n == 0 then Trace(Success([]), [])
    else
      var prev := FetchUpTo(box, refs, n - 1);
      if prev.outcome.Failure? then prev
      else
        var step := MessageStep(box, refs[n - 1]);
        var calls := prev.calls + step.calls;
        match step.outcome
        case Failure(e) => Trace(Failure(e), calls)
        case Success(None) => Trace(prev.outcome, calls)
        case Success(Some(msg)) => Trace(Success(prev.outcome.value + [msg]), calls)
  }

  lemma {:induction false} FetchFailureSticks(box: Mailbox, refs: seq<MessageRef>, n: nat, n': nat)
    requires n <= n' <= |refs| && FetchUpTo(box, refs, n).outcome.Failure?
    ensures FetchUpTo(box, refs, n') == FetchUpTo(box, refs, n)
    decreases n'
  {
    if n < n' {
      FetchFailureSticks(box, refs, n, n' - 1);
    }
  }

  /** The listed entries, `listRes.data.messages ?? []`. */
  function Listed(box: Mailbox): seq<MessageRef>
    requires box.listed.Success?
  {
    if box.listed.value.Some? then box.listed.value.value else []
  }

  /** `fetchInvoiceEmails`; `auth` is how `getClient` ends. */
  function Fetch(auth: Result<(), Exception>, box: Mailbox): Trace<seq<GmailMessage>>
  {
    if auth.Failure? then Trace(Failure(auth.error), [])
    else if box.listed.Failure? then Trace(Failure(Error(box.listed.error)), [List])
    else
      var t := FetchUpTo(box, Listed(box), |Listed(box)|);
      Trace(t.outcome, [List] + t.calls)
  }

  // ---------------------------------------------------------------------------
  // What a fetch does

  /** The messages marked read by a sequence of calls, in order. */
  function Marked(calls: seq<Call>): seq<string>
  {
    if calls == [] then []
    else Marked(calls[..|calls| - 1]) + (if Last(calls).Modify? then [Last(calls).modified] else [])
  }

  lemma {:induction false} MarkedAppend(a: seq<Call>, b: seq<Call>)
    ensures Marked(a + b) == Marked(a) + Marked(b)
    decreases |b|
  {
    if b == [] {
      assert a + b == a;
    } else {
      assert (a + b)[..|a + b| - 1] == a + b[..|b| - 1];
      MarkedAppend(a, b[..|b| - 1]);
    }
  }

  function Ids(msgs: seq<GmailMessage>): seq<string>
  {
    seq(|msgs|, j requires 0 <= j < |msgs| => msgs[j].id)
  }

  /** Calls that include no `modify` mark nothing read. */
  lemma {:induction false} NoModifyMarksNothing(calls: seq<Call>)
    requires forall k :: 0 <= k < |calls| ==> !calls[k].Modify?
    ensures Marked(calls) == []
    decreases |calls|
  {
    if calls != [] {
      NoModifyMarksNothing(calls[..|calls| - 1]);
    }
  }

  /** A request for one of message `id`'s attachments. */
  predicate ReadsAttachmentOf(c: Call, id: string)
  {
    c.GetAttachment? && c.messageId == id
  }

  /** Reading the attachments of message `id` only reads attachments of `id`. */
  lemma {:induction false} AttachmentCalls(box: Mailbox, id: string, parts: seq<MessagePart>, n: nat)
    requires n <= |parts|
    ensures forall k :: 0 <= k < |AttachmentsUpTo(box, id, parts, n).calls| ==>
      ReadsAttachmentOf(AttachmentsUpTo(box, id, parts, n).calls[k], id)
  {
    if n > 0 {
      AttachmentCalls(box, id, parts, n - 1);
      var prev := AttachmentsUpTo(box, id, parts, n - 1);
      var t := AttachmentsUpTo(box, id, parts, n);
      if prev.outcome.Success? && IsAttachment(parts[n - 1]) {
        var c := GetAttachment(id, parts[n - 1].body.value.attachmentId.value);
        assert t.calls == prev.calls + [c];
        forall k | 0 <= k < |t.calls|
          ensures ReadsAttachmentOf(t.calls[k], id)
        {
          if k < |prev.calls| {
            assert t.calls[k] == prev.calls[k];
          }
        }
      } else {
        assert t == prev;
      }
    }
  }

  /** Reading attachments marks nothing read. */
  lemma AttachmentsMarkNothing(box: Mailbox, id: string, parts: seq<MessagePart>, n: nat)
    requires n <= |parts|
    ensures Marked(AttachmentsUpTo(box, id, parts, n).calls) == []
    ensures forall k :: 0 <= k < |AttachmentsUpTo(box, id, parts, n).calls| ==>
      ReadsAttachmentOf(AttachmentsUpTo(box, id, parts, n).calls[k], id)
  {
    var calls := AttachmentsUpTo(box, id, parts, n).calls;
    AttachmentCalls(box, id, parts, n);
    assert forall k :: 0 <= k < |calls| ==> !calls[k].Modify?;
    NoModifyMarksNothing(calls);
  }

  /** `MessageStep` yields a message for this entry. */
  predicate Delivers(box: Mailbox, ref: MessageRef)
  {
    MessageStep(box, ref).outcome.Success? && MessageStep(box, ref).outcome.value.Some?
  }

  /** A message read in full was fetched first, then its attachments, and
      marked read last, after every attachment had been read; its thread id
      defaults to the empty string. */
  lemma MessageCalls(box: Mailbox, ref: MessageRef)
    requires Delivers(box, ref)
    ensures var t := MessageStep(box, ref);
      var m := t.outcome.value.value;
      && Truthy(ref.id) && m.id == ref.id.value
      && |t.calls| == |m.attachments| + 2
      && t.calls[0] == Get(m.id)
      && (forall k :: 1 <= k < |t.calls| - 1 ==> ReadsAttachmentOf(t.calls[k], m.id))
      && Last(t.calls) == MarkRead(m.id)
      && Marked(t.calls) == [m.id]
      && m.threadId == OrElse(box.get(m.id).value.threadId, "")
  {
    var id := ref.id.value;
    var full := box.get(id).value;
    var r := ReadPayload(box, id, full.threadId, full.payload.value);
    PayloadCalls(box, id, full.threadId, full.payload.value);
    MarkedAppend([Get(id)], r.calls);
    assert Marked([Get(id)]) == [] by {
      assert [Get(id)][..0] == [];
    }
  }

  /** The payload of a message read in full: its attachments' calls, then the mark. */
  lemma PayloadSteps(box: Mailbox, id: string, threadId: Option<string>, payload: Payload)
    requires var r := ReadPayload(box, id, threadId, payload); r.outcome.Success? && r.outcome.value.Some?
    ensures var headers := if payload.headers.Some? then payload.headers.value else [];
      var parts := if payload.parts.Some? then payload.parts.value else [];
      var atts := AttachmentsUpTo(box, id, parts, |parts|);
      var r := ReadPayload(box, id, threadId, payload);
      && atts.outcome.Success?
      && r.calls == atts.calls + [MarkRead(id)]
      && r.outcome.value.value == MessageOf(id, threadId, headers, atts.outcome.value)
  {
  }

  /** Attachment reads followed by the mark of `id` mark `id` alone, last. */
  lemma MarkAfterReads(cs: seq<Call>, id: string)
    requires forall k :: 0 <= k < |cs| ==> ReadsAttachmentOf(cs[k], id)
    requires Marked(cs) == []
    ensures forall k :: 0 <= k < |cs + [MarkRead(id)]| - 1 ==> ReadsAttachmentOf((cs + [MarkRead(id)])[k], id)
    ensures Last(cs + [MarkRead(id)]) == MarkRead(id)
    ensures Marked(cs + [MarkRead(id)]) == [id]
  {
    MarkedAppend(cs, [MarkRead(id)]);
    assert Marked([MarkRead(id)]) == [id] by {
      assert [MarkRead(id)][..0] == [];
    }
  }

  lemma PayloadCalls(box: Mailbox, id: string, threadId: Option<string>, payload: Payload)
    requires var r := ReadPayload(box, id, threadId, payload); r.outcome.Success? && r.outcome.value.Some?
    ensures var r := ReadPayload(box, id, threadId, payload);
      var m := r.outcome.value.value;
      && m.id == id && m.threadId == OrElse(threadId, "")
      && |r.calls| == |m.attachments| + 1
      && (forall k :: 0 <= k < |r.calls| - 1 ==> ReadsAttachmentOf(r.calls[k], id))
      && Last(r.calls) == MarkRead(id)
      && Marked(r.calls) == [id]
  {
    var parts := if payload.parts.Some? then payload.parts.value else [];
    var atts := AttachmentsUpTo(box, id, parts, |parts|);
    PayloadSteps(box, id, threadId, payload);
    AttachmentsMarkNothing(box, id, parts, |parts|);
    AttachmentsAreMarkedParts(box, id, parts, |parts|);
    MarkAfterReads(atts.calls, id);
  }

  /** A message skipped, for lacking an id or a payload, is not marked read. */
  lemma SkippedMessageNotMarked(box: Mailbox, ref: MessageRef)
    requires MessageStep(box, ref).outcome == Success(None)
    ensures Marked(MessageStep(box, ref).calls) == [] && |MessageStep(box, ref).calls| <= 1
  {
    if Truthy(ref.id) {
      assert MessageStep(box, ref).calls == [Get(ref.id.value)];
      assert [Get(ref.id.value)][..0] == [];
    }
  }

  /** The positions, below `n`, of the entries that yield a message. */
  function DeliveredPositions(box: Mailbox, refs: seq<MessageRef>, n: nat): (ix: seq<nat>)
    requires n <= |refs|
    ensures forall j :: 0 <= j < |ix| ==> ix[j] < n && Delivers(box, refs[ix[j]])
  {
    var ok := (k: nat) => k < |refs| && Delivers(box, refs[k]);
    PositionsHold(ok, n);
    Positions(ok, n)
  }

  /** One step of a successful fetch: entry `n - 1` adds its message when it
      yields one, and nothing otherwise. */
  lemma DeliveredStep(box: Mailbox, refs: seq<MessageRef>, n: nat)
    requires 0 < n <= |refs| && FetchUpTo(box, refs, n).outcome.Success?
    ensures FetchUpTo(box, refs, n - 1).outcome.Success?
    ensures Delivers(box, refs[n - 1]) ==>
      && DeliveredPositions(box, refs, n) == DeliveredPositions(box, refs, n - 1) + [n - 1]
      && FetchUpTo(box, refs, n).outcome.value ==
         FetchUpTo(box, refs, n - 1).outcome.value + [MessageStep(box, refs[n - 1]).outcome.value.value]
    ensures !Delivers(box, refs[n - 1]) ==>
      && DeliveredPositions(box, refs, n) == DeliveredPositions(box, refs, n - 1)
      && FetchUpTo(box, refs, n).outcome == FetchUpTo(box, refs, n - 1).outcome
  {
  }

  /** A fetch that succeeds returns, in list order, the message read from
      each entry that yields one. */
  lemma {:induction false} FetchReturnsDeliveredInOrder(box: Mailbox, refs: seq<MessageRef>, n: nat)
    requires n <= |refs| && FetchUpTo(box, refs, n).outcome.Success?
    ensures |FetchUpTo(box, refs, n).outcome.value| == |DeliveredPositions(box, refs, n)|
    ensures forall j :: 0 <= j < |DeliveredPositions(box, refs, n)| ==>
      FetchUpTo(box, refs, n).outcome.value[j] == MessageStep(box, refs[DeliveredPositions(box, refs, n)[j]]).outcome.value.value
  {
    FetchCountsDelivered(box, refs, n);
    forall j | 0 <= j < |DeliveredPositions(box, refs, n)|
      ensures FetchUpTo(box, refs, n).outcome.value[j] == MessageStep(box, refs[DeliveredPositions(box, refs, n)[j]]).outcome.value.value
    {
      FetchDeliveredAt(box, refs, n, j);
    }
  }

  /** A successful fetch returns one message per entry that yields one. */
  lemma {:induction false} FetchCountsDelivered(box: Mailbox, refs: seq<MessageRef>, n: nat)
    requires n <= |refs| && FetchUpTo(box, refs, n).outcome.Success?
    ensures |FetchUpTo(box, refs, n).outcome.value| == |DeliveredPositions(box, refs, n)|
  {
    if n > 0 {
      DeliveredStep(box, refs, n);
      FetchCountsDelivered(box, refs, n - 1);
    }
  }

  /** The `j`-th message returned is the one read from the `j`-th entry
      that yields one. */
  lemma {:induction false} FetchDeliveredAt(box: Mailbox, refs: seq<MessageRef>, n: nat, j: nat)
    requires n <= |refs| && FetchUpTo(box, refs, n).outcome.Success?
    requires j < |DeliveredPositions(box, refs, n)|
    ensures j < |FetchUpTo(box, refs, n).outcome.value|
    ensures FetchUpTo(box, refs, n).outcome.value[j] == MessageStep(box, refs[DeliveredPositions(box, refs, n)[j]]).outcome.value.value
  {
    assert DeliveredPositions(box, refs, n)[j] < n;
    FetchCountsDelivered(box, refs, n - 1);
    if j < |DeliveredPositions(box, refs, n - 1)| {
      FetchDeliveredAt(box, refs, n - 1, j);
      DeliveredKept(box, refs, n, j);
    } else {
      DeliveredNewest(box, refs, n, j);
    }
  }

  /** Entry `n - 1` leaves the earlier messages and their positions alone. */
  lemma DeliveredKept(box: Mailbox, refs: seq<MessageRef>, n: nat, j: nat)
    requires 0 < n <= |refs| && FetchUpTo(box, refs, n).outcome.Success?
    requires FetchUpTo(box, refs, n - 1).outcome.Success?
    requires j < |DeliveredPositions(box, refs, n - 1)| == |FetchUpTo(box, refs, n - 1).outcome.value|
    ensures j < |DeliveredPositions(box, refs, n)| && j < |FetchUpTo(box, refs, n).outcome.value|
    ensures DeliveredPositions(box, refs, n)[j] == DeliveredPositions(box, refs, n - 1)[j]
    ensures FetchUpTo(box, refs, n).outcome.value[j] == FetchUpTo(box, refs, n - 1).outcome.value[j]
  {
    DeliveredStep(box, refs, n);
  }

  /** A position past the earlier ones is entry `n - 1`'s, with its message. */
  lemma DeliveredNewest(box: Mailbox, refs: seq<MessageRef>, n: nat, j: nat)
    requires 0 < n <= |refs| && FetchUpTo(box, refs, n).outcome.Success?
    requires FetchUpTo(box, refs, n - 1).outcome.Success?
    requires |DeliveredPositions(box, refs, n - 1)| == |FetchUpTo(box, refs, n - 1).outcome.value|
    requires |DeliveredPositions(box, refs, n - 1)| <= j < |DeliveredPositions(box, refs, n)|
    ensures j < |FetchUpTo(box, refs, n).outcome.value|
    ensures FetchUpTo(box, refs, n).outcome.value[j] ==
      MessageStep(box, refs[DeliveredPositions(box, refs, n)[j]]).outcome.value.value
  {
    DeliveredStep(box, refs, n);
  }

  /** An entry read without failure marks read the message it yields, and
      nothing when it yields none. */
  lemma StepMarks(box: Mailbox, ref: MessageRef)
    requires MessageStep(box, ref).outcome.Success?
    ensures Marked(MessageStep(box, ref).calls) ==
      if Delivers(box, ref) then [MessageStep(box, ref).outcome.value.value.id] else []
  {
    if Delivers(box, ref) {
      MessageCalls(box, ref);
    } else {
      SkippedMessageNotMarked(box, ref);
    }
  }

  /** One step of a successful fetch, in calls and in messages. */
  lemma FetchStep(box: Mailbox, refs: seq<MessageRef>, n: nat)
    requires 0 < n <= |refs| && FetchUpTo(box, refs, n).outcome.Success?
    ensures FetchUpTo(box, refs, n - 1).outcome.Success? && MessageStep(box, refs[n - 1]).outcome.Success?
    ensures FetchUpTo(box, refs, n).calls == FetchUpTo(box, refs, n - 1).calls + MessageStep(box, refs[n - 1]).calls
    ensures FetchUpTo(box, refs, n).outcome.value == FetchUpTo(box, refs, n - 1).outcome.value +
      if Delivers(box, refs[n - 1]) then [MessageStep(box, refs[n - 1]).outcome.value.value] else []
  {
  }

  lemma IdsAppend(a: seq<GmailMessage>, b: seq<GmailMessage>)
    ensures Ids(a + b) == Ids(a) + Ids(b)
  {
  }

  /** A fetch that succeeds marks read exactly the messages it returns, in
      the order it returns them. */
  lemma {:induction false} FetchMarksReturned(box: Mailbox, refs: seq<MessageRef>, n: nat)
    requires n <= |refs| && FetchUpTo(box, refs, n).outcome.Success?
    ensures Marked(FetchUpTo(box, refs, n).calls) == Ids(FetchUpTo(box, refs, n).outcome.value)
  {
    if n > 0 {
      FetchStep(box, refs, n);
      FetchMarksReturned(box, refs, n - 1);
      StepMarks(box, refs[n - 1]);
      MarkedAppend(FetchUpTo(box, refs, n - 1).calls, MessageStep(box, refs[n - 1]).calls);
      IdsAppend(FetchUpTo(box, refs, n - 1).outcome.value,
                if Delivers(box, refs[n - 1]) then [MessageStep(box, refs[n - 1]).outcome.value.value] else []);
    }
  }

  /** A message whose reading fails ends the fetch with that failure: no
      later entry is touched, and the messages read before it stay marked
      read. */
  lemma FailureEndsFetch(box: Mailbox, refs: seq<MessageRef>, k: nat)
    requires k < |refs| && FetchUpTo(box, refs, k).outcome.Success?
    requires MessageStep(box, refs[k]).outcome.Failure?
    ensures var t := FetchUpTo(box, refs, |refs|);
      && t.outcome == Failure(MessageStep(box, refs[k]).outcome.error)
      && t.calls == FetchUpTo(box, refs, k).calls + MessageStep(box, refs[k]).calls
      && Ids(FetchUpTo(box, refs, k).outcome.value) <= Marked(t.calls)
  {
    FailureStep(box, refs, k);
    FetchFailureSticks(box, refs, k + 1, |refs|);
    FetchMarksReturned(box, refs, k);
    var before := FetchUpTo(box, refs, k).calls;
    var failing := MessageStep(box, refs[k]).calls;
    MarkedAppend(before, failing);
    PrefixOfAppend(Marked(before), Marked(failing));
  }

  lemma PrefixOfAppend(a: seq<string>, b: seq<string>)
    ensures a <= a + b
  {
  }

  /** The step at an entry whose reading fails. */
  lemma FailureStep(box: Mailbox, refs: seq<MessageRef>, k: nat)
    requires k < |refs| && FetchUpTo(box, refs, k).outcome.Success?
    requires MessageStep(box, refs[k]).outcome.Failure?
    ensures FetchUpTo(box, refs, k + 1) ==
      Trace(Failure(MessageStep(box, refs[k]).outcome.error), FetchUpTo(box, refs, k).calls + MessageStep(box, refs[k]).calls)
  {
  }

  /** The loop of `fetchInvoiceEmails` over the parts of message `id`. */
  method ReadAttachments(box: Mailbox, id: string, parts: seq<MessagePart>)
    returns (r: Result<seq<GmailAttachment>, Exception>, fetched: seq<Call>)
    ensures Trace(r, fetched) == AttachmentsUpTo(box, id, parts, |parts|)
  {
    var attachments: seq<GmailAttachment> := [];
    fetched := [];
    var j := 0;
    while j < |parts|
      invariant 0 <= j <= |parts|
      invariant AttachmentsUpTo(box, id, parts, j) == Trace(Success(attachments), fetched)
    {
      var part := parts[j];
      if part.filename.Some? && part.filename.value != "" && part.body.Some?
         && part.body.value.attachmentId.Some? && part.body.value.attachmentId.value != "" {
        var aid := part.body.value.attachmentId.value;
        fetched := fetched + [GetAttachment(id, aid)];
        var attachRes := box.attachment(id, aid);
        if attachRes.Failure? {
          AttachmentFailureSticks(box, id, parts, j + 1, |parts|);
          return Failure(Error(attachRes.error)), fetched;
        }
        var mimeType := if part.mimeType.Some? then part.mimeType.value else "application/octet-stream";
        attachments := attachments + [GmailAttachment(part.filename.value, mimeType, attachRes.value)];
      }
      j := j + 1;
    }
    return Success(attachments), fetched;
  }

  /** One turn of the loop of `fetchInvoiceEmails`: read message `message`,
      its headers and attachments, then mark it read. */
  method ReadMessage(box: Mailbox, message: MessageRef)
    returns (r: Result<Option<GmailMessage>, Exception>, calls: seq<Call>)
    ensures Trace(r, calls) == MessageStep(box, message)
  {
    if message.id.None? || message.id.value == "" {
      return Success(None), [];
    }
    var id := message.id.value;
    calls := [Get(id)];
    var msgRes := box.get(id);
    if msgRes.Failure? {
      return Failure(Error(msgRes.error)), calls;
    }
    var payload := msgRes.value.payload;
    if payload.None? {
      return Success(None), calls;
    }
    var headers := if payload.value.headers.Some? then payload.value.headers.value else [];
    var from := Lookup(headers, FromHeader);
    var date := Lookup(headers, DateHeader);
    var subject := Lookup(headers, SubjectHeader);
    var parts := if payload.value.parts.Some? then payload.value.parts.value else [];
    var read, fetched := ReadAttachments(box, id, parts);
    if read.Failure? {
      return Failure(read.error), calls + fetched;
    }
    var attachments := read.value;
    calls := calls + fetched + [Modify(id, ["INBOX"], ["UNREAD"])];
    var relabelled := box.relabel(id);
    if relabelled.Failure? {
      return Failure(Error(relabelled.error)), calls;
    }
    var threadId := if msgRes.value.threadId.Some? && msgRes.value.threadId.value != "" then msgRes.value.threadId.value else "";
    return Success(Some(GmailMessage(id, threadId, from, date, subject, attachments))), calls;
  }

  /** The loop of `fetchInvoiceEmails` over the listed entries. */
  method ReadAll(box: Mailbox, messages: seq<MessageRef>)
    returns (r: Result<seq<GmailMessage>, Exception>, calls: seq<Call>)
    ensures Trace(r, calls) == FetchUpTo(box, messages, |messages|)
  {
    var result: seq<GmailMessage> := [];
    calls := [];
    var i := 0;
    while i < |messages|
      invariant 0 <= i <= |messages|
      invariant FetchUpTo(box, messages, i) == Trace(Success(result), calls)
    {
      var step, stepCalls := ReadMessage(box, messages[i]);
      calls := calls + stepCalls;
      if step.Failure? {
        assert FetchUpTo(box, messages, i + 1) == Trace(Failure(step.error), calls);
        FetchFailureSticks(box, messages, i + 1, |messages|);
        return Failure(step.error), calls;
      }
      if step.value.Some? {
        result := result + [step.value.value];
      }
      assert FetchUpTo(box, messages, i + 1) == Trace(Success(result), calls);
      i := i + 1;
    }
    return Success(result), calls;
  }

  /** `fetchInvoiceEmails`: no call is guarded by a `try`, so the first one
      that fails ends the fetch. */
  method FetchInvoiceEmails(auth: Result<(), Exception>, box: Mailbox)
    returns (r: Result<seq<GmailMessage>, Exception>, calls: seq<Call>)
    ensures Trace(r, calls) == Fetch(auth, box)
  {
    calls := [];
    if auth.Failure? {
      return Failure(auth.error), calls;
    }
    calls := calls + [List];
    if box.listed.Failure? {
      return Failure(Error(box.listed.error)), calls;
    }
    var messages := if box.listed.value.Some? then box.listed.value.value else [];
    var fetched;
    r, fetched := ReadAll(box, messages);
    calls := calls + fetched;
  }
}

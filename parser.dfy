/**
 * mail_parser.py: one poll cycle, `mail_parser`, over the unread listing it
 * fetches. The provider's answers (the listing, each message's content and
 * whether each `get`, `send` and `modify` call raises) are inputs.
 */
module Parser {
  import opened Wrappers
  import opened Text
  import opened MailTypes
  import opened Classifier
  import opened Reply

  const PlainText: string := "text/plain"

  /** One entry of `payload.parts`, its body already decoded from base64. */
  datatype Part = Part(mimeType: string, body: string)

  /** A message's `payload`: its MIME type, its decoded body, its header list and its parts. */
  datatype Payload = Payload(mimeType: string, body: string, headers: seq<Header>, parts: seq<Part>)

  /** A listed message: its `id`, its `threadId` and the payload the `get` call returns. */
  datatype Message = Message(id: string, threadId: string, payload: Payload)

  /**
   * A message of the unread listing with the outcomes of the calls made for it:
   * whether `get` raises, whether `send` succeeds, whether `modify` raises.
   */
  datatype Entry = Entry(message: Message, fetchFails: bool, sendSucceeds: bool, markReadFails: bool)

  /** What the `list` call gives: an error, or the listed messages in provider order. */
  datatype Listing = ListingFailed | Listed(entries: seq<Entry>)

  /** The header values the cycle reads; each is the value of the last header with that name. */
  datatype Fields = Fields(sender: Option<string>, receiver: Option<string>, messageId: Option<string>,
                           subject: Option<string>, date: Option<string>)

  /** A `replied_mails` entry: `to`, `subject`, `reply`, `date`, `category`. */
  datatype RepliedRecord = RepliedRecord(receiver: string, subject: string, reply: Option<string>,
                                         date: Option<string>, category: string)

  /** An `ignored_mails` entry: `from`, `subject`, `date`, `category`. */
  datatype IgnoredRecord = IgnoredRecord(sender: Option<string>, subject: Option<string>,
                                         date: Option<string>, category: string)

  /** What a cycle produces: the two record lists and the threads whose UNREAD label it removed. */
  datatype Cycle = Cycle(replied: seq<RepliedRecord>, ignored: seq<IgnoredRecord>, markedRead: seq<string>)

  // ---------------------------------------------------------------------------
  // Body selection

  ghost predicate IsFirstPlainPart(parts: seq<Part>, i: int) {
    0 <= i < |parts| && parts[i].mimeType == PlainText
    && forall j :: 0 <= j < i ==> parts[j].mimeType != PlainText
  }

  /** The first `text/plain` part at or after position `i`. */
  function FirstPlainFrom(parts: seq<Part>, i: nat): (r: Option<nat>)
    requires i <= |parts|
    ensures r.Some? ==> i <= r.value < |parts| && parts[r.value].mimeType == PlainText
                        && forall j :: i <= j < r.value ==> parts[j].mimeType != PlainText
    ensures r.None? ==> forall j :: i <= j < |parts| ==> parts[j].mimeType != PlainText
    decreases |parts| - i
  {
    if i == |parts| then None
    else if parts[i].mimeType == PlainText then Some(i)
    else FirstPlainFrom(parts, i + 1)
  }

  /**
   * The plain-text body: the payload's own body when the payload is `text/plain`,
   * else the body of its first `text/plain` part, else the empty string.
   */
  function PlainBody(p: Payload): (body: string)
    ensures p.mimeType == PlainText ==> body == p.body
    ensures p.mimeType != PlainText ==>
      (exists i :: IsFirstPlainPart(p.parts, i) && body == p.parts[i].body)
      || ((forall j :: 0 <= j < |p.parts| ==> p.parts[j].mimeType != PlainText) && body == "")
  {
    if p.mimeType == PlainText then p.body
    else
      match FirstPlainFrom(p.parts, 0)
      case Some(i) =>
        assert IsFirstPlainPart(p.parts, i);
        p.parts[i].body
      case None => ""
  }

  /** The body selection of the loop: scans the parts and stops at the first plain-text one. */
  method SelectBody(payload: Payload) returns (body: string)
    ensures body == PlainBody(payload)
  {
    if payload.mimeType == PlainText {
      body := payload.body;
    } else {
      var parts := payload.parts;
      body := "";
      var i := 0;
      while i < |parts|
        invariant 0 <= i <= |parts|
        invariant FirstPlainFrom(parts, i) == FirstPlainFrom(parts, 0)
        invariant body == ""
      {
        if parts[i].mimeType == PlainText {
          body := parts[i].body;
          break;
        }
        i := i + 1;
      }
    }
  }

  // ---------------------------------------------------------------------------
  // Header extraction

  /** The header values the loop ends up with: for each name, the last header with that name. */
  function HeaderFields(headers: seq<Header>): Fields {
    Fields(LastValue(headers, "From"), LastValue(headers, "To"), LastValue(headers, "Message-ID"),
           LastValue(headers, "Subject"), LastValue(headers, "Date"))
  }

  /** The header scan: each matching header overwrites the value kept for its name. */
  method ExtractHeaders(headers: seq<Header>) returns (f: Fields)
    ensures f == HeaderFields(headers)
  {
    var receiver: Option<string> := None;
    var references: Option<string> := None;
    var subject: Option<string> := None;
    var sender: Option<string> := None;
    var date: Option<string> := None;
    var i := 0;
    while i < |headers|
      invariant 0 <= i <= |headers|
      invariant sender == LastValue(headers[..i], "From")
      invariant receiver == LastValue(headers[..i], "To")
      invariant references == LastValue(headers[..i], "Message-ID")
      invariant subject == LastValue(headers[..i], "Subject")
      invariant date == LastValue(headers[..i], "Date")
    {
      var h := headers[i];
      if h.name == "From" {
        sender := Some(h.value);
      }
      if h.name == "To" {
        receiver := Some(h.value);
      }
      if h.name == "Message-ID" {
        references := Some(h.value);
      }
      if h.name == "Subject" {
        subject := Some(h.value);
      }
      if h.name == "Date" {
        date := Some(h.value);
      }
      assert headers[..i + 1][..i] == headers[..i];
      i := i + 1;
    }
    assert headers[..|headers|] == headers;
    f := Fields(sender, receiver, references, subject, date);
  }

  // ---------------------------------------------------------------------------
  // The reply-or-ignore decision

  /**
   * The eligibility test of the loop: some keyword, exactly as configured and
   * not lowercased, occurs in the lowercased subject.
   */
  predicate KeywordInSubject(keywords: seq<string>, subject: string) {
    exists k :: k in keywords && Contains(Lower(subject), k)
  }

  /** A message is eligible for a reply when its subject is truthy and holds a keyword. */
  predicate Eligible(keywords: seq<string>, subject: Option<string>) {
    Truthy(subject) && KeywordInSubject(keywords, subject.value)
  }

  /** What the loop does with one fetched message. */
  datatype Outcome =
    | Answered(record: RepliedRecord, threadId: string)
    | Skipped(skipped: IgnoredRecord)

  /** The outcome for one message: replied when eligible and a `To` header is truthy, ignored otherwise. */
  function Triage(e: Entry, cfg: Config, ai: string -> Option<string>): Outcome {
    var m := e.message;
    var f := HeaderFields(m.payload.headers);
    var category := Categorize(f.subject, cfg.keywords);
    if Eligible(cfg.keywords, f.subject) && Truthy(f.receiver) then
      var reply := if e.sendSucceeds then Some(ReplyText(cfg, ai, PlainBody(m.payload))) else None;
      Answered(RepliedRecord(f.receiver.value, f.subject.value, reply, f.date, category), m.threadId)
    else
      Skipped(IgnoredRecord(f.sender, f.subject, f.date, category))
  }

  /** The outcomes of a run of messages, one per message, in order. */
  function Outcomes(es: seq<Entry>, cfg: Config, ai: string -> Option<string>): (os: seq<Outcome>)
    ensures |os| == |es|
    decreases |es|
  {
    if es == [] then [] else Outcomes(es[..|es| - 1], cfg, ai) + [Triage(es[|es| - 1], cfg, ai)]
  }

  /** Each outcome is the triage of the message at the same position. */
  lemma {:induction false} OutcomeAt(es: seq<Entry>, cfg: Config, ai: string -> Option<string>, i: nat)
    requires i < |es|
    ensures Outcomes(es, cfg, ai)[i] == Triage(es[i], cfg, ai)
    decreases |es|
  {
    if i < |es| - 1 {
      OutcomeAt(es[..|es| - 1], cfg, ai, i);
    }
  }

  // ---------------------------------------------------------------------------
  // Accumulating the records

  /** The replied records of a run of outcomes, in order. */
  function RepliedPart(os: seq<Outcome>): seq<RepliedRecord>
    decreases |os|
  {
    if os == [] then []
    else RepliedPart(os[..|os| - 1]) + (if os[|os| - 1].Answered? then [os[|os| - 1].record] else [])
  }

  /** The ignored records of a run of outcomes, in order. */
  function IgnoredPart(os: seq<Outcome>): seq<IgnoredRecord>
    decreases |os|
  {
    if os == [] then []
    else IgnoredPart(os[..|os| - 1]) + (if os[|os| - 1].Skipped? then [os[|os| - 1].skipped] else [])
  }

  /** The threads marked read for a run of outcomes, in order: one per replied record. */
  function ThreadsPart(os: seq<Outcome>): seq<string>
    decreases |os|
  {
    if os == [] then []
    else ThreadsPart(os[..|os| - 1]) + (if os[|os| - 1].Answered? then [os[|os| - 1].threadId] else [])
  }

  function Collect(os: seq<Outcome>): Cycle {
    Cycle(RepliedPart(os), IgnoredPart(os), ThreadsPart(os))
  }

  /** Processing this message raises `HttpError`: its `get` fails, or it is replied to and its `modify` fails. */
  predicate Raises(e: Entry, o: Outcome) {
    e.fetchFails || (o.Answered? && e.markReadFails)
  }

  /** The first message at or after `i` whose processing raises, or `|es|` when none does. */
  function FirstFailure(es: seq<Entry>, os: seq<Outcome>, i: nat): (k: nat)
    requires |os| == |es| && i <= |es|
    ensures i <= k <= |es|
    ensures forall j :: i <= j < k ==> !Raises(es[j], os[j])
    ensures k < |es| ==> Raises(es[k], os[k])
    decreases |es| - i
  {
    if i == |es| then i
    else if Raises(es[i], os[i]) then i
    else FirstFailure(es, os, i + 1)
  }

  /**
   * The records of a cycle over the listed messages `es`: those of the messages
   * before the first one whose processing raises, plus that message's replied
   * record when it was its `modify` that raised.
   */
  function CycleOf(es: seq<Entry>, cfg: Config, ai: string -> Option<string>): Cycle {
    var os := Outcomes(es, cfg, ai);
    var k := FirstFailure(es, os, 0);
    if k == |es| then Collect(os)
    else if es[k].fetchFails then Collect(os[..k])
    else
      var c := Collect(os[..k]);
      Cycle(c.replied + [os[k].record], c.ignored, c.markedRead)
  }

  /** The result of `mail_parser`: nothing when the listing fails or is empty, else the cycle over its messages. */
  function CycleResult(listing: Listing, cfg: Config, ai: string -> Option<string>): Cycle {
    match listing
    case ListingFailed => Cycle([], [], [])
    case Listed(es) => if es == [] then Cycle([], [], []) else CycleOf(es, cfg, ai)
  }

  /** Appending one outcome appends its record to the matching list (and its thread, when replied). */
  lemma CollectStep(os: seq<Outcome>, i: nat)
    requires i < |os|
    ensures var c := Collect(os[..i]);
            Collect(os[..i + 1])
            == match os[i]
               case Answered(r, t) => Cycle(c.replied + [r], c.ignored, c.markedRead + [t])
               case Skipped(r) => Cycle(c.replied, c.ignored + [r], c.markedRead)
  {
    assert os[..i + 1][..i] == os[..i];
  }

  /** The cycle whose first raising message is at position `k`. */
  lemma CycleOfFailsAt(es: seq<Entry>, cfg: Config, ai: string -> Option<string>, k: nat)
    requires k < |es|
    requires forall j :: 0 <= j < k ==> !Raises(es[j], Outcomes(es, cfg, ai)[j])
    requires Raises(es[k], Outcomes(es, cfg, ai)[k])
    ensures var os := Outcomes(es, cfg, ai);
            var c := Collect(os[..k]);
            CycleOf(es, cfg, ai)
            == if es[k].fetchFails then c else Cycle(c.replied + [os[k].record], c.ignored, c.markedRead)
  {
    var os := Outcomes(es, cfg, ai);
    assert FirstFailure(es, os, 0) == k;
  }

  /** The cycle in which no message raises. */
  lemma CycleOfClean(es: seq<Entry>, cfg: Config, ai: string -> Option<string>)
    requires forall j :: 0 <= j < |es| ==> !Raises(es[j], Outcomes(es, cfg, ai)[j])
    ensures CycleOf(es, cfg, ai) == Collect(Outcomes(es, cfg, ai))
  {
    assert FirstFailure(es, Outcomes(es, cfg, ai), 0) == |es|;
  }

  /**
   * The body of the message loop for one fetched message: select the body, scan
   * the headers, classify, and either reply (through `mail_reply`) or ignore.
   */
  method HandleMessage(e: Entry, cfg: Config, ai: string -> Option<string>) returns (o: Outcome)
    ensures o == Triage(e, cfg, ai)
  {
    var m := e.message;
    var body := SelectBody(m.payload);
    var f := ExtractHeaders(m.payload.headers);
    var category := Categorize(f.subject, cfg.keywords);
    if Eligible(cfg.keywords, f.subject) {
      if Truthy(f.receiver) {
        var reply, request := MailReply(m.id, f.receiver.value, f.messageId, f.subject.value, m.threadId,
                                        body, cfg, ai, e.sendSucceeds);
        o := Answered(RepliedRecord(f.receiver.value, f.subject.value, reply, f.date, category), m.threadId);
      } else {
        o := Skipped(IgnoredRecord(f.sender, f.subject, f.date, category));
      }
    } else {
      o := Skipped(IgnoredRecord(f.sender, f.subject, f.date, category));
    }
  }

  /**
   * The `for` loop of `mail_parser` over the listed messages. Each processed
   * message appends one record; a replied one is then marked read. An
   * `HttpError` ends the loop with the records gathered so far.
   */
  method ProcessMessages(es: seq<Entry>, cfg: Config, ai: string -> Option<string>)
    returns (replied: seq<RepliedRecord>, ignored: seq<IgnoredRecord>, markedRead: seq<string>)
    ensures Cycle(replied, ignored, markedRead) == CycleOf(es, cfg, ai)
  {
    replied, ignored, markedRead := [], [], [];
    ghost var os := Outcomes(es, cfg, ai);
    var i := 0;
    while i < |es|
      invariant 0 <= i <= |es|
      invariant forall j :: 0 <= j < i ==> !Raises(es[j], os[j])
      invariant Cycle(replied, ignored, markedRead) == Collect(os[..i])
    {
      var e := es[i];
      if e.fetchFails {
        CycleOfFailsAt(es, cfg, ai, i);
        return;
      }
      var o := HandleMessage(e, cfg, ai);
      OutcomeAt(es, cfg, ai, i);
      CollectStep(os, i);
      match o {
        case Answered(record, threadId) =>
          replied := replied + [record];
          if e.markReadFails {
            CycleOfFailsAt(es, cfg, ai, i);
            return;
          }
          markedRead := markedRead + [threadId];
        case Skipped(record) =>
          ignored := ignored + [record];
      }
      i := i + 1;
    }
    assert os[..|es|] == os;
    CycleOfClean(es, cfg, ai);
  }

  /**
   * `mail_parser`: list the unread inbox messages (a failed listing yields
   * nothing), stop early when there are none, else run the message loop.
   */
  method MailParser(listing: Listing, cfg: Config, ai: string -> Option<string>)
    returns (replied: seq<RepliedRecord>, ignored: seq<IgnoredRecord>, markedRead: seq<string>)
    ensures Cycle(replied, ignored, markedRead) == CycleResult(listing, cfg, ai)
  {
    if listing.ListingFailed? {
      return [], [], [];
    }
    var es := listing.entries;
    if |es| == 0 {
      return [], [], [];
    }
    replied, ignored, markedRead := ProcessMessages(es, cfg, ai);
  }
}

/** mail_reply.py: composing and sending the automatic reply, `mail_reply`. */
module Reply {
  import opened Wrappers
  import opened Text
  import opened MailTypes

  /**
   * The reply text: the template when AI is off; with AI on, the AI's text when
   * it is truthy and the template otherwise.
   */
  function ReplyText(cfg: Config, ai: string -> Option<string>, body: string): (r: string)
    ensures !cfg.useAi ==> r == cfg.template
    ensures cfg.useAi && Truthy(ai(body)) ==> r == ai(body).value
    ensures cfg.useAi && !Truthy(ai(body)) ==> r == cfg.template
    ensures r == cfg.template || (cfg.useAi && ai(body) == Some(r) && r != "")
  {
    if cfg.useAi then
      var generated := ai(body);
      if Truthy(generated) then generated.value else cfg.template
    else
      cfg.template
  }

  /** The subject starts with "re:" in any letter case. */
  predicate HasReplyPrefix(subject: string) {
    StartsWith(Lower(subject), "re:")
  }

  /** The reply's subject: unchanged when it already has a reply prefix, otherwise prefixed by "Re: ". */
  function ReplySubject(subject: string): (r: string)
    ensures HasReplyPrefix(r)
    ensures HasReplyPrefix(subject) ==> r == subject
    ensures !HasReplyPrefix(subject) ==> r == "Re: " + subject
  {
    if !HasReplyPrefix(subject) then
      var r := "Re: " + subject;
      assert Lower(r)[..3] == "re:" by {
        assert r[0] == 'R' && r[1] == 'e' && r[2] == ':';
      }
      r
    else
      subject
  }

  /** Replying to a reply keeps its subject: the subject rule is idempotent. */
  lemma ReplySubjectIdempotent(subject: string)
    ensures ReplySubject(ReplySubject(subject)) == ReplySubject(subject)
  {
  }

  /**
   * The headers the reply carries, in the order they are assigned: Subject, To,
   * From, In-Reply-To, and References only when the original's Message-ID is truthy.
   */
  function ReplyHeaders(subject: string, receiver: string, messageId: string, references: Option<string>): seq<Header> {
    [Header("Subject", ReplySubject(subject)), Header("To", receiver), Header("From", "me"),
     Header("In-Reply-To", messageId)]
    + if Truthy(references) then [Header("References", references.value)] else []
  }

  /**
   * Looking up each header of the reply finds the value assigned to it; there is
   * a `References` header exactly when the original's Message-ID is truthy.
   */
  lemma ReplyHeadersLookup(subject: string, receiver: string, messageId: string, references: Option<string>)
    ensures var h := ReplyHeaders(subject, receiver, messageId, references);
            && FirstValue(h, "Subject") == Some(ReplySubject(subject))
            && FirstValue(h, "To") == Some(receiver)
            && FirstValue(h, "From") == Some("me")
            && FirstValue(h, "In-Reply-To") == Some(messageId)
            && FirstValue(h, "References") == (if Truthy(references) then references else None)
            && |h| == if Truthy(references) then 5 else 4
  {
    var subjectH, toH, fromH, inReplyToH := Header("Subject", ReplySubject(subject)), Header("To", receiver),
                                           Header("From", "me"), Header("In-Reply-To", messageId);
    var tail := if Truthy(references) then [Header("References", references.value)] else [];
    var afterFrom := [inReplyToH] + tail;
    var afterTo := [fromH] + afterFrom;
    var afterSubject := [toH] + afterTo;
    assert ReplyHeaders(subject, receiver, messageId, references) == [subjectH] + afterSubject;
    FirstValueCons(subjectH, afterSubject, "Subject");
    FirstValueCons(subjectH, afterSubject, "To");
    FirstValueCons(subjectH, afterSubject, "From");
    FirstValueCons(subjectH, afterSubject, "In-Reply-To");
    FirstValueCons(subjectH, afterSubject, "References");
    FirstValueCons(toH, afterTo, "From");
    FirstValueCons(toH, afterTo, "In-Reply-To");
    FirstValueCons(toH, afterTo, "References");
    FirstValueCons(fromH, afterFrom, "In-Reply-To");
    FirstValueCons(fromH, afterFrom, "References");
    FirstValueCons(inReplyToH, tail, "References");
  }

  /** email.mime.text.MIMEText: a text payload and the headers assigned to it, in assignment order. */
  class MimeText {
    var payload: string
    var headers: seq<Header>

    constructor (text: string)
      ensures payload == text && headers == []
    {
      payload := text;
      headers := [];
    }

    /** `message[name] = value`, which appends a header rather than replacing one. */
    method Set(name: string, value: string)
      modifies this
      ensures headers == old(headers) + [Header(name, value)]
      ensures payload == old(payload)
    {
      headers := headers + [Header(name, value)];
    }
  }

  /** The message as it is encoded into the request's `raw` field. */
  datatype Mime = Mime(payload: string, headers: seq<Header>)

  /** The body of the send call: the encoded message and the thread it belongs to. */
  datatype SendRequest = SendRequest(raw: Mime, threadId: string)

  /** Fills a fresh MIME text message with the reply's headers, field by field. */
  method BuildReply(text: string, subject: string, receiver: string, messageId: string, references: Option<string>)
    returns (m: Mime)
    ensures m == Mime(text, ReplyHeaders(subject, receiver, messageId, references))
  {
    var message := new MimeText(text);
    if !HasReplyPrefix(subject) {
      message.Set("Subject", "Re: " + subject);
    } else {
      message.Set("Subject", subject);
    }
    message.Set("To", receiver);
    message.Set("From", "me");
    message.Set("In-Reply-To", messageId);
    ghost var base := [Header("Subject", ReplySubject(subject)), Header("To", receiver), Header("From", "me"),
                       Header("In-Reply-To", messageId)];
    assert message.headers == base;
    if Truthy(references) {
      message.Set("References", references.value);
      assert message.headers == base + [Header("References", references.value)];
    } else {
      assert message.headers == base + [];
    }
    m := Mime(message.payload, message.headers);
  }

  /**
   * `mail_reply`: builds the reply, sends it in the original's thread, and returns
   * the reply text when the send succeeds and `None` when it raises.
   * The AI call and the outcome of the send are parameters.
   */
  method MailReply(messageId: string, receiver: string, references: Option<string>, subject: string,
                   threadId: string, body: string, cfg: Config, ai: string -> Option<string>,
                   sendSucceeds: bool)
    returns (result: Option<string>, request: SendRequest)
    ensures request.threadId == threadId
    ensures request.raw == Mime(ReplyText(cfg, ai, body), ReplyHeaders(subject, receiver, messageId, references))
    ensures result == if sendSucceeds then Some(ReplyText(cfg, ai, body)) else None
  {
    var replyContent;
    if cfg.useAi {
      replyContent := ai(body);
      if !Truthy(replyContent) {
        replyContent := Some(cfg.template);
      }
    } else {
      replyContent := Some(cfg.template);
    }
    var text := replyContent.value;
    var raw := BuildReply(text, subject, receiver, messageId, references);
    request := SendRequest(raw, threadId);
    if sendSucceeds {
      result := Some(text);
    } else {
      result := None;
    }
  }
}

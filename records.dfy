/**
 * The mail records the dashboard reads from its data file: JSON objects whose
 * values are strings or `null`, looked up with `dict.get`.
 */
module Records {
  import opened Wrappers
  import opened Parser

  /** A JSON value as the records hold them: a string or `null`. */
  datatype Json = JStr(s: string) | JNull

  /** One mail record: a JSON object. */
  type Mail = map<string, Json>

  /** `mail.get(key, default)`: the stored value, or `default` when the key is absent. */
  function Get(mail: Mail, key: string, default: Json): Json {
    if key in mail then mail[key] else default
  }

  /** Python's `None`, or a string, as a JSON value. */
  function FromOption(o: Option<string>): Json {
    match o
    case None => JNull
    case Some(s) => JStr(s)
  }

  /** A `replied_mails` entry of mail_parser as a JSON object. */
  function RepliedMail(r: RepliedRecord): Mail {
    map["to" := JStr(r.receiver), "subject" := JStr(r.subject), "reply" := FromOption(r.reply),
        "date" := FromOption(r.date), "category" := JStr(r.category)]
  }

  /** An `ignored_mails` entry of mail_parser as a JSON object. */
  function IgnoredMail(r: IgnoredRecord): Mail {
    map["from" := FromOption(r.sender), "subject" := FromOption(r.subject),
        "date" := FromOption(r.date), "category" := JStr(r.category)]
  }
}

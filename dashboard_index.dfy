/**
 * app.py, `index`: the search filters over the replied and ignored mails, the
 * date formatting of the listed mails, and the totals and most recent entries.
 */
module DashboardIndex {
  import opened Wrappers
  import opened Text
  import opened Records

  /** The fields the replied-mails search looks in, in the order the filter tests them. */
  const RepliedKeys: seq<string> := ["to", "subject", "reply"]

  /** The fields the ignored-mails search looks in, in the order the filter tests them. */
  const IgnoredKeys: seq<string> := ["from", "subject"]

  /** `a` is `b` with some elements left out, the rest in their original order. */
  predicate Subsequence<T(==)>(a: seq<T>, b: seq<T>)
    decreases |b|
  {
    if a == [] then true
    else if b == [] then false
    else if a[0] == b[0] then Subsequence(a[1..], b[1..])
    else Subsequence(a, b[1..])
  }

  lemma {:induction false} SubsequenceReflexive<T>(s: seq<T>)
    ensures Subsequence(s, s)
    decreases |s|
  {
    if s != [] {
      SubsequenceReflexive(s[1..]);
    }
  }

  // ---------------------------------------------------------------------------
  // The filters as written

  /** `mail.get(key, "").lower()`: `None` when the stored value is `null`, which has no `lower`. */
  function LoweredField(mail: Mail, key: string): Option<string> {
    match Get(mail, key, JStr(""))
    case JStr(s) => Some(Lower(s))
    case JNull => None
  }

  /**
   * The `or` chain of a filter, evaluated left to right as written: `Some(true)`
   * at the first field holding the lowercased query, `None` when a field reached
   * before that is `null` (the `AttributeError`).
   */
  function AnyFieldAsWritten(query: string, mail: Mail, keys: seq<string>): Option<bool>
    decreases |keys|
  {
    if keys == [] then Some(false)
    else
      match LoweredField(mail, keys[0])
      case None => None
      case Some(v) => if Contains(v, Lower(query)) then Some(true) else AnyFieldAsWritten(query, mail, keys[1..])
  }

  /** The list comprehension as written: it raises (`None`) as soon as one mail's test raises. */
  function FilterAsWritten(query: string, mails: seq<Mail>, keys: seq<string>): Option<seq<Mail>>
    decreases |mails|
  {
    if mails == [] then Some([])
    else
      match AnyFieldAsWritten(query, mails[0], keys)
      case None => None
      case Some(keep) =>
        match FilterAsWritten(query, mails[1..], keys)
        case None => None
        case Some(rest) => Some(if keep then [mails[0]] + rest else rest)
  }

  /** `if search: data[...] = [...]` as written: an empty query keeps the list. */
  function SearchAsWritten(query: string, mails: seq<Mail>, keys: seq<string>): Option<seq<Mail>> {
    if query == "" then Some(mails) else FilterAsWritten(query, mails, keys)
  }

  // ---------------------------------------------------------------------------
  // The filters with `null` read as ""

  /** A field's text, with an absent field and a `null` one both read as "". */
  function FieldText(mail: Mail, key: string): string {
    match Get(mail, key, JStr(""))
    case JStr(s) => s
    case JNull => ""
  }

  /** Some searched field of `mail` holds the query, both lowercased. */
  predicate Hit(query: string, mail: Mail, keys: seq<string>) {
    exists k :: k in keys && Contains(Lower(FieldText(mail, k)), Lower(query))
  }

  /**
   * The mails that the query hits, in their original order: every occurrence of
   * a hit mail is kept, and no other mail.
   */
  function Filter(query: string, mails: seq<Mail>, keys: seq<string>): (r: seq<Mail>)
    ensures forall m :: m in r <==> m in mails && Hit(query, m, keys)
    ensures forall m :: multiset(r)[m] == if Hit(query, m, keys) then multiset(mails)[m] else 0
    decreases |mails|
  {
    if mails == [] then []
    else
      var m0, rest := mails[0], Filter(query, mails[1..], keys);
      assert multiset(mails) == multiset{m0} + multiset(mails[1..]) by {
        assert mails == [m0] + mails[1..];
      }
      if Hit(query, m0, keys) then
        assert multiset([m0] + rest) == multiset{m0} + multiset(rest);
        [m0] + rest
      else
        rest
  }

  /**
   * The search of `index`: an empty query keeps every mail; otherwise every
   * occurrence of a mail the query hits is kept, and no other mail.
   */
  function Search(query: string, mails: seq<Mail>, keys: seq<string>): (r: seq<Mail>)
    ensures query == "" ==> r == mails
    ensures forall m :: m in r <==> m in mails && (query == "" || Hit(query, m, keys))
    ensures forall m :: multiset(r)[m] == if query == "" || Hit(query, m, keys) then multiset(mails)[m] else 0
  {
    if query == "" then mails else Filter(query, mails, keys)
  }

  lemma {:induction false} FilterSubsequence(query: string, mails: seq<Mail>, keys: seq<string>)
    ensures Subsequence(Filter(query, mails, keys), mails)
    decreases |mails|
  {
    if mails != [] {
      var rest := Filter(query, mails[1..], keys);
      FilterSubsequence(query, mails[1..], keys);
      if !Hit(query, mails[0], keys) {
        SubsequenceDropFront(rest, mails);
      }
    }
  }

  /** Leaving out the first element of the longer sequence keeps a subsequence a subsequence. */
  lemma {:induction false} SubsequenceDropFront<T>(a: seq<T>, b: seq<T>)
    requires b != [] && Subsequence(a, b[1..])
    ensures Subsequence(a, b)
    decreases |b|, 0
  {
    if a != [] && a[0] == b[0] {
      SubsequenceTail(a, b[1..]);
    }
  }

  /** A subsequence without its first element is still a subsequence. */
  lemma {:induction false} SubsequenceTail<T>(a: seq<T>, b: seq<T>)
    requires a != [] && Subsequence(a, b)
    ensures Subsequence(a[1..], b)
    decreases |b|, 1
  {
    if a[0] != b[0] {
      SubsequenceTail(a, b[1..]);
    }
    SubsequenceDropFront(a[1..], b);
  }

  /** Each search result lists a subset of its input in the input's order. */
  lemma SearchSubsequence(query: string, mails: seq<Mail>, keys: seq<string>)
    ensures Subsequence(Search(query, mails, keys), mails)
  {
    if query == "" {
      SubsequenceReflexive(mails);
    } else {
      FilterSubsequence(query, mails, keys);
    }
  }

  // ---------------------------------------------------------------------------
  // Comparing the two

  /** A stored `null` in one of the searched fields. */
  predicate HasNullField(mail: Mail, keys: seq<string>) {
    exists k :: k in keys && k in mail && mail[k] == JNull
  }

  lemma {:induction false} AnyFieldAgrees(query: string, mail: Mail, keys: seq<string>)
    ensures match AnyFieldAsWritten(query, mail, keys)
            case None => HasNullField(mail, keys)
            case Some(b) => b == Hit(query, mail, keys)
    decreases |keys|
  {
    if keys != [] {
      var k0, rest := keys[0], keys[1..];
      AnyFieldAgrees(query, mail, rest);
      assert forall k :: k in keys <==> k == k0 || k in rest;
      assert Hit(query, mail, keys) <==> Contains(Lower(FieldText(mail, k0)), Lower(query)) || Hit(query, mail, rest);
      match Get(mail, k0, JStr(""))
      case JNull =>
        assert k0 in mail && mail[k0] == JNull;
      case JStr(v) =>
        assert LoweredField(mail, k0) == Some(Lower(FieldText(mail, k0)));
    }
  }

  /**
   * The filter as written either raises or gives the same list as the filter
   * that reads `null` as "", and it raises only when some mail holds a `null`
   * in a searched field.
   */
  lemma {:induction false} FilterAgrees(query: string, mails: seq<Mail>, keys: seq<string>)
    ensures FilterAsWritten(query, mails, keys) == None || FilterAsWritten(query, mails, keys) == Some(Filter(query, mails, keys))
    ensures FilterAsWritten(query, mails, keys) == None ==> exists m :: m in mails && HasNullField(m, keys)
    decreases |mails|
  {
    if mails != [] {
      AnyFieldAgrees(query, mails[0], keys);
      FilterAgrees(query, mails[1..], keys);
      assert forall m :: m in mails[1..] ==> m in mails;
    }
  }

  /** Without `null` fields the search as written never raises and agrees with `Search`. */
  lemma SearchAgrees(query: string, mails: seq<Mail>, keys: seq<string>)
    requires forall m :: m in mails ==> !HasNullField(m, keys)
    ensures SearchAsWritten(query, mails, keys) == Some(Search(query, mails, keys))
  {
    FilterAgrees(query, mails, keys);
  }

  /**
   * A send failure is recorded with `"reply": null`; searching the replied mails
   * for a query that is in neither its `to` nor its `subject` then reaches that
   * `null` and raises, where the intended search just leaves the mail out.
   */
  lemma NullReplyBreaksSearch()
    ensures var mail := RepliedMail(Parser.RepliedRecord("a", "b", None, None, "Other"));
            && SearchAsWritten("c", [mail], RepliedKeys) == None
            && Search("c", [mail], RepliedKeys) == []
  {
    var mail := RepliedMail(Parser.RepliedRecord("a", "b", None, None, "Other"));
    assert Lower("c") == "c" && Lower("a") == "a" && Lower("b") == "b" && Lower("") == "";
    ContainsChar("a", 'c');
    ContainsChar("b", 'c');
    ContainsChar("", 'c');
    assert LoweredField(mail, "reply") == None;
    assert AnyFieldAsWritten("c", mail, RepliedKeys[2..]) == None;
    assert forall k :: k in RepliedKeys <==> k == "to" || k == "subject" || k == "reply";
    assert !Hit("c", mail, RepliedKeys);
  }

  /**
   * A message without a `Subject` header is ignored with `"subject": null`;
   * searching the ignored mails for a query that is not in its `from` then
   * reaches that `null` and raises, where the intended search leaves the mail out.
   */
  lemma NullSubjectBreaksSearch()
    ensures var mail := IgnoredMail(Parser.IgnoredRecord(Some("a"), None, None, "Other"));
            && SearchAsWritten("c", [mail], IgnoredKeys) == None
            && Search("c", [mail], IgnoredKeys) == []
  {
    var mail := IgnoredMail(Parser.IgnoredRecord(Some("a"), None, None, "Other"));
    assert Lower("c") == "c" && Lower("a") == "a" && Lower("") == "";
    ContainsChar("a", 'c');
    ContainsChar("", 'c');
    assert LoweredField(mail, "subject") == None;
    assert AnyFieldAsWritten("c", mail, IgnoredKeys[1..]) == None;
    assert forall k :: k in IgnoredKeys <==> k == "from" || k == "subject";
    assert !Hit("c", mail, IgnoredKeys);
  }

  // ---------------------------------------------------------------------------
  // Dates, totals and recent entries

  /** `mail.get("date")`: the stored string, or `None` when absent or `null`. */
  function DateArg(mail: Mail): Option<string> {
    if "date" in mail && mail["date"].JStr? then Some(mail["date"].s) else None
  }

  /**
   * `format_date`: "" for a falsy argument, the parsed and reformatted date when
   * parsing succeeds, and the argument itself when it fails. `parse` stands for
   * dateutil's parser followed by `strftime`; `None` is its `ParserError`.
   */
  function FormatDate(parse: string -> Option<string>, date: Option<string>): string {
    if !Truthy(date) then ""
    else
      match parse(date.value)
      case Some(formatted) => formatted
      case None => date.value
  }

  /** One mail after `mail["date"] = format_date(mail.get("date"))`. */
  function WithDate(parse: string -> Option<string>, mail: Mail): Mail {
    mail["date" := JStr(FormatDate(parse, DateArg(mail)))]
  }

  /** Formatting leaves every field but the date as it was and always stores the date as a string. */
  lemma WithDateFields(parse: string -> Option<string>, mail: Mail)
    ensures "date" in WithDate(parse, mail) && WithDate(parse, mail)["date"].JStr?
    ensures forall k :: k != "date" ==> (k in WithDate(parse, mail) <==> k in mail)
    ensures forall k :: k != "date" && k in mail ==> WithDate(parse, mail)[k] == mail[k]
  {
  }

  /** The `for mail in ...: mail["date"] = ...` loop, rewriting each listed mail in place. */
  method FormatDates(parse: string -> Option<string>, mails: array<Mail>)
    modifies mails
    ensures forall i :: 0 <= i < mails.Length ==> mails[i] == WithDate(parse, old(mails[i]))
  {
    var i := 0;
    while i < mails.Length
      invariant 0 <= i <= mails.Length
      invariant forall j :: 0 <= j < i ==> mails[j] == WithDate(parse, old(mails[j]))
      invariant forall j :: i <= j < mails.Length ==> mails[j] == old(mails[j])
    {
      mails[i] := WithDate(parse, mails[i]);
      i := i + 1;
    }
  }

  /** The mails of a list after the date loop. */
  function Dated(parse: string -> Option<string>, mails: seq<Mail>): (r: seq<Mail>)
    ensures |r| == |mails|
    ensures forall i :: 0 <= i < |mails| ==> r[i] == WithDate(parse, mails[i])
  {
    seq(|mails|, i requires 0 <= i < |mails| => WithDate(parse, mails[i]))
  }

  /** `lst[-1] if lst else None`. */
  function Recent(mails: seq<Mail>): Option<Mail> {
    if mails == [] then None else Some(mails[|mails| - 1])
  }

  /** One list of `index` held as an array and run through the date loop. */
  method DateList(parse: string -> Option<string>, mails: seq<Mail>) returns (dated: seq<Mail>)
    ensures dated == Dated(parse, mails)
  {
    var a := new Mail[|mails|](i requires 0 <= i < |mails| => mails[i]);
    FormatDates(parse, a);
    dated := a[..];
  }

  /** What `index` renders: both lists, their totals and their most recent entries. */
  datatype Overview = Overview(replied: seq<Mail>, ignored: seq<Mail>, totalReplied: nat, totalIgnored: nat,
                               recentReplied: Option<Mail>, recentIgnored: Option<Mail>)

  /**
   * `index` after loading the data: filter both lists, format their dates, then
   * count them and take their last entries.
   */
  method Index(replied: seq<Mail>, ignored: seq<Mail>, searchReplied: string, searchIgnored: string,
               parse: string -> Option<string>)
    returns (v: Overview)
    ensures v.replied == Dated(parse, Search(searchReplied, replied, RepliedKeys))
    ensures v.ignored == Dated(parse, Search(searchIgnored, ignored, IgnoredKeys))
    ensures v.totalReplied == |v.replied| && v.totalIgnored == |v.ignored|
    ensures v.recentReplied == Recent(v.replied) && v.recentIgnored == Recent(v.ignored)
  {
    var rs := DateList(parse, Search(searchReplied, replied, RepliedKeys));
    var gs := DateList(parse, Search(searchIgnored, ignored, IgnoredKeys));
    v := Overview(rs, gs, |rs|, |gs|, Recent(rs), Recent(gs));
  }
}

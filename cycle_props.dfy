/**
 * Properties of the triage cycle of mail_parser.py: which messages are replied
 * to, what every record holds, how many records and marked threads a cycle
 * yields, and the cases where the code's literal behaviour shows through.
 */
module CycleProps {
  import opened Wrappers
  import opened Text
  import opened MailTypes
  import opened Classifier
  import opened Reply
  import opened Parser

  /**
   * What every replied record satisfies: its subject and receiver are truthy, it
   * holds a keyword, its category is the classifier's, and a reply it holds is
   * the template or, with AI on, a non-empty answer the AI gave for some body.
   */
  ghost predicate RepliedOk(r: RepliedRecord, cfg: Config, ai: string -> Option<string>) {
    && r.subject != ""
    && r.receiver != ""
    && KeywordInSubject(cfg.keywords, r.subject)
    && r.category == Categorize(Some(r.subject), cfg.keywords)
    && (r.reply.Some? ==>
          r.reply.value == cfg.template || (cfg.useAi && r.reply.value != "" && exists b :: ai(b) == r.reply))
  }

  /** What every ignored record satisfies: its category is the classifier's. */
  predicate IgnoredOk(r: IgnoredRecord, cfg: Config) {
    r.category == Categorize(r.subject, cfg.keywords)
  }

  ghost predicate OutcomeOk(o: Outcome, cfg: Config, ai: string -> Option<string>) {
    match o
    case Answered(r, _) => RepliedOk(r, cfg, ai)
    case Skipped(r) => IgnoredOk(r, cfg)
  }

  /** A cycle's records all satisfy their invariants, and all but possibly the last replied thread are marked read. */
  ghost predicate CycleOk(c: Cycle, cfg: Config, ai: string -> Option<string>) {
    && (forall j :: 0 <= j < |c.replied| ==> RepliedOk(c.replied[j], cfg, ai))
    && (forall j :: 0 <= j < |c.ignored| ==> IgnoredOk(c.ignored[j], cfg))
    && |c.markedRead| <= |c.replied| <= |c.markedRead| + 1
  }

  /**
   * Every outcome of the decision satisfies its record invariant. A replied
   * message keeps its own thread, and its record holds no reply exactly when the
   * send failed; otherwise it holds the AI's answer for the message's plain-text
   * body when AI is on and that answer is truthy, and the template in every other case.
   */
  lemma TriageOk(e: Entry, cfg: Config, ai: string -> Option<string>)
    ensures OutcomeOk(Triage(e, cfg, ai), cfg, ai)
    ensures var o, body := Triage(e, cfg, ai), PlainBody(e.message.payload);
            o.Answered? ==>
              && o.threadId == e.message.threadId
              && (o.record.reply.None? <==> !e.sendSucceeds)
              && (o.record.reply.Some? ==>
                    o.record.reply.value == if cfg.useAi && Truthy(ai(body)) then ai(body).value else cfg.template)
  {
    var o, body := Triage(e, cfg, ai), PlainBody(e.message.payload);
    if o.Answered? && o.record.reply.Some? && o.record.reply.value != cfg.template {
      assert ai(body) == o.record.reply;
    }
  }

  lemma OutcomesOk(es: seq<Entry>, cfg: Config, ai: string -> Option<string>)
    ensures forall j :: 0 <= j < |es| ==> OutcomeOk(Outcomes(es, cfg, ai)[j], cfg, ai)
  {
    forall j | 0 <= j < |es|
      ensures OutcomeOk(Outcomes(es, cfg, ai)[j], cfg, ai)
    {
      OutcomeAt(es, cfg, ai, j);
      TriageOk(es[j], cfg, ai);
    }
  }

  /**
   * Collecting outcomes: one record per outcome, one marked thread per replied
   * record, and each record keeps the invariant of its outcome.
   */
  lemma {:induction false} CollectOk(os: seq<Outcome>, cfg: Config, ai: string -> Option<string>)
    requires forall j :: 0 <= j < |os| ==> OutcomeOk(os[j], cfg, ai)
    ensures |RepliedPart(os)| + |IgnoredPart(os)| == |os|
    ensures |ThreadsPart(os)| == |RepliedPart(os)|
    ensures CycleOk(Collect(os), cfg, ai)
    decreases |os|
  {
    if os != [] {
      var init := os[..|os| - 1];
      assert forall j :: 0 <= j < |init| ==> init[j] == os[j];
      CollectOk(init, cfg, ai);
    }
  }

  lemma PrefixOk(os: seq<Outcome>, cfg: Config, ai: string -> Option<string>, k: nat)
    requires k <= |os|
    requires forall j :: 0 <= j < |os| ==> OutcomeOk(os[j], cfg, ai)
    ensures forall j :: 0 <= j < k ==> OutcomeOk(os[..k][j], cfg, ai)
  {
    assert forall j :: 0 <= j < k ==> os[..k][j] == os[j];
  }

  /** The positions of the replied outcomes in a run, in order. */
  function AnsweredAt(os: seq<Outcome>): seq<nat>
    decreases |os|
  {
    if os == [] then []
    else AnsweredAt(os[..|os| - 1]) + (if os[|os| - 1].Answered? then [|os| - 1] else [])
  }

  /** The positions of the ignored outcomes in a run, in order. */
  function SkippedAt(os: seq<Outcome>): seq<nat>
    decreases |os|
  {
    if os == [] then []
    else SkippedAt(os[..|os| - 1]) + (if os[|os| - 1].Skipped? then [|os| - 1] else [])
  }

  predicate Increasing(idx: seq<nat>, n: nat) {
    (forall j :: 0 <= j < |idx| ==> idx[j] < n)
    && (forall j, l :: 0 <= j < l < |idx| ==> idx[j] < idx[l])
  }

  /**
   * The replied records are those of the replied outcomes in listing order, and
   * the thread marked read at each position is the one of the record at that position.
   */
  lemma {:induction false} RepliedInOrder(os: seq<Outcome>)
    ensures var idx, c := AnsweredAt(os), Collect(os);
            && |idx| == |c.replied| == |c.markedRead|
            && Increasing(idx, |os|)
            && forall j :: 0 <= j < |idx| ==>
                 os[idx[j]].Answered? && c.replied[j] == os[idx[j]].record && c.markedRead[j] == os[idx[j]].threadId
    decreases |os|
  {
    if os != [] {
      var init := os[..|os| - 1];
      RepliedInOrder(init);
      var idx0 := AnsweredAt(init);
      assert forall j :: 0 <= j < |idx0| ==> os[idx0[j]] == init[idx0[j]];
    }
  }

  /** The ignored records are those of the ignored outcomes in listing order. */
  lemma {:induction false} IgnoredInOrder(os: seq<Outcome>)
    ensures var idx, c := SkippedAt(os), Collect(os);
            && |idx| == |c.ignored|
            && Increasing(idx, |os|)
            && forall j :: 0 <= j < |idx| ==> os[idx[j]].Skipped? && c.ignored[j] == os[idx[j]].skipped
    decreases |os|
  {
    if os != [] {
      var init := os[..|os| - 1];
      IgnoredInOrder(init);
      var idx0 := SkippedAt(init);
      assert forall j :: 0 <= j < |idx0| ==> os[idx0[j]] == init[idx0[j]];
    }
  }

  /** The listed messages; none when the listing failed. */
  function ListedEntries(listing: Listing): seq<Entry> {
    match listing
    case ListingFailed => []
    case Listed(es) => es
  }

  /**
   * The listing positions of the messages behind a cycle's replied records: the
   * replied ones before the first message that raises, and that message itself
   * when it was its `modify` that raised.
   */
  function RepliedPositions(listing: Listing, cfg: Config, ai: string -> Option<string>): seq<nat> {
    var es := ListedEntries(listing);
    if es == [] then []
    else
      var os := Outcomes(es, cfg, ai);
      var k := FirstFailure(es, os, 0);
      if k < |es| && !es[k].fetchFails then AnsweredAt(os[..k]) + [k] else AnsweredAt(os[..k])
  }

  /** Replied positions before `k`: each is a replied message, its record and thread in the collected order. */
  lemma PositionsBefore(es: seq<Entry>, cfg: Config, ai: string -> Option<string>, k: nat)
    requires k <= |es|
    ensures var os := Outcomes(es, cfg, ai);
            var idx, c := AnsweredAt(os[..k]), Collect(os[..k]);
            && |idx| == |c.replied| == |c.markedRead|
            && Increasing(idx, k)
            && forall j :: 0 <= j < |idx| ==>
                 Triage(es[idx[j]], cfg, ai) == Answered(c.replied[j], c.markedRead[j])
                 && c.markedRead[j] == es[idx[j]].message.threadId
  {
    var os := Outcomes(es, cfg, ai);
    RepliedInOrder(os[..k]);
    var idx, c := AnsweredAt(os[..k]), Collect(os[..k]);
    forall j | 0 <= j < |idx|
      ensures Triage(es[idx[j]], cfg, ai) == Answered(c.replied[j], c.markedRead[j])
              && c.markedRead[j] == es[idx[j]].message.threadId
    {
      assert os[..k][idx[j]] == os[idx[j]];
      OutcomeAt(es, cfg, ai, idx[j]);
    }
  }

  /** Every cycle's records satisfy the record invariants, and all but possibly the last replied thread are marked read. */
  lemma CycleRecordsOk(listing: Listing, cfg: Config, ai: string -> Option<string>)
    ensures CycleOk(CycleResult(listing, cfg, ai), cfg, ai)
  {
    if listing.Listed? && listing.entries != [] {
      var es := listing.entries;
      var os := Outcomes(es, cfg, ai);
      OutcomesOk(es, cfg, ai);
      var k := FirstFailure(es, os, 0);
      PrefixOk(os, cfg, ai, k);
      CollectOk(os[..k], cfg, ai);
      if k == |es| {
        assert os[..k] == os;
      } else if !es[k].fetchFails {
        assert OutcomeOk(os[k], cfg, ai);
        var c := Collect(os[..k]);
        var c' := Cycle(c.replied + [os[k].record], c.ignored, c.markedRead);
        assert forall j :: 0 <= j < |c'.replied| ==> c'.replied[j] == if j < |c.replied| then c.replied[j] else os[k].record;
        assert CycleResult(listing, cfg, ai) == c';
      }
    }
  }

  /**
   * A cycle's replied records against the listed messages `es` at the positions
   * `idx`: one position per record, increasing, each a message the decision
   * replies to with that very record; the j-th marked thread is the thread of the
   * message at `idx[j]`; and an unmarked last record is one whose `modify` raised.
   */
  predicate PositionsOk(c: Cycle, es: seq<Entry>, idx: seq<nat>, cfg: Config, ai: string -> Option<string>) {
    && |idx| == |c.replied|
    && |c.markedRead| <= |c.replied|
    && Increasing(idx, |es|)
    && (forall j :: 0 <= j < |idx| ==>
          Triage(es[idx[j]], cfg, ai) == Answered(c.replied[j], es[idx[j]].message.threadId))
    && (forall j :: 0 <= j < |c.markedRead| ==> c.markedRead[j] == es[idx[j]].message.threadId)
    && (|c.markedRead| < |c.replied| ==> es[idx[|idx| - 1]].markReadFails)
  }

  /** The replied records and marked threads of a cycle against the messages behind them. */
  lemma CyclePositions(listing: Listing, cfg: Config, ai: string -> Option<string>)
    ensures PositionsOk(CycleResult(listing, cfg, ai), ListedEntries(listing), RepliedPositions(listing, cfg, ai), cfg, ai)
  {
    if listing.Listed? && listing.entries != [] {
      var es := listing.entries;
      var os := Outcomes(es, cfg, ai);
      var k := FirstFailure(es, os, 0);
      PositionsBefore(es, cfg, ai, k);
      var c := Collect(os[..k]);
      var idx0 := AnsweredAt(os[..k]);
      assert PositionsOk(c, es, idx0, cfg, ai);
      if k == |es| {
        assert os[..k] == os;
      } else if !es[k].fetchFails {
        OutcomeAt(es, cfg, ai, k);
        ModifyFailurePositions(c, es, idx0, cfg, ai, k, os[k].record);
      }
    }
  }

  /** The record of a message whose `modify` raised is appended to the replied ones and its thread is not marked. */
  lemma ModifyFailurePositions(c: Cycle, es: seq<Entry>, idx0: seq<nat>, cfg: Config, ai: string -> Option<string>,
                               k: nat, r: RepliedRecord)
    requires PositionsOk(c, es, idx0, cfg, ai) && |c.markedRead| == |c.replied|
    requires k < |es| && Increasing(idx0, k)
    requires Triage(es[k], cfg, ai) == Answered(r, es[k].message.threadId) && es[k].markReadFails
    ensures PositionsOk(Cycle(c.replied + [r], c.ignored, c.markedRead), es, idx0 + [k], cfg, ai)
  {
    var idx := idx0 + [k];
    var c' := Cycle(c.replied + [r], c.ignored, c.markedRead);
    assert forall j :: 0 <= j < |idx| ==> idx[j] == if j < |idx0| then idx0[j] else k;
    assert forall j :: 0 <= j < |c'.replied| ==> c'.replied[j] == if j < |c.replied| then c.replied[j] else r;
  }

  /**
   * Every cycle satisfies the record invariants, and its replied records come, in
   * listing order, from distinct listed messages that the decision replies to.
   * The j-th thread marked read is the thread of the j-th replied record's
   * message; only the last replied record can be left unmarked, and then its
   * `modify` raised.
   */
  lemma CycleResultOk(listing: Listing, cfg: Config, ai: string -> Option<string>)
    ensures CycleOk(CycleResult(listing, cfg, ai), cfg, ai)
    ensures PositionsOk(CycleResult(listing, cfg, ai), ListedEntries(listing), RepliedPositions(listing, cfg, ai), cfg, ai)
  {
    CycleRecordsOk(listing, cfg, ai);
    CyclePositions(listing, cfg, ai);
  }

  /** When no call raises, every listed message leaves one record and every replied thread is marked read. */
  lemma CleanCycleCounts(es: seq<Entry>, cfg: Config, ai: string -> Option<string>)
    requires forall j :: 0 <= j < |es| ==> !Raises(es[j], Outcomes(es, cfg, ai)[j])
    ensures var c := CycleResult(Listed(es), cfg, ai);
            |c.replied| + |c.ignored| == |es| && |c.markedRead| == |c.replied|
  {
    if es != [] {
      CycleOfClean(es, cfg, ai);
      OutcomesOk(es, cfg, ai);
      CollectOk(Outcomes(es, cfg, ai), cfg, ai);
    }
  }

  /**
   * A message is replied to exactly when its last `Subject` header and its last
   * `To` header are both non-empty and the lowercased subject holds a keyword.
   */
  lemma TriageRouting(e: Entry, cfg: Config, ai: string -> Option<string>)
    ensures var h := e.message.payload.headers;
            Triage(e, cfg, ai).Answered?
            <==> exists i, j :: IsLast(h, "Subject", i) && IsLast(h, "To", j)
                                && h[i].value != "" && h[j].value != ""
                                && KeywordInSubject(cfg.keywords, h[i].value)
  {
    var h := e.message.payload.headers;
    LastValueIsLast(h, "Subject");
    LastValueIsLast(h, "To");
    forall i, j | IsLast(h, "Subject", i) && IsLast(h, "To", j)
      ensures LastValue(h, "Subject") == Some(h[i].value) && LastValue(h, "To") == Some(h[j].value)
    {
      var i' :| IsLast(h, "Subject", i') && h[i'].value == LastValue(h, "Subject").value;
      var j' :| IsLast(h, "To", j') && h[j'].value == LastValue(h, "To").value;
      IsLastUnique(h, "Subject", i, i');
      IsLastUnique(h, "To", j, j');
    }
  }

  /**
   * The eligibility test compares each keyword as configured with the lowercased
   * subject, so a keyword holding an upper-case letter never matches: when
   * every keyword does, no message is replied to and no thread is marked read.
   */
  lemma UppercaseKeywordsNeverReply(listing: Listing, cfg: Config, ai: string -> Option<string>)
    requires forall k :: k in cfg.keywords ==> HasUpper(k)
    ensures CycleResult(listing, cfg, ai).replied == []
    ensures CycleResult(listing, cfg, ai).markedRead == []
  {
    var c := CycleResult(listing, cfg, ai);
    CycleResultOk(listing, cfg, ai);
    if |c.replied| > 0 {
      var r := c.replied[0];
      assert KeywordInSubject(cfg.keywords, r.subject);
      var k :| k in cfg.keywords && Contains(Lower(r.subject), k);
      UpperNotInLower(r.subject, k);
    }
  }

  /**
   * A failed send is still recorded as replied, with no reply text, and its
   * thread is still marked read.
   */
  lemma SendFailureStillMarked(e: Entry, cfg: Config, ai: string -> Option<string>)
    requires var f := HeaderFields(e.message.payload.headers);
             Eligible(cfg.keywords, f.subject) && Truthy(f.receiver)
    requires !e.fetchFails && !e.sendSucceeds && !e.markReadFails
    ensures var f := HeaderFields(e.message.payload.headers);
            CycleResult(Listed([e]), cfg, ai)
            == Cycle([RepliedRecord(f.receiver.value, f.subject.value, None, f.date,
                                    Categorize(f.subject, cfg.keywords))],
                     [], [e.message.threadId])
  {
    var os := Outcomes([e], cfg, ai);
    assert [e][..0] == [];
    assert os == [Triage(e, cfg, ai)];
    CycleOfClean([e], cfg, ai);
    assert os[..0] == [];
    var f := HeaderFields(e.message.payload.headers);
    var rec := RepliedRecord(f.receiver.value, f.subject.value, None, f.date, Categorize(f.subject, cfg.keywords));
    assert Triage(e, cfg, ai) == Answered(rec, e.message.threadId);
    assert RepliedPart(os) == [rec];
    assert IgnoredPart(os) == [];
    assert ThreadsPart(os) == [e.message.threadId];
  }

  /** A failed listing, and an empty one, give no records and mark nothing. */
  lemma NothingListed(cfg: Config, ai: string -> Option<string>)
    ensures CycleResult(ListingFailed, cfg, ai) == Cycle([], [], [])
    ensures CycleResult(Listed([]), cfg, ai) == Cycle([], [], [])
  {
  }

  /** A `get` that raises on the first message ends the cycle before anything is recorded. */
  lemma FirstFetchFails(es: seq<Entry>, cfg: Config, ai: string -> Option<string>)
    requires |es| > 0 && es[0].fetchFails
    ensures CycleResult(Listed(es), cfg, ai) == Cycle([], [], [])
  {
    CycleOfFailsAt(es, cfg, ai, 0);
  }
}

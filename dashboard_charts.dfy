/**
 * app.py, `charts`: the per-day counts behind the daily chart, its sorted
 * labels and aligned data series, and the per-category counts behind the pie
 * charts.
 */
module DashboardCharts {
  import opened Wrappers
  import opened Text
  import opened Counting
  import opened Records

  // ---------------------------------------------------------------------------
  // Daily counts

  /** `mail.get("date", "")` when it is a non-empty string; absent, `null` and "" dates are skipped. */
  function DateText(mail: Mail): Option<string> {
    match Get(mail, "date", JStr(""))
    case JStr(s) => if s == "" then None else Some(s)
    case JNull => None
  }

  /**
   * The day a mail is counted under. `parseDay` stands for dateutil's parser
   * followed by `strftime('%Y-%m-%d')`; `None` is its `ParserError`, and such a
   * mail is skipped.
   */
  function DayOf(parseDay: string -> Option<string>, mail: Mail): Option<string> {
    match DateText(mail)
    case None => None
    case Some(s) => parseDay(s)
  }

  /** The days of the mails that are counted, in list order. */
  function Days(parseDay: string -> Option<string>, mails: seq<Mail>): seq<string>
    decreases |mails|
  {
    if mails == [] then []
    else
      Days(parseDay, mails[..|mails| - 1])
      + match DayOf(parseDay, mails[|mails| - 1]) case None => [] case Some(d) => [d]
  }

  lemma DaysStep(parseDay: string -> Option<string>, mails: seq<Mail>, i: nat)
    requires i < |mails|
    ensures Days(parseDay, mails[..i + 1])
            == Days(parseDay, mails[..i]) + match DayOf(parseDay, mails[i]) case None => [] case Some(d) => [d]
  {
    assert mails[..i + 1][..i] == mails[..i];
  }

  lemma DistinctStep<T>(s: seq<T>, x: T)
    ensures Distinct(s + [x]) == if x in Distinct(s) then Distinct(s) else Distinct(s) + [x]
  {
    assert (s + [x])[..|s|] == s;
  }

  lemma OccurrencesStep<T>(s: seq<T>, x: T, y: T)
    ensures Occurrences(s + [x], y) == Occurrences(s, y) + if x == y then 1 else 0
  {
    assert (s + [x])[..|s|] == s;
  }

  /** A `daily_counts` entry: how many replied and how many ignored mails fall on that day. */
  datatype DayCount = DayCount(replied: nat, ignored: nat)

  /** `days` and `counts` are `daily_counts` after counting the replied days `r` and then the ignored days `g`. */
  ghost predicate Tallied(days: seq<string>, counts: map<string, DayCount>, r: seq<string>, g: seq<string>) {
    && days == Distinct(r + g)
    && (forall d :: d in counts <==> d in days)
    && (forall d :: d in counts ==> counts[d] == DayCount(Occurrences(r, d), Occurrences(g, d)))
  }

  /** Counting one more replied day, before any ignored one. */
  lemma TallyReplied(days: seq<string>, counts: map<string, DayCount>, r: seq<string>, d: string,
                     days': seq<string>, counts': map<string, DayCount>)
    requires Tallied(days, counts, r, [])
    requires days' == if d in counts then days else days + [d]
    requires counts' == counts[d := if d in counts then DayCount(counts[d].replied + 1, counts[d].ignored)
                                    else DayCount(1, 0)]
    ensures Tallied(days', counts', r + [d], [])
  {
    assert r + [] == r && (r + [d]) + [] == r + [d];
    DistinctStep(r, d);
    DistinctMembers(r);
    if d !in counts {
      OccurrencesAbsent(r, d);
    }
    forall y | y in counts' ensures counts'[y] == DayCount(Occurrences(r + [d], y), Occurrences([], y)) {
      OccurrencesStep(r, d, y);
    }
  }

  /** Counting one more ignored day. */
  lemma TallyIgnored(days: seq<string>, counts: map<string, DayCount>, r: seq<string>, g: seq<string>, d: string,
                     days': seq<string>, counts': map<string, DayCount>)
    requires Tallied(days, counts, r, g)
    requires days' == if d in counts then days else days + [d]
    requires counts' == counts[d := if d in counts then DayCount(counts[d].replied, counts[d].ignored + 1)
                                    else DayCount(0, 1)]
    ensures Tallied(days', counts', r, g + [d])
  {
    assert (r + g) + [d] == r + (g + [d]);
    DistinctStep(r + g, d);
    DistinctMembers(r + g);
    if d !in counts {
      InConcat(r, g, d);
      OccurrencesAbsent(r, d);
      OccurrencesAbsent(g, d);
    }
    forall y | y in counts' ensures counts'[y] == DayCount(Occurrences(r, y), Occurrences(g + [d], y)) {
      OccurrencesStep(g, d, y);
    }
  }

  /** The loop over the replied mails, starting from an empty `daily_counts`. */
  method TallyRepliedDays(parseDay: string -> Option<string>, replied: seq<Mail>)
    returns (days: seq<string>, counts: map<string, DayCount>)
    ensures Tallied(days, counts, Days(parseDay, replied), [])
  {
    days, counts := [], map[];
    ghost var rs: seq<string> := [];
    var i := 0;
    while i < |replied|
      invariant 0 <= i <= |replied|
      invariant rs == Days(parseDay, replied[..i])
      invariant Tallied(days, counts, rs, [])
    {
      DaysStep(parseDay, replied, i);
      var day := DayOf(parseDay, replied[i]);
      if day.Some? {
        var d := day.value;
        ghost var days0, counts0 := days, counts;
        if d in counts {
          counts := counts[d := DayCount(counts[d].replied + 1, counts[d].ignored)];
        } else {
          days := days + [d];
          counts := counts[d := DayCount(1, 0)];
        }
        TallyReplied(days0, counts0, rs, d, days, counts);
        rs := rs + [d];
      }
      i := i + 1;
    }
    assert replied[..|replied|] == replied;
  }

  /** The loop over the ignored mails, continuing the `daily_counts` of the replied days `rs`. */
  method TallyIgnoredDays(parseDay: string -> Option<string>, ignored: seq<Mail>, rs: seq<string>,
                          days0: seq<string>, counts0: map<string, DayCount>)
    returns (days: seq<string>, counts: map<string, DayCount>)
    requires Tallied(days0, counts0, rs, [])
    ensures Tallied(days, counts, rs, Days(parseDay, ignored))
  {
    days, counts := days0, counts0;
    ghost var gs: seq<string> := [];
    var i := 0;
    while i < |ignored|
      invariant 0 <= i <= |ignored|
      invariant gs == Days(parseDay, ignored[..i])
      invariant Tallied(days, counts, rs, gs)
    {
      DaysStep(parseDay, ignored, i);
      var day := DayOf(parseDay, ignored[i]);
      if day.Some? {
        var d := day.value;
        ghost var days1, counts1 := days, counts;
        if d in counts {
          counts := counts[d := DayCount(counts[d].replied, counts[d].ignored + 1)];
        } else {
          days := days + [d];
          counts := counts[d := DayCount(0, 1)];
        }
        TallyIgnored(days1, counts1, rs, gs, d, days, counts);
        gs := gs + [d];
      }
      i := i + 1;
    }
    assert ignored[..|ignored|] == ignored;
  }

  /**
   * The two loops filling `daily_counts`, a defaultdict: `days` holds its keys in
   * insertion order and `counts` its entries.
   */
  method DailyCounts(parseDay: string -> Option<string>, replied: seq<Mail>, ignored: seq<Mail>)
    returns (days: seq<string>, counts: map<string, DayCount>)
    ensures days == Distinct(Days(parseDay, replied) + Days(parseDay, ignored))
    ensures forall d :: d in counts <==> d in days
    ensures forall d :: d in counts ==>
              counts[d] == DayCount(Occurrences(Days(parseDay, replied), d), Occurrences(Days(parseDay, ignored), d))
  {
    var days0, counts0 := TallyRepliedDays(parseDay, replied);
    days, counts := TallyIgnoredDays(parseDay, ignored, Days(parseDay, replied), days0, counts0);
  }

  // ---------------------------------------------------------------------------
  // Sorting the labels

  /** Strictly ascending in Python's string order. */
  predicate StrictlySorted(s: seq<string>) {
    forall i, j :: 0 <= i < j < |s| ==> Less(s[i], s[j])
  }

  /** Every element of `t` is above `y`. */
  ghost predicate Above(y: string, t: seq<string>) {
    forall z :: z in t ==> Less(y, z)
  }

  lemma SortedCons(y: string, t: seq<string>)
    requires StrictlySorted(t) && Above(y, t)
    ensures StrictlySorted([y] + t)
  {
    forall i, j | 0 <= i < j < |[y] + t| ensures Less(([y] + t)[i], ([y] + t)[j]) {
      if i == 0 {
        assert ([y] + t)[j] == t[j - 1];
      } else {
        assert ([y] + t)[i] == t[i - 1] && ([y] + t)[j] == t[j - 1];
      }
    }
  }

  lemma SortedTail(s: seq<string>)
    requires s != [] && StrictlySorted(s)
    ensures StrictlySorted(s[1..]) && Above(s[0], s[1..])
  {
    forall z | z in s[1..] ensures Less(s[0], z) {
      var k :| 0 <= k < |s[1..]| && s[1..][k] == z;
      assert s[k + 1] == z;
    }
  }

  lemma AboveSameElements(y: string, a: seq<string>, b: seq<string>)
    requires multiset(a) == multiset(b) && Above(y, b)
    ensures Above(y, a)
  {
    forall z | z in a ensures Less(y, z) {
      assert z in multiset(a);
    }
  }

  /** Inserting a new label into a sorted list keeps it sorted. */
  function Insert(x: string, s: seq<string>): (r: seq<string>)
    requires StrictlySorted(s) && x !in s
    ensures StrictlySorted(r)
    ensures multiset(r) == multiset(s) + multiset{x}
    decreases |s|
  {
    if s == [] then [x]
    else if Less(x, s[0]) then
      SortedTail(s);
      assert Above(x, s) by {
        forall z | z in s ensures Less(x, z) {
          if z != s[0] {
            assert z in s[1..];
            LessTransitive(x, s[0], z);
          }
        }
      }
      SortedCons(x, s);
      [x] + s
    else
      LessTotal(x, s[0]);
      SortedTail(s);
      var rest := Insert(x, s[1..]);
      assert Above(s[0], s[1..] + [x]);
      AboveSameElements(s[0], rest, s[1..] + [x]);
      SortedCons(s[0], rest);
      assert s == [s[0]] + s[1..];
      [s[0]] + rest
  }

  /** `sorted(daily_counts.keys())`, for keys without repetitions. */
  function SortLabels(s: seq<string>): (r: seq<string>)
    requires NoDuplicates(s)
    ensures StrictlySorted(r)
    ensures multiset(r) == multiset(s)
    decreases |s|
  {
    if s == [] then []
    else
      var init, x := s[..|s| - 1], s[|s| - 1];
      assert s == init + [x];
      var sortedInit := SortLabels(init);
      assert x !in sortedInit by {
        assert x !in init;
        assert x !in multiset(sortedInit);
      }
      Insert(x, sortedInit)
  }

  /** The first label of a sorted list is below every other one. */
  lemma SortedFirstBelow(s: seq<string>, z: string)
    requires StrictlySorted(s) && z in s && z != s[0]
    ensures Less(s[0], z)
  {
    SortedTail(s);
    assert z in s[1..] by {
      var k :| 0 <= k < |s| && s[k] == z;
      assert k > 0 && s[1..][k - 1] == z;
    }
  }

  lemma InConcat<T>(a: seq<T>, b: seq<T>, x: T)
    ensures x in a + b <==> x in a || x in b
  {
    if x in a + b {
      var k :| 0 <= k < |a + b| && (a + b)[k] == x;
      if k >= |a| {
        assert b[k - |a|] == x;
      }
    }
  }

  lemma SameElements<T>(a: seq<T>, b: seq<T>)
    requires multiset(a) == multiset(b)
    ensures forall x :: x in a <==> x in b
  {
    forall x ensures x in a <==> x in b {
      assert x in a <==> x in multiset(a);
      assert x in b <==> x in multiset(b);
    }
  }

  /** A strictly sorted list is determined by its elements: the labels are the only sorted order of the days. */
  lemma {:induction false} SortedUnique(a: seq<string>, b: seq<string>)
    requires StrictlySorted(a) && StrictlySorted(b)
    requires multiset(a) == multiset(b)
    ensures a == b
    decreases |a|
  {
    SameElements(a, b);
    if a != [] {
      assert a[0] in a;
      if a[0] != b[0] {
        SortedFirstBelow(b, a[0]);
        SortedFirstBelow(a, b[0]);
        LessTransitive(a[0], b[0], a[0]);
        LessIrreflexive(a[0]);
        assert false;
      }
      assert a == [a[0]] + a[1..] && b == [b[0]] + b[1..];
      assert multiset(a) == multiset{a[0]} + multiset(a[1..]);
      assert multiset(b) == multiset{b[0]} + multiset(b[1..]);
      assert multiset(a[1..]) == multiset(a) - multiset{a[0]};
      assert multiset(b[1..]) == multiset(b) - multiset{b[0]};
      SortedTail(a);
      SortedTail(b);
      SortedUnique(a[1..], b[1..]);
    }
  }

  /** The sorted labels are exactly the counted days, and each of them has an entry. */
  lemma LabelsCounted(days: seq<string>, counts: map<string, DayCount>, labels: seq<string>,
                      rd: seq<string>, gd: seq<string>)
    requires days == Distinct(rd + gd)
    requires forall d :: d in counts <==> d in days
    requires multiset(labels) == multiset(days)
    ensures forall d :: d in labels <==> d in rd || d in gd
    ensures forall i :: 0 <= i < |labels| ==> labels[i] in counts
  {
    SameElements(labels, days);
    DistinctMembers(rd + gd);
    forall d ensures d in labels <==> d in rd || d in gd {
      InConcat(rd, gd, d);
    }
  }

  /** What `charts` renders for the daily chart: the labels and the two aligned series. */
  datatype DailyChart = DailyChart(labels: seq<string>, repliedData: seq<nat>, ignoredData: seq<nat>)

  /** The chart for the given labels: each series reads its kind's count of every label. */
  function Chart(labels: seq<string>, counts: map<string, DayCount>): (c: DailyChart)
    requires forall i :: 0 <= i < |labels| ==> labels[i] in counts
    ensures c.labels == labels
    ensures |c.repliedData| == |labels| && |c.ignoredData| == |labels|
    ensures forall i :: 0 <= i < |labels| ==>
              c.repliedData[i] == counts[labels[i]].replied && c.ignoredData[i] == counts[labels[i]].ignored
  {
    DailyChart(labels, seq(|labels|, i requires 0 <= i < |labels| => counts[labels[i]].replied),
               seq(|labels|, i requires 0 <= i < |labels| => counts[labels[i]].ignored))
  }

  /**
   * The daily chart: its labels are every counted day once, in ascending order, and
   * position `i` of each series holds that kind's count for `labels[i]`.
   */
  method Daily(parseDay: string -> Option<string>, replied: seq<Mail>, ignored: seq<Mail>) returns (c: DailyChart)
    ensures StrictlySorted(c.labels)
    ensures forall d :: d in c.labels <==> d in Days(parseDay, replied) || d in Days(parseDay, ignored)
    ensures |c.repliedData| == |c.labels| && |c.ignoredData| == |c.labels|
    ensures forall i :: 0 <= i < |c.labels| ==>
              c.repliedData[i] == Occurrences(Days(parseDay, replied), c.labels[i])
              && c.ignoredData[i] == Occurrences(Days(parseDay, ignored), c.labels[i])
  {
    var days, counts := DailyCounts(parseDay, replied, ignored);
    DistinctNoDuplicates(Days(parseDay, replied) + Days(parseDay, ignored));
    var labels := SortLabels(days);
    LabelsCounted(days, counts, labels, Days(parseDay, replied), Days(parseDay, ignored));
    c := Chart(labels, counts);
  }

  // ---------------------------------------------------------------------------
  // Category counts

  /** `mail.get("category", "Other")`: a missing category counts as "Other"; a `null` one is its own key. */
  function CategoryOf(mail: Mail): Json {
    Get(mail, "category", JStr("Other"))
  }

  function Categories(mails: seq<Mail>): (cats: seq<Json>)
    ensures |cats| == |mails|
    ensures forall i :: 0 <= i < |mails| ==> cats[i] == CategoryOf(mails[i])
  {
    seq(|mails|, i requires 0 <= i < |mails| => CategoryOf(mails[i]))
  }

  /** `keys` and `counts` are a category defaultdict after counting the categories `s`. */
  ghost predicate Counted(keys: seq<Json>, counts: map<Json, nat>, s: seq<Json>) {
    && keys == Distinct(s)
    && (forall k :: k in counts <==> k in keys)
    && (forall k :: k in counts ==> counts[k] == Occurrences(s, k))
  }

  /** `counts[c] += 1` on the defaultdict: a new key is appended to the keys with count 1. */
  lemma CountStep(keys: seq<Json>, counts: map<Json, nat>, s: seq<Json>, c: Json)
    requires Counted(keys, counts, s)
    ensures Counted(if c in counts then keys else keys + [c],
                    counts[c := if c in counts then counts[c] + 1 else 1], s + [c])
  {
    DistinctStep(s, c);
    DistinctMembers(s);
    forall k ensures Occurrences(s + [c], k) == Occurrences(s, k) + if c == k then 1 else 0 {
      OccurrencesStep(s, c, k);
    }
    if c !in counts {
      OccurrencesAbsent(s, c);
    }
  }

  /**
   * The loop filling a `*_category_counts` defaultdict, then `keys()` and
   * `values()`: each category once in first-seen order, with how many mails have
   * it; the counts add up to the number of mails.
   */
  method CategoryCounts(mails: seq<Mail>) returns (labels: seq<Json>, data: seq<nat>)
    ensures labels == Distinct(Categories(mails))
    ensures data == CountsOf(labels, Categories(mails))
    ensures Sum(data) == |mails|
  {
    ghost var cats := Categories(mails);
    var keys: seq<Json> := [];
    var counts: map<Json, nat> := map[];
    var i := 0;
    while i < |mails|
      invariant 0 <= i <= |mails|
      invariant Counted(keys, counts, cats[..i])
    {
      var c := CategoryOf(mails[i]);
      assert cats[..i + 1] == cats[..i] + [c];
      CountStep(keys, counts, cats[..i], c);
      if c !in counts {
        keys := keys + [c];
        counts := counts[c := 1];
      } else {
        counts := counts[c := counts[c] + 1];
      }
      i := i + 1;
    }
    assert cats[..|mails|] == cats;
    labels := keys;
    data := seq(|keys|, j requires 0 <= j < |keys| => counts[keys[j]]);
    SumCountsDistinct(cats);
  }
}

/** helpers.py: the subject classifier `categorize_email`. */
module Classifier {
  import opened Wrappers
  import opened Text

  /** The label returned when no keyword matches or the subject is falsy. */
  const Other: string := "Other"

  /** The classifier's match test: the lowercased keyword occurs in the lowercased subject. */
  predicate Matches(keyword: string, subject: string) {
    Contains(Lower(subject), Lower(keyword))
  }

  /** Keyword `i` is the first one in the list that matches `subject`. */
  ghost predicate IsFirstMatch(keywords: seq<string>, subject: string, i: int) {
    0 <= i < |keywords| && Matches(keywords[i], subject)
    && forall j :: 0 <= j < i ==> !Matches(keywords[j], subject)
  }

  ghost predicate NoMatch(keywords: seq<string>, subject: string) {
    forall j :: 0 <= j < |keywords| ==> !Matches(keywords[j], subject)
  }

  /** The scan of `for keyword in KEYWORDS` from position `i` on: the first matching index, if any. */
  function FirstMatchFrom(keywords: seq<string>, subject: string, i: nat): (r: Option<nat>)
    requires i <= |keywords|
    ensures r.Some? ==> i <= r.value < |keywords| && Matches(keywords[r.value], subject)
                        && forall j :: i <= j < r.value ==> !Matches(keywords[j], subject)
    ensures r.None? ==> forall j :: i <= j < |keywords| ==> !Matches(keywords[j], subject)
    decreases |keywords| - i
  {
    if i == |keywords| then None
    else if Matches(keywords[i], subject) then Some(i)
    else FirstMatchFrom(keywords, subject, i + 1)
  }

  /**
   * `categorize_email(subject)`: a falsy subject is "Other"; otherwise the
   * capitalised first matching keyword, or "Other" when none matches.
   */
  function Categorize(subject: Option<string>, keywords: seq<string>): string {
    if Truthy(subject) then
      match FirstMatchFrom(keywords, subject.value, 0)
      case Some(i) => Capitalize(keywords[i])
      case None => Other
    else
      Other
  }

  /**
   * The category is "Other" for a falsy subject; otherwise it is the capitalised
   * first keyword that matches, or "Other" exactly when no keyword matches.
   */
  lemma CategorizeFirstMatch(subject: Option<string>, keywords: seq<string>)
    ensures !Truthy(subject) ==> Categorize(subject, keywords) == Other
    ensures Truthy(subject) ==>
      (exists i :: IsFirstMatch(keywords, subject.value, i) && Categorize(subject, keywords) == Capitalize(keywords[i]))
      || (NoMatch(keywords, subject.value) && Categorize(subject, keywords) == Other)
    ensures Categorize(subject, keywords) == Other || exists k :: k in keywords && Categorize(subject, keywords) == Capitalize(k)
  {
    if Truthy(subject) {
      var m := FirstMatchFrom(keywords, subject.value, 0);
      if m.Some? {
        assert IsFirstMatch(keywords, subject.value, m.value);
        assert keywords[m.value] in keywords;
      }
    }
  }

  /** The scan depends on the subject only through its lowercase form. */
  lemma {:induction false} FirstMatchFromLower(keywords: seq<string>, a: string, b: string, i: nat)
    requires i <= |keywords|
    requires Lower(a) == Lower(b)
    ensures FirstMatchFrom(keywords, a, i) == FirstMatchFrom(keywords, b, i)
    decreases |keywords| - i
  {
    if i < |keywords| {
      FirstMatchFromLower(keywords, a, b, i + 1);
    }
  }

  /** Subjects that are equal after lowercasing get the same category. */
  lemma CategorizeCaseInsensitive(a: string, b: string, keywords: seq<string>)
    requires Lower(a) == Lower(b)
    ensures Categorize(Some(a), keywords) == Categorize(Some(b), keywords)
  {
    FirstMatchFromLower(keywords, a, b, 0);
  }

  /** An empty keyword matches every non-empty subject, so the scan never gets past it. */
  lemma CategorizeEmptyKeyword(subject: string, keywords: seq<string>, i: nat)
    requires subject != ""
    requires i < |keywords| && keywords[i] == ""
    ensures exists j :: 0 <= j <= i && IsFirstMatch(keywords, subject, j)
                        && Categorize(Some(subject), keywords) == Capitalize(keywords[j])
  {
    ContainsEmpty(Lower(subject));
    assert Lower(keywords[i]) == "";
    assert Matches(keywords[i], subject);
    var m := FirstMatchFrom(keywords, subject, 0);
    assert m.Some? && m.value <= i;
    assert IsFirstMatch(keywords, subject, m.value);
  }

  /** The classifier's examples: "Invoice Due" is "Invoice" and "Hello" is "Other" for the keyword "invoice". */
  lemma CategorizeExamples()
    ensures Categorize(Some("Invoice Due"), ["invoice"]) == "Invoice"
    ensures Categorize(Some("Hello"), ["invoice"]) == Other
  {
    var kw := "invoice";
    assert Lower(kw) == kw by {
      forall i | 0 <= i < |kw| ensures Lower(kw)[i] == kw[i] {}
    }
    var hay := Lower("Invoice Due");
    assert hay[..7] == kw by {
      forall i | 0 <= i < 7 ensures hay[i] == kw[i] {}
    }
    assert OccursAt(hay, Lower(kw), 0);
    assert FirstMatchFrom([kw], "Invoice Due", 0) == Some(0);
    assert Capitalize(kw) == "Invoice" by {
      assert Lower(kw[1..]) == kw[1..] by {
        forall i | 0 <= i < 6 ensures Lower(kw[1..])[i] == kw[1..][i] {}
      }
    }
    assert !Matches(kw, "Hello");
    assert FirstMatchFrom([kw], "Hello", 0) == None;
  }
}

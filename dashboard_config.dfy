/**
 * app.py, `edit_config`: the settings form. The page shows the keywords joined
 * with ", "; saving splits the submitted field at every comma, strips each piece
 * and writes the settings back to config.py.
 */
module DashboardConfig {
  import opened Wrappers
  import opened Text
  import opened MailTypes
  import opened Classifier
  import opened Parser

  /** `s.strip()` for every piece, in order. */
  function StripAll(parts: seq<string>): seq<string>
    decreases |parts|
  {
    if parts == [] then [] else [Strip(parts[0])] + StripAll(parts[1..])
  }

  lemma {:induction false} StripAllAt(parts: seq<string>, i: nat)
    requires i < |parts|
    ensures |StripAll(parts)| == |parts| && StripAll(parts)[i] == Strip(parts[i])
    decreases |parts|
  {
    StripAllLength(parts);
    assert StripAll(parts) == [Strip(parts[0])] + StripAll(parts[1..]);
    if i > 0 {
      StripAllAt(parts[1..], i - 1);
      assert parts[1..][i - 1] == parts[i];
    }
  }

  lemma {:induction false} StripAllLength(parts: seq<string>)
    ensures |StripAll(parts)| == |parts|
    decreases |parts|
  {
    if parts != [] {
      StripAllLength(parts[1..]);
    }
  }

  /** A string with no whitespace at either end. */
  predicate Stripped(s: string) {
    s == [] || (!IsSpace(s[0]) && !IsSpace(s[|s| - 1]))
  }

  /** Stripping removes characters only, so a character absent from `s` is absent from its strip. */
  lemma StripKeepsAbsent(s: string, c: char)
    requires c !in s
    ensures c !in Strip(s)
  {
    var r := Strip(s);
    var i :| StrippedAt(s, r, i);
    forall j | 0 <= j < |r| ensures r[j] != c {
      assert r[j] == s[i..i + |r|][j] == s[i + j];
    }
  }

  /**
   * The keyword list saved from the form's `keywords` field. A missing field is
   * `None`: calling `split` on it raises, and the handler catches that.
   */
  function ParseKeywords(field: Option<string>): Option<seq<string>> {
    match field
    case None => None
    case Some(s) => Some(StripAll(Split(s, ',')))
  }

  /**
   * A present field gives one keyword more than it holds commas, and every keyword
   * is the strip of the text between two commas: free of commas and of surrounding blanks.
   */
  lemma ParseKeywordsPieces(field: Option<string>)
    ensures field.None? <==> ParseKeywords(field).None?
    ensures field.Some? ==> |ParseKeywords(field).value| == CountChar(field.value, ',') + 1
    ensures field.Some? ==>
              var ks, parts := ParseKeywords(field).value, Split(field.value, ',');
              forall i :: 0 <= i < |ks| ==> ks[i] == Strip(parts[i]) && ',' !in ks[i] && Stripped(ks[i])
  {
    if field.Some? {
      var parts := Split(field.value, ',');
      assert forall i :: 0 <= i < |parts| ==> ',' !in parts[i] by {
        forall i | 0 <= i < |parts| ensures ',' !in parts[i] {
          assert parts[i] in parts;
        }
      }
      PiecesOk(parts);
    }
  }

  /** Stripping pieces that hold no comma gives stripped keywords that hold no comma. */
  lemma PiecesOk(parts: seq<string>)
    requires forall i :: 0 <= i < |parts| ==> ',' !in parts[i]
    ensures |StripAll(parts)| == |parts|
    ensures forall i :: 0 <= i < |parts| ==>
              StripAll(parts)[i] == Strip(parts[i]) && ',' !in StripAll(parts)[i] && Stripped(StripAll(parts)[i])
  {
    StripAllLength(parts);
    forall i | 0 <= i < |parts|
      ensures StripAll(parts)[i] == Strip(parts[i]) && ',' !in StripAll(parts)[i] && Stripped(StripAll(parts)[i])
    {
      StripAllAt(parts, i);
      StripKeepsAbsent(parts[i], ',');
    }
  }

  /** What saving the form leaves in config.py. */
  datatype Saved =
    | Saved(config: Config)
      // The file was opened for writing and its first line written before the
      // keywords field raised: config.py then holds only the SCOPES line.
    | Truncated

  /** An f-string renders a missing form field as "None". */
  function FieldText(field: Option<string>): string {
    match field
    case None => "None"
    case Some(t) => t
  }

  /**
   * Saving the form: the keywords are the parsed field, the template is the
   * submitted text, and the AI switch is on exactly when the checkbox sent "on".
   */
  function EditConfig(keywords: Option<string>, template: Option<string>, useAi: Option<string>): (s: Saved)
    ensures keywords.None? <==> s.Truncated?
    ensures s.Saved? ==> Some(s.config.keywords) == ParseKeywords(keywords)
    ensures s.Saved? ==> s.config.template == FieldText(template)
    ensures s.Saved? ==> (s.config.useAi <==> useAi == Some("on"))
  {
    match ParseKeywords(keywords)
    case None => Truncated
    case Some(ks) => Saved(Config(ks, FieldText(template), useAi == Some("on")))
  }

  /** A leading blank in the field only reaches the first piece, and strip removes it. */
  lemma ParseAfterSpace(x: string)
    ensures ParseKeywords(Some([' '] + x)) == ParseKeywords(Some(x))
  {
    var s := [' '] + x;
    assert s[1..] == x;
    var rest := Split(x, ',');
    var parts := [[' '] + rest[0]] + rest[1..];
    assert Split(s, ',') == parts;
    StripAfterSpace(' ', rest[0]);
    assert parts[1..] == rest[1..];
    assert rest == [rest[0]] + rest[1..];
  }

  /** The field's first piece, up to the first comma, becomes the first keyword. */
  lemma ParseAfterPiece(k: string, x: string)
    requires ',' !in k
    ensures ParseKeywords(Some(k + [','] + x)) == Some([Strip(k)] + ParseKeywords(Some(x)).value)
  {
    SplitAfterPiece(k, ',', x);
    assert ([k] + Split(x, ','))[1..] == Split(x, ',');
  }

  /**
   * Showing the settings page and saving it unchanged keeps the keywords, as
   * long as there is at least one and each is stripped and free of commas.
   */
  lemma {:induction false} KeywordsRoundTrip(ks: seq<string>)
    requires |ks| >= 1
    requires forall i :: 0 <= i < |ks| ==> ',' !in ks[i] && Stripped(ks[i])
    ensures ParseKeywords(Some(Join(ks, ", "))) == Some(ks)
    decreases |ks|
  {
    if |ks| == 1 {
      SplitSingle(ks[0], ',');
      StripStripped(ks[0]);
      assert StripAll([ks[0]]) == [ks[0]] by {
        assert [ks[0]][1..] == [];
        assert StripAll([ks[0]][1..]) == [];
      }
      assert [ks[0]] == ks;
    } else {
      var head, rest := ks[0], ks[1..];
      assert forall i :: 0 <= i < |rest| ==> ',' !in rest[i] && Stripped(rest[i]) by {
        forall i | 0 <= i < |rest| ensures ',' !in rest[i] && Stripped(rest[i]) {
          assert rest[i] == ks[i + 1];
        }
      }
      assert ks == [head] + rest;
      var tail := Join(rest, ", ");
      assert Join(ks, ", ") == head + [','] + ([' '] + tail);
      ParseAfterPiece(head, [' '] + tail);
      ParseAfterSpace(tail);
      KeywordsRoundTrip(rest);
      StripStripped(head);
    }
  }

  /** An empty keyword list is shown as an empty field, which saves back as the single keyword "". */
  lemma EmptyKeywordsDoNotRoundTrip()
    ensures Join([], ", ") == ""
    ensures ParseKeywords(Some("")) == Some([""])
  {
    assert Split("", ',') == [""];
    StripStripped("");
    assert StripAll([""]) == [""] by {
      assert [""][1..] == [];
      assert StripAll([""][1..]) == [];
    }
  }

  /**
   * Saving an empty keywords field makes every message with a truthy subject
   * eligible for a reply, because "" occurs in every string; its category is "".
   */
  lemma EmptyFieldMatchesEverything(template: Option<string>, useAi: Option<string>, subject: string)
    requires subject != ""
    ensures var s := EditConfig(Some(""), template, useAi);
            s.Saved? && Eligible(s.config.keywords, Some(subject))
            && Categorize(Some(subject), s.config.keywords) == ""
  {
    EmptyKeywordsDoNotRoundTrip();
    var ks := EditConfig(Some(""), template, useAi).config.keywords;
    assert ks == [""];
    ContainsEmpty(Lower(subject));
    assert "" in ks;
    CategorizeEmptyKeyword(subject, ks, 0);
  }
}

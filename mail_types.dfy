/** Values shared by the triage cycle and the reply composer. */
module MailTypes {
  import opened Wrappers

  /** One `{"name": ..., "value": ...}` entry of a message's header list, or one header of a MIME message. */
  datatype Header = Header(name: string, value: string)

  /** The settings read from config.py: KEYWORDS, MAILTEMPLATE and USE_AI. */
  datatype Config = Config(keywords: seq<string>, template: string, useAi: bool)

  /** Position `i` holds the last header called `name`. */
  ghost predicate IsLast(headers: seq<Header>, name: string, i: int) {
    0 <= i < |headers| && headers[i].name == name
    && forall j :: i < j < |headers| ==> headers[j].name != name
  }

  /** The value of the last header called `name`; `None` when there is none. */
  function LastValue(headers: seq<Header>, name: string): Option<string>
    decreases |headers|
  {
    if headers == [] then None
    else if headers[|headers| - 1].name == name then Some(headers[|headers| - 1].value)
    else LastValue(headers[..|headers| - 1], name)
  }

  /** `LastValue` is absent exactly when no header has the name, and otherwise is the last such header's value. */
  lemma {:induction false} LastValueIsLast(headers: seq<Header>, name: string)
    ensures LastValue(headers, name).None? <==> forall i :: 0 <= i < |headers| ==> headers[i].name != name
    ensures LastValue(headers, name).Some? ==>
              exists i :: IsLast(headers, name, i) && headers[i].value == LastValue(headers, name).value
    decreases |headers|
  {
    if headers == [] {
    } else if headers[|headers| - 1].name == name {
      assert IsLast(headers, name, |headers| - 1);
    } else {
      var init := headers[..|headers| - 1];
      LastValueIsLast(init, name);
      assert forall i :: 0 <= i < |init| ==> init[i] == headers[i];
      assert forall i :: IsLast(init, name, i) ==> IsLast(headers, name, i);
    }
  }

  /** At most one position holds the last header with a given name. */
  lemma IsLastUnique(headers: seq<Header>, name: string, i: int, j: int)
    requires IsLast(headers, name, i) && IsLast(headers, name, j)
    ensures i == j
  {
  }

  /**
   * The value of the first header called `name`; `None` when there is none. This
   * is email.message's `msg[name]`, except that names are compared exactly here,
   * while `msg[name]` ignores their letter case.
   */
  function FirstValue(headers: seq<Header>, name: string): (r: Option<string>)
    ensures r.None? <==> forall i :: 0 <= i < |headers| ==> headers[i].name != name
    ensures r.Some? ==> exists i :: 0 <= i < |headers| && headers[i] == Header(name, r.value)
                                    && forall j :: 0 <= j < i ==> headers[j].name != name
    decreases |headers|
  {
    if headers == [] then None
    else if headers[0].name == name then Some(headers[0].value)
    else
      var r := FirstValue(headers[1..], name);
      assert forall i :: 0 <= i < |headers| - 1 ==> headers[1..][i] == headers[i + 1];
      assert r.Some? ==> exists i :: 0 <= i < |headers| && headers[i] == Header(name, r.value)
                                     && forall j :: 0 <= j < i ==> headers[j].name != name by {
        if r.Some? {
          var i :| 0 <= i < |headers| - 1 && headers[1..][i] == Header(name, r.value)
                   && forall j :: 0 <= j < i ==> headers[1..][j].name != name;
          assert headers[i + 1] == Header(name, r.value);
          assert forall j :: 0 <= j < i + 1 ==> headers[j].name != name by {
            forall j | 0 <= j < i + 1 ensures headers[j].name != name {
              if j > 0 {
                assert headers[1..][j - 1] == headers[j];
              }
            }
          }
        }
      }
      r
  }

  /** Looking up a header in a list that starts with `h`. */
  lemma FirstValueCons(h: Header, rest: seq<Header>, name: string)
    ensures FirstValue([h] + rest, name) == if h.name == name then Some(h.value) else FirstValue(rest, name)
  {
    assert ([h] + rest)[1..] == rest;
  }
}

/*
  What one scheduled log record carries, apart from rendering: the
  responder chosen for its multi-log token, the message template, and the
  list of tokens a firing fans out over (`ScheduledLogEvent` and the firing
  branch of `TimerOnElapsed`).
*/
module Emission {
  import opened Wrappers
  import opened Parsing

  /** Upper-casing of ASCII letters; other characters are left alone. */
  function FoldAscii(c: char): char
  {
    if 'a' <= c <= 'z' then (c as int - 32) as char else c
  }

  /** `StringComparison.OrdinalIgnoreCase`, with case folding restricted to ASCII. */
  predicate EqualsIgnoreCase(a: string, b: string)
  {
    |a| == |b| && forall i :: 0 <= i < |a| ==> FoldAscii(a[i]) == FoldAscii(b[i])
  }

  /** A text with its ASCII letters upper-cased. */
  function UpperAscii(s: string): (u: string)
  {
    seq(|s|, i requires 0 <= i < |s| => FoldAscii(s[i]))
  }

  /**
    Two texts are equal ignoring case exactly when upper-casing their ASCII
    letters makes them equal; in particular a text matches its upper-cased
    form, and the comparison is an equivalence.
  */
  lemma EqualsIgnoreCaseIff(a: string, b: string)
    ensures EqualsIgnoreCase(a, b) <==> UpperAscii(a) == UpperAscii(b)
    ensures EqualsIgnoreCase(a, UpperAscii(a))
    ensures EqualsIgnoreCase(a, a) && (EqualsIgnoreCase(a, b) ==> EqualsIgnoreCase(b, a))
  {
    if UpperAscii(a) == UpperAscii(b) {
      assert forall i :: 0 <= i < |a| ==> UpperAscii(a)[i] == FoldAscii(a[i]) && UpperAscii(b)[i] == FoldAscii(b[i]);
    }
    assert forall i :: 0 <= i < |a| ==> FoldAscii(FoldAscii(a[i])) == FoldAscii(a[i]);
  }

  /** The position of the first pair whose key equals `key` ignoring case. */
  function FirstMatch(lookup: seq<Pair>, key: string): (r: Option<nat>)
    ensures r.Some? ==> r.value < |lookup| && EqualsIgnoreCase(lookup[r.value].0, key)
    ensures r.Some? ==> forall j :: 0 <= j < r.value ==> !EqualsIgnoreCase(lookup[j].0, key)
    ensures r.None? <==> forall j :: 0 <= j < |lookup| ==> !EqualsIgnoreCase(lookup[j].0, key)
  {
    if lookup == [] then None
    else if EqualsIgnoreCase(lookup[0].0, key) then Some(0)
    else
      match FirstMatch(lookup[1..], key)
      case Some(i) => assert lookup[1..][i] == lookup[i + 1]; Some(i + 1)
      case None =>
        assert forall j :: 1 <= j < |lookup| ==> lookup[1..][j - 1] == lookup[j];
        None
  }

  /** The responder of a record (`ScheduledLogEvent`); `ResponderForMeaning` says what it is. */
  function ResponderFor(responderLookup: seq<Pair>, token: Option<Pair>, responders: string): string
  {
    if |responderLookup| == 0 then responders
    else if token.None? then ""
    else
      match FirstMatch(responderLookup, token.value.0)
      case Some(i) => responderLookup[i].1
      case None => ""
  }

  /**
    The single responder setting when there is no responder lookup;
    otherwise the value of the first lookup entry whose key equals the
    token's key ignoring case, and empty when there is no token or no such
    entry.
  */
  lemma ResponderForMeaning(responderLookup: seq<Pair>, token: Option<Pair>, responders: string)
    ensures var r := ResponderFor(responderLookup, token, responders);
            (|responderLookup| == 0 ==> r == responders)
            && (|responderLookup| > 0 && token.None? ==> r == "")
            && (|responderLookup| > 0 && token.Some? ==>
                  if exists i :: 0 <= i < |responderLookup| && EqualsIgnoreCase(responderLookup[i].0, token.value.0)
                  then exists i :: 0 <= i < |responderLookup| && EqualsIgnoreCase(responderLookup[i].0, token.value.0)
                                 && (forall j :: 0 <= j < i ==> !EqualsIgnoreCase(responderLookup[j].0, token.value.0))
                                 && r == responderLookup[i].1
                  else r == "")
  {
    if |responderLookup| > 0 && token.Some? {
      var m := FirstMatch(responderLookup, token.value.0);
      if m.Some? {
        assert EqualsIgnoreCase(responderLookup[m.value].0, token.value.0);
      }
    }
  }

  /** The `foreach ... break` search of `ScheduledLogEvent` for a token's responder. */
  method FindResponder(lookup: seq<Pair>, key: string) returns (responder: string)
    ensures FirstMatch(lookup, key).Some? ==> responder == lookup[FirstMatch(lookup, key).value].1
    ensures FirstMatch(lookup, key).None? ==> responder == ""
  {
    responder := "";
    var i := 0;
    while i < |lookup|
      invariant 0 <= i <= |lookup|
      invariant forall j :: 0 <= j < i ==> !EqualsIgnoreCase(lookup[j].0, key)
    {
      if EqualsIgnoreCase(lookup[i].0, key) {
        responder := lookup[i].1;
        return;
      }
      i := i + 1;
    }
  }

  const AppNamePrefix: string := "{AppName} - "
  const MessageOnly: string := "{Message}"
  const MessageAndDescription: string := "{Message} : {Description}"

  /** The message template of `ScheduledLogEvent`; `TemplateForShape` says what it is. */
  function TemplateFor(includeApp: bool, includeDescription: bool, description: string): string
  {
    var prefix := if includeApp then AppNamePrefix else "";
    if description == "" || !includeDescription then prefix + MessageOnly else prefix + MessageAndDescription
  }

  /**
    The template starts with the app name exactly when the app is included,
    and names the description exactly when it is included and not empty.
  */
  lemma TemplateForShape(includeApp: bool, includeDescription: bool, description: string)
    ensures var t := TemplateFor(includeApp, includeDescription, description);
            (includeApp <==> |t| >= |AppNamePrefix| && t[..|AppNamePrefix|] == AppNamePrefix)
            && (if includeApp then t[|AppNamePrefix|..] else t)
               == (if includeDescription && description != "" then MessageAndDescription else MessageOnly)
  {
    assert MessageAndDescription[..|AppNamePrefix|][1] != AppNamePrefix[1];
  }

  /**
    The tokens one firing logs a record for: each multi-log token in
    lookup order, or a single record without a token when there are none.
  */
  function FanOutTokens(lookup: seq<Pair>): (r: seq<Option<Pair>>)
    ensures |r| == if |lookup| > 0 then |lookup| else 1
    ensures |lookup| > 0 ==> forall i :: 0 <= i < |r| ==> r[i] == Some(lookup[i])
    ensures |lookup| == 0 ==> r == [None]
  {
    if |lookup| > 0 then seq(|lookup|, i requires 0 <= i < |lookup| => Some(lookup[i])) else [None]
  }
}

/** The JSON completion helper. The provider call is a parameter and
    `JSON.parse` is left out: the helper is modelled up to the text it
    hands to the parser. */
module AiClient {
  import opened Wrappers
  import opened Strings

  const JsonInstruction: string := "\n\nRespond with valid JSON only, no markdown or explanation."
  const NoJsonError: string := "No JSON found in response"

  /** The system prompt sent by `completeJSON`: the caller's, or nothing,
      followed by the JSON instruction. */
  function SystemPrompt(system: Option<string>): (r: string)
    ensures EndsWith(r, JsonInstruction)
    ensures system.Some? ==> r == system.value + JsonInstruction
    ensures system.None? ==> r == JsonInstruction
  {
    var s := system.GetOr("");
    assert (s + JsonInstruction)[|s|..] == JsonInstruction;
    s + JsonInstruction
  }

  /** The first position of `c` in `s`, if any. */
  function FirstIndex(s: string, c: char): (r: Option<nat>)
    ensures r.None? <==> c !in s
    ensures r.Some? ==> r.value < |s| && s[r.value] == c && c !in s[..r.value]
    ensures r.Some? ==> forall k :: 0 <= k < r.value ==> s[k] != c
  {
    var k := IndexOf(s, c);
    if k == |s| then None else Some(k)
  }

  /** The last position of `c` in `s`, if any. */
  function LastIndex(s: string, c: char): (r: Option<nat>)
    ensures r.None? <==> c !in s
    ensures r.Some? ==> r.value < |s| && s[r.value] == c && c !in s[r.value + 1..]
    ensures r.Some? ==> forall k :: r.value < k < |s| ==> s[k] != c
  {
    if |s| == 0 then None
    else if s[|s| - 1] == c then Some(|s| - 1)
    else
      var r := LastIndex(s[..|s| - 1], c);
      assert s == s[..|s| - 1] + [s[|s| - 1]];
      if r.Some? then
        assert s[r.value + 1..] == s[..|s| - 1][r.value + 1..] + [s[|s| - 1]];
        r
      else None
  }

  /** Whether some '{' comes before some '}'. */
  predicate HasBracePair(s: string) {
    exists i, j :: 0 <= i < j < |s| && s[i] == '{' && s[j] == '}'
  }

  /** The match of `/\{[\s\S]*\}/`: from the first '{' to the last '}',
      or the error when there is no such span. */
  function ExtractJson(s: string): (r: Result<string, string>)
  {
    var open := FirstIndex(s, '{');
    var close := LastIndex(s, '}');
    if open.Some? && close.Some? && open.value < close.value then Ok(s[open.value..close.value + 1])
    else Err(NoJsonError)
  }

  /** The extraction fails exactly when no '{' is followed by a '}'. */
  lemma ExtractJsonFails(s: string)
    ensures ExtractJson(s).Err? <==> !HasBracePair(s)
    ensures ExtractJson(s).Err? ==> ExtractJson(s).error == NoJsonError
  {
    var open := FirstIndex(s, '{');
    var close := LastIndex(s, '}');
    if open.Some? && close.Some? && open.value < close.value {
      assert s[open.value] == '{' && s[close.value] == '}';
    }
    if HasBracePair(s) {
      var i, j :| 0 <= i < j < |s| && s[i] == '{' && s[j] == '}';
      assert s[i] in s && s[j] in s;
    }
  }

  /** The extracted text is the greedy span: it is a piece of the
      response that starts with the first '{' and ends with the last '}'. */
  lemma ExtractJsonSpan(s: string)
    requires ExtractJson(s).Ok?
    ensures var t := ExtractJson(s).value;
            exists a :: && 0 <= a && a + |t| <= |s| && s[a..a + |t|] == t
                        && '{' !in s[..a] && '}' !in s[a + |t|..]
    ensures var t := ExtractJson(s).value;
            |t| >= 2 && t[0] == '{' && t[|t| - 1] == '}'
  {
    var a := FirstIndex(s, '{').value;
    var b := LastIndex(s, '}').value;
    var t := ExtractJson(s).value;
    assert t == s[a..b + 1];
    assert s[a..a + |t|] == t;
  }

  /** A response that already is one brace-delimited text comes back
      unchanged. */
  lemma ExtractJsonWhole(s: string)
    requires |s| >= 2 && s[0] == '{' && s[|s| - 1] == '}'
    ensures ExtractJson(s) == Ok(s)
  {
    assert s[..0] == [];
    assert s[|s|..] == [];
    assert s[0..|s|] == s;
  }

  /** `completeJSON` up to parsing: the provider, given the prompt and the
      extended system prompt, answers with some text, from which the JSON
      text is extracted. */
  function CompleteJsonText(prompt: string, system: Option<string>,
                            complete: (string, string) -> string): Result<string, string>
  {
    ExtractJson(complete(prompt, SystemPrompt(system)))
  }
}

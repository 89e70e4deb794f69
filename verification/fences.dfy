/** The two places that strip markdown code fences from a language-model
    reply. The fetcher cuts the 7 characters of a leading "```json"; the column
    mapper cuts 9 characters after that prefix and then forces the text into
    braces. Both are modelled as written. */
module Fences {
  import opened Text

  const JsonFence: string := "```json"
  const Fence: string := "```"

  /** Python's `s[n:]`, which is empty when `n` is past the end. */
  function Drop(s: string, n: nat): (r: string)
    ensures n <= |s| ==> r == s[n..]
    ensures n > |s| ==> r == ""
  {
    if n <= |s| then s[n..] else ""
  }

  /** Drops one trailing "```", as both strippers do. */
  function CutClosing(t: string): (r: string)
    ensures EndsWith(t, Fence) ==> t == r + Fence
    ensures !EndsWith(t, Fence) ==> r == t
  {
    if EndsWith(t, Fence) then t[..|t| - 3] else t
  }

  /** Starting with "```json" implies starting with "```". */
  lemma JsonFenceIsFence(s: string)
    ensures StartsWith(s, JsonFence) ==> StartsWith(s, Fence)
  {
    if StartsWith(s, JsonFence) {
      assert s[..3] == s[..7][..3];
    }
  }

  /** A bare fence before a payload not starting "json" is not a "```json" fence. */
  lemma BareFenceIsNotJson(p: string, rest: string)
    requires !StartsWith(p, "json")
    requires |rest| >= 1 && rest[0] == '`'
    ensures !StartsWith(Fence + p + rest, JsonFence)
  {
    var f := Fence + p + rest;
    if |p| >= 4 {
      assert f[3..7] == p[..4];
    } else {
      assert f[3 + |p|] == rest[0];
    }
  }

  /** The fence stripping of the fetcher's HTML extraction: strip, drop a
      leading "```json" or else "```", drop a trailing "```", strip again. */
  function StripFences(text: string): (r: string)
    ensures Trimmed(r)
    ensures |r| <= |text|
  {
    Strip(CutClosing(CutOpeningFetcher(Strip(text))))
  }

  /** The opening cut of the fetcher: the 7 characters of "```json", or the
      3 of a bare "```". */
  function CutOpeningFetcher(t: string): (r: string)
    ensures StartsWith(t, JsonFence) ==> t == JsonFence + r
    ensures !StartsWith(t, JsonFence) && StartsWith(t, Fence) ==> t == Fence + r
    ensures !StartsWith(t, Fence) ==> r == t
  {
    JsonFenceIsFence(t);
    if StartsWith(t, JsonFence) then t[7..] else if StartsWith(t, Fence) then t[3..] else t
  }

  /** A reply without fences is only trimmed. */
  lemma StripFencesPlain(text: string)
    requires !StartsWith(Strip(text), Fence) && !EndsWith(Strip(text), Fence)
    ensures StripFences(text) == Strip(text)
  {
    var t := Strip(text);
    JsonFenceIsFence(t);
    StripTrimmed(t);
  }

  /** A fenced text is trimmed: it starts and ends with a backtick. */
  lemma FencedTrimmed(opening: string, p: string)
    requires |opening| >= 1 && opening[0] == '`'
    ensures Trimmed(opening + p + Fence)
  {
    var fenced := opening + p + Fence;
    assert fenced[0] == '`' && fenced[|fenced| - 1] == '`';
  }

  /** Stripping the padding around a fenced text gives the fenced text. */
  lemma StripPaddedFence(a: string, opening: string, p: string, b: string)
    requires AllSpace(a) && AllSpace(b)
    requires |opening| >= 1 && opening[0] == '`'
    ensures Strip(a + opening + p + Fence + b) == opening + p + Fence
  {
    FencedTrimmed(opening, p);
    assert a + opening + p + Fence + b == a + (opening + p + Fence) + b;
    StripPadded(a, opening + p + Fence, b);
  }

  lemma CutClosingFence(p: string)
    ensures CutClosing(p + Fence) == p
  {
  }

  lemma CutJsonFence(p: string)
    ensures CutOpeningFetcher(JsonFence + p + Fence) == p + Fence
  {
    var fenced := JsonFence + p + Fence;
    assert fenced[..7] == JsonFence;
    assert fenced == JsonFence + (p + Fence);
  }

  lemma CutBareFence(p: string)
    requires !StartsWith(p, "json")
    ensures CutOpeningFetcher(Fence + p + Fence) == p + Fence
  {
    var fenced := Fence + p + Fence;
    BareFenceIsNotJson(p, Fence);
    assert fenced[..3] == Fence;
    assert fenced == Fence + (p + Fence);
  }

  /** A payload wrapped in a "```json" fence, with any surrounding
      whitespace, comes back as the trimmed payload. */
  lemma StripFencesJsonRoundTrip(a: string, p: string, b: string)
    requires AllSpace(a) && AllSpace(b)
    ensures StripFences(a + JsonFence + p + Fence + b) == Strip(p)
  {
    StripPaddedFence(a, JsonFence, p, b);
    CutJsonFence(p);
    CutClosingFence(p);
  }

  /** The same for a bare "```" fence around a payload not starting "json". */
  lemma StripFencesBareRoundTrip(a: string, p: string, b: string)
    requires AllSpace(a) && AllSpace(b)
    requires !StartsWith(p, "json")
    ensures StripFences(a + Fence + p + Fence + b) == Strip(p)
  {
    StripPaddedFence(a, Fence, p, b);
    CutBareFence(p);
    CutClosingFence(p);
  }

  /** The opening cut of `_clean_llm_response`: 9 characters after a
      "```json" prefix, 3 after a bare "```". */
  function CutOpening(text: string): (r: string)
    ensures StartsWith(text, JsonFence) ==> r == Drop(text, 9)
    ensures !StartsWith(text, JsonFence) && StartsWith(text, Fence) ==> r == text[3..]
    ensures !StartsWith(text, Fence) ==> r == text
  {
    JsonFenceIsFence(text);
    if StartsWith(text, JsonFence) then Drop(text, 9)
    else if StartsWith(text, Fence) then text[3..]
    else text
  }

  /** What bracing `t` may give: `t` with at most a "{" added in front and a
      "}" at the end, the "{" exactly when `t` does not start with one, and
      the "}" only when `t` does not end with one. */
  predicate BracedFrom(t: string, r: string) {
    && |r| >= 2 && r[0] == '{' && r[|r| - 1] == '}'
    && (|t| >= 2 && t[0] == '{' && t[|t| - 1] == '}' ==> r == t)
    && (|t| >= 1 && t[0] != '{' && t[|t| - 1] == '}' ==> r == "{" + t)
    && (r == t || r == "{" + t || r == t + "}" || r == "{" + t + "}")
    && (|t| > 0 && t[0] == '{' ==> r[..|t|] == t)
    && (|t| > 0 && t[0] == '{' ==> r == t || r == t + "}")
    && (|t| > 0 && t[|t| - 1] == '}' ==> r == t || r == "{" + t)
  }

  /** The brace normaliser: prepend "{" and append "}" when missing. */
  function Brace(t: string): (r: string)
    ensures BracedFrom(t, r)
  {
    var u := if |t| > 0 && t[0] == '{' then t else "{" + t;
    if u[|u| - 1] == '}' && |u| >= 2 then u else u + "}"
  }

  /** `_clean_llm_response`: cut the fences, strip, and brace. */
  function CleanLlmResponse(text: string): (r: string)
    ensures |r| >= 2 && r[0] == '{' && r[|r| - 1] == '}'
    ensures StartsWith(r, "{") && EndsWith(r, "}")
  {
    var t := Strip(CutClosing(CutOpening(text)));
    BracedEnds(t);
    Brace(t)
  }

  /** The braced text starts with "{" and ends with "}" in the sense of the
      string tests. */
  lemma BracedEnds(t: string)
    ensures |Brace(t)| >= 2 && Brace(t)[0] == '{' && Brace(t)[|Brace(t)| - 1] == '}'
    ensures StartsWith(Brace(t), "{") && EndsWith(Brace(t), "}")
  {
    var r := Brace(t);
    assert r[..1] == "{" && r[|r| - 1..] == "}";
  }

  /** The response cleaner is its three stages in turn. */
  lemma CleanStages(text: string, cut: string, closed: string, stripped: string)
    requires CutOpening(text) == cut && CutClosing(cut) == closed && Strip(closed) == stripped
    ensures CleanLlmResponse(text) == Brace(stripped)
  {
  }

  /** A trimmed text already in braces is left alone. */
  lemma CleanKeepsBraced(text: string)
    requires |text| >= 2 && Trimmed(text) && text[0] == '{' && text[|text| - 1] == '}'
    ensures CleanLlmResponse(text) == text
  {
    assert text[..1] != Fence[..1];
    assert text[|text| - 1..] != Fence[2..];
    assert CutOpening(text) == text;
    assert CutClosing(text) == text;
    StripTrimmed(text);
  }

  /** Normalising twice is normalising once. */
  lemma CleanIdempotent(text: string)
    ensures CleanLlmResponse(CleanLlmResponse(text)) == CleanLlmResponse(text)
  {
    CleanKeepsBraced(CleanLlmResponse(text));
  }

  /** On the usual reply shape "```json\n{...}\n```" the 9-character cut also
      takes the opening brace, and the normaliser puts it back. */
  lemma CleanFencedJsonRestoresBrace(p: string)
    requires |p| >= 2 && p[0] == '{' && p[|p| - 1] == '}'
    requires !IsSpace(p[1]) && p[1] != '{'
    ensures CleanLlmResponse(JsonFence + "\n" + p + "\n" + Fence) == p
  {
    var text := JsonFence + "\n" + p + "\n" + Fence;
    var q := p[1..];
    assert text[..7] == JsonFence;
    assert text[9..] == q + "\n" + Fence;
    assert CutOpening(text) == q + "\n" + Fence;
    assert CutClosing(q + "\n" + Fence) == q + "\n";
    assert AllSpace("\n");
    StripPadded("", q, "\n");
    assert "" + q + "\n" == q + "\n";
    CleanStages(text, q + "\n" + Fence, q + "\n", q);
    BraceOpens(q);
    BraceTail(p);
  }

  /** A text ending in "}" but not starting with "{" only gets the "{". */
  lemma BraceOpens(t: string)
    requires |t| >= 1 && t[0] != '{' && t[|t| - 1] == '}'
    ensures Brace(t) == "{" + t
  {
  }

  /** Putting back the brace a cut removed restores the text. */
  lemma BraceTail(p: string)
    requires |p| >= 1 && p[0] == '{'
    ensures "{" + p[1..] == p
  {
    assert p == [p[0]] + p[1..];
  }

  /** A text between braces has no whitespace at either end. */
  lemma BracesTrimmed(p: string)
    requires |p| >= 2 && p[0] == '{' && p[|p| - 1] == '}'
    ensures Trimmed(p)
  {
  }

  /** Without a newline after the fence the cut eats the first character of
      the payload after its brace as well (in a JSON object, the opening quote
      of the first key), while the fetcher's 7-character cut returns the
      payload intact. */
  lemma CleanDropsPayloadCharacter(p: string)
    requires |p| >= 3 && p[0] == '{' && p[|p| - 1] == '}'
    requires !IsSpace(p[2]) && p[2] != '{'
    ensures CleanLlmResponse(JsonFence + p + Fence) == "{" + p[2..]
    ensures StripFences(JsonFence + p + Fence) == p
  {
    CleanUnbrokenFence(p);
    BracesTrimmed(p);
    StripFencesKeepsPayload(p);
  }

  lemma StripFencesKeepsPayload(p: string)
    requires Trimmed(p)
    ensures StripFences(JsonFence + p + Fence) == p
  {
    StripFencesOfFenced(p);
    StripTrimmed(p);
  }

  lemma StripFencesOfFenced(p: string)
    ensures StripFences(JsonFence + p + Fence) == Strip(p)
  {
    StripFencesJsonRoundTrip("", p, "");
    UnpaddedFence(p);
  }

  lemma UnpaddedFence(p: string)
    ensures "" + JsonFence + p + Fence + "" == JsonFence + p + Fence
  {
  }

  lemma CleanUnbrokenFence(p: string)
    requires |p| >= 3 && p[0] == '{' && p[|p| - 1] == '}'
    requires !IsSpace(p[2]) && p[2] != '{'
    ensures CleanLlmResponse(JsonFence + p + Fence) == "{" + p[2..]
  {
    var text := JsonFence + p + Fence;
    var q := p[2..];
    assert text[..7] == JsonFence;
    assert text[9..] == q + Fence;
    assert CutOpening(text) == q + Fence;
    assert CutClosing(q + Fence) == q;
    StripTrimmed(q);
    assert Brace(q) == "{" + q;
  }
}

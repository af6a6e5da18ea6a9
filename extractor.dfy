/**
 * The response extractor (app/llm.py `safe_json`): finds the brace-delimited
 * span in a raw completion, hands it to the JSON decoder and reads its
 * `response` field, falling back to the raw span when decoding fails.
 */
module Extractor {
  import opened Wrappers
  import opened Types
  import opened Text

  /** `text[b..e]` is a match of the pattern `\{[\s\S]*\}`: a '{', anything, then a '}'. */
  predicate IsBraceSpan(text: string, b: int, e: int) {
    0 <= b && b + 2 <= e <= |text| && text[b] == '{' && text[e - 1] == '}'
  }

  function FirstIndex(s: string, c: char): (r: Option<nat>)
    ensures r.None? <==> c !in s
    ensures r.Some? ==> r.value < |s| && s[r.value] == c && c !in s[..r.value]
  {
    if s == [] then None
    else if s[0] == c then Some(0)
    else
      match FirstIndex(s[1..], c)
      case None => None
      case Some(k) =>
        assert s[..k + 1] == [s[0]] + s[1..][..k];
        Some(k + 1)
  }

  function LastIndex(s: string, c: char): (r: Option<nat>)
    ensures r.None? <==> c !in s
    ensures r.Some? ==> r.value < |s| && s[r.value] == c && c !in s[r.value + 1..]
  {
    if s == [] then None
    else if s[|s| - 1] == c then Some(|s| - 1)
    else
      var init := s[..|s| - 1];
      assert s == init + [s[|s| - 1]];
      match LastIndex(init, c)
      case None => None
      case Some(k) =>
        assert s[k + 1..] == init[k + 1..] + [s[|s| - 1]];
        Some(k)
  }

  /**
   * What `re.search(r"\{[\s\S]*\}", text)` matches, as (start, end): the
   * leftmost span, and of those starting there the longest (the greedy
   * `[\s\S]*`). Found by taking the first '{' and the last '}'.
   */
  function FindSpan(text: string): (r: Option<(nat, nat)>)
    ensures r.None? <==> forall b, e :: !IsBraceSpan(text, b, e)
    ensures r.Some? ==> IsBraceSpan(text, r.value.0, r.value.1)
    ensures r.Some? ==> forall b, e :: IsBraceSpan(text, b, e) ==> r.value.0 < b || (r.value.0 == b && e <= r.value.1)
  {
    match FirstIndex(text, '{')
    case None => None
    case Some(b) =>
      match LastIndex(text, '}')
      case None => None
      case Some(j) =>
        if b < j then
          assert IsBraceSpan(text, b, j + 1);
          Some((b, j + 1))
        else
          None
  }

  /** The first occurrence is the one with no earlier occurrence. */
  lemma FirstIndexAt(s: string, c: char, k: nat)
    requires k < |s| && s[k] == c && c !in s[..k]
    ensures FirstIndex(s, c) == Some(k)
  {
  }

  /** The last occurrence is the one with no later occurrence. */
  lemma LastIndexAt(s: string, c: char, k: nat)
    requires k < |s| && s[k] == c && c !in s[k + 1..]
    ensures LastIndex(s, c) == Some(k)
  {
  }

  /**
   * `safe_json(text)`. `decode` is the JSON decoder (`json.loads`), None standing
   * for JSONDecodeError. A decoded `response` that is not a string makes
   * `.strip()` raise, which the source does not catch.
   */
  function SafeJson(decode: string -> Option<JsonObject>, text: string): (r: Result<Answer, Fault>)
    ensures r.Failure? ==> r.error == ResponseNotString
  {
    match FindSpan(text)
    case None => Success(Answer(""))
    case Some((b, e)) =>
      var span := text[b..e];
      match decode(span)
      case None => Success(Answer(Strip(span)))
      case Some(obj) =>
        if "response" !in obj then Success(Answer(""))
        else
          match obj["response"]
          case JString(s) => Success(Answer(Strip(s)))
          case JNonString => Failure(ResponseNotString)
  }

  /**
   * Every answer `safe_json` gives is already trimmed, and it raises exactly
   * when the span decodes to an object whose `response` is not a string.
   */
  lemma SafeJsonOutcome(decode: string -> Option<JsonObject>, text: string)
    ensures var r := SafeJson(decode, text);
      && (r.Success? ==> Strip(r.value.response) == r.value.response)
      && (r.Failure? <==> (FindSpan(text).Some? &&
        var span := text[FindSpan(text).value.0..FindSpan(text).value.1];
        decode(span).Some? && "response" in decode(span).value && decode(span).value["response"].JNonString?))
  {
    match FindSpan(text)
    case None =>
    case Some((b, e)) =>
      var span := text[b..e];
      match decode(span)
      case None => StripIdempotent(span);
      case Some(obj) =>
        if "response" in obj && obj["response"].JString? {
          StripIdempotent(obj["response"].text);
        }
  }

  /** Without a '}' after the first '{' there is no match, and the answer is empty. */
  lemma NoSpanGivesEmpty(decode: string -> Option<JsonObject>, text: string)
    requires forall b, e :: !IsBraceSpan(text, b, e)
    ensures SafeJson(decode, text) == Success(Answer(""))
  {
  }

  /** A match exists exactly when some '}' comes after the first '{'. */
  lemma SpanIffCloseAfterFirstOpen(text: string)
    ensures FindSpan(text).Some? <==> ('{' in text && exists j :: FirstIndex(text, '{').value < j < |text| && text[j] == '}')
  {
    if '{' in text {
      var b := FirstIndex(text, '{').value;
      if j :| b < j < |text| && text[j] == '}' {
        assert IsBraceSpan(text, b, j + 1);
      }
    }
  }

  /**
   * When the span does not decode, the answer is the span itself: it starts
   * with '{' and ends with '}', so its `.strip()` removes nothing.
   */
  lemma UndecodableGivesSpan(decode: string -> Option<JsonObject>, text: string, b: nat, e: nat)
    requires FindSpan(text) == Some((b, e)) && decode(text[b..e]).None?
    ensures SafeJson(decode, text) == Success(Answer(text[b..e]))
    ensures text[b] == '{' && text[e - 1] == '}'
  {
    StripKeepsTrimmed(text[b..e]);
  }

  /**
   * The answer is empty exactly when there is no match, or the span decodes to
   * an object whose `response` is absent or a blank string. (A failed decode
   * never gives an empty answer: the span holds its braces.)
   */
  lemma EmptyAnswerIff(decode: string -> Option<JsonObject>, text: string)
    ensures SafeJson(decode, text) == Success(Answer("")) <==>
      (|| FindSpan(text).None?
       || var span := text[FindSpan(text).value.0..FindSpan(text).value.1];
          && decode(span).Some?
          && ("response" !in decode(span).value
              || (decode(span).value["response"].JString? && IsBlank(decode(span).value["response"].text))))
  {
    match FindSpan(text)
    case None =>
    case Some((b, e)) =>
      if decode(text[b..e]).None? {
        UndecodableGivesSpan(decode, text, b, e);
      }
  }

  /**
   * Prose around a JSON object is ignored: with no '{' before the object and no
   * '}' after it, the answer is the object's trimmed `response` (so
   * `blah {"response": "Paris", "fonte": "x"} blah` gives `Paris`), whatever
   * other keys the object has.
   */
  lemma ProseAroundObject(decode: string -> Option<JsonObject>, before: string, obj: string, after: string, s: string)
    requires '{' !in before && '}' !in after
    requires |obj| >= 2 && obj[0] == '{' && obj[|obj| - 1] == '}'
    requires decode(obj).Some? && "response" in decode(obj).value && decode(obj).value["response"] == JString(s)
    ensures SafeJson(decode, before + obj + after) == Success(Answer(Strip(s)))
  {
    var text := before + obj + after;
    var b, e := |before|, |before| + |obj|;
    assert text[..b] == before && text[e..] == after;
    FirstIndexAt(text, '{', b);
    LastIndexAt(text, '}', e - 1);
    assert text[b..e] == obj;
  }
}

# Answer-resolution pipeline of the MiMo-V2-Flash integration, in Dafny

This project models the answer-resolution core of a small question-answering
service, `app/llm.py` together with the question-picking helper in `app/main.py`,
and proves properties of it. A user question goes through these steps:

- A time-sensitive question (one that mentions "hoje", "agora", "recente" and so
  on) is first answered from a web search digest.
- Otherwise, and also when that digest is blank, the primary completion backend
  (MiMo) is asked, then the secondary one (GLM, called "zai" in the source).
- Each backend answer is extracted from the raw completion (`safe_json`) and
  judged (`is_good_answer`); an answer written from the web digest is returned
  unjudged. A rejected answer passes the question on to the next step.
- After both backends, a web search is tried (again, for a time-sensitive
  question).
- When everything comes up empty, a fixed Portuguese apology is returned.

Modules, one file each. `app/llm.py` is a set of independent helpers that
`ask_llm` composes; each helper, with the text primitives they share, is a
module of its own, and `app/main.py`'s logic is `Api`:

- `Wrappers`, `Types`: Option/Result, conversation turns, answers, decoded JSON
  fields, and the exceptions that escape the pipeline.
- `Text`: Python's `str.strip()` (with the full `str.isspace` character list),
  `str.lower()` and substring search.
- `Conversation`: `build_messages_with_context`. Its appending loop is a method
  proved against the list it builds. The same loop is written inline in
  `zai_for_web_search`, and the model reuses it there.
- `Extractor`: `safe_json`. The match of `\{[\s\S]*\}` is specified as the
  leftmost, longest brace-delimited span.
- `Judge`: `is_good_answer` and the apology text.
- `Intent`: `normalize` and `is_today_question`. The `\b...\b` patterns are
  matched position by position with Python's word-boundary rule.
- `WebSearch`: the digest part of `web_search`. Its loop is a method proved
  against `Digest`, and the newline join comes with its inverse.
- `Resolver`: `ask_llm` and the adapters it calls.
  - The completion and search services are oracles in an `Env` record. Each
    oracle receives the list of calls made so far, so a repeated search may
    answer differently.
  - A resolution returns its outcome (an answer or a propagated exception) and
    the list of calls it made.
- `Api`: `get_user_question` and the no-question branch of the `/ask` handler.

Behaviour of the source worth knowing:

- An exception from a backend or from the search service is not caught and
  ends the resolution (app/llm.py:196-221, `Resolver.ExceptionsPropagate`).
- The default display name is "usuário" (app/llm.py:250).
- When the first `{` has a `}` after it, `safe_json` gives `""` only if the span
  decodes and its `response` is absent or blank (app/llm.py:166-175,
  `Extractor.EmptyAnswerIff`). Otherwise it gives a non-empty answer, or fails
  when `response` is not a string.
- A decoded `response` that is not a string makes `.strip()` raise
  (app/llm.py:173); this is the fault `ResponseNotString`.

## Model

| member | source | states |
|---|---|---|
| Text.Strip | app/llm.py:173-175 | `str.strip()`: the result is the input with whitespace cut from both ends only; it is empty exactly when the input is all whitespace, and otherwise starts and ends with a non-space |
| Text.Lower | app/llm.py:179 | `str.lower()` (also at app/llm.py:226), character by character: the length is kept; only ASCII and Latin-1 letters are lowered (see Left out) |
| Text.StripIdempotent | app/llm.py:173-175 | stripping a stripped string changes nothing |
| Conversation.BuildMessagesWithContext | app/llm.py:27-61 | the appending loop with `continue` builds exactly the system turn, the retained context and the user turn (the same loop as app/llm.py:124-133) |
| Conversation.MessagesFrame | app/llm.py:33-59 | the list starts with exactly one system turn holding the system prompt, ends with exactly one user turn holding the prompt, and the middle is the retained context |
| Conversation.Retained | app/llm.py:36-43 | the context turns that are forwarded: all but user turns equal to the question, in order (its properties are the `Retained…` lemmas below) |
| Conversation.Messages | app/llm.py:33-59 | the whole list: the system turn, the retained context, the user turn (proved in `MessagesFrame`) |
| Conversation.RetainedAppend | app/llm.py:36-43 | filtering distributes over concatenation, so retained turns keep their original order |
| Conversation.RetainedDropsOnlyRepeats | app/llm.py:37-38 | no user turn equal to the question survives, and every survivor comes from the context |
| Conversation.RetainedCounts | app/llm.py:36-43 | each turn keeps its number of occurrences except user turns equal to the question, which drop to zero; duplicates with another role are kept |
| Conversation.RetainedWithoutRepeats | app/llm.py:36-43 | a context without repeats of the question is forwarded unchanged |
| Extractor.FindSpan | app/llm.py:167-169 | there is no span exactly when no `{ ... }` substring exists; a span that is found starts with `{`, ends with `}`, and is the leftmost and then longest such substring |
| Extractor.SpanIffCloseAfterFirstOpen | app/llm.py:167-169 | a match exists exactly when some `}` comes after the first `{` |
| Extractor.SafeJson | app/llm.py:166-175 | the only exception that escapes is the non-string `response` |
| Extractor.SafeJsonOutcome | app/llm.py:171-175 | every answer is already trimmed, and the call raises exactly when the span decodes to an object whose `response` is not a string |
| Extractor.NoSpanGivesEmpty | app/llm.py:167-169 | with no match, the answer is `{"response": ""}` |
| Extractor.UndecodableGivesSpan | app/llm.py:174-175 | a span that fails to decode is returned whole; it starts with `{` and ends with `}`, so its strip is a no-op |
| Extractor.EmptyAnswerIff | app/llm.py:166-175 | the answer is empty exactly when there is no match, or the span decodes and its `response` is absent or blank |
| Extractor.ProseAroundObject | app/llm.py:167-173 | prose around one JSON object is ignored, and the answer is the object's trimmed `response` |
| Judge.IsGoodAnswer | app/llm.py:178-193 | `is_good_answer`: the lower-cased answer has at least 40 characters and contains no listed signal (its consequences are `ShortIsNotGood`, `SignalIsNotGood` and `CoreSignalsSuffice`) |
| Judge.HasSignal | app/llm.py:193 | `any(b in text for b in signals)`: true exactly when some listed signal occurs in the text |
| Judge.CoreSignalsSuffice | app/llm.py:183-193 | the two longer signals are redundant, and five signals give the same verdict on every answer |
| Judge.ShortIsNotGood | app/llm.py:179-181 | an answer under 40 characters is rejected |
| Judge.SignalIsNotGood | app/llm.py:183-193 | an answer containing any listed signal is rejected, whatever surrounds it |
| Judge.DefaultIsNotGood | app/llm.py:219-221 | the apology itself would be rejected: lower-cased, it contains "não encontrei" |
| Intent.Normalize | app/llm.py:224-229 | `normalize`: each character lower-cased and decomposed, combining marks dropped (its properties are the `Normalize…` lemmas below) |
| Intent.NormalizeGivesNormal | app/llm.py:224-229 | no upper-case letter, accented letter or combining mark survives normalization |
| Intent.NormalizeIdempotent | app/llm.py:224-229 | normalizing twice is normalizing once |
| Intent.NormalizeIgnoresCaseAndAccents | app/llm.py:224-229 | strings that differ only in letter case or accents normalize alike |
| Intent.CombiningMarkIgnored | app/llm.py:227-228 | a combining mark inserted anywhere is dropped |
| Intent.NormalizeHoje | app/llm.py:224-229 | "HOJE", "hoje" and "hoJÉ" all normalize to "hoje" |
| Intent.IsWordChar | app/llm.py:236-243 | Python's `\w`, which decides the `\b` boundaries, on ASCII and Latin-1 only (see Left out): letters, digits, `_`, and the Latin-1 letter-like signs |
| Intent.Boundary | app/llm.py:236-243 | `\b` at a position: a word character on exactly one side, with the ends of the string counting as non-word |
| Intent.MatchesAt | app/llm.py:236-243 | `\b<stem>(<suffix>)?\b` matches at a start: a boundary, the stem, then a boundary either right after the stem or after the optional suffix |
| Intent.SearchFrom | app/llm.py:246 | `re.search` from a position: found exactly when the pattern matches at some start at or after the position |
| Intent.Search | app/llm.py:246 | `re.search`: found exactly when the pattern matches at some start |
| Intent.IsTodayQuestion | app/llm.py:232-246 | `is_today_question`: some of the eight patterns occurs in the normalized question (its properties are the lemmas below) |
| Intent.TodayIgnoresCaseAndAccents | app/llm.py:232-233 | time-sensitivity does not depend on letter case or accents |
| Intent.CorePatternsSuffice | app/llm.py:235-246 | `\bhoje\b` subsumes the three longer "hoje" phrases, so five patterns give the same verdict |
| Intent.RecenteForms | app/llm.py:243 | `recente(mente)?` matches "recente" and "recentemente" but not "recentes" |
| Intent.NormalQuestionMatching | app/llm.py:232-246 | a question that normalization leaves unchanged is time-sensitive as soon as one pattern matches it somewhere |
| Intent.AconteceuHojeIsToday | app/llm.py:232-246 | "o que aconteceu hoje?" is time-sensitive |
| Intent.EinsteinIsNotToday | app/llm.py:232-246 | "quem foi Einstein?" is not time-sensitive |
| WebSearch.Contents | app/llm.py:107-110 | the contents kept are never empty and no more than the results |
| WebSearch.Digest | app/llm.py:107-112 | the newline join of the kept contents, the specification of `WebDigest` |
| WebSearch.Join | app/llm.py:112 | `"\n".join`: the parts with one separator between neighbours; `SplitJoin` is its inverse |
| WebSearch.WebDigest | app/llm.py:107-112 | the collecting loop and the join give exactly the digest of the response |
| WebSearch.ContentsAppend | app/llm.py:108-110 | collecting distributes over concatenation, so the digest keeps the service's order |
| WebSearch.ContentsExact | app/llm.py:108-110 | a content is kept exactly when some result carries it, present and non-empty |
| WebSearch.DigestEmptyIff | app/llm.py:107-112 | the digest is empty exactly when no result has content |
| WebSearch.SplitJoin | app/llm.py:112 | splitting the joined string at newlines gives the parts back when none contains a newline |
| WebSearch.DigestLines | app/llm.py:107-112 | when contents are single lines, the digest's lines are exactly the kept contents, in order |
| Resolver.UserName | app/llm.py:249-250 | the display name is never empty: a given non-empty name is used as is, and a missing or empty one becomes "usuário" |
| Resolver.QuestionMessages | app/llm.py:64-97 | the messages `ask_mimo` and `ask_zai` send: `build_messages_with_context` on the system prompt for the display name and the question prompt |
| Resolver.WebMessages | app/llm.py:115-155 | the messages `zai_for_web_search` sends: the same list around the web prompt built from the digest and the question |
| Resolver.Decoded | app/llm.py:73-79 | a completion's text goes through `safe_json`; an exception from the service propagates |
| Resolver.Reply | app/llm.py:64-97 | what a completion call gives the orchestrator: the service's reply through `Decoded` |
| Resolver.WebStepShape | app/llm.py:198-201 | a web step appends a search for the question and at most one web completion after it, and changes nothing before |
| Resolver.WebStepFaults | app/llm.py:198-201 | after calls that all returned, a web step either settles with its last call the only one that may have raised, or passes on calls that all returned |
| Resolver.ProviderStepJudged | app/llm.py:204-211 | a backend step settles only on an exception or on an answer the judge accepted |
| Resolver.ProviderStepRejections | app/llm.py:204-211 | after backend calls that were all rejected, a backend step either settles on its own call or passes on calls that were all rejected |
| Resolver.AskLlm | app/llm.py:196-221 | a resolution makes between one and five calls |
| Resolver.TodayWithDigestAnswersFromWeb | app/llm.py:197-201 | for a time-sensitive question whose first digest is not blank, exactly one search and one web completion, and that answer returned unjudged |
| Resolver.PrimaryAcceptedAlone | app/llm.py:203-206 | any other question with a good primary answer returns that answer after one primary call and nothing else |
| Resolver.EverythingRejectedGivesApology | app/llm.py:203-221 | two rejected backend answers and a blank digest give the apology after exactly two backend calls and one search |
| Resolver.FirstCall | app/llm.py:197-204 | the first call is a search exactly for a time-sensitive question, and otherwise the primary backend |
| Resolver.TodayBlankDigestSearchesAgain | app/llm.py:197-216 | a time-sensitive question with a blank first digest and two rejected backend answers is searched again: the first four calls are search, primary, secondary, search |
| Resolver.BlankDigestFallsThrough | app/llm.py:198-204 | a blank first digest falls through to the primary backend |
| Resolver.LastCompletionAnswers | app/llm.py:196-216 | a resolution that ends on a completion (the primary or the secondary backend, after a blank early digest or not, or a web completion, early or late) returns exactly that call's reply (a run that ends on a search that returned gives the apology, by `DefaultOnlyAfterEverythingFails`; one that ends on a search that raised fails, by `ExceptionsPropagate`) |
| Resolver.BackendsAskedOnce | app/llm.py:203-211 | neither backend is asked twice in a resolution |
| Resolver.BackendAnswersAreGood | app/llm.py:204-211 | an answer returned straight from a backend has passed the judge |
| Resolver.ZaiOnlyAfterMimoRejected | app/llm.py:204-209 | the secondary backend is asked only right after the primary one returned an answer the judge rejected |
| Resolver.ShortCircuit | app/llm.py:203-216 | every backend call before the last call of a resolution gave a rejected answer |
| Resolver.ExceptionsPropagate | app/llm.py:196-221 | every call before the last returned, and the resolution fails exactly when its last call raised |
| Resolver.DefaultOnlyAfterEverythingFails | app/llm.py:213-221 | unless the web completion wrote it, the apology comes only after both backends were rejected and the last search returned a blank digest; a resolution that ends on a returned search gives the apology |
| Resolver.CallsCarryTheQuestion | app/llm.py:196-216 | every search is for the question, every backend call carries the question messages, and every web completion carries the non-blank digest of the search just before it |
| Resolver.SearchPlacement | app/llm.py:197-216 | a search is either the first call, for a time-sensitive question, or comes right after the primary and then the secondary backend |
| Api.GetUserQuestion | app/main.py:52-57 | there is no question exactly when no user turn has non-blank content; otherwise the question is the unstripped content of such a turn, with no such turn after it |
| Api.QuestionIffStripped | app/main.py:55 | a turn qualifies exactly when it is a user turn whose stripped content is not empty |
| Api.QuestionNotEmpty | app/main.py:46 | a question that is found is never empty, so `not question` means only "none found" |
| Api.LastQuestionWins | app/main.py:54-56 | a qualifying turn at the end is the question, whatever precedes it, with its whitespace kept |
| Api.LaterNonQuestionsIgnored | app/main.py:54-56 | turns after the question that do not qualify leave it unchanged |
| Api.Ask | app/main.py:45-47 | with no qualifying turn, the answer is `{"response": "Nenhuma pergunta encontrada."}` and the resolver is not reached; otherwise the question `get_user_question` picks, the last qualifying turn's content, goes on to the resolver |
| Api.BlankConversationGetsFixedAnswer | app/main.py:45-47 | an empty conversation, or one with only a blank user turn and a non-user turn, gets the fixed answer |

## Left out

- The completion calls (app/llm.py:73-77, 91-95, 157-161) and the search call (app/llm.py:101-105) are network I/O. They are the oracles `mimo`, `zai` and `search` of `Resolver.Env`; model names, temperature, search depth and the five-result limit are not modelled.
- A completion whose content is missing, or whose `choices` list is empty, is folded into the oracle's failure: indexing an empty `choices` list raises at app/llm.py:79 (also 97 and 163) before `safe_json` is called, and `safe_json(None)` raises in `re.search` (app/llm.py:167).
- The prompt texts are natural-language strings without logic: `get_system_prompt`'s body (app/llm.py:252-335) and the two f-string prompts (app/llm.py:46-57, 136-153). They are opaque functions of `Env`; only the display-name default is modelled.
- `json.loads` is the `decode` parameter. Its result is an object map, because a span that starts with `{` and ends with `}` can only decode to an object. Only whether `response` is a string matters.
- Python's regex engine is not modelled. The `safe_json` span and the eight `\b` patterns are specified directly.
- Intent.Normalize: case folding and NFD cover ASCII, Latin-1 and the combining marks U+0300 to U+036F only, because the full Unicode tables are out of scope.
- Intent.IsWordChar: the `\w` word-boundary classes cover ASCII and Latin-1 only, for the same reason.
- Text.Lower: only ASCII and Latin-1 letters are lower-cased, for the same reason.
- `CONFIDENCE_THRESHOLD` (app/llm.py:12) is never used.
- FastAPI setup, CORS, the lifespan hook, the pydantic schemas and the `print` calls (app/main.py:1-44, 53) are framework plumbing. The `uuid` field is never read.
- The handler's call `ask_llm(question, payload.name)` (app/main.py:49) is not modelled. It passes two arguments where `ask_llm` takes three, so it would raise at run time. `Api.Ask` stops at handing the question on, and `Resolver.AskLlm` is modelled with its full signature.
- Search results are typed: each `content` is a string or missing, and `results` is a list or missing. A non-string `content` (which makes the `"\n".join` at app/llm.py:112 raise) and `"results": null` (which makes the loop at app/llm.py:108 raise) are not modelled.
- Context turns are typed `(role, content)` records. Dictionaries with missing keys or `None` values (the `msg.get` defaults at app/llm.py:37-42) are not modelled.

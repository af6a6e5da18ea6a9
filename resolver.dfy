/**
 * The answer-resolution orchestrator (app/llm.py `ask_llm`) and the adapters it
 * calls (`ask_mimo`, `ask_zai`, `web_search`, `zai_for_web_search`,
 * `get_system_prompt`). The completion and search services are oracles in an
 * `Env` that see every call made so far, so a repeated search may answer
 * differently; a resolution returns its outcome and the calls it made.
 */
module Resolver {
  import opened Wrappers
  import opened Types
  import opened Text
  import opened Conversation
  import opened Extractor
  import opened Judge
  import opened WebSearch
  import Intent

  /** One call to an external service, with what was sent. */
  datatype Call =
    | WebQuery(query: string)          // the search service, from `web_search`
    | Mimo(messages: seq<Message>)     // the primary completion backend, from `ask_mimo`
    | Zai(messages: seq<Message>)      // the secondary backend, from `ask_zai`
    | ZaiWeb(messages: seq<Message>)   // the secondary backend, from `zai_for_web_search`

  /**
   * The outside world. Each service gets the calls made before it and what is
   * sent to it; a Failure is an exception the service raised. `decode` is the
   * JSON decoder, None for a decode error. The prompt templates are opaque:
   * `systemPrompt` takes the display name, `questionPrompt` the question and
   * `webPrompt` the digest and the question.
   */
  datatype Env = Env(
    mimo: (seq<Call>, seq<Message>) -> Result<string, Fault>,
    zai: (seq<Call>, seq<Message>) -> Result<string, Fault>,
    search: (seq<Call>, string) -> Result<SearchResponse, Fault>,
    decode: string -> Option<JsonObject>,
    systemPrompt: string -> string,
    questionPrompt: string -> string,
    webPrompt: (string, string) -> string)

  /** The display name `get_system_prompt` puts in the system prompt: a missing or empty name becomes "usuário". */
  function UserName(name: Option<string>): (r: string)
    ensures r != []
    ensures name.Some? && name.value != [] ==> r == name.value
    ensures name.None? || name.value == [] ==> r == "usuário"
  {
    if name.Some? && name.value != [] then name.value else "usuário"
  }

  /** The messages `ask_mimo` and `ask_zai` send. */
  function QuestionMessages(env: Env, question: string, name: Option<string>, context: seq<Message>): seq<Message> {
    Messages(env.systemPrompt(UserName(name)), context, question, env.questionPrompt(question))
  }

  /** The messages `zai_for_web_search` sends: its inline loop builds the same list around the web prompt. */
  function WebMessages(env: Env, question: string, webData: string, name: Option<string>, context: seq<Message>): seq<Message> {
    Messages(env.systemPrompt(UserName(name)), context, question, env.webPrompt(webData, question))
  }

  /** A completion's text through `safe_json`; an exception from the service propagates. */
  function Decoded(env: Env, reply: Result<string, Fault>): Result<Answer, Fault> {
    match reply
    case Failure(f) => Failure(f)
    case Success(text) => SafeJson(env.decode, text)
  }

  /** What a completion call made after `history` gives the orchestrator. */
  function Reply(env: Env, history: seq<Call>, call: Call): Result<Answer, Fault>
    requires !call.WebQuery?
  {
    match call
    case Mimo(ms) => Decoded(env, env.mimo(history, ms))
    case Zai(ms) => Decoded(env, env.zai(history, ms))
    case ZaiWeb(ms) => Decoded(env, env.zai(history, ms))
  }

  /** The call made after `history` returned instead of raising. */
  predicate Returned(env: Env, history: seq<Call>, call: Call) {
    match call
    case WebQuery(q) => env.search(history, q).Success?
    case _ => Reply(env, history, call).Success?
  }

  /** A completion call whose answer the quality judge rejected. */
  predicate Rejected(env: Env, history: seq<Call>, call: Call) {
    !call.WebQuery? && Reply(env, history, call).Success? && !IsGoodAnswer(Reply(env, history, call).value)
  }

  /** A search made after `history` that returned a response with a blank digest. */
  predicate BlankSearch(env: Env, history: seq<Call>, call: Call) {
    call.WebQuery? && env.search(history, call.query).Success? && IsBlank(Digest(env.search(history, call.query).value))
  }

  /** The result of a resolution: the answer or the exception, and the calls made in order. */
  datatype Run = Run(outcome: Result<Answer, Fault>, trace: seq<Call>)

  /** A stage either settles the resolution or passes on the calls made so far. */
  datatype Step = Done(run: Run) | Continue(trace: seq<Call>)

  /** Search, and when the digest is not blank answer from it with the secondary backend, unjudged. */
  function WebStep(env: Env, trace: seq<Call>, question: string, name: Option<string>, context: seq<Message>): (s: Step)
    ensures s.Continue? <==> BlankSearch(env, trace, WebQuery(question))
    ensures s.Continue? ==> s.trace == trace + [WebQuery(question)]
    ensures s.Done? && !Returned(env, trace, WebQuery(question)) ==>
      s.run == Run(Failure(env.search(trace, question).error), trace + [WebQuery(question)])
    ensures s.Done? && Returned(env, trace, WebQuery(question)) ==>
      var web := ZaiWeb(WebMessages(env, question, Digest(env.search(trace, question).value), name, context));
      s.run == Run(Reply(env, trace + [WebQuery(question)], web), trace + [WebQuery(question), web])
  {
    var query := WebQuery(question);
    match env.search(trace, question)
    case Failure(f) => Done(Run(Failure(f), trace + [query]))
    case Success(resp) =>
      var webData := Digest(resp);
      if IsBlank(webData) then Continue(trace + [query])
      else
        var web := ZaiWeb(WebMessages(env, question, webData, name, context));
        Done(Run(Reply(env, trace + [query], web), trace + [query, web]))
  }

  /** Ask one backend; a good answer or an exception settles the resolution, a rejected answer passes on. */
  function ProviderStep(env: Env, trace: seq<Call>, call: Call): (s: Step)
    requires call.Mimo? || call.Zai?
    ensures s.Continue? <==> Rejected(env, trace, call)
    ensures s == if s.Continue? then Continue(trace + [call]) else Done(Run(Reply(env, trace, call), trace + [call]))
  {
    var outcome := Reply(env, trace, call);
    if outcome.Success? && !IsGoodAnswer(outcome.value) then Continue(trace + [call])
    else Done(Run(outcome, trace + [call]))
  }

  /**
   * `ask_llm(question, name, context_messages)`: a time-sensitive question
   * goes to the web first; then the primary backend, the secondary backend and
   * the web in turn; the fixed apology when all of them come up empty.
   */
  function AskLlm(env: Env, question: string, name: Option<string>, context: seq<Message>): (r: Run)
    ensures 1 <= |r.trace| <= 5
  {
    var first := if Intent.IsTodayQuestion(question) then WebStep(env, [], question, name, context) else Continue([]);
    if first.Done? then first.run
    else
      var mimo := ProviderStep(env, first.trace, Mimo(QuestionMessages(env, question, name, context)));
      if mimo.Done? then mimo.run
      else
        var zai := ProviderStep(env, mimo.trace, Zai(QuestionMessages(env, question, name, context)));
        if zai.Done? then zai.run
        else
          match WebStep(env, zai.trace, question, name, context)
          case Done(run) => run
          case Continue(trace) => Run(Success(Answer(DefaultResponse)), trace)
  }

  /**
   * The stages `AskLlm` went through: the early web step (or none), the two
   * backends and the late web step, each run on the calls made before it.
   */
  lemma Stages(env: Env, question: string, name: Option<string>, context: seq<Message>)
    returns (first: Step, mimo: Step, zai: Step, late: Step)
    ensures first == if Intent.IsTodayQuestion(question) then WebStep(env, [], question, name, context) else Continue([])
    ensures first.Continue? ==> mimo == ProviderStep(env, first.trace, Mimo(QuestionMessages(env, question, name, context)))
    ensures first.Continue? && mimo.Continue? ==> zai == ProviderStep(env, mimo.trace, Zai(QuestionMessages(env, question, name, context)))
    ensures first.Continue? && mimo.Continue? && zai.Continue? ==> late == WebStep(env, zai.trace, question, name, context)
    ensures AskLlm(env, question, name, context) ==
      if first.Done? then first.run
      else if mimo.Done? then mimo.run
      else if zai.Done? then zai.run
      else if late.Done? then late.run
      else Run(Success(Answer(DefaultResponse)), late.trace)
  {
    var qm := QuestionMessages(env, question, name, context);
    first := if Intent.IsTodayQuestion(question) then WebStep(env, [], question, name, context) else Continue([]);
    mimo, zai, late := first, first, first;
    if first.Continue? {
      mimo := ProviderStep(env, first.trace, Mimo(qm));
      if mimo.Continue? {
        zai := ProviderStep(env, mimo.trace, Zai(qm));
        if zai.Continue? {
          late := WebStep(env, zai.trace, question, name, context);
        }
      }
    }
  }

  /**
   * A time-sensitive question whose first search yields a non-blank digest is
   * answered from the web alone, and that answer is returned unjudged.
   */
  lemma TodayWithDigestAnswersFromWeb(env: Env, question: string, name: Option<string>, context: seq<Message>, resp: SearchResponse)
    requires Intent.IsTodayQuestion(question)
    requires env.search([], question) == Success(resp) && !IsBlank(Digest(resp))
    ensures var web := ZaiWeb(WebMessages(env, question, Digest(resp), name, context));
      AskLlm(env, question, name, context) == Run(Reply(env, [WebQuery(question)], web), [WebQuery(question), web])
  {
    var first, mimo, zai, late := Stages(env, question, name, context);
    var query, web := WebQuery(question), ZaiWeb(WebMessages(env, question, Digest(resp), name, context));
    assert [] + [query] == [query] && [] + [query, web] == [query, web];
  }

  /** Any other question with a good primary answer: that answer, after one primary call and nothing else. */
  lemma PrimaryAcceptedAlone(env: Env, question: string, name: Option<string>, context: seq<Message>, answer: Answer)
    requires !Intent.IsTodayQuestion(question)
    requires Reply(env, [], Mimo(QuestionMessages(env, question, name, context))) == Success(answer) && IsGoodAnswer(answer)
    ensures AskLlm(env, question, name, context) == Run(Success(answer), [Mimo(QuestionMessages(env, question, name, context))])
  {
    var first, mimo, zai, late := Stages(env, question, name, context);
    assert [] + [Mimo(QuestionMessages(env, question, name, context))] == [Mimo(QuestionMessages(env, question, name, context))];
  }

  /**
   * Any other question whose two backend answers are rejected and whose search
   * gives a blank digest: the apology, after exactly two backend calls and one search.
   */
  lemma EverythingRejectedGivesApology(env: Env, question: string, name: Option<string>, context: seq<Message>)
    requires !Intent.IsTodayQuestion(question)
    requires var qm := QuestionMessages(env, question, name, context);
      && Rejected(env, [], Mimo(qm)) && Rejected(env, [Mimo(qm)], Zai(qm))
      && BlankSearch(env, [Mimo(qm), Zai(qm)], WebQuery(question))
    ensures var qm := QuestionMessages(env, question, name, context);
      AskLlm(env, question, name, context) == Run(Success(Answer(DefaultResponse)), [Mimo(qm), Zai(qm), WebQuery(question)])
  {
    var first, mimo, zai, late := Stages(env, question, name, context);
    var qm := QuestionMessages(env, question, name, context);
    assert [] + [Mimo(qm)] == [Mimo(qm)];
    assert [Mimo(qm)] + [Zai(qm)] == [Mimo(qm), Zai(qm)];
    assert [Mimo(qm), Zai(qm)] + [WebQuery(question)] == [Mimo(qm), Zai(qm), WebQuery(question)];
  }

  /** The first call is a search exactly for a time-sensitive question; any other goes to the primary backend first. */
  lemma FirstCall(env: Env, question: string, name: Option<string>, context: seq<Message>)
    ensures AskLlm(env, question, name, context).trace[0] ==
      if Intent.IsTodayQuestion(question) then WebQuery(question) else Mimo(QuestionMessages(env, question, name, context))
  {
    var first, mimo, zai, late := Stages(env, question, name, context);
    assert [] + [WebQuery(question)] == [WebQuery(question)];
  }

  /** A time-sensitive question whose first digest is blank falls through to the primary backend. */
  lemma BlankDigestFallsThrough(env: Env, question: string, name: Option<string>, context: seq<Message>, resp: SearchResponse)
    requires Intent.IsTodayQuestion(question)
    requires env.search([], question) == Success(resp) && IsBlank(Digest(resp))
    ensures var r := AskLlm(env, question, name, context);
      |r.trace| >= 2 && r.trace[0] == WebQuery(question) && r.trace[1] == Mimo(QuestionMessages(env, question, name, context))
  {
    var first, mimo, zai, late := Stages(env, question, name, context);
    assert [] + [WebQuery(question)] == [WebQuery(question)];
  }

  /**
   * A time-sensitive question whose first digest is blank and whose two
   * backend answers are rejected is searched for a second time, right after
   * the primary and the secondary backend, each asked once.
   */
  lemma TodayBlankDigestSearchesAgain(env: Env, question: string, name: Option<string>, context: seq<Message>)
    requires Intent.IsTodayQuestion(question)
    requires var qm := QuestionMessages(env, question, name, context);
      && BlankSearch(env, [], WebQuery(question))
      && Rejected(env, [WebQuery(question)], Mimo(qm))
      && Rejected(env, [WebQuery(question), Mimo(qm)], Zai(qm))
    ensures var r := AskLlm(env, question, name, context);
      var qm := QuestionMessages(env, question, name, context);
      |r.trace| >= 4 && r.trace[..4] == [WebQuery(question), Mimo(qm), Zai(qm), WebQuery(question)]
  {
    var first, mimo, zai, late := Stages(env, question, name, context);
    var qm := QuestionMessages(env, question, name, context);
    var t2 := [WebQuery(question), Mimo(qm), Zai(qm)];
    assert first == Continue([WebQuery(question)]) by {
      assert [] + [WebQuery(question)] == [WebQuery(question)];
    }
    BackendsAfterBlankDigest(env, question, qm);
    assert mimo == Continue([WebQuery(question), Mimo(qm)]);
    assert zai == Continue(t2);
    var s := WebStep(env, t2, question, name, context);
    assert late == s;
    var t := if s.Done? then s.run.trace else s.trace;
    assert AskLlm(env, question, name, context).trace == t;
    WebStepShape(env, t2, question, name, context);
    SecondSearchAt(t, t2, WebQuery(question));
  }

  /** The two rejected backend calls after a blank first search leave exactly those three calls. */
  lemma BackendsAfterBlankDigest(env: Env, question: string, qm: seq<Message>)
    requires Rejected(env, [WebQuery(question)], Mimo(qm))
    requires Rejected(env, [WebQuery(question), Mimo(qm)], Zai(qm))
    ensures ProviderStep(env, [WebQuery(question)], Mimo(qm)) == Continue([WebQuery(question), Mimo(qm)])
    ensures ProviderStep(env, [WebQuery(question), Mimo(qm)], Zai(qm)) == Continue([WebQuery(question), Mimo(qm), Zai(qm)])
  {
    assert [WebQuery(question)] + [Mimo(qm)] == [WebQuery(question), Mimo(qm)];
    assert [WebQuery(question), Mimo(qm)] + [Zai(qm)] == [WebQuery(question), Mimo(qm), Zai(qm)];
  }

  lemma SecondSearchAt(t: seq<Call>, t2: seq<Call>, query: Call)
    requires |t2| == 3 && |t| >= 4 && t[..3] == t2 && t[3] == query
    ensures t[..4] == t2 + [query]
  {
    assert t[..4] == t[..3] + [t[3]];
  }

  /**
   * When `r` ends on a completion call (a backend or the web completion), its
   * outcome is that call's reply, unaltered.
   */
  predicate AnswersFromLast(env: Env, r: Run)
    requires |r.trace| >= 1
  {
    var n := |r.trace|;
    !r.trace[n - 1].WebQuery? ==> r.outcome == Reply(env, r.trace[..n - 1], r.trace[n - 1])
  }

  /** A run that ends on a completion call and carries that call's reply. */
  lemma EndsOnReply(env: Env, r: Run, history: seq<Call>, call: Call)
    requires !call.WebQuery? && r == Run(Reply(env, history, call), history + [call])
    ensures AnswersFromLast(env, r)
  {
    assert (history + [call])[..|history|] == history;
  }

  /** A run that ends on a search. */
  lemma EndsOnSearch(env: Env, r: Run, history: seq<Call>, question: string)
    requires r.trace == history + [WebQuery(question)]
    ensures AnswersFromLast(env, r)
  {
    assert r.trace[|history|] == WebQuery(question);
  }

  /** A web step that settles after the web completion returns that completion's reply. */
  lemma WebStepAnswers(env: Env, trace: seq<Call>, question: string, name: Option<string>, context: seq<Message>)
    requires WebStep(env, trace, question, name, context).Done?
    ensures AnswersFromLast(env, WebStep(env, trace, question, name, context).run)
  {
    var query := WebQuery(question);
    var run := WebStep(env, trace, question, name, context).run;
    if Returned(env, trace, query) {
      var web := ZaiWeb(WebMessages(env, question, Digest(env.search(trace, question).value), name, context));
      assert trace + [query, web] == (trace + [query]) + [web];
      EndsOnReply(env, run, trace + [query], web);
    } else {
      EndsOnSearch(env, run, trace, question);
    }
  }

  /** A backend step that settles returns that backend's reply. */
  lemma ProviderStepAnswers(env: Env, trace: seq<Call>, call: Call)
    requires (call.Mimo? || call.Zai?) && ProviderStep(env, trace, call).Done?
    ensures AnswersFromLast(env, ProviderStep(env, trace, call).run)
  {
    EndsOnReply(env, ProviderStep(env, trace, call).run, trace, call);
  }

  /**
   * Whatever ends a resolution on a completion call (the primary backend, the
   * secondary backend, or a web completion, early or late) returns exactly
   * that call's reply; only the apology follows a search.
   */
  lemma LastCompletionAnswers(env: Env, question: string, name: Option<string>, context: seq<Message>)
    ensures AnswersFromLast(env, AskLlm(env, question, name, context))
  {
    var first, mimo, zai, late := Stages(env, question, name, context);
    var qm := QuestionMessages(env, question, name, context);
    if first.Done? {
      WebStepAnswers(env, [], question, name, context);
    } else if mimo.Done? {
      ProviderStepAnswers(env, first.trace, Mimo(qm));
    } else if zai.Done? {
      ProviderStepAnswers(env, mimo.trace, Zai(qm));
    } else if late.Done? {
      WebStepAnswers(env, zai.trace, question, name, context);
    } else {
      EndsOnSearch(env, Run(Success(Answer(DefaultResponse)), late.trace), zai.trace, question);
    }
  }

  /** No call in `trace` is a backend call. */
  predicate NoBackend(trace: seq<Call>) {
    forall i :: 0 <= i < |trace| ==> !trace[i].Mimo? && !trace[i].Zai?
  }

  /** The primary backend is asked at most once, and so is the secondary one. */
  predicate BackendsOnce(trace: seq<Call>) {
    forall i, j :: 0 <= i < j < |trace| ==> !(trace[i].Mimo? && trace[j].Mimo?) && !(trace[i].Zai? && trace[j].Zai?)
  }

  /** Backend calls at most one primary and then one secondary, with no other backend call around them. */
  lemma BackendsOnceAround(t0: seq<Call>, mid: seq<Call>, tail: seq<Call>)
    requires NoBackend(t0) && NoBackend(tail)
    requires |mid| <= 2 && (|mid| >= 1 ==> mid[0].Mimo?) && (|mid| == 2 ==> mid[1].Zai?)
    ensures BackendsOnce(t0 + mid + tail)
  {
    var t := t0 + mid + tail;
    forall i, j | 0 <= i < j < |t|
      ensures !(t[i].Mimo? && t[j].Mimo?) && !(t[i].Zai? && t[j].Zai?)
    {
      if i < |t0| {
        assert t[i] == t0[i];
      } else if i >= |t0| + |mid| {
        assert t[i] == tail[i - |t0| - |mid|];
      }
      if j < |t0| {
        assert t[j] == t0[j];
      } else if j >= |t0| + |mid| {
        assert t[j] == tail[j - |t0| - |mid|];
      }
    }
  }

  /** A web step appends no backend call. */
  lemma WebStepNoBackend(env: Env, trace: seq<Call>, question: string, name: Option<string>, context: seq<Message>)
    ensures var s := WebStep(env, trace, question, name, context);
      var t := if s.Done? then s.run.trace else s.trace;
      |trace| <= |t| && t == trace + t[|trace|..] && NoBackend(t[|trace|..])
  {
    WebStepShape(env, trace, question, name, context);
    var s := WebStep(env, trace, question, name, context);
    var t := if s.Done? then s.run.trace else s.trace;
    assert t == t[..|trace|] + t[|trace|..];
  }

  /** The early web step, if any, asks no backend. */
  lemma EarlyNoBackend(env: Env, question: string, name: Option<string>, context: seq<Message>)
    ensures var first := if Intent.IsTodayQuestion(question) then WebStep(env, [], question, name, context) else Continue([]);
      NoBackend(if first.Done? then first.run.trace else first.trace)
  {
    if Intent.IsTodayQuestion(question) {
      WebStepNoBackend(env, [], question, name, context);
      var s := WebStep(env, [], question, name, context);
      var t := if s.Done? then s.run.trace else s.trace;
      assert t[0..] == t;
    }
  }

  /** After no backend, then the primary and the secondary one, the late web step asks no further backend. */
  lemma LateStepOnce(env: Env, t0: seq<Call>, mimo: Call, zai: Call, question: string, name: Option<string>, context: seq<Message>)
    requires NoBackend(t0) && mimo.Mimo? && zai.Zai?
    ensures var late := WebStep(env, t0 + [mimo] + [zai], question, name, context);
      BackendsOnce(if late.Done? then late.run.trace else late.trace)
  {
    var before := t0 + [mimo] + [zai];
    WebStepNoBackend(env, before, question, name, context);
    var late := WebStep(env, before, question, name, context);
    var t := if late.Done? then late.run.trace else late.trace;
    assert before == t0 + [mimo, zai];
    BackendsOnceAround(t0, [mimo, zai], t[|before|..]);
  }

  /** A primary-backend step after no backend call asks each backend at most once. */
  lemma MimoStepOnce(env: Env, t0: seq<Call>, mimo: Call)
    requires NoBackend(t0) && mimo.Mimo?
    ensures var s := ProviderStep(env, t0, mimo);
      s.Done? ==> BackendsOnce(s.run.trace)
  {
    BackendsOnceAround(t0, [mimo], []);
    assert t0 + [mimo] + [] == t0 + [mimo];
  }

  /** A secondary-backend step right after the only primary call asks each backend at most once. */
  lemma ZaiStepOnce(env: Env, t0: seq<Call>, mimo: Call, zai: Call)
    requires NoBackend(t0) && mimo.Mimo? && zai.Zai?
    ensures var s := ProviderStep(env, t0 + [mimo], zai);
      s.Done? ==> BackendsOnce(s.run.trace)
  {
    BackendsOnceAround(t0, [mimo, zai], []);
    assert t0 + [mimo, zai] + [] == t0 + [mimo] + [zai];
  }

  /** No backend is asked twice in a resolution. */
  lemma BackendsAskedOnce(env: Env, question: string, name: Option<string>, context: seq<Message>)
    ensures BackendsOnce(AskLlm(env, question, name, context).trace)
  {
    var first, mimo, zai, late := Stages(env, question, name, context);
    var qm := QuestionMessages(env, question, name, context);
    EarlyNoBackend(env, question, name, context);
    if first.Done? {
      BackendsOnceAround(first.run.trace, [], []);
      assert first.run.trace + [] + [] == first.run.trace;
    } else if mimo.Done? {
      MimoStepOnce(env, first.trace, Mimo(qm));
    } else if zai.Done? {
      ZaiStepOnce(env, first.trace, Mimo(qm), Zai(qm));
    } else {
      LateStepOnce(env, first.trace, Mimo(qm), Zai(qm), question, name, context);
    }
  }

  /** When `r` ends on a backend call and succeeded, its answer passed the quality judge. */
  predicate JudgedIfBackend(r: Run)
    requires |r.trace| >= 1
  {
    var last := r.trace[|r.trace| - 1];
    r.outcome.Success? && (last.Mimo? || last.Zai?) ==> IsGoodAnswer(r.outcome.value)
  }

  /** A web step that settles ends on the search or on the web completion, never on a backend call. */
  lemma WebStepJudged(env: Env, trace: seq<Call>, question: string, name: Option<string>, context: seq<Message>)
    requires WebStep(env, trace, question, name, context).Done?
    ensures JudgedIfBackend(WebStep(env, trace, question, name, context).run)
  {
  }

  /** A backend step settles with a failure or with an answer the judge accepted. */
  lemma ProviderStepJudged(env: Env, trace: seq<Call>, call: Call)
    requires (call.Mimo? || call.Zai?) && ProviderStep(env, trace, call).Done?
    ensures JudgedIfBackend(ProviderStep(env, trace, call).run)
  {
  }

  /** An answer returned straight from a backend (not from the web) has passed the quality judge. */
  lemma BackendAnswersAreGood(env: Env, question: string, name: Option<string>, context: seq<Message>)
    ensures JudgedIfBackend(AskLlm(env, question, name, context))
  {
    var first, mimo, zai, late := Stages(env, question, name, context);
    var qm := QuestionMessages(env, question, name, context);
    if first.Done? {
      WebStepJudged(env, [], question, name, context);
    } else if mimo.Done? {
      ProviderStepJudged(env, first.trace, Mimo(qm));
    } else if zai.Done? {
      ProviderStepJudged(env, mimo.trace, Zai(qm));
    } else if late.Done? {
      WebStepJudged(env, zai.trace, question, name, context);
    }
  }

  /** Every secondary-backend call in `trace` comes right after a primary-backend call whose answer was rejected. */
  predicate ZaiAfterRejectedMimo(env: Env, trace: seq<Call>) {
    forall i :: 0 <= i < |trace| && trace[i].Zai? ==>
      1 <= i && trace[i - 1].Mimo? && Rejected(env, trace[..i - 1], trace[i - 1])
  }

  /** Appending a call other than the secondary backend keeps the placement. */
  lemma ZaiAfterExtend(env: Env, trace: seq<Call>, call: Call)
    requires ZaiAfterRejectedMimo(env, trace) && !call.Zai?
    ensures ZaiAfterRejectedMimo(env, trace + [call])
  {
    var t := trace + [call];
    forall i | 0 <= i < |t| && t[i].Zai?
      ensures 1 <= i && t[i - 1].Mimo? && Rejected(env, t[..i - 1], t[i - 1])
    {
      assert i < |trace| && t[i] == trace[i];
      assert t[..i - 1] == trace[..i - 1] && t[i - 1] == trace[i - 1];
    }
  }

  /** Appending the secondary backend right after a rejected primary answer keeps the placement. */
  lemma ZaiAfterMimo(env: Env, trace: seq<Call>, mimo: Call, zai: Call)
    requires ZaiAfterRejectedMimo(env, trace) && mimo.Mimo? && Rejected(env, trace, mimo)
    ensures ZaiAfterRejectedMimo(env, trace + [mimo] + [zai])
  {
    var t := trace + [mimo] + [zai];
    forall i | 0 <= i < |t| && t[i].Zai?
      ensures 1 <= i && t[i - 1].Mimo? && Rejected(env, t[..i - 1], t[i - 1])
    {
      if i == |trace| + 1 {
        assert t[..i - 1] == trace && t[i - 1] == mimo;
      } else {
        assert i < |trace| && t[i] == trace[i];
        assert t[..i - 1] == trace[..i - 1] && t[i - 1] == trace[i - 1];
      }
    }
  }

  /** A web step adds only a search and possibly a web completion. */
  lemma WebStepZai(env: Env, trace: seq<Call>, question: string, name: Option<string>, context: seq<Message>)
    requires ZaiAfterRejectedMimo(env, trace)
    ensures var s := WebStep(env, trace, question, name, context);
      ZaiAfterRejectedMimo(env, if s.Done? then s.run.trace else s.trace)
  {
    var query := WebQuery(question);
    ZaiAfterExtend(env, trace, query);
    var s := WebStep(env, trace, question, name, context);
    if s.Done? && Returned(env, trace, query) {
      var web := s.run.trace[|s.run.trace| - 1];
      assert s.run.trace == trace + [query] + [web];
      ZaiAfterExtend(env, trace + [query], web);
    }
  }

  /** The secondary backend is asked only right after the primary one gave an answer the judge rejected. */
  lemma ZaiOnlyAfterMimoRejected(env: Env, question: string, name: Option<string>, context: seq<Message>)
    ensures ZaiAfterRejectedMimo(env, AskLlm(env, question, name, context).trace)
  {
    var first, mimo, zai, late := Stages(env, question, name, context);
    var qm := QuestionMessages(env, question, name, context);
    if Intent.IsTodayQuestion(question) {
      WebStepZai(env, [], question, name, context);
    }
    if first.Continue? {
      ZaiAfterExtend(env, first.trace, Mimo(qm));
      if mimo.Continue? {
        ZaiAfterMimo(env, first.trace, Mimo(qm), Zai(qm));
        if zai.Continue? {
          WebStepZai(env, zai.trace, question, name, context);
        }
      }
    }
  }

  /** Every call in `trace` returned instead of raising. */
  predicate Clean(env: Env, trace: seq<Call>) {
    forall i :: 0 <= i < |trace| ==> Returned(env, trace[..i], trace[i])
  }

  lemma CleanExtend(env: Env, trace: seq<Call>, call: Call)
    requires Clean(env, trace) && Returned(env, trace, call)
    ensures Clean(env, trace + [call])
  {
    var t := trace + [call];
    forall i | 0 <= i < |t|
      ensures Returned(env, t[..i], t[i])
    {
      if i < |trace| {
        assert t[..i] == trace[..i];
      } else {
        assert t[..i] == trace;
      }
    }
  }

  /** Every call of `r` but the last returned, and `r` failed exactly when its last call raised. */
  predicate FaultsPropagated(env: Env, r: Run)
    requires |r.trace| >= 1
  {
    var n := |r.trace|;
    && Clean(env, r.trace[..n - 1])
    && (r.outcome.Failure? <==> !Returned(env, r.trace[..n - 1], r.trace[n - 1]))
  }

  /** A completion that settles after a clean history ends on the only call that may have raised. */
  lemma CompletionSettles(env: Env, trace: seq<Call>, call: Call)
    requires !call.WebQuery? && Clean(env, trace)
    ensures FaultsPropagated(env, Run(Reply(env, trace, call), trace + [call]))
  {
    assert (trace + [call])[..|trace|] == trace;
  }

  /** A web step after a clean history either settles with faults propagated or passes on a clean history. */
  lemma WebStepFaults(env: Env, trace: seq<Call>, question: string, name: Option<string>, context: seq<Message>)
    requires Clean(env, trace)
    ensures var s := WebStep(env, trace, question, name, context);
      && (s.Done? ==> FaultsPropagated(env, s.run))
      && (s.Continue? ==> Clean(env, s.trace))
  {
    var query := WebQuery(question);
    var s := WebStep(env, trace, question, name, context);
    if Returned(env, trace, query) {
      CleanExtend(env, trace, query);
      if s.Done? {
        var web := s.run.trace[|s.run.trace| - 1];
        assert s.run.trace == trace + [query] + [web];
        CompletionSettles(env, trace + [query], web);
      }
    } else {
      assert s.run.trace[..|trace|] == trace;
    }
  }

  /** A backend step after a clean history either settles with faults propagated or passes on a clean history. */
  lemma ProviderStepFaults(env: Env, trace: seq<Call>, call: Call)
    requires (call.Mimo? || call.Zai?) && Clean(env, trace)
    ensures var s := ProviderStep(env, trace, call);
      && (s.Done? ==> FaultsPropagated(env, s.run))
      && (s.Continue? ==> Clean(env, s.trace))
  {
    if ProviderStep(env, trace, call).Continue? {
      CleanExtend(env, trace, call);
    } else {
      CompletionSettles(env, trace, call);
    }
  }

  /** A clean resolution that ends on the apology succeeded after calls that all returned. */
  lemma CleanApology(env: Env, trace: seq<Call>)
    requires |trace| >= 1 && Clean(env, trace)
    ensures FaultsPropagated(env, Run(Success(Answer(DefaultResponse)), trace))
  {
    var init := trace[..|trace| - 1];
    forall i | 0 <= i < |init|
      ensures Returned(env, init[..i], init[i])
    {
      assert init[..i] == trace[..i] && init[i] == trace[i];
    }
  }

  /**
   * Exceptions are never caught: every call but the last returned, and the
   * resolution fails exactly when the last call raised.
   */
  lemma ExceptionsPropagate(env: Env, question: string, name: Option<string>, context: seq<Message>)
    ensures FaultsPropagated(env, AskLlm(env, question, name, context))
  {
    var first, mimo, zai, late := Stages(env, question, name, context);
    var qm := QuestionMessages(env, question, name, context);
    assert Clean(env, []);
    if Intent.IsTodayQuestion(question) {
      WebStepFaults(env, [], question, name, context);
    }
    if first.Continue? {
      ProviderStepFaults(env, first.trace, Mimo(qm));
      if mimo.Continue? {
        ProviderStepFaults(env, mimo.trace, Zai(qm));
        if zai.Continue? {
          WebStepFaults(env, zai.trace, question, name, context);
          if late.Continue? {
            CleanApology(env, late.trace);
          }
        }
      }
    }
  }

  /**
   * The fixed apology is given only at the end of a resolution: unless the web
   * completion wrote it itself, it comes after the primary and the secondary
   * backend were both rejected and the last search returned a blank digest.
   * Conversely, a resolution that ends on a search that returned gives it.
   */
  predicate ApologyOnlyAtEnd(env: Env, r: Run)
    requires |r.trace| >= 1
  {
    var n := |r.trace|;
    && (r.outcome == Success(Answer(DefaultResponse)) && !r.trace[n - 1].ZaiWeb? ==>
      && n >= 3
      && r.trace[n - 3].Mimo? && Rejected(env, r.trace[..n - 3], r.trace[n - 3])
      && r.trace[n - 2].Zai? && Rejected(env, r.trace[..n - 2], r.trace[n - 2])
      && BlankSearch(env, r.trace[..n - 1], r.trace[n - 1]))
    && (r.trace[n - 1].WebQuery? && Returned(env, r.trace[..n - 1], r.trace[n - 1]) ==>
      r.outcome == Success(Answer(DefaultResponse)))
  }

  /** A web step that settles ends on a search that raised or on the web completion. */
  lemma WebStepApology(env: Env, trace: seq<Call>, question: string, name: Option<string>, context: seq<Message>)
    requires WebStep(env, trace, question, name, context).Done?
    ensures ApologyOnlyAtEnd(env, WebStep(env, trace, question, name, context).run)
  {
    var run := WebStep(env, trace, question, name, context).run;
    if !Returned(env, trace, WebQuery(question)) {
      assert run.trace[..|run.trace| - 1] == trace;
    }
  }

  /** A backend step settles on a good answer or an exception, never on the apology. */
  lemma BackendStepApology(env: Env, trace: seq<Call>, call: Call)
    requires (call.Mimo? || call.Zai?) && ProviderStep(env, trace, call).Done?
    ensures ApologyOnlyAtEnd(env, ProviderStep(env, trace, call).run)
  {
    DefaultIsNotGood();
  }

  /** After both backends were rejected, the late web step either settles or gives the apology after a blank digest. */
  lemma LateStepApology(env: Env, t0: seq<Call>, mimo: Call, zai: Call, question: string, name: Option<string>, context: seq<Message>)
    requires mimo.Mimo? && zai.Zai?
    requires Rejected(env, t0, mimo) && Rejected(env, t0 + [mimo], zai)
    requires WebStep(env, t0 + [mimo] + [zai], question, name, context).Continue?
    ensures var late := WebStep(env, t0 + [mimo] + [zai], question, name, context);
      ApologyOnlyAtEnd(env, Run(Success(Answer(DefaultResponse)), late.trace))
  {
    var t2 := t0 + [mimo] + [zai];
    var trace := t2 + [WebQuery(question)];
    assert trace[..|trace| - 1] == t2;
    assert trace[..|trace| - 2] == t0 + [mimo];
    assert trace[..|trace| - 3] == t0;
  }

  lemma DefaultOnlyAfterEverythingFails(env: Env, question: string, name: Option<string>, context: seq<Message>)
    ensures ApologyOnlyAtEnd(env, AskLlm(env, question, name, context))
  {
    var first, mimo, zai, late := Stages(env, question, name, context);
    var qm := QuestionMessages(env, question, name, context);
    if first.Done? {
      WebStepApology(env, [], question, name, context);
    } else if mimo.Done? {
      BackendStepApology(env, first.trace, Mimo(qm));
    } else if zai.Done? {
      BackendStepApology(env, mimo.trace, Zai(qm));
    } else if late.Done? {
      WebStepApology(env, zai.trace, question, name, context);
    } else {
      LateStepApology(env, first.trace, Mimo(qm), Zai(qm), question, name, context);
    }
  }

  /**
   * Call `i` of `trace` sends the question: a search for it, a backend call
   * with the question messages, or a web completion right after a search for
   * it, carrying that search's non-blank digest.
   */
  predicate CarriesQuestion(env: Env, question: string, name: Option<string>, context: seq<Message>, trace: seq<Call>, i: int)
    requires 0 <= i < |trace|
  {
    var qm := QuestionMessages(env, question, name, context);
    || trace[i] == WebQuery(question)
    || trace[i] == Mimo(qm)
    || trace[i] == Zai(qm)
    || (&& trace[i].ZaiWeb? && i >= 1 && trace[i - 1] == WebQuery(question)
        && env.search(trace[..i - 1], question).Success?
        && var webData := Digest(env.search(trace[..i - 1], question).value);
        !IsBlank(webData) && trace[i] == ZaiWeb(WebMessages(env, question, webData, name, context)))
  }

  predicate AllCarryQuestion(env: Env, question: string, name: Option<string>, context: seq<Message>, trace: seq<Call>) {
    forall i :: 0 <= i < |trace| ==> CarriesQuestion(env, question, name, context, trace, i)
  }

  /** Appending a call leaves what the earlier calls sent unchanged. */
  lemma CarriesPrefix(env: Env, question: string, name: Option<string>, context: seq<Message>, trace: seq<Call>, call: Call)
    requires AllCarryQuestion(env, question, name, context, trace)
    ensures forall i :: 0 <= i < |trace| ==> CarriesQuestion(env, question, name, context, trace + [call], i)
  {
    var t := trace + [call];
    forall i | 0 <= i < |trace|
      ensures CarriesQuestion(env, question, name, context, t, i)
    {
      assert CarriesQuestion(env, question, name, context, trace, i);
      assert t[i] == trace[i];
      if i >= 1 {
        assert t[i - 1] == trace[i - 1] && t[..i - 1] == trace[..i - 1];
      }
    }
  }

  /** Appending a search for the question or a backend call with the question messages keeps every call carrying the question. */
  lemma CarriesExtend(env: Env, question: string, name: Option<string>, context: seq<Message>, trace: seq<Call>, call: Call)
    requires AllCarryQuestion(env, question, name, context, trace)
    requires var qm := QuestionMessages(env, question, name, context);
      call == WebQuery(question) || call == Mimo(qm) || call == Zai(qm)
    ensures AllCarryQuestion(env, question, name, context, trace + [call])
  {
    CarriesPrefix(env, question, name, context, trace, call);
    assert CarriesQuestion(env, question, name, context, trace + [call], |trace|);
  }

  /** A web completion made right after a search with a non-blank digest carries that digest. */
  lemma CompletionCarriesDigest(env: Env, trace: seq<Call>, question: string, name: Option<string>, context: seq<Message>)
    requires env.search(trace, question).Success? && !IsBlank(Digest(env.search(trace, question).value))
    ensures var webData := Digest(env.search(trace, question).value);
      var t := trace + [WebQuery(question)] + [ZaiWeb(WebMessages(env, question, webData, name, context))];
      CarriesQuestion(env, question, name, context, t, |trace| + 1)
  {
    var webData := Digest(env.search(trace, question).value);
    var t := trace + [WebQuery(question)] + [ZaiWeb(WebMessages(env, question, webData, name, context))];
    assert t[..|trace|] == trace;
  }

  /** Appending that web completion keeps every call carrying the question. */
  lemma WebCompletionCarries(env: Env, trace: seq<Call>, question: string, name: Option<string>, context: seq<Message>)
    requires AllCarryQuestion(env, question, name, context, trace + [WebQuery(question)])
    requires env.search(trace, question).Success? && !IsBlank(Digest(env.search(trace, question).value))
    ensures var webData := Digest(env.search(trace, question).value);
      var t := trace + [WebQuery(question)] + [ZaiWeb(WebMessages(env, question, webData, name, context))];
      AllCarryQuestion(env, question, name, context, t)
  {
    var webData := Digest(env.search(trace, question).value);
    var t := trace + [WebQuery(question)] + [ZaiWeb(WebMessages(env, question, webData, name, context))];
    CarriesPrefix(env, question, name, context, trace + [WebQuery(question)], ZaiWeb(WebMessages(env, question, webData, name, context)));
    CompletionCarriesDigest(env, trace, question, name, context);
    CarriesUpToLast(env, question, name, context, t);
  }

  lemma CarriesUpToLast(env: Env, question: string, name: Option<string>, context: seq<Message>, t: seq<Call>)
    requires |t| >= 1 && CarriesQuestion(env, question, name, context, t, |t| - 1)
    requires forall i :: 0 <= i < |t| - 1 ==> CarriesQuestion(env, question, name, context, t, i)
    ensures AllCarryQuestion(env, question, name, context, t)
  {
    forall i | 0 <= i < |t|
      ensures CarriesQuestion(env, question, name, context, t, i)
    {
      if i < |t| - 1 {
        assert CarriesQuestion(env, question, name, context, t, i);
      }
    }
  }

  /** A web step sends a search for the question and, after a non-blank digest, the web completion built from it. */
  lemma WebStepCarries(env: Env, trace: seq<Call>, question: string, name: Option<string>, context: seq<Message>)
    requires AllCarryQuestion(env, question, name, context, trace)
    ensures var s := WebStep(env, trace, question, name, context);
      AllCarryQuestion(env, question, name, context, if s.Done? then s.run.trace else s.trace)
  {
    var query := WebQuery(question);
    CarriesExtend(env, question, name, context, trace, query);
    if Returned(env, trace, query) && !IsBlank(Digest(env.search(trace, question).value)) {
      WebCompletionCarries(env, trace, question, name, context);
      var web := ZaiWeb(WebMessages(env, question, Digest(env.search(trace, question).value), name, context));
      assert trace + [query, web] == trace + [query] + [web];
    }
  }

  /**
   * What each call sends: every search is for the question, every backend call
   * carries the question messages, and every web completion carries the
   * non-blank digest of the search just before it.
   */
  lemma CallsCarryTheQuestion(env: Env, question: string, name: Option<string>, context: seq<Message>)
    ensures AllCarryQuestion(env, question, name, context, AskLlm(env, question, name, context).trace)
  {
    var first, mimo, zai, late := Stages(env, question, name, context);
    var qm := QuestionMessages(env, question, name, context);
    if Intent.IsTodayQuestion(question) {
      WebStepCarries(env, [], question, name, context);
    }
    if first.Continue? {
      CarriesExtend(env, question, name, context, first.trace, Mimo(qm));
      if mimo.Continue? {
        CarriesExtend(env, question, name, context, mimo.trace, Zai(qm));
        if zai.Continue? {
          WebStepCarries(env, zai.trace, question, name, context);
        }
      }
    }
  }

  /**
   * A search in `trace` is either its first call, made for a time-sensitive
   * question, or comes right after the primary and then the secondary backend.
   */
  predicate SearchesPlaced(trace: seq<Call>, timeSensitive: bool) {
    forall i :: 0 <= i < |trace| && trace[i].WebQuery? ==>
      (i == 0 && timeSensitive) || (i >= 2 && trace[i - 2].Mimo? && trace[i - 1].Zai?)
  }

  /** What an early search may put before the backends: nothing, or one search for a time-sensitive question. */
  predicate EarlyPrefix(t0: seq<Call>, timeSensitive: bool) {
    t0 == [] || (|t0| == 1 && t0[0].WebQuery? && timeSensitive)
  }

  lemma NoLaterSearch(t0: seq<Call>, rest: seq<Call>, timeSensitive: bool)
    requires EarlyPrefix(t0, timeSensitive)
    requires forall i :: 0 <= i < |rest| ==> !rest[i].WebQuery?
    ensures SearchesPlaced(t0 + rest, timeSensitive)
  {
    var trace := t0 + rest;
    forall i | 0 <= i < |trace| && trace[i].WebQuery?
      ensures i == 0 && timeSensitive
    {
    }
  }

  /** A web step appends a search for the question and perhaps a web completion, and nothing else. */
  lemma WebStepShape(env: Env, trace: seq<Call>, question: string, name: Option<string>, context: seq<Message>)
    ensures var s := WebStep(env, trace, question, name, context);
      var t := if s.Done? then s.run.trace else s.trace;
      && |trace| + 1 <= |t| <= |trace| + 2 && t[..|trace|] == trace && t[|trace|] == WebQuery(question)
      && (|t| == |trace| + 2 ==> t[|trace| + 1].ZaiWeb?)
  {
    var query := WebQuery(question);
    assert (trace + [query])[..|trace|] == trace;
    var s := WebStep(env, trace, question, name, context);
    if s.Done? && Returned(env, trace, query) {
      assert s.run.trace[..|trace|] == trace;
    }
  }

  lemma EarlySearch(t: seq<Call>)
    requires 1 <= |t| <= 2 && t[0].WebQuery? && (|t| == 2 ==> t[1].ZaiWeb?)
    ensures SearchesPlaced(t, true)
  {
  }

  /** The early web step settles only with a search first, perhaps followed by the web completion. */
  lemma EarlyStepPlaced(env: Env, question: string, name: Option<string>, context: seq<Message>)
    requires WebStep(env, [], question, name, context).Done?
    ensures SearchesPlaced(WebStep(env, [], question, name, context).run.trace, true)
  {
    WebStepShape(env, [], question, name, context);
    EarlySearch(WebStep(env, [], question, name, context).run.trace);
  }

  /** A backend step appends one backend call, which is no search. */
  lemma BackendStepPlaced(env: Env, t0: seq<Call>, calls: seq<Call>, trace: seq<Call>, call: Call, timeSensitive: bool)
    requires EarlyPrefix(t0, timeSensitive) && (call.Mimo? || call.Zai?)
    requires trace == t0 + calls && forall i :: 0 <= i < |calls| ==> !calls[i].WebQuery?
    requires ProviderStep(env, trace, call).Done?
    ensures SearchesPlaced(ProviderStep(env, trace, call).run.trace, timeSensitive)
  {
    var rest := calls + [call];
    assert trace + [call] == t0 + rest;
    assert forall i :: 0 <= i < |rest| ==> !rest[i].WebQuery?;
    NoLaterSearch(t0, rest, timeSensitive);
  }

  /** The late web step, after both backends, appends a search and perhaps the web completion. */
  lemma LateStepPlaced(env: Env, t0: seq<Call>, mimo: Call, zai: Call, question: string, name: Option<string>, context: seq<Message>, timeSensitive: bool)
    requires EarlyPrefix(t0, timeSensitive) && mimo.Mimo? && zai.Zai?
    ensures var late := WebStep(env, t0 + [mimo] + [zai], question, name, context);
      SearchesPlaced(if late.Done? then late.run.trace else late.trace, timeSensitive)
  {
    var before := t0 + [mimo] + [zai];
    WebStepShape(env, before, question, name, context);
    var late := WebStep(env, before, question, name, context);
    var trace := if late.Done? then late.run.trace else late.trace;
    var tail := trace[|before|..];
    assert before == t0 + [mimo, zai];
    assert trace == before + tail;
    LateSearch(t0, mimo, zai, tail, timeSensitive);
  }

  lemma LateSearch(t0: seq<Call>, mimo: Call, zai: Call, tail: seq<Call>, timeSensitive: bool)
    requires EarlyPrefix(t0, timeSensitive) && mimo.Mimo? && zai.Zai?
    requires 1 <= |tail| <= 2 && tail[0].WebQuery? && (|tail| == 2 ==> tail[1].ZaiWeb?)
    ensures SearchesPlaced(t0 + [mimo, zai] + tail, timeSensitive)
  {
  }

  /**
   * Where searches happen: first, for a time-sensitive question, or right
   * after the primary and then the secondary backend were asked (both were
   * rejected, by `ShortCircuit`).
   */
  lemma SearchPlacement(env: Env, question: string, name: Option<string>, context: seq<Message>)
    ensures SearchesPlaced(AskLlm(env, question, name, context).trace, Intent.IsTodayQuestion(question))
  {
    var first, mimo, zai, late := Stages(env, question, name, context);
    var qm := QuestionMessages(env, question, name, context);
    var today := Intent.IsTodayQuestion(question);
    if first.Done? {
      EarlyStepPlaced(env, question, name, context);
      return;
    }
    assert [] + [WebQuery(question)] == [WebQuery(question)];
    assert EarlyPrefix(first.trace, today);
    if mimo.Done? {
      assert first.trace + [] == first.trace;
      BackendStepPlaced(env, first.trace, [], first.trace, Mimo(qm), today);
    } else if zai.Done? {
      BackendStepPlaced(env, first.trace, [Mimo(qm)], mimo.trace, Zai(qm), today);
    } else {
      LateStepPlaced(env, first.trace, Mimo(qm), Zai(qm), question, name, context, today);
    }
  }

  /** Every backend call in `trace` gave an answer the judge rejected. */
  predicate AllRejected(env: Env, trace: seq<Call>) {
    forall i :: 0 <= i < |trace| && (trace[i].Mimo? || trace[i].Zai?) ==> Rejected(env, trace[..i], trace[i])
  }

  lemma AllRejectedExtend(env: Env, trace: seq<Call>, call: Call)
    requires AllRejected(env, trace)
    requires call.Mimo? || call.Zai? ==> Rejected(env, trace, call)
    ensures AllRejected(env, trace + [call])
  {
    var t := trace + [call];
    forall i | 0 <= i < |t| && (t[i].Mimo? || t[i].Zai?)
      ensures Rejected(env, t[..i], t[i])
    {
      if i < |trace| {
        assert t[..i] == trace[..i];
      } else {
        assert t[..i] == trace;
      }
    }
  }

  /** Every backend call of `r` before its last call gave a rejected answer. */
  predicate RejectedBeforeLast(env: Env, r: Run)
    requires |r.trace| >= 1
  {
    AllRejected(env, r.trace[..|r.trace| - 1])
  }

  /** A web step after a history of rejections either settles or passes on a history of rejections. */
  lemma WebStepRejections(env: Env, trace: seq<Call>, question: string, name: Option<string>, context: seq<Message>)
    requires AllRejected(env, trace)
    ensures var s := WebStep(env, trace, question, name, context);
      && (s.Done? ==> RejectedBeforeLast(env, s.run))
      && (s.Continue? ==> AllRejected(env, s.trace) && RejectedBeforeLast(env, Run(Success(Answer(DefaultResponse)), s.trace)))
  {
    var query := WebQuery(question);
    var s := WebStep(env, trace, question, name, context);
    AllRejectedExtend(env, trace, query);
    if s.Done? && Returned(env, trace, query) {
      assert s.run.trace[..|s.run.trace| - 1] == trace + [query];
    } else {
      assert (trace + [query])[..|trace|] == trace;
    }
  }

  /** A backend step after a history of rejections either settles on its own call or passes on a history of rejections. */
  lemma ProviderStepRejections(env: Env, trace: seq<Call>, call: Call)
    requires (call.Mimo? || call.Zai?) && AllRejected(env, trace)
    ensures var s := ProviderStep(env, trace, call);
      && (s.Done? ==> RejectedBeforeLast(env, s.run))
      && (s.Continue? ==> AllRejected(env, s.trace))
  {
    if ProviderStep(env, trace, call).Continue? {
      AllRejectedExtend(env, trace, call);
    } else {
      assert (trace + [call])[..|trace|] == trace;
    }
  }

  /**
   * The resolution stops at the first acceptable answer: every backend call
   * before the last call of the resolution gave an answer the judge rejected.
   */
  lemma ShortCircuit(env: Env, question: string, name: Option<string>, context: seq<Message>)
    ensures RejectedBeforeLast(env, AskLlm(env, question, name, context))
  {
    var first, mimo, zai, late := Stages(env, question, name, context);
    var qm := QuestionMessages(env, question, name, context);
    assert AllRejected(env, []);
    if Intent.IsTodayQuestion(question) {
      WebStepRejections(env, [], question, name, context);
    }
    if first.Continue? {
      ProviderStepRejections(env, first.trace, Mimo(qm));
      if mimo.Continue? {
        ProviderStepRejections(env, mimo.trace, Zai(qm));
        if zai.Continue? {
          WebStepRejections(env, zai.trace, question, name, context);
        }
      }
    }
  }

}

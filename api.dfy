/**
 * The HTTP layer's piece of logic (app/main.py): picking the question out of
 * the submitted conversation, and answering at once when there is none.
 */
module Api {
  import opened Wrappers
  import opened Types
  import opened Text

  /**
   * A turn that can be the question: from the user, with content that is not
   * all whitespace (so that its `.strip()` is not empty, by `QuestionIffStripped`).
   */
  predicate IsQuestion(m: Message) {
    m.role == "user" && !AllSpace(m.content)
  }

  /** The test the source writes: a user turn whose stripped content is not empty. */
  lemma QuestionIffStripped(m: Message)
    ensures IsQuestion(m) <==> m.role == "user" && Strip(m.content) != []
  {
  }

  /**
   * `get_user_question`: scanning from the end, the content of the first
   * question turn, exactly as sent (the strip is only the test).
   */
  function GetUserQuestion(messages: seq<Message>): (q: Option<string>)
    ensures q.None? <==> forall i :: 0 <= i < |messages| ==> !IsQuestion(messages[i])
    ensures q.Some? ==>
      exists i :: 0 <= i < |messages| && IsQuestion(messages[i]) && messages[i].content == q.value &&
        (forall j :: i < j < |messages| ==> !IsQuestion(messages[j]))
  {
    if messages == [] then None
    else
      var last := messages[|messages| - 1];
      if IsQuestion(last) then Some(last.content)
      else
        var init := messages[..|messages| - 1];
        var q := GetUserQuestion(init);
        assert forall i :: 0 <= i < |init| ==> init[i] == messages[i];
        q
  }

  /** A question is never empty: its content is not blank. */
  lemma QuestionNotEmpty(messages: seq<Message>)
    requires GetUserQuestion(messages).Some?
    ensures GetUserQuestion(messages).value != []
  {
    var q := GetUserQuestion(messages).value;
    var i :| 0 <= i < |messages| && IsQuestion(messages[i]) && messages[i].content == q;
  }

  /** A question turn at the end is the question, whatever came before it, and keeps its surrounding whitespace. */
  lemma LastQuestionWins(messages: seq<Message>, m: Message)
    requires IsQuestion(m)
    ensures GetUserQuestion(messages + [m]) == Some(m.content)
  {
    assert (messages + [m])[|messages|] == m;
  }

  /** Turns after the question that cannot be questions (assistant turns, blank user turns) do not change it. */
  lemma {:induction false} LaterNonQuestionsIgnored(messages: seq<Message>, later: seq<Message>)
    requires forall i :: 0 <= i < |later| ==> !IsQuestion(later[i])
    ensures GetUserQuestion(messages + later) == GetUserQuestion(messages)
  {
    if later != [] {
      var init := later[..|later| - 1];
      assert (messages + later)[..|messages + later| - 1] == messages + init;
      assert (messages + later)[|messages + later| - 1] == later[|later| - 1];
      assert !IsQuestion(later[|later| - 1]);
      assert GetUserQuestion(messages + later) == GetUserQuestion(messages + init);
      LaterNonQuestionsIgnored(messages, init);
    } else {
      assert messages + later == messages;
    }
  }

  /** The answer when there is no question. */
  const NoQuestion: string := "Nenhuma pergunta encontrada."

  /** What the handler does next: answer at once, or hand the question to the resolver. */
  datatype Reply = Respond(answer: Answer) | Resolve(question: string)

  /**
   * `ask`: with no question, the fixed answer and no resolver call; otherwise
   * the question goes on to the resolver. (`not question` is `None` alone: a
   * question is never empty, by `QuestionNotEmpty`.)
   */
  function Ask(messages: seq<Message>): (r: Reply)
    ensures r.Respond? <==> forall i :: 0 <= i < |messages| ==> !IsQuestion(messages[i])
    ensures r.Respond? ==> r.answer == Answer(NoQuestion)
    ensures r.Resolve? ==> exists i :: 0 <= i < |messages| && IsQuestion(messages[i]) && messages[i].content == r.question
    ensures r.Resolve? ==> GetUserQuestion(messages) == Some(r.question)
  {
    var question := GetUserQuestion(messages);
    if question.None? then Respond(Answer(NoQuestion)) else Resolve(question.value)
  }

  /** An empty conversation, or one with only blank user turns, gets the fixed answer. */
  lemma BlankConversationGetsFixedAnswer(blank: string, other: Message)
    requires IsBlank(blank) && other.role != "user"
    ensures Ask([]) == Respond(Answer(NoQuestion))
    ensures Ask([Message("user", blank), other]) == Respond(Answer(NoQuestion))
  {
    var ms := [Message("user", blank), other];
    assert forall i :: 0 <= i < |ms| ==> !IsQuestion(ms[i]);
  }
}

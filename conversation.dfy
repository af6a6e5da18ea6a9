/**
 * The message list sent to a completion backend: the system prompt, the
 * caller's conversation context without repeats of the current question, and
 * the formatted question (app/llm.py `build_messages_with_context`, and the
 * same loop written inline in `zai_for_web_search`).
 */
module Conversation {
  import opened Types

  /** A context turn that the builder skips: a user turn whose content is exactly the current question. */
  predicate IsRepeat(m: Message, question: string) {
    m.role == "user" && m.content == question
  }

  /** The context turns that are forwarded, in their original order. */
  function Retained(context: seq<Message>, question: string): seq<Message> {
    if context == [] then []
    else
      var last := context[|context| - 1];
      Retained(context[..|context| - 1], question) + (if IsRepeat(last, question) then [] else [last])
  }

  /** The whole message list: one system turn, the retained context, one user turn. */
  function Messages(systemPrompt: string, context: seq<Message>, question: string, userPrompt: string): seq<Message> {
    [Message("system", systemPrompt)] + Retained(context, question) + [Message("user", userPrompt)]
  }

  /**
   * Builds the list by appending in a loop, skipping repeats of the question.
   * `userPrompt` is the formatted question; its template text is not modelled.
   */
  method BuildMessagesWithContext(systemPrompt: string, context: seq<Message>, question: string, userPrompt: string)
    returns (messages: seq<Message>)
    ensures messages == Messages(systemPrompt, context, question, userPrompt)
  {
    messages := [Message("system", systemPrompt)];
    for i := 0 to |context|
      invariant messages == [Message("system", systemPrompt)] + Retained(context[..i], question)
    {
      assert context[..i + 1][..i] == context[..i];
      var msg := context[i];
      if msg.role == "user" && msg.content == question {
        continue;
      }
      messages := messages + [Message(msg.role, msg.content)];
    }
    assert context[..|context|] == context;
    messages := messages + [Message("user", userPrompt)];
  }

  /** The list begins with exactly one system turn and ends with exactly one user turn carrying the prompt. */
  lemma MessagesFrame(systemPrompt: string, context: seq<Message>, question: string, userPrompt: string)
    ensures var ms := Messages(systemPrompt, context, question, userPrompt);
      && |ms| == |Retained(context, question)| + 2
      && ms[0] == Message("system", systemPrompt)
      && ms[|ms| - 1] == Message("user", userPrompt)
      && ms[1..|ms| - 1] == Retained(context, question)
  {
  }

  /** Filtering distributes over concatenation, so the retained turns keep their original order. */
  lemma {:induction false} RetainedAppend(a: seq<Message>, b: seq<Message>, question: string)
    ensures Retained(a + b, question) == Retained(a, question) + Retained(b, question)
  {
    if b == [] {
      assert a + b == a;
    } else {
      var b' := b[..|b| - 1];
      assert (a + b)[..|a + b| - 1] == a + b';
      RetainedAppend(a, b', question);
    }
  }

  /** No repeat of the question survives, and everything that survives comes from the context. */
  lemma {:induction false} RetainedDropsOnlyRepeats(context: seq<Message>, question: string)
    ensures forall m :: m in Retained(context, question) ==> m in context && !IsRepeat(m, question)
  {
    if context != [] {
      var init := context[..|context| - 1];
      RetainedDropsOnlyRepeats(init, question);
      assert forall m :: m in init ==> m in context;
    }
  }

  /** Appending one turn adds one occurrence of it and leaves the other counts alone. */
  lemma CountAppend(turns: seq<Message>, last: Message, m: Message)
    ensures multiset(turns + [last])[m] == multiset(turns)[m] + (if last == m then 1 else 0)
  {
    assert multiset(turns + [last]) == multiset(turns) + multiset{last};
  }

  /**
   * Exactly the repeats are dropped: every other turn (a duplicate with another role included)
   * keeps its number of occurrences.
   */
  lemma {:induction false} RetainedCounts(context: seq<Message>, question: string, m: Message)
    ensures multiset(Retained(context, question))[m] == if IsRepeat(m, question) then 0 else multiset(context)[m]
  {
    if context != [] {
      var init := context[..|context| - 1];
      var last := context[|context| - 1];
      RetainedCounts(init, question, m);
      assert context == init + [last];
      CountAppend(init, last, m);
      if IsRepeat(last, question) {
        assert Retained(context, question) == Retained(init, question) + [];
      } else {
        CountAppend(Retained(init, question), last, m);
      }
    }
  }

  /** A context without repeats of the question is forwarded unchanged. */
  lemma {:induction false} RetainedWithoutRepeats(context: seq<Message>, question: string)
    requires forall i :: 0 <= i < |context| ==> !IsRepeat(context[i], question)
    ensures Retained(context, question) == context
  {
    if context != [] {
      var init := context[..|context| - 1];
      RetainedWithoutRepeats(init, question);
      assert init + [context[|context| - 1]] == context;
    }
  }
}

/**
 * The answer-quality judge (app/llm.py `is_good_answer`): an answer is good
 * when its lower-cased text has at least 40 characters and contains none of
 * the fixed uncertainty or refusal phrases.
 */
module Judge {
  import opened Types
  import opened Text

  const MinLength: nat := 40

  /** The negative signals, in the order the source lists them. */
  const BadSignals: seq<string> := [
    "não tenho certeza",
    "não encontrei",
    "não é possível",
    "informação insuficiente",
    "não tenho",
    "não possuo informações sobre",
    "não possuo informações"
  ]

  /** The same list without the entries that contain another entry. */
  const CoreSignals: seq<string> := [
    "não encontrei",
    "não é possível",
    "informação insuficiente",
    "não tenho",
    "não possuo informações"
  ]

  predicate HasSignal(text: string, signals: seq<string>)
    ensures HasSignal(text, signals) <==> exists i :: 0 <= i < |signals| && Contains(text, signals[i])
  {
    signals != [] && (Contains(text, signals[0]) || HasSignal(text, signals[1..]))
  }

  predicate IsGoodAnswer(answer: Answer) {
    var text := Lower(answer.response);
    |text| >= MinLength && !HasSignal(text, BadSignals)
  }

  /**
   * The two longer entries are redundant: "não tenho" is part of "não tenho certeza"
   * and "não possuo informações" of "não possuo informações sobre", so the
   * shorter list gives the same verdict on every answer.
   */
  lemma CoreSignalsSuffice(answer: Answer)
    ensures IsGoodAnswer(answer) <==> |answer.response| >= MinLength && !HasSignal(Lower(answer.response), CoreSignals)
  {
    var text := Lower(answer.response);
    if HasSignal(text, BadSignals) {
      var i :| 0 <= i < |BadSignals| && Contains(text, BadSignals[i]);
      if i == 0 {
        ContainsPrefix(BadSignals[0], 9);
        assert BadSignals[0][..9] == CoreSignals[3];
        ContainsTransitive(text, BadSignals[0], CoreSignals[3]);
      } else if i == 5 {
        ContainsPrefix(BadSignals[5], 22);
        assert BadSignals[5][..22] == CoreSignals[4];
        ContainsTransitive(text, BadSignals[5], CoreSignals[4]);
      } else {
        assert BadSignals[i] in CoreSignals;
      }
    }
    if HasSignal(text, CoreSignals) {
      var i :| 0 <= i < |CoreSignals| && Contains(text, CoreSignals[i]);
      assert CoreSignals[i] in BadSignals;
    }
  }

  /**
   * The fixed fallback text of the resolver, "Não encontrei informação confiável
   * para responder." (written as two literals joined).
   */
  const DefaultResponse: string := "Não encontrei informação " + "confiável para responder."

  /** The fallback text itself would be judged bad: it says "não encontrei" once lower-cased. */
  lemma DefaultIsNotGood()
    ensures !IsGoodAnswer(Answer(DefaultResponse))
  {
    var text, signal := Lower(DefaultResponse), BadSignals[1];
    assert signal == "não encontrei";
    assert text[0] == LowerChar(DefaultResponse[0]) == signal[0];
    forall i | 1 <= i < 13
      ensures text[i] == signal[i]
    {
      assert DefaultResponse[i] == "Não encontrei informação "[i] == signal[i];
      assert text[i] == LowerChar(DefaultResponse[i]);
      assert LowerChar(signal[i]) == signal[i];
    }
    assert text[..13] == signal;
    assert OccursAt(text, signal, 0);
  }

  /** Answers shorter than 40 characters, such as "ok", are rejected whatever they say. */
  lemma ShortIsNotGood(answer: Answer)
    requires |answer.response| < MinLength
    ensures !IsGoodAnswer(answer)
  {
  }

  /** A text whose characters `lower()` leaves alone is its own lower-case form. */
  lemma LowerKeeps(s: string)
    requires forall c :: c in s ==> LowerChar(c) == c
    ensures Lower(s) == s
  {
    assert forall i :: 0 <= i < |s| ==> s[i] in s;
  }

  /** The signals are written in lower case. */
  lemma SignalIsLower(k: nat)
    requires k < |BadSignals|
    ensures Lower(BadSignals[k]) == BadSignals[k]
  {
    if k == 0 {
      LowerKeeps(BadSignals[0]);
    } else if k == 1 {
      LowerKeeps(BadSignals[1]);
    } else if k == 2 {
      LowerKeeps(BadSignals[2]);
    } else if k == 3 {
      LowerKeeps(BadSignals[3]);
    } else if k == 4 {
      LowerKeeps(BadSignals[4]);
    } else if k == 5 {
      LowerKeeps(BadSignals[5]);
    } else {
      LowerKeeps(BadSignals[6]);
    }
  }

  /** A long answer that contains a signal is rejected, whatever surrounds the signal. */
  lemma SignalIsNotGood(before: string, k: nat, after: string)
    requires k < |BadSignals|
    ensures !IsGoodAnswer(Answer(before + BadSignals[k] + after))
  {
    var signal := BadSignals[k];
    SignalIsLower(k);
    LowerConcat(before, signal);
    LowerConcat(before + signal, after);
    assert OccursAt(Lower(before + signal + after), signal, |before|);
  }
}

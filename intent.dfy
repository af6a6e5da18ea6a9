/**
 * The intent classifier (app/llm.py `normalize` and `is_today_question`):
 * a question is time-sensitive when, after lower-casing and removing
 * diacritics, one of eight fixed phrases occurs in it between word boundaries.
 */
module Intent {
  import opened Text

  /** The Combining Diacritical Marks block (U+0300 to U+036F), all of Unicode category Mn. */
  predicate IsCombiningMark(c: char) {
    '\U{300}' <= c <= '\U{36F}'
  }

  /**
   * The base letter of a lower-case Latin-1 letter whose canonical decomposition
   * (NFD) is that letter followed by one combining mark; other characters are their own base.
   */
  function BaseLetter(c: char): char {
    if '\U{E0}' <= c <= '\U{E5}' then 'a'
    else if c == '\U{E7}' then 'c'
    else if '\U{E8}' <= c <= '\U{EB}' then 'e'
    else if '\U{EC}' <= c <= '\U{EF}' then 'i'
    else if c == '\U{F1}' then 'n'
    else if '\U{F2}' <= c <= '\U{F6}' then 'o'
    else if '\U{F9}' <= c <= '\U{FC}' then 'u'
    else if c == '\U{FD}' || c == '\U{FF}' then 'y'
    else c
  }

  /** What lower-casing, NFD and dropping the Mn marks leave of one character. */
  function NormalizeChar(c: char): seq<char> {
    var lower := LowerChar(c);
    if IsCombiningMark(lower) then [] else [BaseLetter(lower)]
  }

  /** A character that normalization leaves as it is. */
  predicate IsNormal(c: char) {
    !IsCombiningMark(c) && LowerChar(c) == c && BaseLetter(c) == c
  }

  /** `normalize(text)`: lower-case, decompose, and drop the combining marks. */
  function Normalize(s: string): string {
    if s == [] then [] else NormalizeChar(s[0]) + Normalize(s[1..])
  }

  /** No upper-case letter, accented letter or combining mark survives normalization. */
  lemma {:induction false} NormalizeGivesNormal(s: string)
    ensures forall i :: 0 <= i < |Normalize(s)| ==> IsNormal(Normalize(s)[i])
  {
    if s != [] {
      NormalizeGivesNormal(s[1..]);
    }
  }

  lemma {:induction false} NormalizeConcat(a: string, b: string)
    ensures Normalize(a + b) == Normalize(a) + Normalize(b)
  {
    if a != [] {
      assert (a + b)[0] == a[0];
      assert (a + b)[1..] == a[1..] + b;
      NormalizeConcat(a[1..], b);
    } else {
      assert a + b == b;
    }
  }

  /** Normalization leaves a string of normal characters unchanged. */
  lemma {:induction false} NormalizeKeepsNormal(s: string)
    requires forall i :: 0 <= i < |s| ==> IsNormal(s[i])
    ensures Normalize(s) == s
  {
    if s != [] {
      NormalizeKeepsNormal(s[1..]);
    }
  }

  /** Lower-case ASCII letters, the space and '?', which normalization leaves alone. */
  predicate IsPlain(c: char) {
    'a' <= c <= 'z' || c == ' ' || c == '?'
  }

  lemma NormalizeKeepsPlain(s: string)
    requires forall c :: c in s ==> IsPlain(c)
    ensures Normalize(s) == s
  {
    assert forall i :: 0 <= i < |s| ==> s[i] in s;
    NormalizeKeepsNormal(s);
  }

  lemma NormalizeIdempotent(s: string)
    ensures Normalize(Normalize(s)) == Normalize(s)
  {
    NormalizeGivesNormal(s);
    NormalizeKeepsNormal(Normalize(s));
  }

  /** Case and accent folding of one character. */
  function Fold(c: char): char {
    BaseLetter(LowerChar(c))
  }

  /**
   * Strings that differ only in the case or the accents of their letters
   * ("não", "nao", "NÃO") normalize alike.
   */
  lemma {:induction false} NormalizeIgnoresCaseAndAccents(s: string, t: string)
    requires |s| == |t|
    requires forall i :: 0 <= i < |s| ==> Fold(s[i]) == Fold(t[i])
    ensures Normalize(s) == Normalize(t)
  {
    if s != [] {
      assert NormalizeChar(s[0]) == NormalizeChar(t[0]);
      NormalizeIgnoresCaseAndAccents(s[1..], t[1..]);
    }
  }

  lemma NormalizeDropsMark(front: string, mark: char)
    requires IsCombiningMark(mark)
    ensures Normalize(front + [mark]) == Normalize(front)
  {
    assert Normalize([mark]) == [] by {
      assert [mark][1..] == [];
    }
    NormalizeConcat(front, [mark]);
  }

  /** A combining mark inserted anywhere (a decomposed accent) is removed again. */
  lemma CombiningMarkIgnored(front: string, mark: char, back: string)
    requires IsCombiningMark(mark)
    ensures Normalize(front + [mark] + back) == Normalize(front + back)
  {
    NormalizeConcat(front + [mark], back);
    NormalizeDropsMark(front, mark);
    NormalizeConcat(front, back);
  }

  /** normalize("HOJE") == normalize("hoje") == normalize("hoJÉ") == "hoje". */
  lemma NormalizeHoje()
    ensures Normalize("HOJE") == Normalize("hoje") == Normalize("hoJÉ") == "hoje"
  {
    NormalizeKeepsNormal("hoje");
    NormalizeIgnoresCaseAndAccents("HOJE", "hoje");
    NormalizeIgnoresCaseAndAccents("hoJÉ", "hoje");
  }

  /** Python's `\w` on ASCII and Latin-1: letters, digits (also superscripts and vulgar fractions) and '_'. */
  predicate IsWordChar(c: char) {
    || 'a' <= c <= 'z' || 'A' <= c <= 'Z' || '0' <= c <= '9' || c == '_'
    || c == '\U{AA}' || c == '\U{B2}' || c == '\U{B3}' || c == '\U{B5}' || c == '\U{B9}' || c == '\U{BA}'
    || '\U{BC}' <= c <= '\U{BE}'
    || ('\U{C0}' <= c <= '\U{FF}' && c != '\U{D7}' && c != '\U{F7}')
  }

  /** `\b` at position `k`: a word character on exactly one side. */
  predicate Boundary(q: string, k: int)
    requires 0 <= k <= |q|
  {
    (k > 0 && IsWordChar(q[k - 1])) != (k < |q| && IsWordChar(q[k]))
  }

  /** The regular expression `\b<stem>(<suffix>)?\b`; plain phrases have an empty suffix. */
  datatype Pattern = Pattern(stem: string, suffix: string)

  /** The pattern matches `q` starting at position `i`. */
  predicate MatchesAt(q: string, p: Pattern, i: int) {
    && 0 <= i <= |q|
    && Boundary(q, i)
    && OccursAt(q, p.stem, i)
    && (|| Boundary(q, i + |p.stem|)
        || (p.suffix != [] && OccursAt(q, p.suffix, i + |p.stem|) && Boundary(q, i + |p.stem| + |p.suffix|)))
  }

  /** `re.search` from position `i` onward: tries each start position in turn. */
  function SearchFrom(q: string, p: Pattern, i: nat): (found: bool)
    ensures found <==> exists k :: i <= k && MatchesAt(q, p, k)
    decreases |q| - i
  {
    if i > |q| then false
    else if MatchesAt(q, p, i) then true
    else
      assert forall k :: i <= k && MatchesAt(q, p, k) ==> k == i || i + 1 <= k;
      SearchFrom(q, p, i + 1)
  }

  function Search(q: string, p: Pattern): (found: bool)
    ensures found <==> exists k :: MatchesAt(q, p, k)
  {
    SearchFrom(q, p, 0)
  }

  const Hoje := Pattern("hoje", "")
  const Recente := Pattern("recente", "mente")

  /** The eight patterns of `is_today_question`, in the source's order. */
  const TodayPatterns: seq<Pattern> := [
    Hoje,
    Pattern("no dia de hoje", ""),
    Pattern("o que aconteceu hoje", ""),
    Pattern("aconteceu hoje", ""),
    Pattern("agora", ""),
    Pattern("neste momento", ""),
    Pattern("ultimas noticias", ""),
    Recente
  ]

  /** The same list without the three phrases that end in the word "hoje". */
  const CorePatterns: seq<Pattern> := [
    Hoje,
    Pattern("agora", ""),
    Pattern("neste momento", ""),
    Pattern("ultimas noticias", ""),
    Recente
  ]

  predicate AnyMatch(q: string, patterns: seq<Pattern>) {
    exists k :: 0 <= k < |patterns| && Search(q, patterns[k])
  }

  /** `is_today_question(question)`. */
  predicate IsTodayQuestion(question: string) {
    AnyMatch(Normalize(question), TodayPatterns)
  }

  /** Time-sensitivity depends on the question only through its normal form. */
  lemma TodayIgnoresCaseAndAccents(s: string, t: string)
    requires |s| == |t|
    requires forall i :: 0 <= i < |s| ==> Fold(s[i]) == Fold(t[i])
    ensures IsTodayQuestion(s) <==> IsTodayQuestion(t)
  {
    NormalizeIgnoresCaseAndAccents(s, t);
  }

  /**
   * A phrase ending in a space and then a word matches only where that last
   * word matches on its own.
   */
  lemma LastWordMatches(q: string, front: string, word: string, i: int)
    requires front != [] && front[|front| - 1] == ' '
    requires word != [] && IsWordChar(word[0])
    requires MatchesAt(q, Pattern(front + word, ""), i)
    ensures MatchesAt(q, Pattern(word, ""), i + |front|)
  {
    var j := i + |front|;
    assert q[i..i + |front + word|] == front + word;
    assert q[j - 1] == (front + word)[|front| - 1] == ' ';
    assert q[j] == (front + word)[|front|] == word[0];
    assert q[j..j + |word|] == (front + word)[|front|..];
  }

  /** The three longer "hoje" phrases are a lead-in ending in a space, then the word "hoje". */
  lemma HojePhrases()
    ensures TodayPatterns[1] == Pattern("no dia de " + "hoje", "")
    ensures TodayPatterns[2] == Pattern("o que aconteceu " + "hoje", "")
    ensures TodayPatterns[3] == Pattern("aconteceu " + "hoje", "")
  {
  }

  /** A match of one of the three longer "hoje" phrases contains a match of `\bhoje\b`. */
  lemma HojePhraseContainsHoje(q: string, k: nat)
    requires 1 <= k <= 3 && Search(q, TodayPatterns[k])
    ensures Search(q, Hoje)
  {
    var i :| MatchesAt(q, TodayPatterns[k], i);
    HojePhrases();
    if k == 1 {
      LastWordMatches(q, "no dia de ", "hoje", i);
    } else if k == 2 {
      LastWordMatches(q, "o que aconteceu ", "hoje", i);
    } else {
      LastWordMatches(q, "aconteceu ", "hoje", i);
    }
  }

  /**
   * `\bhoje\b` subsumes "no dia de hoje", "o que aconteceu hoje" and
   * "aconteceu hoje": dropping those three leaves the verdict unchanged.
   */
  lemma CorePatternsSuffice(question: string)
    ensures IsTodayQuestion(question) <==> AnyMatch(Normalize(question), CorePatterns)
  {
    var q := Normalize(question);
    if AnyMatch(q, TodayPatterns) {
      var k :| 0 <= k < |TodayPatterns| && Search(q, TodayPatterns[k]);
      if 1 <= k <= 3 {
        HojePhraseContainsHoje(q, k);
        assert Search(q, CorePatterns[0]);
      } else {
        assert TodayPatterns[k] in CorePatterns;
      }
    }
    if AnyMatch(q, CorePatterns) {
      var k :| 0 <= k < |CorePatterns| && Search(q, CorePatterns[k]);
      assert CorePatterns[k] in TodayPatterns;
    }
  }

  /** A pattern cannot match a text that lacks one of its characters. */
  lemma MissingCharMeansNoMatch(q: string, p: Pattern, c: char)
    requires c in p.stem && c !in q
    ensures !Search(q, p)
  {

  }

  /** `recente(mente)?` matches "recente" and "recentemente" but not "recentes". */
  lemma RecenteForms()
    ensures Search("recente", Recente)
    ensures Search("recentemente", Recente)
    ensures !Search("recentes", Recente)
  {
    assert MatchesAt("recente", Recente, 0);
    assert MatchesAt("recentemente", Recente, 0);
    var q := "recentes";
    forall k | MatchesAt(q, Recente, k) ensures false {
    }
  }

  /** A question that normalization leaves unchanged is time-sensitive as soon as one pattern matches it somewhere. */
  lemma NormalQuestionMatching(q: string, k: nat, i: nat)
    requires Normalize(q) == q
    requires k < |TodayPatterns| && MatchesAt(q, TodayPatterns[k], i)
    ensures IsTodayQuestion(q)
  {
    assert Search(q, TodayPatterns[k]);
  }

  lemma AconteceuHojeIsNormal()
    ensures Normalize("o que aconteceu hoje?") == "o que aconteceu hoje?"
  {
    assert forall c :: c in "o que aconteceu hoje?" ==> IsPlain(c);
    NormalizeKeepsPlain("o que aconteceu hoje?");
  }

  lemma HojeInAconteceuHoje()
    ensures Search("o que aconteceu hoje?", TodayPatterns[0])
  {
    assert MatchesAt("o que aconteceu hoje?", Hoje, 16);
  }

  /** "o que aconteceu hoje?" is time-sensitive. */
  lemma AconteceuHojeIsToday(q: string)
    requires q == "o que aconteceu hoje?"
    ensures IsTodayQuestion(q)
  {
    AconteceuHojeIsNormal();
    HojeInAconteceuHoje();
  }

  /** Letters that the patterns other than "neste momento" need. */
  lemma PatternLetters()
    ensures forall k :: 0 <= k < 4 ==> 'h' in TodayPatterns[k].stem
    ensures 'g' in TodayPatterns[4].stem && 'l' in TodayPatterns[6].stem && 'r' in TodayPatterns[7].stem
  {
    assert 'h' in TodayPatterns[1].stem by { assert TodayPatterns[1].stem[10] == 'h'; }
    assert 'h' in TodayPatterns[2].stem by { assert TodayPatterns[2].stem[16] == 'h'; }
    assert 'h' in TodayPatterns[3].stem by { assert TodayPatterns[3].stem[10] == 'h'; }
  }

  /** A text without 'h', 'g', 'l' and 'r' can match only "neste momento" among the eight patterns. */
  lemma OnlyNesteMomentoLeft(q: string)
    requires 'h' !in q && 'g' !in q && 'l' !in q && 'r' !in q
    requires !Search(q, TodayPatterns[5])
    ensures !AnyMatch(q, TodayPatterns)
  {
    PatternLetters();
    forall k | 0 <= k < |TodayPatterns|
      ensures !Search(q, TodayPatterns[k])
    {
      if k < 4 {
        MissingCharMeansNoMatch(q, TodayPatterns[k], 'h');
      } else if k == 4 {
        MissingCharMeansNoMatch(q, TodayPatterns[4], 'g');
      } else if k == 6 {
        MissingCharMeansNoMatch(q, TodayPatterns[6], 'l');
      } else if k == 7 {
        MissingCharMeansNoMatch(q, TodayPatterns[7], 'r');
      }
    }
  }

  /** A pattern cannot match where its first character is absent from every position it could start at. */
  lemma FirstCharMissing(q: string, p: Pattern, n: nat)
    requires p.stem != [] && n <= |q| && p.stem[0] !in q[..n] && |q| - |p.stem| < n
    ensures !Search(q, p)
  {
    forall i | MatchesAt(q, p, i) ensures false {
    }
  }

  lemma NoPatternInEinstein(q: string)
    requires q == "quem foi einstein?"
    ensures !AnyMatch(q, TodayPatterns)
  {
    assert 'h' !in q && 'g' !in q && 'l' !in q && 'r' !in q;
    assert TodayPatterns[5].stem == "neste momento";
    FirstCharMissing(q, TodayPatterns[5], 6);
    OnlyNesteMomentoLeft(q);
  }

  lemma QuemFoiIsNormal()
    ensures Normalize("quem foi ") == "quem foi "
  {
    assert forall c :: c in "quem foi " ==> IsPlain(c);
    NormalizeKeepsPlain("quem foi ");
  }

  /** The part of "Einstein?" after its capital letter is already normal. */
  lemma EinsteinTailIsNormal()
    ensures Normalize("instein?") == "instein?"
  {
    assert forall c :: c in "instein?" ==> IsPlain(c);
    NormalizeKeepsPlain("instein?");
  }

  /** Only the capital E changes: each piece is normalized on its own and the results are put back together. */
  lemma EinsteinPiecesNormalize()
    ensures Normalize("quem foi " + "E" + "instein?") == "quem foi " + "e" + "instein?"
  {
    QuemFoiIsNormal();
    EinsteinTailIsNormal();
    assert Normalize("E") == "e" by { assert "E"[1..] == []; }
    NormalizeConcat("quem foi " + "E", "instein?");
    NormalizeConcat("quem foi ", "E");
  }

  lemma EinsteinNormalForm(question: string, q: string)
    requires question == "quem foi Einstein?" && q == "quem foi einstein?"
    ensures Normalize(question) == q
  {
    assert question == "quem foi " + "E" + "instein?" && q == "quem foi " + "e" + "instein?";
    EinsteinPiecesNormalize();
  }

  /** "quem foi Einstein?" is not time-sensitive. */
  lemma EinsteinIsNotToday(question: string)
    requires question == "quem foi Einstein?"
    ensures !IsTodayQuestion(question)
  {
    var q := "quem foi einstein?";
    EinsteinNormalForm(question, q);
    NoPatternInEinstein(q);
  }
}

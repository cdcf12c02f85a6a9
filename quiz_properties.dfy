/**
  What the quiz route guarantees, stated over the visit function of module
  Quiz: early exits, the remaining-word count, completion, the stability of the
  word on screen, answer judging, and an invariant that every visit keeps.
 */
module QuizProperties {
  import opened Wrappers
  import opened Records
  import opened Text
  import opened WordStore
  import opened Quiz

  // ---------------------------------------------------------------------------
  // The remaining words

  /** `Remaining` keeps the original order: it distributes over concatenation. */
  lemma {:induction false} RemainingConcat(a: seq<Word>, b: seq<Word>, progress: seq<int>)
    ensures Remaining(a + b, progress) == Remaining(a, progress) + Remaining(b, progress)
  {
    if a == [] {
      assert a + b == b;
    } else {
      assert (a + b)[1..] == a[1..] + b;
      RemainingConcat(a[1..], b, progress);
    }
  }

  /** Every word is either remaining or has its identifier among the answered ones. */
  lemma {:induction false} RemainingCardinality(words: seq<Word>, progress: seq<int>)
    requires DistinctIds(words)
    ensures |Remaining(words, progress)| + |Elements(progress) * Ids(words)| == |words|
  {
    if words != [] {
      var w, rest := words[0], words[1..];
      DistinctIdsTail(words);
      RemainingCardinality(rest, progress);
      assert Ids(words) == {w.id} + Ids(rest) by { assert words == [w] + rest; }
      IntersectCons(Elements(progress), w.id, Ids(rest));
    }
  }

  /**
    When the progress list is a duplicate-free list of the language's word
    identifiers, exactly `total - |progress|` words remain.
   */
  lemma RemainingCount(words: seq<Word>, progress: seq<int>)
    requires DistinctIds(words)
    requires NoDuplicates(progress) && Elements(progress) <= Ids(words)
    ensures |Remaining(words, progress)| == |words| - |progress|
  {
    RemainingCardinality(words, progress);
    NoDuplicatesCardinality(progress);
    assert Elements(progress) * Ids(words) == Elements(progress);
  }

  /** The remaining words keep the identifier guarantees of the word list. */
  lemma {:induction false} RemainingKeepsIds(words: seq<Word>, progress: seq<int>)
    requires DistinctIds(words)
    ensures DistinctIds(Remaining(words, progress))
    ensures PositiveIds(words) ==> PositiveIds(Remaining(words, progress))
  {
    if words != [] {
      var w, tail := words[0], words[1..];
      DistinctIdsTail(words);
      RemainingKeepsIds(tail, progress);
      var rest := Remaining(tail, progress);
      if w.id !in progress {
        assert Ids(rest) <= Ids(tail);
        ConsDistinct(w, rest);
      }
    }
  }

  /** With distinct identifiers, looking a word up by its identifier finds that very word. */
  lemma {:induction false} FindByIdFindsWord(ws: seq<Word>, w: Word)
    requires DistinctIds(ws) && w in ws
    ensures FindById(ws, w.id) == Some(w)
  {
    if ws[0] != w {
      DistinctIdsTail(ws);
      assert w in ws[1..];
      FindByIdFindsWord(ws[1..], w);
    }
  }

  /** Every remaining word is the pick of some draw: `random.choice` may show any of them. */
  lemma EveryRemainingWordCanBePicked(remaining: seq<Word>, w: Word)
    requires w in remaining
    ensures exists draw: nat :: Pick(remaining, draw) == w
  {
    var k :| 0 <= k < |remaining| && remaining[k] == w;
    assert Pick(remaining, k) == w;
  }

  // ---------------------------------------------------------------------------
  // Early exits and completion

  /**
    Without a selected language, or when it has no words, the visit ends at
    once and the session is left as it was: `progress` is not created.
   */
  lemma EarlyExits(s: SessionState, table: seq<Word>, answer: Option<string>, draw: nat)
    ensures s.selectedLanguage.None? ==> Visit(s, table, answer, draw) == (SelectLanguageFirst, s)
    ensures s.selectedLanguage.Some? ==>
      (Visit(s, table, answer, draw).0 == NoWordsToTest <==> LanguageWords(s, table) == [])
    ensures s.selectedLanguage.Some? && LanguageWords(s, table) == [] ==> Visit(s, table, answer, draw).1 == s
  {
  }

  /**
    The first visit with words creates `progress` (lines 211-214): it cannot
    complete the quiz, and it leaves an empty list, or the one id of the word
    answered correctly.
   */
  lemma ProgressCreatedOnFirstVisit(s: SessionState, table: seq<Word>, answer: Option<string>, draw: nat)
    requires s.selectedLanguage.Some? && s.progress.None? && LanguageWords(s, table) != []
    ensures var r := Visit(s, table, answer, draw);
      r.0.Question? || r.0.Answered? || r.0.MissingWord?
    ensures var r := Visit(s, table, answer, draw);
      r.0.Answered? && r.0.correct ==>
        r.1.progress.Some? && |r.1.progress.value| == 1 &&
        r.1.progress.value[0] in Ids(LanguageWords(s, table))
    ensures var r := Visit(s, table, answer, draw);
      !(r.0.Answered? && r.0.correct) ==> r.1.progress == Some([])
  {
    var words := LanguageWords(s, table);
    var remaining := RemainingFor(s, table);
    assert words[0] in remaining;
    var word := ShownWord(remaining, s.currentWordId, draw);
    if answer.Some? && word.Some? && AnswerMatches(answer.value, word.value.translation) {
      assert word.value in words;
      assert Visit(s, table, answer, draw).1.progress == Some([] + [word.value.id]);
    }
  }

  /**
    The quiz is completed exactly when no word remains, whether or not an
    answer was sent; it then reports the counts and removes `progress` from the
    session, leaving the other entries alone.
   */
  lemma CompletionClearsProgress(s: SessionState, table: seq<Word>, answer: Option<string>, draw: nat)
    requires s.selectedLanguage.Some? && LanguageWords(s, table) != []
    ensures Visit(s, table, answer, draw).0.Completed? <==> RemainingFor(s, table) == []
    ensures RemainingFor(s, table) == [] ==>
      Visit(s, table, answer, draw) ==
        (Completed(|StoredProgress(s)|, |LanguageWords(s, table)|), s.(progress := None))
  {
  }

  /**
    When the progress list holds each of the language's words once, a
    completed quiz has answered every word: the count equals the total, so the
    constant 100 per cent of line 226 is the true percentage.
   */
  lemma CompletedCountsEveryWord(s: SessionState, table: seq<Word>, answer: Option<string>, draw: nat)
    requires s.selectedLanguage.Some? && DistinctIds(table)
    requires NoDuplicates(StoredProgress(s)) && Elements(StoredProgress(s)) <= Ids(LanguageWords(s, table))
    requires Visit(s, table, answer, draw).0.Completed?
    ensures Visit(s, table, answer, draw).0.correctCount == Visit(s, table, answer, draw).0.totalWords
  {
    WordsOfKeepsIds(table, s.selectedLanguage.value);
    RemainingCount(LanguageWords(s, table), StoredProgress(s));
  }

  /** The counts on the quiz page: `remaining == total - correct` when the progress list is sound. */
  lemma QuestionCounts(s: SessionState, table: seq<Word>, draw: nat)
    requires s.selectedLanguage.Some? && DistinctIds(table)
    requires NoDuplicates(StoredProgress(s)) && Elements(StoredProgress(s)) <= Ids(LanguageWords(s, table))
    requires Visit(s, table, None, draw).0.Question?
    ensures var q := Visit(s, table, None, draw).0;
      q.totalWords == |LanguageWords(s, table)| && q.correctCount == |StoredProgress(s)| &&
      q.remaining == q.totalWords - q.correctCount
  {
    WordsOfKeepsIds(table, s.selectedLanguage.value);
    RemainingCount(LanguageWords(s, table), StoredProgress(s));
  }

  // ---------------------------------------------------------------------------
  // The word on screen

  /**
    With a word identifier stored, a page view shows the remaining word with
    that identifier and draws nothing: the session only gains an empty
    progress list if it had none.
   */
  lemma StoredWordIsShown(s: SessionState, table: seq<Word>, draw: nat)
    requires s.selectedLanguage.Some? && RemainingFor(s, table) != []
    requires IsSet(s.currentWordId)
    ensures Visit(s, table, None, draw) ==
      (Question(FindById(RemainingFor(s, table), s.currentWordId.value),
                |StoredProgress(s)|, |LanguageWords(s, table)|, |RemainingFor(s, table)|),
       s.(progress := Some(StoredProgress(s))))
  {
  }

  /**
    Without a stored identifier, a page view shows the drawn word, which is one
    of the remaining words, and stores its identifier as the current word.
   */
  lemma DrawnWordIsStored(s: SessionState, table: seq<Word>, draw: nat)
    requires s.selectedLanguage.Some? && RemainingFor(s, table) != []
    requires !IsSet(s.currentWordId)
    ensures var w := Pick(RemainingFor(s, table), draw);
      w in RemainingFor(s, table) &&
      Visit(s, table, None, draw) ==
        (Question(Some(w), |StoredProgress(s)|, |LanguageWords(s, table)|, |RemainingFor(s, table)|),
         s.(progress := Some(StoredProgress(s)), currentWordId := Some(w.id)))
  {
  }

  /**
    Visiting the page again without answering shows the same word and leaves
    the session as the first visit left it, whatever is drawn the second time.
    This rests on the database's identifiers being positive (a stored 0 would
    read as unset) and distinct (the lookup finds the first match).
   */
  lemma RevisitShowsSameWord(s: SessionState, table: seq<Word>, draw1: nat, draw2: nat)
    requires PositiveIds(table) && DistinctIds(table)
    requires Visit(s, table, None, draw1).0.Question?
    ensures Visit(Visit(s, table, None, draw1).1, table, None, draw2) == Visit(s, table, None, draw1)
  {
    var words := LanguageWords(s, table);
    var remaining := RemainingFor(s, table);
    WordsOfKeepsIds(table, s.selectedLanguage.value);
    RemainingKeepsIds(words, StoredProgress(s));
    if !IsSet(s.currentWordId) {
      var w := Pick(remaining, draw1);
      FindByIdFindsWord(remaining, w);
    }
  }

  // ---------------------------------------------------------------------------
  // Answers

  /**
    A submitted answer is judged against the word on screen: it is correct
    exactly when its stripped, lower-cased form equals that of the stored
    translation.
   */
  lemma AnswerJudgedAgainstShownWord(s: SessionState, table: seq<Word>, answer: string, draw: nat)
    requires s.selectedLanguage.Some? && RemainingFor(s, table) != []
    requires ShownWord(RemainingFor(s, table), s.currentWordId, draw).Some?
    ensures var w := ShownWord(RemainingFor(s, table), s.currentWordId, draw).value;
      Visit(s, table, Some(answer), draw).0 ==
        Answered(Normalize(answer) == Normalize(w.translation), w.translation)
  {
  }

  /**
    A correct answer appends the identifier of the word on screen, which was
    not yet in the progress list, and clears the current word. The progress
    list grows by one, and stays duplicate-free and within the language's
    words when it was.
   */
  lemma CorrectAnswerRecordsProgress(s: SessionState, table: seq<Word>, answer: string, draw: nat)
    requires s.selectedLanguage.Some? && RemainingFor(s, table) != []
    requires ShownWord(RemainingFor(s, table), s.currentWordId, draw).Some?
    requires AnswerMatches(answer, ShownWord(RemainingFor(s, table), s.currentWordId, draw).value.translation)
    ensures var w := ShownWord(RemainingFor(s, table), s.currentWordId, draw).value;
      var p := StoredProgress(s);
      Visit(s, table, Some(answer), draw) ==
        (Answered(true, w.translation), s.(progress := Some(p + [w.id]), currentWordId := None)) &&
      w.id !in p && |p + [w.id]| == |p| + 1 &&
      (NoDuplicates(p) ==> NoDuplicates(p + [w.id])) &&
      (Elements(p) <= Ids(LanguageWords(s, table)) ==> Elements(p + [w.id]) <= Ids(LanguageWords(s, table)))
  {
    var w := ShownWord(RemainingFor(s, table), s.currentWordId, draw).value;
    var p := StoredProgress(s);
    assert w in LanguageWords(s, table);
    AppendFresh(p, w.id);
  }

  /**
    A wrong answer leaves the session exactly as a page view would, so the
    same word stays on screen, and the next answer is judged against that same
    word again.
   */
  lemma WrongAnswerKeepsWord(s: SessionState, table: seq<Word>, answer: string, draw: nat, retry: string, draw2: nat)
    requires PositiveIds(table) && DistinctIds(table)
    requires s.selectedLanguage.Some? && RemainingFor(s, table) != []
    requires ShownWord(RemainingFor(s, table), s.currentWordId, draw).Some?
    requires !AnswerMatches(answer, ShownWord(RemainingFor(s, table), s.currentWordId, draw).value.translation)
    ensures var w := ShownWord(RemainingFor(s, table), s.currentWordId, draw).value;
      var after := Visit(s, table, Some(answer), draw);
      after == (Answered(false, w.translation), Visit(s, table, None, draw).1) &&
      Visit(after.1, table, Some(retry), draw2).0 == Answered(AnswerMatches(retry, w.translation), w.translation)
  {
    RevisitShowsSameWord(s, table, draw, draw2);
  }

  // ---------------------------------------------------------------------------
  // A stored word that is no longer remaining

  /**
    When the stored current word is not among the remaining words (it belongs
    to another language, or was answered already), no word is shown and none
    is drawn: a page view shows an empty question and changes nothing but the
    creation of `progress`, and an answer fails at line 245. The quiz cannot
    move on from this session on its own.
   */
  lemma StaleCurrentWordIsStuck(s: SessionState, table: seq<Word>, answer: string, draw: nat)
    requires s.selectedLanguage.Some? && RemainingFor(s, table) != []
    requires IsSet(s.currentWordId) && s.currentWordId.value !in Ids(RemainingFor(s, table))
    ensures var stuck := s.(progress := Some(StoredProgress(s)));
      Visit(s, table, None, draw) ==
        (Question(None, |StoredProgress(s)|, |LanguageWords(s, table)|, |RemainingFor(s, table)|), stuck) &&
      Visit(s, table, Some(answer), draw) == (MissingWord, stuck) &&
      Visit(stuck, table, None, draw) == Visit(s, table, None, draw)
  {
  }

  /**
    Switching languages keeps the progress list and the current word: a word
    of the first language left on screen strands the quiz of the second.
   */
  lemma LanguageSwitchStrandsCurrentWord()
    ensures var table := [Word(1, "hola", "hello", 1), Word(2, "dom", "house", 2)];
      var before := SessionState(Some(1), Some([]), Some(1));
      var switched := before.(selectedLanguage := Some(2));
      Visit(before, table, None, 0).0 == Question(Some(table[0]), 0, 1, 1) &&
      Visit(switched, table, None, 0).0 == Question(None, 0, 1, 1) &&
      Visit(switched, table, Some("house"), 0).0 == MissingWord
  {
    var table := [Word(1, "hola", "hello", 1), Word(2, "dom", "house", 2)];
    assert WordsOf(table, 1) == [table[0]];
    assert WordsOf(table, 2) == [table[1]];
  }

  /**
    Switching languages also keeps the answered identifiers of the first
    language, and they are counted as correct in the second: the quiz page can
    report every word as correct while one still remains.
   */
  lemma ForeignProgressIsCounted()
    ensures var table := [Word(1, "hola", "hello", 1), Word(2, "dom", "house", 2)];
      var s := SessionState(Some(2), Some([1]), None);
      Visit(s, table, None, 0).0 == Question(Some(table[1]), 1, 1, 1)
  {
    var table := [Word(1, "hola", "hello", 1), Word(2, "dom", "house", 2)];
    assert WordsOf(table, 2) == [table[1]];
  }

  // ---------------------------------------------------------------------------
  // The quiz invariant

  /**
    A session the quiz can run on: the progress list holds some of the
    selected language's identifiers, each once, and a stored current word is
    one of the remaining words.
   */
  predicate QuizInvariant(s: SessionState, table: seq<Word>)
  {
    s.selectedLanguage.Some? ==>
      var p := StoredProgress(s);
      NoDuplicates(p) && Elements(p) <= Ids(LanguageWords(s, table)) &&
      (IsSet(s.currentWordId) ==> s.currentWordId.value in Ids(RemainingFor(s, table)))
  }

  /**
    Every visit keeps the invariant, and in a session that satisfies it a word
    is always on screen: the failure of line 245 cannot happen.
   */
  lemma VisitKeepsInvariant(s: SessionState, table: seq<Word>, answer: Option<string>, draw: nat)
    requires QuizInvariant(s, table)
    ensures QuizInvariant(Visit(s, table, answer, draw).1, table)
    ensures Visit(s, table, answer, draw).0 != MissingWord
    ensures Visit(s, table, answer, draw).0.Question? ==> Visit(s, table, answer, draw).0.word.Some?
  {
    var r := Visit(s, table, answer, draw);
    if s.selectedLanguage.Some? && LanguageWords(s, table) != [] && RemainingFor(s, table) != [] {
      var words := LanguageWords(s, table);
      var remaining := RemainingFor(s, table);
      var p := StoredProgress(s);
      var w := ShownWord(remaining, s.currentWordId, draw).value;
      assert w in remaining;
      if r.0.Answered? && r.0.correct {
        CorrectAnswerRecordsProgress(s, table, answer.value, draw);
      } else {
        assert StoredProgress(r.1) == p;
        if !IsSet(s.currentWordId) {
          assert w.id in Ids(remaining);
        }
      }
    }
  }

  /** A fresh quiz for a language satisfies the invariant. */
  lemma FreshSessionSatisfiesInvariant(languageId: int, table: seq<Word>)
    ensures QuizInvariant(SessionState(Some(languageId), None, None), table)
  {
  }

  /**
    Within a run the progress list only grows, by at most one identifier per
    visit, until completion removes it.
   */
  lemma ProgressOnlyGrows(s: SessionState, table: seq<Word>, answer: Option<string>, draw: nat)
    ensures var after := Visit(s, table, answer, draw);
      (after.0.Completed? && after.1.progress.None?) ||
      ((after.0.SelectLanguageFirst? || after.0.NoWordsToTest?) && after.1 == s) ||
      (after.1.progress.Some? &&
       |StoredProgress(s)| <= |after.1.progress.value| <= |StoredProgress(s)| + 1 &&
       after.1.progress.value[..|StoredProgress(s)|] == StoredProgress(s))
  {
    if s.selectedLanguage.Some? && LanguageWords(s, table) != [] && RemainingFor(s, table) != [] {
      var after := Visit(s, table, answer, draw);
      var p := StoredProgress(s);
      if after.0.Answered? && after.0.correct {
        CorrectAnswerRecordsProgress(s, table, answer.value, draw);
        var w := ShownWord(RemainingFor(s, table), s.currentWordId, draw).value;
        assert (p + [w.id])[..|p|] == p;
      } else {
        assert after.1.progress == Some(p);
        assert p[..|p|] == p;
      }
    }
  }

  /** Adding a word to the table keeps the invariant of every session. */
  lemma AddingWordKeepsInvariant(s: SessionState, table: seq<Word>, w: Word)
    requires QuizInvariant(s, table)
    ensures QuizInvariant(s, table + [w])
  {
    if s.selectedLanguage.Some? {
      var lang := s.selectedLanguage.value;
      var extra := if w.languageId == lang then [w] else [];
      WordsOfAppend(table, w, lang);
      RemainingConcat(WordsOf(table, lang), extra, StoredProgress(s));
    }
  }

  // ---------------------------------------------------------------------------
  // The dashboard's check of the selected language

  /** With distinct identifiers, looking a language up by its identifier finds that very row. */
  lemma {:induction false} FindLanguageFindsRow(languages: seq<Language>, l: Language)
    requires DistinctLanguageIds(languages) && l in languages
    ensures FindLanguage(languages, l.id) == Some(l)
  {
    if languages[0] != l {
      var k :| 0 <= k < |languages| && languages[k] == l;
      assert k > 0;
      var rest := languages[1..];
      assert rest[k - 1] == l;
      assert DistinctLanguageIds(rest) by {
        forall i, j | 0 <= i < j < |rest| ensures rest[i].id != rest[j].id {
          assert rest[i] == languages[i + 1] && rest[j] == languages[j + 1];
        }
      }
      FindLanguageFindsRow(rest, l);
    }
  }

  /**
    The dashboard keeps the selection iff it names one of the user's own
    languages; otherwise it removes the selection and nothing else.
   */
  lemma DashboardKeepsOnlyOwnLanguage(s: SessionState, languages: seq<Language>, userId: int)
    requires DistinctLanguageIds(languages)
    ensures var r := DashboardVisit(s, languages, userId);
      (r.0 <==> s.selectedLanguage.Some? &&
                exists l :: l in languages && l.id == s.selectedLanguage.value && l.userId == userId) &&
      r.1.progress == s.progress && r.1.currentWordId == s.currentWordId
  {
    if s.selectedLanguage.Some? {
      if l :| l in languages && l.id == s.selectedLanguage.value && l.userId == userId {
        FindLanguageFindsRow(languages, l);
      }
    }
  }

  /**
    After the dashboard has dropped a selection, the quiz sends the user to
    the language choice and leaves `progress` and the current word stored.
   */
  lemma DroppedLanguageBlocksQuiz(s: SessionState, languages: seq<Language>, userId: int,
                                  table: seq<Word>, answer: Option<string>, draw: nat)
    requires !DashboardVisit(s, languages, userId).0
    ensures var after := DashboardVisit(s, languages, userId).1;
      Visit(after, table, answer, draw) == (SelectLanguageFirst, after) &&
      after.progress == s.progress && after.currentWordId == s.currentWordId
  {
  }
}

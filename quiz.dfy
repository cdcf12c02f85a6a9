/**
  The quiz of the `test` route (app.py, lines 190-273), the language
  selection that feeds it (lines 136-140) and the dashboard's check of that
  selection (lines 101-109).

  The quiz keeps three entries in the user's session: the selected language,
  `progress` (the identifiers of the words answered correctly, absent until the
  first quiz visit) and `current_word_id` (the word on screen). One visit of
  the route reads the selected language's words, derives the words still to
  answer, and then either reports completion, shows a word, or judges a
  submitted answer against the word on screen.

  `random.choice` is modelled by a draw supplied from outside: the word picked
  is `remaining[draw % |remaining|]`, and every remaining word is the pick of
  some draw.
 */
module Quiz {
  import opened Wrappers
  import opened Records
  import opened Text
  import opened WordStore

  /** The session entries the quiz reads and writes. */
  datatype SessionState = SessionState(
    selectedLanguage: Option<int>,
    progress: Option<seq<int>>,
    currentWordId: Option<int>)

  /** What a visit of the route produces for the user. */
  datatype Outcome =
    | SelectLanguageFirst                      // lines 197-199: redirect to the language choice
    | NoWordsToTest                            // lines 206-208: redirect to the dashboard
    | Completed(correctCount: nat, totalWords: nat)
                                               // lines 220-232: 100 per cent, remaining 0
    | Question(word: Option<Word>, correctCount: nat, totalWords: nat, remaining: nat)
                                               // lines 258-273: the page with the word on screen
    | Answered(correct: bool, translation: string)
                                               // lines 247-256: flash and redirect back to the quiz
    | MissingWord                              // line 245: an answer while no word is on screen fails

  /**
    Python's truth test on `session.get('current_word_id')`: absent and 0 are
    both false, and every identifier the database assigns is true.
   */
  function IsSet(id: Option<int>): (r: bool)
    ensures r ==> id.Some?
    ensures id == Some(0) ==> !r
    ensures id.Some? && id.value >= 1 ==> r
  {
    id.Some? && id.value != 0
  }

  /** The words not yet answered, in their original order (line 217). */
  function Remaining(words: seq<Word>, progress: seq<int>): (r: seq<Word>)
    ensures forall w :: w in r <==> w in words && w.id !in progress
    ensures |r| <= |words|
  {
    if words == [] then []
    else (if words[0].id in progress then [] else [words[0]]) + Remaining(words[1..], progress)
  }

  /** The first word with identifier `id`, or None (line 237). */
  function FindById(ws: seq<Word>, id: int): (r: Option<Word>)
    ensures r.Some? ==> r.value in ws && r.value.id == id
    ensures r.None? <==> id !in Ids(ws)
  {
    if ws == [] then None
    else if ws[0].id == id then Some(ws[0])
    else
      var r := FindById(ws[1..], id);
      assert Ids(ws) == {ws[0].id} + Ids(ws[1..]) by { assert ws == [ws[0]] + ws[1..]; }
      r
  }

  /** `random.choice(remaining)` for a given draw (line 239). */
  function Pick(remaining: seq<Word>, draw: nat): (w: Word)
    requires remaining != []
    ensures w in remaining
  {
    remaining[draw % |remaining|]
  }

  /** The progress list after lines 211-214 have created it when absent. */
  function StoredProgress(s: SessionState): seq<int>
  {
    if s.progress.Some? then s.progress.value else []
  }

  /** The selected language's words (line 204). */
  function LanguageWords(s: SessionState, table: seq<Word>): seq<Word>
    requires s.selectedLanguage.Some?
  {
    WordsOf(table, s.selectedLanguage.value)
  }

  /** The selected language's words still to answer (line 217). */
  function RemainingFor(s: SessionState, table: seq<Word>): seq<Word>
    requires s.selectedLanguage.Some?
  {
    Remaining(LanguageWords(s, table), StoredProgress(s))
  }

  /**
    The word on screen (lines 235-240): the remaining word with the stored
    identifier when one is set, which may be none at all, and otherwise the
    word drawn from the remaining words.
   */
  function ShownWord(remaining: seq<Word>, currentWordId: Option<int>, draw: nat): (r: Option<Word>)
    requires remaining != []
    ensures r.Some? ==> r.value in remaining
    ensures IsSet(currentWordId) ==> (r.Some? <==> currentWordId.value in Ids(remaining))
    ensures IsSet(currentWordId) && r.Some? ==> r.value.id == currentWordId.value
    ensures !IsSet(currentWordId) ==> r.Some?
  {
    if IsSet(currentWordId) then FindById(remaining, currentWordId.value)
    else Some(Pick(remaining, draw))
  }

  /**
    One visit of the route. `answer` is the submitted answer when the form
    validated on a POST, and None for a plain page view. The result is what the
    user is shown and the session afterwards.
   */
  function Visit(s: SessionState, table: seq<Word>, answer: Option<string>, draw: nat): (r: (Outcome, SessionState))
    ensures r.1.selectedLanguage == s.selectedLanguage
    ensures r.0.SelectLanguageFirst? || r.0.NoWordsToTest? ==> r.1 == s
    ensures r.0.Question? ==> r.1.progress == Some(StoredProgress(s)) && r.0.remaining >= 1
  {
    if s.selectedLanguage.None? then (SelectLanguageFirst, s)
    else
      var words := LanguageWords(s, table);
      if words == [] then (NoWordsToTest, s)
      else
        var progress := StoredProgress(s);
        var remaining := RemainingFor(s, table);
        if remaining == [] then (Completed(|progress|, |words|), s.(progress := None))
        else
          var word := ShownWord(remaining, s.currentWordId, draw);
          var shown :=
            if IsSet(s.currentWordId) then s.(progress := Some(progress))
            else s.(progress := Some(progress), currentWordId := Some(word.value.id));
          if answer.None? then (Question(word, |progress|, |words|, |remaining|), shown)
          else if word.None? then (MissingWord, shown)
          else if AnswerMatches(answer.value, word.value.translation) then
            (Answered(true, word.value.translation),
             shown.(progress := Some(progress + [word.value.id]), currentWordId := None))
          else (Answered(false, word.value.translation), shown)
  }

  /** `Language.query.get(id)` (line 105): the language row with that identifier, or None. */
  function FindLanguage(languages: seq<Language>, id: int): (r: Option<Language>)
    ensures r.Some? ==> r.value in languages && r.value.id == id
    ensures r.None? <==> forall l :: l in languages ==> l.id != id
  {
    if languages == [] then None
    else if languages[0].id == id then Some(languages[0])
    else FindLanguage(languages[1..], id)
  }

  /**
    The dashboard's check of the selected language (lines 101-109). Without a
    selection the user is sent to the language choice. A selected language that
    does not exist or belongs to another account is removed from the session.
    The first component says whether the dashboard page itself is shown.
   */
  function DashboardVisit(s: SessionState, languages: seq<Language>, userId: int): (r: (bool, SessionState))
    ensures r.0 ==> r.1 == s && s.selectedLanguage.Some?
    ensures r.0 ==> exists l :: l in languages && l.id == s.selectedLanguage.value && l.userId == userId
    ensures !r.0 ==> r.1 == s.(selectedLanguage := None)
  {
    if s.selectedLanguage.None? then (false, s)
    else
      var l := FindLanguage(languages, s.selectedLanguage.value);
      if l.None? || l.value.userId != userId then (false, s.(selectedLanguage := None))
      else (true, s)
  }

  /** The user's session, as far as the quiz uses it. */
  class Session {
    var selectedLanguage: Option<int>
    var progress: Option<seq<int>>
    var currentWordId: Option<int>

    function State(): SessionState
      reads this
    {
      SessionState(selectedLanguage, progress, currentWordId)
    }

    /** A new session holds none of the quiz's entries. */
    constructor ()
      ensures State() == SessionState(None, None, None)
    {
      selectedLanguage, progress, currentWordId := None, None, None;
    }

    /**
      Choosing a language (lines 136-141). `choice` is the submitted language,
      None when the form sent none or an empty value. A choice is stored and
      nothing more: the progress list and the word on screen are kept as they
      are. Without a choice the session is left alone.
     */
    method SelectLanguage(choice: Option<int>)
      modifies this
      ensures choice.Some? ==> State() == old(State()).(selectedLanguage := choice)
      ensures choice.None? ==> State() == old(State())
    {
      if choice.Some? {
        selectedLanguage := choice;
      }
    }

    /** One visit of the dashboard, dropping a selection the user may not use. */
    method Dashboard(languages: seq<Language>, userId: int) returns (shown: bool)
      modifies this
      ensures (shown, State()) == DashboardVisit(old(State()), languages, userId)
    {
      if selectedLanguage.None? {
        return false;
      }
      var l := FindLanguage(languages, selectedLanguage.value);
      if l.None? || l.value.userId != userId {
        selectedLanguage := None;
        return false;
      }
      return true;
    }

    /** One visit of the quiz route, changing the session step by step as the route does. */
    method Test(table: seq<Word>, answer: Option<string>, draw: nat) returns (outcome: Outcome)
      modifies this
      ensures (outcome, State()) == Visit(old(State()), table, answer, draw)
    {
      if selectedLanguage.None? {
        return SelectLanguageFirst;
      }
      var words := WordsOf(table, selectedLanguage.value);
      if words == [] {
        return NoWordsToTest;
      }
      if progress.None? {
        progress := Some([]);
      }
      var done := progress.value;
      var remaining := Remaining(words, done);
      if remaining == [] {
        progress := None;
        return Completed(|done|, |words|);
      }
      var word: Option<Word>;
      if IsSet(currentWordId) {
        word := FindById(remaining, currentWordId.value);
      } else {
        var w := Pick(remaining, draw);
        word := Some(w);
        currentWordId := Some(w.id);
      }
      if answer.Some? {
        if word.None? {
          return MissingWord;
        }
        if AnswerMatches(answer.value, word.value.translation) {
          progress := Some(done + [word.value.id]);
          currentWordId := None;
          return Answered(true, word.value.translation);
        }
        return Answered(false, word.value.translation);
      }
      return Question(word, |done|, |words|, |remaining|);
    }
  }
}

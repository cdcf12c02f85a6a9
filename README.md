# Vocabulary trainer quiz, modelled in Dafny

The application is a Flask vocabulary trainer. A user creates languages, adds
word/translation pairs to a language, and takes a self-paced quiz over the
selected language's words. This project models three parts of `app.py`:

- the quiz of the `test` route. The session holds the selected language, a
  `progress` list of the word ids answered correctly, and a `current_word_id`
  for the word on screen. One visit reads the language's words and computes
  the words still to answer. It then does one of three things: reports
  completion and removes `progress`; shows the current word (or draws one and
  stores its id); or judges a submitted answer. An answer is compared with the
  stored translation after `strip().lower()` on both.
- the duplicate-rejecting insert of `add_word`. A word is rejected when one
  with exactly the same original text already exists in the language.
  Otherwise exactly one row is appended.
- the dashboard's check of the selected language. A selection that names no
  language of the logged-in user is removed from the session, which the
  quiz's first exit then reads.

Modules:

- `Wrappers` (wrappers.dfy): `Option`.
- `Records` (records.dfy): the record shapes and facts about identifier lists.
  `Records.Language(id, name, userId)` is a row of the `language` table
  (app.py:27-31). `Records.Word(id, original, translation, languageId)` is a
  row of the `word` table (app.py:33-37). Identifiers are unbounded integers
  and texts are strings; the columns' length limits are not modelled.
- `Text` (text.dfy): Python's `strip()` and `lower()` on ASCII, the answer
  comparison, and its case and padding insensitivity.
- `WordStore` (word_store.dfy): the word table as a class holding a `seq` of
  rows, `add_word`, and the two `filter_by` queries.
- `Quiz` (quiz.dfy): the session entries as a value `SessionState` and as a
  class `Session`. `Visit` is the pure specification of one quiz request and
  `DashboardVisit` that of one dashboard request. `Session.Test` and
  `Session.Dashboard` change the class's fields step by step as the routes
  do, and their postconditions tie them to those functions.
- `QuizProperties` (quiz_properties.dfy): the properties of the quiz, proved
  about `Visit`.

Inputs from outside the program are parameters:

- the word table is a `seq<Word>`.
- the random draw of `random.choice` is a `draw: nat`. The word picked is
  `remaining[draw % |remaining|]`, and `EveryRemainingWordCanBePicked` shows
  that every remaining word is the pick of some draw.
- the submitted form is `answer: Option<string>`. `None` stands for a page
  view, or for a POST whose form did not validate.

Behaviour of the code that the model keeps:

- The duplicate check compares `original` exactly (app.py:163-166). It does
  not normalise it. `CaseSensitiveDuplicateCheck` shows that "House" is
  accepted next to "house".
- Choosing a language keeps `progress` and `current_word_id` (app.py:139). So
  progress is neither keyed by language nor reset. `LanguageSwitchStrandsCurrentWord`
  and `ForeignProgressIsCounted` show the effects.
- A stored current word that is no longer remaining is not replaced by a
  fresh pick. `word` becomes `None`: a page view shows no word, and an
  answer fails at line 245 (`StaleCurrentWordIsStuck`).
- An answer is judged against the word selected in the same request, never
  against a word shown earlier; when no current word is stored, that word is
  drawn in that same request. When no word is selected, because the stored
  current word is not remaining, the answer is not judged and the request
  fails at line 245, as in the bullet above.
- `if current_word_id:` is Python's truth test, so a stored id of 0 counts as
  unset (`Quiz.IsSet`). Database ids start at 1, which is why the
  stable-word lemmas assume positive ids.

## Model

| member | source | states |
|---|---|---|
| `Text.Lower` | app.py:244-245 | `lower()` keeps the length and maps each character to its lower-case form, touching only 'A'-'Z' |
| `Text.LeadingSpaces` | app.py:244-245 | the length of the leading whitespace run: every character before it is whitespace, and the one after it is not |
| `Text.TrailingStart` | app.py:244-245 | where trailing whitespace starts: everything from there on is whitespace, and the character before it is not |
| `Text.Strip` | app.py:244-245 | the result of `strip()` is no longer than the input and has no whitespace at either end |
| `Text.Normalize` | app.py:244-245 | the compared form has no surrounding whitespace and no upper-case letter |
| `Text.AnswerMatches` | app.py:244-247 | an accepted answer strips to the translation's length; an answer that strips to the translation, or equals it up to ASCII case, is accepted |
| `Text.StripOfPadded` | app.py:244-245 | `strip()` removes exactly the surrounding whitespace: trimmed text padded with whitespace strips back to itself |
| `Text.StripDecomposes` | app.py:244-245 | every string is its stripped form with whitespace before and after |
| `Text.StripAbsorbsPadding` | app.py:244-245 | extra surrounding whitespace never changes the stripped form |
| `Text.StripIdempotent` | app.py:244-245 | stripping twice equals stripping once |
| `Text.LowerStripCommute` | app.py:244-245 | `strip().lower()` equals `lower().strip()` |
| `Text.LowerIdempotent` | app.py:244-245 | lowered text has no upper-case letters, and lowering it again changes nothing |
| `Text.MatchIgnoresCaseAndPadding` | app.py:244-247 | an answer equal to the translation up to ASCII case, padded with any whitespace, is accepted |
| `Text.MatchIsEquivalence` | app.py:247 | the answer comparison is reflexive, symmetric and transitive |
| `Text.HouseExample` | app.py:244-247 | " House " is accepted for the translation "house" |
| `Text.WrongAnswerExample` | app.py:247 | "car" is not accepted for "house" |
| `WordStore.WordsOf` | app.py:204 | the language's words are exactly the table rows with that language id |
| `WordStore.FindExisting` | app.py:163-166 | finds a row of the language with exactly the given original, and finds none iff no such row exists |
| `WordStore.NextId` | app.py:34 | a new row's id is larger than every id in the table, 1 in an empty table, and at least 1 when all ids are |
| `WordStore.WordTable.constructor` | app.py:285-287 | a new word table holds no rows |
| `WordStore.WordTable.AddWord` | app.py:161-179 | rejects iff the language already has a word with that exact original, leaving the table unchanged; otherwise appends exactly one row with a fresh id and the given original, translation and language; keeps the table valid |
| `WordStore.AppendKeepsTableValid` | app.py:163-179 | appending a word whose original is new to its language, under the next id, keeps ids positive and distinct and originals unique per language |
| `WordStore.WordsOfAppend` | app.py:173-179 | a new word is added to the end of its own language's word list and changes no other language's list |
| `WordStore.WordsOfKeepsIds` | app.py:204 | a language's words keep the table's distinct and positive ids |
| `WordStore.CaseSensitiveDuplicateCheck` | app.py:163-166 | the duplicate check is case-sensitive: "House" is not a duplicate of "house" |
| `Quiz.IsSet` | app.py:236 | `if current_word_id:`: an absent id and the id 0 count as unset, every id from 1 up as set |
| `Quiz.Remaining` | app.py:217 | a word is remaining iff it is one of the language's words and its id is not in `progress` |
| `Quiz.FindById` | app.py:237 | returns a word with that id from the list, and returns nothing iff no word has that id |
| `Quiz.Pick` | app.py:239 | the drawn word is one of the remaining words |
| `Quiz.ShownWord` | app.py:235-240 | with an id stored, the shown word is the remaining word with that id, or none if no remaining word has it; without one, a remaining word is drawn |
| `Quiz.Visit` | app.py:190-273 | a visit never changes the selected language; the early exits leave the session untouched; a question page has created `progress` and has at least one word remaining |
| `Quiz.FindLanguage` | app.py:105 | returns a language with that id from the list, and returns nothing iff no language has that id |
| `Quiz.DashboardVisit` | app.py:101-109 | the dashboard is shown only for a selected language owned by the user, with the session unchanged; otherwise exactly the selection is removed |
| `Quiz.Session.constructor` | app.py:196 | a session with none of the three entries, the state `session.get` at app.py:196 and 235 and the test at app.py:211 read as absent; app.py itself never creates the empty session, which Flask does |
| `Quiz.Session.Dashboard` | app.py:101-109 | the route's session update produces exactly the result and the session given by `DashboardVisit` |
| `Quiz.Session.SelectLanguage` | app.py:136-141 | a submitted language is stored and `progress` and the current word are kept; a POST without a language leaves the session unchanged |
| `Quiz.Session.Test` | app.py:190-273 | the route's step-by-step session updates produce exactly the outcome and the session given by `Visit` |
| `QuizProperties.RemainingConcat` | app.py:217 | the remaining words keep their original order (filtering distributes over concatenation) |
| `QuizProperties.RemainingCardinality` | app.py:217 | remaining words plus answered ids of the language add up to the number of words |
| `QuizProperties.RemainingCount` | app.py:259-270 | when `progress` is a duplicate-free subset of the word ids, exactly `total - len(progress)` words remain |
| `QuizProperties.RemainingKeepsIds` | app.py:217 | the remaining words keep distinct and positive ids |
| `QuizProperties.FindByIdFindsWord` | app.py:237 | with distinct ids, looking up a word's id finds that word |
| `QuizProperties.EveryRemainingWordCanBePicked` | app.py:239 | every remaining word can be the pick |
| `QuizProperties.EarlyExits` | app.py:196-208 | without a selected language, or with no words in it, the visit exits and the session (including `progress`) is unchanged |
| `QuizProperties.ProgressCreatedOnFirstVisit` | app.py:211-214 | on the first visit with words, `progress` is created: the quiz does not complete, and `progress` becomes `[]`, or, after a correct answer, a one-element list holding an id of the language |
| `QuizProperties.CompletionClearsProgress` | app.py:219-232 | the quiz completes iff no word remains, with or without an answer; it reports `len(progress)` and the total, and removes only `progress` |
| `QuizProperties.CompletedCountsEveryWord` | app.py:220-228 | with a sound progress list, a completed quiz has a correct count equal to the total, so the 100 per cent shown is accurate |
| `QuizProperties.QuestionCounts` | app.py:258-270 | the question page reports the total, `len(progress)`, and a remaining count equal to their difference when progress is sound |
| `QuizProperties.StoredWordIsShown` | app.py:235-237 | with an id stored, a page view shows the looked-up remaining word and draws nothing |
| `QuizProperties.DrawnWordIsStored` | app.py:238-240 | without an id stored, a page view shows the drawn remaining word and stores its id |
| `QuizProperties.RevisitShowsSameWord` | app.py:235-240 | visiting again without answering shows the same word and leaves the session as it was, whatever the second draw |
| `QuizProperties.AnswerJudgedAgainstShownWord` | app.py:242-253 | an answer is correct iff its stripped, lower-cased form equals the stored translation's |
| `QuizProperties.CorrectAnswerRecordsProgress` | app.py:247-251 | an answer matching the shown word's translation is reported correct, appends that word's id (not yet in `progress`, so the list grows by exactly one) and clears the current word; `progress` stays duplicate-free and within the language |
| `QuizProperties.WrongAnswerKeepsWord` | app.py:252-256 | an answer not matching the shown word's translation is reported wrong with that translation, leaves the session as a page view would, and the retry is judged against the same word |
| `QuizProperties.StaleCurrentWordIsStuck` | app.py:235-245 | a stored current word that is not remaining yields no word on screen, a failed answer, and no change that lets the quiz proceed |
| `QuizProperties.LanguageSwitchStrandsCurrentWord` | app.py:136-140 | switching language mid-quiz keeps the old current word, which strands the new language's quiz |
| `QuizProperties.ForeignProgressIsCounted` | app.py:211-217 | ids answered in another language count as correct in the new one |
| `QuizProperties.VisitKeepsInvariant` | app.py:190-273 | every visit preserves "progress is a duplicate-free subset of the language's ids and a stored current word is remaining"; under it an answer never fails and a question always has a word |
| `QuizProperties.FreshSessionSatisfiesInvariant` | app.py:210-212 | a session with no progress and no current word satisfies the invariant |
| `QuizProperties.ProgressOnlyGrows` | app.py:210-251 | within a run, `progress` is only extended, by at most one id per visit, until completion removes it |
| `QuizProperties.AddingWordKeepsInvariant` | app.py:173-179 | adding a word to the table keeps every session's quiz invariant |
| `QuizProperties.FindLanguageFindsRow` | app.py:105 | with distinct language ids, looking up a language's id finds that language |
| `QuizProperties.DashboardKeepsOnlyOwnLanguage` | app.py:101-109 | the dashboard keeps the selection iff it names one of the user's languages, and never touches `progress` or the current word |
| `QuizProperties.DroppedLanguageBlocksQuiz` | app.py:106-109 | after the dashboard drops a selection, the quiz redirects to the language choice while `progress` and the current word stay stored |

## Left out

- Flask routing, templates, `flash` and `redirect`: presentation. The outcome of a visit records which page or redirect the route produces, and the counts it passes to the template.
- SQLAlchemy persistence and `db.create_all`: the word table is an in-memory sequence in insertion order. The model takes that order to be the order `Word.query...all()` returns rows.
- The language name lookup (app.py:202-203): it only feeds the page title.
- Registration, login, password hashing and `flask_login`: library calls outside the quiz.
- WTForms validation: a validated answer form is the `Some` case of `answer`. An `add_word` call is `AddWord` after its form validated. The language id passed is the session's selected language, which app.py:159 copies into the form.
- `add_language`: it only creates a language row. The dashboard's page content is presentation; its check of the selection is modelled.
- The floating-point `progress_percentage` (app.py:261): the model keeps the integer `correct_count` and `total_words` it is computed from.
- `random.choice`'s distribution: the draw is a parameter, and every remaining word is reachable.
- Full Unicode `str.strip` and `str.lower`: whitespace is the ASCII set that Python's `strip()` removes, and lowering maps only 'A'-'Z'.
- Text.Lower: non-ASCII letters are left unchanged, whereas Python also lowers them.
- Text.Strip: the non-ASCII whitespace that Python's `strip()` also removes (such as U+0085, U+00A0 and U+3000) is kept.
- The selected language is stored as the submitted form string (app.py:137-139) and is matched against the integer id column at app.py:105 and app.py:204. The model takes it as an `Option<int>` holding the id that the string spells. A stored value counts as selected, as the non-empty form string does.
- The session cookie's persistence when the request fails at line 245: the model keeps the session as it was just before the failure.
- Concurrent requests in one session, and races between two inserts of the same word: each visit and each insert is one atomic step.

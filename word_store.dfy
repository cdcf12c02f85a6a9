/**
  The word table and the word-adding operation (app.py, `add_word`, lines
  161-179), together with the two queries over the table that the routes use:
  `Word.query.filter_by(language_id=...)` (line 204) and
  `Word.query.filter_by(original=..., language_id=...).first()` (lines 163-166).
  The table is held in memory as a sequence of rows in insertion order.
 */
module WordStore {
  import opened Wrappers
  import opened Records

  /** All words of one language, in table order (line 204). */
  function WordsOf(table: seq<Word>, languageId: int): (r: seq<Word>)
    ensures forall w :: w in r <==> w in table && w.languageId == languageId
    ensures |r| <= |table|
  {
    if table == [] then []
    else (if table[0].languageId == languageId then [table[0]] else []) + WordsOf(table[1..], languageId)
  }

  /**
    The first word of the language whose original text is exactly `original`
    (lines 163-166). The comparison is plain string equality: no trimming and
    no case folding.
   */
  function FindExisting(table: seq<Word>, original: string, languageId: int): (r: Option<Word>)
    ensures r.Some? ==> r.value in table && r.value.original == original && r.value.languageId == languageId
    ensures r.None? <==> forall w :: w in table ==> !(w.original == original && w.languageId == languageId)
  {
    if table == [] then None
    else if table[0].original == original && table[0].languageId == languageId then Some(table[0])
    else FindExisting(table[1..], original, languageId)
  }

  /** The largest identifier in the table, or 0 for an empty table. */
  function MaxId(table: seq<Word>): (m: int)
    ensures forall w :: w in table ==> w.id <= m
    ensures table == [] ==> m == 0
    ensures table != [] ==> exists w :: w in table && w.id == m
  {
    if table == [] then 0
    else
      var rest := MaxId(table[1..]);
      if table[1..] == [] || table[0].id > rest then table[0].id else rest
  }

  /**
    The identifier the database gives a new row: one more than the largest in
    use, and 1 in an empty table (SQLite's rule for an integer primary key).
   */
  function NextId(table: seq<Word>): (id: int)
    ensures forall w :: w in table ==> w.id < id
    ensures table == [] ==> id == 1
    ensures PositiveIds(table) ==> id >= 1
  {
    MaxId(table) + 1
  }

  /** No two words of one language have the same original text. */
  predicate UniqueOriginals(table: seq<Word>)
  {
    forall i, j :: 0 <= i < j < |table| ==>
      !(table[i].original == table[j].original && table[i].languageId == table[j].languageId)
  }

  /** What every table built by `AddWord` satisfies. */
  predicate TableValid(table: seq<Word>)
  {
    PositiveIds(table) && DistinctIds(table) && UniqueOriginals(table)
  }

  datatype AddResult = Added(word: Word) | AlreadyExists

  /** The `word` table. */
  class WordTable {
    var rows: seq<Word>

    constructor ()
      ensures rows == []
    {
      rows := [];
    }

    /**
      `add_word` after its form has validated: reject the word when the same
      original text already exists in the language, otherwise append one row.
     */
    method AddWord(languageId: int, original: string, translation: string) returns (result: AddResult)
      modifies this
      ensures result == AlreadyExists <==> FindExisting(old(rows), original, languageId).Some?
      ensures result == AlreadyExists ==> rows == old(rows)
      ensures result.Added? ==>
        result.word == Word(NextId(old(rows)), original, translation, languageId) &&
        rows == old(rows) + [result.word]
      ensures TableValid(old(rows)) ==> TableValid(rows)
    {
      var existing := FindExisting(rows, original, languageId);
      if existing.Some? {
        return AlreadyExists;
      }
      var word := Word(NextId(rows), original, translation, languageId);
      AppendKeepsTableValid(rows, word);
      rows := rows + [word];
      return Added(word);
    }
  }

  /** Appending a word whose original is new to its language, under a fresh identifier, keeps the table valid. */
  lemma AppendKeepsTableValid(table: seq<Word>, w: Word)
    requires FindExisting(table, w.original, w.languageId).None?
    requires w.id == NextId(table)
    ensures TableValid(table) ==> TableValid(table + [w])
  {
    var t := table + [w];
    assert forall i :: 0 <= i < |table| ==> t[i] == table[i] && table[i] in table;
    assert t[|table|] == w;
  }

  /** A new word joins the end of its own language's quiz list and leaves every other language's list as it was. */
  lemma {:induction false} WordsOfAppend(table: seq<Word>, w: Word, languageId: int)
    ensures WordsOf(table + [w], languageId) ==
      WordsOf(table, languageId) + (if w.languageId == languageId then [w] else [])
  {
    if table == [] {
      assert [] + [w] == [w];
      assert [w][1..] == [];
    } else {
      var t := table + [w];
      var head := if table[0].languageId == languageId then [table[0]] else [];
      var extra := if w.languageId == languageId then [w] else [];
      assert t[0] == table[0] && t[1..] == table[1..] + [w];
      WordsOfAppend(table[1..], w, languageId);
      assert WordsOf(t, languageId) == head + (WordsOf(table[1..], languageId) + extra);
      assert head + (WordsOf(table[1..], languageId) + extra) == (head + WordsOf(table[1..], languageId)) + extra;
    }
  }

  /** The words of one language keep the table's guarantees about identifiers. */
  lemma {:induction false} WordsOfKeepsIds(table: seq<Word>, languageId: int)
    requires DistinctIds(table)
    ensures DistinctIds(WordsOf(table, languageId))
    ensures PositiveIds(table) ==> PositiveIds(WordsOf(table, languageId))
  {
    if table != [] {
      var w, tail := table[0], table[1..];
      DistinctIdsTail(table);
      WordsOfKeepsIds(tail, languageId);
      var rest := WordsOf(tail, languageId);
      if w.languageId == languageId {
        assert Ids(rest) <= Ids(tail);
        ConsDistinct(w, rest);
      }
    }
  }

  /** The duplicate check is exact: a different letter case is a different word. */
  lemma CaseSensitiveDuplicateCheck()
    ensures FindExisting([Word(1, "house", "dom", 1)], "House", 1).None?
    ensures FindExisting([Word(1, "house", "dom", 1)], "house", 1).Some?
  {
  }
}

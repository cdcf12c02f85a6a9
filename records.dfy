/**
  The record shapes of the word store (app.py, models Language and Word) and the
  facts about their identifiers that the database guarantees.
 */
module Records {

  /** A row of the `language` table: a named collection owned by one account. */
  datatype Language = Language(id: int, name: string, userId: int)

  /** A row of the `word` table: an original text, its translation and the owning language. */
  datatype Word = Word(id: int, original: string, translation: string, languageId: int)

  /** The identifiers of a list of words. */
  function Ids(ws: seq<Word>): set<int>
  {
    set w | w in ws :: w.id
  }

  /** No two rows share an identifier (the primary key). */
  predicate DistinctIds(ws: seq<Word>)
  {
    forall i, j :: 0 <= i < j < |ws| ==> ws[i].id != ws[j].id
  }

  /** No two languages share an identifier (the primary key). */
  predicate DistinctLanguageIds(ls: seq<Language>)
  {
    forall i, j :: 0 <= i < j < |ls| ==> ls[i].id != ls[j].id
  }

  /** Every identifier is at least 1, as the database assigns them. */
  predicate PositiveIds(ws: seq<Word>)
  {
    forall w :: w in ws ==> w.id >= 1
  }

  /** A list of identifiers without repetitions. */
  predicate NoDuplicates(xs: seq<int>)
  {
    forall i, j :: 0 <= i < j < |xs| ==> xs[i] != xs[j]
  }

  /** The elements of a list of identifiers, as a set. */
  function Elements(xs: seq<int>): set<int>
  {
    set x | x in xs
  }

  /** A list without repetitions has exactly as many distinct elements as entries. */
  lemma {:induction false} NoDuplicatesCardinality(xs: seq<int>)
    requires NoDuplicates(xs)
    ensures |Elements(xs)| == |xs|
  {
    if xs != [] {
      var rest := xs[1..];
      assert NoDuplicates(rest) by {
        forall i, j | 0 <= i < j < |rest| ensures rest[i] != rest[j] {
          assert rest[i] == xs[i + 1] && rest[j] == xs[j + 1];
        }
      }
      NoDuplicatesCardinality(rest);
      assert Elements(xs) == {xs[0]} + Elements(rest) by {
        assert xs == [xs[0]] + rest;
      }
      assert xs[0] !in Elements(rest) by {
        forall k | 0 <= k < |rest| ensures rest[k] != xs[0] {
          assert rest[k] == xs[k + 1];
        }
      }
    }
  }

  /** Dropping the first row keeps identifiers distinct, and the first identifier is not among the others. */
  lemma DistinctIdsTail(ws: seq<Word>)
    requires ws != [] && DistinctIds(ws)
    ensures DistinctIds(ws[1..])
    ensures ws[0].id !in Ids(ws[1..])
  {
    var rest := ws[1..];
    forall i, j | 0 <= i < j < |rest| ensures rest[i].id != rest[j].id {
      assert rest[i] == ws[i + 1] && rest[j] == ws[j + 1];
    }
  }

  /** Appending an identifier not yet present keeps the list duplicate-free and adds exactly that element. */
  lemma AppendFresh(xs: seq<int>, x: int)
    requires x !in xs
    ensures NoDuplicates(xs) ==> NoDuplicates(xs + [x])
    ensures Elements(xs + [x]) == Elements(xs) + {x}
  {
    var ys := xs + [x];
    assert forall i :: 0 <= i < |xs| ==> ys[i] == xs[i];
  }

  /** A row whose identifier is new can be put in front of a list with distinct identifiers. */
  lemma ConsDistinct(w: Word, ws: seq<Word>)
    requires DistinctIds(ws) && w.id !in Ids(ws)
    ensures DistinctIds([w] + ws)
  {
    var r := [w] + ws;
    forall i, j | 0 <= i < j < |r| ensures r[i].id != r[j].id {
      assert r[j] == ws[j - 1];
      if i == 0 {
        assert r[j] in ws;
      } else {
        assert r[i] == ws[i - 1];
      }
    }
  }

  /** The answered identifiers among a list of rows, counted one row at a time. */
  lemma IntersectCons(answered: set<int>, x: int, rest: set<int>)
    requires x !in rest
    ensures |answered * ({x} + rest)| == |answered * rest| + (if x in answered then 1 else 0)
  {
    if x in answered {
      assert answered * ({x} + rest) == (answered * rest) + {x};
    } else {
      assert answered * ({x} + rest) == answered * rest;
    }
  }
}

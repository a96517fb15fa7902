/**
 The wine catalog as the scripts see it: rows of the `wines2` table, the five
 columns that carry terms, the vocabulary of distinct terms, and the database
 tables the ingestion writes, held as maps.
 */
module Catalog {
  import opened Vectors

  /** The five categorical columns whose values are looked up as terms. */
  datatype Column = WineType | Variety | Region | TopNote | BottomNote

  /** The values of `type, variety, region, topnote, bottomnote` in one row. */
  datatype Attributes = Attributes(
    wineType: string, variety: string, region: string, topNote: string, bottomNote: string)

  /** One row of `SELECT id, type, variety, region, topnote, bottomnote FROM wines2`. */
  datatype WineRow = WineRow(id: int, attrs: Attributes)

  /** A full `wines2` row as the catalog generator inserts it. */
  datatype WineRecord = WineRecord(
    id: int, name: string, wineType: string, variety: string, year: int,
    region: string, price: int, topNote: string, bottomNote: string)

  function Field(a: Attributes, c: Column): string {
    match c
    case WineType => a.wineType
    case Variety => a.variety
    case Region => a.region
    case TopNote => a.topNote
    case BottomNote => a.bottomNote
  }

  /** The five terms of a row, in column order and with repeats kept. */
  function Terms(a: Attributes): (ts: seq<string>)
    ensures |ts| == 5
    ensures forall c :: Field(a, c) in ts
    ensures forall t :: t in ts ==> exists c :: t == Field(a, c)
  {
    assert a.wineType == Field(a, WineType);
    assert a.variety == Field(a, Variety);
    assert a.region == Field(a, Region);
    assert a.topNote == Field(a, TopNote);
    assert a.bottomNote == Field(a, BottomNote);
    [a.wineType, a.variety, a.region, a.topNote, a.bottomNote]
  }

  /** The five term columns of each fetched row, dropping the id. */
  function AttributesOf(rows: seq<WineRow>): (attrs: seq<Attributes>)
    ensures |attrs| == |rows|
    ensures forall i :: 0 <= i < |rows| ==> attrs[i] == rows[i].attrs
  {
    seq(|rows|, i requires 0 <= i < |rows| => rows[i].attrs)
  }

  /** The set of values one column takes over the rows, built the way the
      fetch loop builds it: one `add` per row, in order. */
  function ColumnValues(rows: seq<Attributes>, c: Column): set<string> {
    if rows == [] then {} else ColumnValues(rows[..|rows| - 1], c) + {Field(rows[|rows| - 1], c)}
  }

  /** The five column sets the fetch loop keeps, one per term column. */
  datatype ColumnSets = ColumnSets(
    types: set<string>, varieties: set<string>, regions: set<string>,
    topNotes: set<string>, bottomNotes: set<string>)

  /** One iteration of the fetch loop: each column's value is added to its set. */
  function AddRow(cs: ColumnSets, a: Attributes): ColumnSets {
    ColumnSets(cs.types + {a.wineType}, cs.varieties + {a.variety}, cs.regions + {a.region},
               cs.topNotes + {a.topNote}, cs.bottomNotes + {a.bottomNote})
  }

  /** The sets the loop ends with when it starts from `cs0` and visits the
      rows in order. */
  function Collect(cs0: ColumnSets, rows: seq<Attributes>): ColumnSets {
    if rows == [] then cs0 else AddRow(Collect(cs0, rows[..|rows| - 1]), rows[|rows| - 1])
  }

  /** One more row, as the loop sees it. */
  lemma CollectStep(cs0: ColumnSets, rows: seq<Attributes>, i: nat)
    requires i < |rows|
    ensures Collect(cs0, rows[..i + 1]) == AddRow(Collect(cs0, rows[..i]), rows[i])
  {
    assert rows[..i + 1][..i] == rows[..i];
  }

  /** The loop ends with each starting set plus that column's values. */
  lemma {:induction false} CollectUnion(cs0: ColumnSets, rows: seq<Attributes>)
    ensures Collect(cs0, rows) == ColumnSets(
      cs0.types + ColumnValues(rows, WineType), cs0.varieties + ColumnValues(rows, Variety),
      cs0.regions + ColumnValues(rows, Region), cs0.topNotes + ColumnValues(rows, TopNote),
      cs0.bottomNotes + ColumnValues(rows, BottomNote))
  {
    if rows != [] {
      CollectUnion(cs0, rows[..|rows| - 1]);
    }
  }

  /** All distinct terms of the catalog: the union of the five column sets. */
  function Vocabulary(rows: seq<Attributes>): set<string> {
    ColumnValues(rows, WineType) + ColumnValues(rows, Variety) + ColumnValues(rows, Region)
    + ColumnValues(rows, TopNote) + ColumnValues(rows, BottomNote)
  }

  /** No two rows share an id (the `id INT PRIMARY KEY` of `wines2`). */
  predicate DistinctIds(rows: seq<WineRow>) {
    forall i, j :: 0 <= i < j < |rows| ==> rows[i].id != rows[j].id
  }

  /** Adding a row to the loop adds its value to each column set. */
  lemma ColumnValuesSnoc(rows: seq<Attributes>, r: Attributes, c: Column)
    ensures ColumnValues(rows + [r], c) == ColumnValues(rows, c) + {Field(r, c)}
  {
    assert (rows + [r])[..|rows|] == rows;
  }

  /** The loop's set is the set of the column's values over all rows. */
  lemma {:induction false} ColumnValuesMeaning(rows: seq<Attributes>, c: Column)
    ensures ColumnValues(rows, c) == set r | r in rows :: Field(r, c)
  {
    if rows != [] {
      var init, last := rows[..|rows| - 1], rows[|rows| - 1];
      assert rows == init + [last];
      ColumnValuesMeaning(init, c);
      assert forall r :: r in rows <==> r in init || r == last;
    }
  }

  /** A column takes at most as many distinct values as there are rows. */
  lemma {:induction false} ColumnValuesBound(rows: seq<Attributes>, c: Column)
    ensures |ColumnValues(rows, c)| <= |rows|
  {
    if rows != [] {
      var init := rows[..|rows| - 1];
      assert rows == init + [rows[|rows| - 1]];
      ColumnValuesSnoc(init, rows[|rows| - 1], c);
      ColumnValuesBound(init, c);
    }
  }

  /** At most five distinct terms per row. */
  lemma VocabularyBound(rows: seq<Attributes>)
    ensures |Vocabulary(rows)| <= 5 * |rows|
  {
    ColumnValuesBound(rows, WineType);
    ColumnValuesBound(rows, Variety);
    ColumnValuesBound(rows, Region);
    ColumnValuesBound(rows, TopNote);
    ColumnValuesBound(rows, BottomNote);
    var a, b, c := ColumnValues(rows, WineType), ColumnValues(rows, Variety), ColumnValues(rows, Region);
    var d, e := ColumnValues(rows, TopNote), ColumnValues(rows, BottomNote);
    assert |a + b| <= |a| + |b|;
    assert |a + b + c| <= |a + b| + |c|;
    assert |a + b + c + d| <= |a + b + c| + |d|;
    assert |a + b + c + d + e| <= |a + b + c + d| + |e|;
  }

  /** The vocabulary depends only on which rows occur: neither their order
      nor repeated rows change it. */
  lemma VocabularyIgnoresOrder(a: seq<Attributes>, b: seq<Attributes>)
    requires forall r :: r in a <==> r in b
    ensures Vocabulary(a) == Vocabulary(b)
  {
    forall c ensures ColumnValues(a, c) == ColumnValues(b, c) {
      ColumnValuesMeaning(a, c);
      ColumnValuesMeaning(b, c);
      assert forall t :: t in ColumnValues(a, c) ==> t in ColumnValues(b, c);
      assert forall t :: t in ColumnValues(b, c) ==> t in ColumnValues(a, c);
    }
  }

  /** A term is in a column set exactly when some row has it in that column. */
  lemma {:induction false} ColumnMember(rows: seq<Attributes>, c: Column, t: string)
    ensures t in ColumnValues(rows, c) <==> exists i :: 0 <= i < |rows| && Field(rows[i], c) == t
  {
    if rows != [] {
      var init := rows[..|rows| - 1];
      ColumnMember(init, c, t);
      if exists i :: 0 <= i < |init| && Field(init[i], c) == t {
        var i :| 0 <= i < |init| && Field(init[i], c) == t;
        assert rows[i] == init[i];
      }
      if exists i :: 0 <= i < |rows| && Field(rows[i], c) == t {
        var i :| 0 <= i < |rows| && Field(rows[i], c) == t;
        if i < |init| {
          assert init[i] == rows[i];
        }
      }
    }
  }

  /** A term is in the vocabulary exactly when it is one of the five terms of
      some row. */
  lemma VocabularyMembers(rows: seq<Attributes>, t: string)
    ensures t in Vocabulary(rows) <==> exists i :: 0 <= i < |rows| && t in Terms(rows[i])
  {
    forall c ensures t in ColumnValues(rows, c) <==> exists i :: 0 <= i < |rows| && Field(rows[i], c) == t {
      ColumnMember(rows, c, t);
    }
    if t in Vocabulary(rows) {
      var c :| t in ColumnValues(rows, c);
      var i :| 0 <= i < |rows| && Field(rows[i], c) == t;
      assert t in Terms(rows[i]);
    }
    if exists i :: 0 <= i < |rows| && t in Terms(rows[i]) {
      var i :| 0 <= i < |rows| && t in Terms(rows[i]);
      var c :| t == Field(rows[i], c);
      assert t in ColumnValues(rows, c);
    }
  }

  /** The tables of the wine database. */
  class Database {
    /** `wines2`, keyed by its primary key `id`. */
    var wines2: map<int, WineRecord>
    /** `token_embeddings`, keyed by its primary key `token`. */
    var tokenEmbeddings: map<string, Vector>
    /** `combined_embeddings`, keyed by its primary key `wine_id`. */
    var combinedEmbeddings: map<int, Vector>

    constructor ()
      ensures wines2 == map[] && tokenEmbeddings == map[] && combinedEmbeddings == map[]
    {
      wines2, tokenEmbeddings, combinedEmbeddings := map[], map[], map[];
    }
  }
}

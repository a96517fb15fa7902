/**
 The vocabulary-drift check: the number of distinct terms in the catalog's
 five term columns is compared with the number of rows of `token_embeddings`.
 */
module Tdd {
  import opened Vectors
  import opened Catalog
  import opened VectorizeTokens

  datatype Verdict = Pass | Fail

  /** Collects the five column sets over the fetched rows, counts their
      union, counts the token table and compares the two counts. */
  method CheckEmbeddings(rows: seq<Attributes>, tokenEmbeddings: map<string, Vector>)
    returns (uniqueCount: nat, embeddedCount: nat, verdict: Verdict)
    ensures uniqueCount == |Vocabulary(rows)|
    ensures embeddedCount == |tokenEmbeddings|
    ensures verdict == Pass <==> uniqueCount == embeddedCount
  {
    var typeSet, varietySet, regionSet, topNoteSet, bottomNoteSet := {}, {}, {}, {}, {};
    ghost var empty := ColumnSets({}, {}, {}, {}, {});
    for i := 0 to |rows|
      invariant ColumnSets(typeSet, varietySet, regionSet, topNoteSet, bottomNoteSet) == Collect(empty, rows[..i])
    {
      var row := rows[i];
      CollectStep(empty, rows, i);
      typeSet := typeSet + {row.wineType};
      varietySet := varietySet + {row.variety};
      regionSet := regionSet + {row.region};
      topNoteSet := topNoteSet + {row.topNote};
      bottomNoteSet := bottomNoteSet + {row.bottomNote};
    }
    assert rows[..|rows|] == rows;
    CollectUnion(empty, rows);
    var uniques := typeSet + varietySet + regionSet + topNoteSet + bottomNoteSet;
    assert uniques == Vocabulary(rows);
    uniqueCount := |uniques|;
    embeddedCount := |tokenEmbeddings|;
    verdict := if uniqueCount == embeddedCount then Pass else Fail;
  }

  /** Run against the token table that a resolution pass over the same rows
      writes, the check passes exactly when that pass found no missing term. */
  lemma PassIffNothingMissing(we: map<string, Vector>, rows: seq<Attributes>)
    ensures |Vocabulary(rows)| == |SelectedOf(we, Vocabulary(rows))| <==>
      MissingOf(we, Vocabulary(rows)) == {}
  {
    ResolutionPartitions(we, Vocabulary(rows));
  }

  /** The unique count depends neither on the order of the rows nor on
      repeated rows, and is at most five per row. */
  lemma UniqueCountProperties(a: seq<Attributes>, b: seq<Attributes>)
    requires forall r :: r in a <==> r in b
    ensures |Vocabulary(a)| == |Vocabulary(b)|
    ensures |Vocabulary(a)| <= 5 * |a|
  {
    VocabularyIgnoresOrder(a, b);
    VocabularyBound(a);
  }
}

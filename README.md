# wine2 ingestion, drift check and catalog generator, in Dafny

This project models the offline side of the wine2 recommender and proves
properties about it. The modelled code comes from three scripts:

- `pydata/vectorize_tokens.py`, the class `VectorizeTheWines`. It:
  - loads the GloVe 6B.50d word vectors into `word_embeddings`;
  - fetches the catalog rows of `wines2` and collects the values of the
    five term columns (`type`, `variety`, `region`, `topnote`,
    `bottomnote`) into five sets;
  - resolves every distinct term by its lower-case form;
  - stores the terms that resolve, under their own spelling, in
    `token_embeddings`;
  - stores one combined vector in `combined_embeddings` for each wine with
    at least one term whose lower-case form is a GloVe word. That vector is
    the mean of the vectors of the wine's resolvable terms. A wine with no
    such term gets no row.
- `pydata/tdd.py`, the vocabulary-drift check. It counts the distinct
  catalog terms, counts the rows of `token_embeddings`, and reports PASS
  when the two counts agree and FAIL otherwise.
- `pydata/create_wines.py`, the synthetic catalog generator. It makes 100
  random wines, names each one after its region, one of its two notes and
  its variety, and inserts them into `wines2` with
  `ON CONFLICT (id) DO NOTHING`.

The database tables are maps, held in the class `Catalog.Database`, and the
rows are datatypes. The ingestion state is the class
`VectorizeTokens.VectorizeTheWines`. Its methods update its fields in loops,
and each method is proved against a specification function:

- `Store` for loading;
- `ColumnValues` and `Collect` for the column sets;
- `SelectedOf` and `MissingOf` for resolution;
- `Resolved`, `Sum`, `Mean`, `Centroid` and `CombinedTable` for the
  combined vectors.

Lemmas then state what those functions mean.

Modules and files:

- `wrappers.dfy`: `Wrappers`, the `Option` type.
- `text.dfy`: `Text`, covering `str.split()`, `str.lower()` and
  `str.capitalize()` over ASCII.
- `vectors.dfy`: `Vectors`, covering `np.zeros`, `+=` and `/=` on vectors,
  the reference component sum, the loop's running sum and the mean.
- `catalog.dfy`: `Catalog`, covering rows, columns, the column sets, the
  vocabulary and the database tables.
- `vectorize_tokens.dfy`: `VectorizeTokens`, covering GloVe loading,
  resolution, the centroid and the class `VectorizeTheWines`.
- `tdd.py` is modelled in `tdd.dfy`, module `Tdd`.
- `create_wines.dfy` has two modules: `WineNames` for
  `generate_wine_name`, and `CreateWines` for the generation loop and the
  insert.

Behaviour of the scripts that the model keeps:

- Loading does not stop when the file cannot be opened. The `IOError` is
  caught, and the object keeps an unchanged, usually empty,
  `word_embeddings`.
- A malformed line is not skipped. A blank line makes `values[0]` fail, and
  a non-numeric token makes `np.array(..., dtype=float)` fail. Either
  exception escapes `load_glove_model`, which leaves the lines before it
  loaded. The outcome `Malformed(k)` records the line number and keeps
  those lines loaded. In the source the exception also escapes `__init__`
  (`pydata/vectorize_tokens.py:31`), so `VectorizeTheWines()` at line 155
  raises and the script stops with no object at all. The model instead
  returns normally, and a caller could go on using the object.
- The GloVe table is keyed by each word as written. Only the lookups
  lower-case.

## Model

| member | source | states |
|---|---|---|
| VectorizeTokens.VectorizeTheWines.constructor | pydata/vectorize_tokens.py:20-30 | Before loading, the rows, the five column sets, the GloVe table, the selection and the missing list are all empty. |
| VectorizeTokens.VectorizeTheWines.LoadGloveModel | pydata/vectorize_tokens.py:57-66 | The outcome is `Unreadable` exactly when the file cannot be opened, and then the table is unchanged. The outcome is `Loaded` exactly when every line parses; the table is then the old table with each line's word assigned its vector, in file order. Otherwise it is `Malformed(k)`, where line k is the first line that does not parse, and exactly the lines before it are stored. |
| VectorizeTokens.ParseReals | pydata/vectorize_tokens.py:63 | The tokens convert exactly when each one does. The result has one component per token, and component k is token k converted. |
| VectorizeTokens.ParseLine | pydata/vectorize_tokens.py:61-63 | A line parses exactly when it has a first token and the remaining tokens convert. The word is the first whitespace-separated token, has no whitespace, and is kept as written. The vector is the conversion of the other tokens. |
| VectorizeTokens.ParseWrittenLine | pydata/vectorize_tokens.py:61-63 | Round trip: a line written as a word and numbers separated by single spaces and ended by a newline, as `for line in f` yields it, parses back to that word and those numbers. |
| VectorizeTokens.StoreKeys | pydata/vectorize_tokens.py:60-64 | After loading, the keys are the old keys plus the first token of every line, exactly as written. Nothing is lower-cased at load time. |
| VectorizeTokens.StoreLastWins | pydata/vectorize_tokens.py:60-64 | When a word repeats, the vector of its last line is the one kept. |
| VectorizeTokens.StoreUntouched | pydata/vectorize_tokens.py:60-64 | A word that no line mentions keeps its old binding, or stays absent. |
| VectorizeTokens.StoreDim | pydata/vectorize_tokens.py:63-64 | If every old vector and every line has d components, every vector after loading has d components. |
| VectorizeTokens.LoadedLine | pydata/vectorize_tokens.py:60-64 | When no later line repeats its word, a line's first token is a key mapped to the numbers on that line. |
| VectorizeTokens.VectorizeTheWines.GetWines | pydata/vectorize_tokens.py:33-47 | `wines` becomes the fetched rows. Each column set gains exactly that column's values over the rows. Resolution of the resulting vocabulary then follows, as for `ExtractSelectedEmbeddings`. |
| VectorizeTokens.VectorizeTheWines.CollectColumns | pydata/vectorize_tokens.py:40-46 | After the loop, each of the five sets is its old contents plus the set of that column's values over all fetched rows. |
| Catalog.CollectUnion | pydata/vectorize_tokens.py:40-46 | Visiting the rows in order from starting sets gives, for each column, the starting set plus that column's values. |
| Catalog.ColumnValuesMeaning | pydata/vectorize_tokens.py:40-46 | The set the loop builds for a column is the set of that column's value in each row. |
| Catalog.ColumnMember | pydata/vectorize_tokens.py:40-46 | A term is in a column's set exactly when some row has it in that column. |
| Catalog.VocabularyMembers | pydata/vectorize_tokens.py:69-75 | A term is in the union of the five sets exactly when it is one of the five terms of some row. |
| Catalog.VocabularyBound | pydata/vectorize_tokens.py:69-75 | The vocabulary has at most five terms per row. |
| Catalog.VocabularyIgnoresOrder | pydata/vectorize_tokens.py:69-75 | The vocabulary depends only on which rows occur, not on their order or their repetition. |
| VectorizeTokens.VectorizeTheWines.ExtractSelectedEmbeddings | pydata/vectorize_tokens.py:68-81 | `selected_embeddings` gains, for every term of the union whose lower-case form has a vector, that term (as spelled) mapped to that vector. `missing_terms` keeps its old entries and gains every other term of the union, each once, in some order. |
| VectorizeTokens.ResolutionPartitions | pydata/vectorize_tokens.py:76-81 | The selected terms and the missing terms partition the vocabulary: each term is in exactly one, and the counts add up to the vocabulary size. A selected term `t` maps to the vector of `lower(t)`, and a missing term's lower-case form has no vector. |
| VectorizeTokens.VectorizeTheWines.SaveEmbeddingsToDb | pydata/vectorize_tokens.py:87-103 | The recreated `token_embeddings` table equals `selected_embeddings`: the `ON CONFLICT DO NOTHING` clause never fires, because the keys are distinct. |
| VectorizeTokens.Resolved | pydata/vectorize_tokens.py:130-134 | A wine's resolved vectors are at most as many as its terms. They are non-empty exactly when some term's lower-case form has a vector. |
| VectorizeTokens.VectorizeTheWines.SumResolved | pydata/vectorize_tokens.py:128-134 | The inner loop ends with the running total equal to the sum of the resolved vectors, starting from `np.zeros(50)`. `term_count` equals their number. |
| VectorizeTokens.Centroid | pydata/vectorize_tokens.py:128-136 | A wine has a combined vector exactly when one of its five terms, lower-cased, is a GloVe word. Such a vector has 50 components. |
| VectorizeTokens.CentroidIsMean | pydata/vectorize_tokens.py:128-136 | The combined vector comes from one to five resolved vectors. Each of its components is the sum of that component over the resolved vectors, divided by their number. |
| VectorizeTokens.CentroidByLoop | pydata/vectorize_tokens.py:128-136 | The loop's total divided by its count is the combined vector. A count of zero means there is none. |
| VectorizeTokens.CentroidOfEqualVectors | pydata/vectorize_tokens.py:128-136 | When all resolvable terms have the same vector v, the combined vector is v. |
| VectorizeTokens.MeanIgnoresTermOrder | pydata/vectorize_tokens.py:130-136 | Reordering a wine's terms leaves the number of resolved vectors and their mean unchanged. |
| VectorizeTokens.ResolvedPermutation | pydata/vectorize_tokens.py:130-134 | The resolved vectors of a reordering of the terms are a reordering of the resolved vectors. |
| Vectors.SumIsComponentSum | pydata/vectorize_tokens.py:128-134 | Component j of the running total equals the reference sum of component j over the vectors. |
| Vectors.SumPermutation | pydata/vectorize_tokens.py:130-134 | The running total does not depend on the order in which the vectors are added. |
| Vectors.Mean | pydata/vectorize_tokens.py:136 | After `/= term_count`, each component is the component sum divided by the number of vectors. |
| Vectors.MeanOfCopies | pydata/vectorize_tokens.py:128-136 | The mean of n copies of one vector is that vector. |
| VectorizeTokens.VectorizeTheWines.SaveCombinedVectorsToDb | pydata/vectorize_tokens.py:115-140 | The recreated `combined_embeddings` table equals `CombinedTable` of the fetched rows: rows are taken in order, and a row is inserted under the wine's id when it has a combined vector. |
| VectorizeTokens.CombinedTableKeys | pydata/vectorize_tokens.py:126-140 | Every key of `combined_embeddings` is the id of a fetched wine. |
| VectorizeTokens.CombinedTableAt | pydata/vectorize_tokens.py:126-140 | With distinct ids, a wine's entry is present exactly when its combined vector exists, and the entry holds that vector. |
| VectorizeTokens.CombinedTableContents | pydata/vectorize_tokens.py:126-140 | With distinct ids, a wine has a row exactly when one of its five terms, lower-cased, is a GloVe word. That row holds the wine's combined vector. |
| Text.SplitJoinSpaced | pydata/vectorize_tokens.py:61 | `line.split()` undoes `" ".join(words)` for whitespace-free words. |
| Text.SplitTrailingSpace | pydata/vectorize_tokens.py:60-61 | `line.split()` ignores a trailing whitespace character, such as the newline that ends each line of the file. |
| Text.CapitalizeCase | pydata/create_wines.py:34 | After `str.capitalize()`, the first character is not lower case and no later character is upper case, and lower-casing gives the same result as lower-casing the input. |
| Text.LowerIdempotent | pydata/create_wines.py:34 | Lower-casing an already lower-cased string changes nothing, which is what makes `capitalize()` keep a word's lower-case form. |
| Tdd.CheckEmbeddings | pydata/tdd.py:16-42 | `unique_count` is the number of distinct terms over the five columns of the fetched rows. `embedded_count` is the number of rows of `token_embeddings`. The verdict is PASS exactly when the two are equal, and FAIL otherwise. |
| Tdd.PassIffNothingMissing | pydata/tdd.py:30-42 | Run against the `token_embeddings` table that resolving the same rows writes, the check passes exactly when no term is missing. |
| Tdd.UniqueCountProperties | pydata/tdd.py:22-31 | The unique count does not depend on the order or repetition of the rows, and is at most five per row. |
| WineNames.GenerateWineName | pydata/create_wines.py:29-34 | The name is two characters longer than its three parts together (the two separating spaces). |
| WineNames.NameWords | pydata/create_wines.py:29-34 | A name splits into exactly three words: the capitalised region, then the capitalised descriptor, then the capitalised variety. |
| WineNames.NameExample | pydata/create_wines.py:32 | The doc comment's example: region "napa", descriptor "bold" and variety "cabernet" give "Napa Bold Cabernet". |
| CreateWines.RegionsWellFormed | pydata/create_wines.py:15-25 | Every region has exactly three descriptors, and they are pairwise distinct. So `random.sample(..., 2)` can always draw two distinct notes. |
| CreateWines.NotesAreWords | pydata/create_wines.py:15-25 | Every descriptor of every region is a single word without whitespace. |
| CreateWines.MakeWineValid | pydata/create_wines.py:38-56 | For any valid draw, the row satisfies all of the following. Its id is `i + 1`. Its type, region and variety come from `wine_types`, the keys of `regions` and `varieties`. Its two notes are distinct descriptors of its region. Its year is in [1980, 2023] and its price in [10, 300]. Its name is built from one of the two notes. The name's middle word is that note, capitalised. |
| CreateWines.GenerateWines | pydata/create_wines.py:38-56 | The loop returns the rows that `Generated` specifies for the draws: one row per draw, in order. |
| CreateWines.GeneratedAt | pydata/create_wines.py:38-56 | Row k is the row built from draw k. |
| CreateWines.GeneratedValid | pydata/create_wines.py:38-56 | For any valid draws there is one row per draw. Row k is built from draw k, has id k + 1, and satisfies every row invariant above. |
| CreateWines.InsertWines | pydata/create_wines.py:81-91 | The recreated `wines2` table is the table that inserting the rows in order with `ON CONFLICT (id) DO NOTHING` gives. |
| CreateWines.InsertAllKeepsAll | pydata/create_wines.py:81-91 | With distinct ids, every row is stored under its id, no other key exists, and there is one entry per row. |
| CreateWines.GeneratedRowsKept | pydata/create_wines.py:81-91 | For the generated ids 1..N, the table's keys are exactly 1..N, it has N entries, and key k + 1 holds row k. |

## Left out

- Database access through psycopg2 is not modelled: connections, cursors,
  the `DROP`/`CREATE TABLE` DDL, `commit` and `ON DELETE CASCADE`. Each
  table is a map field of `Catalog.Database`. A drop-and-recreate is an
  assignment of the empty map.
- The database error paths are not modelled. The model states only what
  the methods do when every statement succeeds. In the source:
  - a psycopg2 error inside either save is caught and printed, and
    `connection.close()` then runs without a `commit`, so the `DROP` and
    the `INSERT`s roll back and the old table stays
    (`pydata/vectorize_tokens.py:104-113`, `141-150`);
  - a database error in `get_wines` after connecting is caught
    (`pydata/vectorize_tokens.py:48-51`), leaving `wines` and the
    selection as they were, usually empty. `__main__` then rebuilds both
    tables from that state, usually leaving them empty
    (`pydata/vectorize_tokens.py:156-158`);
  - when `connect` fails, `connection` is unbound in `finally`
    (`pydata/vectorize_tokens.py:53`, `111` and `148`), so an
    `UnboundLocalError` escapes.
- Console output is not modelled: every `print`, the report of missing
  terms (`pydata/vectorize_tokens.py:82-85`) and the printed counts of
  `tdd.py`.
- The model has no file I/O. The GloVe file is a parameter: `None` when it
  cannot be opened, otherwise its lines.
- The model has no floating point. Numbers are exact reals, and converting
  one token is a caller-supplied function, `parse`. IEEE rounding and
  numpy's float parsing are outside the model.
- `Text` models whitespace, `lower()` and `capitalize()` over ASCII only.
  Unicode case mapping and Unicode whitespace are not modelled.
- The file path and the hard-coded `PATH` are not modelled. `__init__` is
  split into the constructor, which gives the empty state, and a separate
  call of `LoadGloveModel`.
- VectorizeTokens.VectorizeTheWines.SaveCombinedVectorsToDb requires
  distinct wine ids, because the source's INSERT has no conflict clause.
  It also requires 50 components in every vector a term resolves to, the
  width of the GloVe 6B.50d vectors. A duplicate id raises an error in
  the source. A stored vector of width 1 broadcasts onto all 50
  components at `pydata/vectorize_tokens.py:133`, and any width other than
  1 or 50 raises. None of these paths is modelled.
- VectorizeTokens.VectorizeTheWines.ExtractSelectedEmbeddings visits the
  union of the sets in an arbitrary order, chosen by the model, where
  Python uses set iteration order. So the contract fixes the set of
  appended missing terms, not their order.
- VectorizeTokens.VectorizeTheWines.CollectColumns and
  VectorizeTokens.VectorizeTheWines.SumResolved are the loops of
  `get_wines` and of `save_combined_vectors_to_db`, factored into methods
  of their own.
- `random` is not modelled. Every random pick is a field of
  `CreateWines.Draw`, and `CreateWines.ValidDraw` constrains it to what
  `random.choice`, `random.sample(..., 2)` and `random.randint` can
  return.
- NULL column values are not modelled. Every term column is a `string`. In
  the source a NULL arrives as `None`: `pydata/tdd.py:24-31` counts it as one
  more distinct term, while `pydata/vectorize_tokens.py:77` and `131`
  raise at `term.lower()`.
- pandas is not modelled. The DataFrame is the sequence of rows.
- CreateWines.GenerateWines takes any number of draws; `N` = 100 is the
  length the script uses, and `CreateWines.GeneratedRowsKept` states the
  insert for that length.
- `pydata/server.py`, `pydata/db.py` and `pydata/tdd_server.py` are not
  part of this model, and neither is the cosine-similarity ranking they
  serve or call. They are a web layer, database reads and an HTTP client.
  Note that `pydata/server.py:80` fills `bottomnote` from the topnote
  column.
- Timing, the `__main__` driver code and `db_config` are not modelled.

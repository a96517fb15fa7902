/**
 The offline ingestion of the wine recommender: load GloVe word vectors,
 collect the catalog's vocabulary, resolve each term by its lower-case form,
 rebuild the `token_embeddings` table and, for each wine with at least one
 term whose lower-case form is a GloVe word, store one mean vector in
 `combined_embeddings` (a wine with no such term gets no row).
 */
module VectorizeTokens {
  import opened Wrappers
  import opened Text
  import opened Vectors
  import opened Catalog

  /** The length of a GloVe 6B.50d vector (`np.zeros(50)`). */
  const Dim: nat := 50

  /** One parsed GloVe line: the word and its vector. */
  datatype Entry = Entry(word: string, vector: Vector)

  /** How loading the GloVe file ended. `Unreadable`: the file could not be
      opened (the `IOError` handler). `Malformed(line)`: line `line` has no
      token or a token that is not a number, and the exception leaves the
      loader with the lines before it stored. */
  datatype LoadOutcome = Loaded | Unreadable | Malformed(line: nat)

  // ---------------------------------------------------------------- loading

  /** `np.array(tokens, dtype=float)`, with `parse` converting one token. */
  function ParseReals(tokens: seq<string>, parse: string -> Option<real>): (r: Option<Vector>)
    ensures r.Some? <==> forall k :: 0 <= k < |tokens| ==> parse(tokens[k]).Some?
    ensures r.Some? ==> |r.value| == |tokens|
    ensures r.Some? ==> forall k :: 0 <= k < |tokens| ==> r.value[k] == parse(tokens[k]).value
  {
    if tokens == [] then Some([])
    else
      match parse(tokens[0])
      case None => None
      case Some(x) =>
        match ParseReals(tokens[1..], parse)
        case None => None
        case Some(xs) => Some([x] + xs)
  }

  /** One line of the GloVe file: the first whitespace-separated token is the
      word as written, the other tokens are its components. */
  function ParseLine(line: string, parse: string -> Option<real>): (r: Option<Entry>)
    ensures r.Some? <==> |Split(line)| > 0 && ParseReals(Split(line)[1..], parse).Some?
    ensures r.Some? ==> r.value.word == Split(line)[0] && IsWord(r.value.word)
    ensures r.Some? ==> Some(r.value.vector) == ParseReals(Split(line)[1..], parse)
  {
    var values := Split(line);
    if |values| == 0 then None
    else
      match ParseReals(values[1..], parse)
      case None => None
      case Some(v) => Some(Entry(values[0], v))
  }

  predicate AllParse(lines: seq<string>, parse: string -> Option<real>) {
    forall k :: 0 <= k < |lines| ==> ParseLine(lines[k], parse).Some?
  }

  /** The entries of a file whose every line parses, line by line. */
  function Entries(lines: seq<string>, parse: string -> Option<real>): (es: seq<Entry>)
    requires AllParse(lines, parse)
    ensures |es| == |lines|
    ensures forall k :: 0 <= k < |lines| ==> Some(es[k]) == ParseLine(lines[k], parse)
  {
    seq(|lines|, k requires 0 <= k < |lines| => ParseLine(lines[k], parse).value)
  }

  lemma EntriesPrefix(lines: seq<string>, parse: string -> Option<real>, i: nat)
    requires i < |lines| && AllParse(lines[..i + 1], parse)
    ensures AllParse(lines[..i], parse)
    ensures Entries(lines[..i + 1], parse) == Entries(lines[..i], parse) + [ParseLine(lines[i], parse).value]
  {
    assert forall k :: 0 <= k < i ==> lines[..i][k] == lines[..i + 1][k];
  }

  /** The state of `word_embeddings` after assigning the entries in order
      (`self.word_embeddings[word] = vector` for each line). */
  function Store(m: map<string, Vector>, es: seq<Entry>): map<string, Vector> {
    if es == [] then m
    else Store(m, es[..|es| - 1])[es[|es| - 1].word := es[|es| - 1].vector]
  }

  /** The keys after loading are the old keys and the words exactly as
      written: nothing is lower-cased at load time. */
  lemma {:induction false} StoreKeys(m: map<string, Vector>, es: seq<Entry>)
    ensures Store(m, es).Keys == m.Keys + set e | e in es :: e.word
  {
    if es != [] {
      var init, last := es[..|es| - 1], es[|es| - 1];
      assert es == init + [last];
      StoreKeys(m, init);
      assert (set e | e in es :: e.word) == (set e | e in init :: e.word) + {last.word};
    }
  }

  /** Last write wins: a word maps to the vector of its last entry. */
  lemma {:induction false} StoreLastWins(m: map<string, Vector>, es: seq<Entry>, k: nat)
    requires k < |es|
    requires forall j :: k < j < |es| ==> es[j].word != es[k].word
    ensures es[k].word in Store(m, es) && Store(m, es)[es[k].word] == es[k].vector
  {
    if k < |es| - 1 {
      StoreLastWins(m, es[..|es| - 1], k);
    }
  }

  /** A word no entry mentions keeps its old binding, or stays absent. */
  lemma {:induction false} StoreUntouched(m: map<string, Vector>, es: seq<Entry>, w: string)
    requires forall j :: 0 <= j < |es| ==> es[j].word != w
    ensures w in Store(m, es) <==> w in m
    ensures w in m ==> Store(m, es)[w] == m[w]
  {
    if es != [] {
      StoreUntouched(m, es[..|es| - 1], w);
    }
  }

  /** If every old vector and every entry has `d` components, so does every
      vector after loading. */
  lemma {:induction false} StoreDim(m: map<string, Vector>, es: seq<Entry>, d: nat)
    requires forall w :: w in m ==> |m[w]| == d
    requires forall j :: 0 <= j < |es| ==> |es[j].vector| == d
    ensures forall w :: w in Store(m, es) ==> |Store(m, es)[w]| == d
  {
    if es != [] {
      StoreDim(m, es[..|es| - 1], d);
    }
  }

  /** What loading promises about a line of the file: its first token is a
      key mapped to the numbers of that line, unless a later line starts with
      the same word. */
  lemma LoadedLine(m: map<string, Vector>, lines: seq<string>, parse: string -> Option<real>, k: nat)
    requires AllParse(lines, parse) && k < |lines|
    requires forall j :: k < j < |lines| ==> Split(lines[j])[0] != Split(lines[k])[0]
    ensures var w := Split(lines[k])[0];
      w in Store(m, Entries(lines, parse)) &&
      Some(Store(m, Entries(lines, parse))[w]) == ParseReals(Split(lines[k])[1..], parse)
  {
    var es := Entries(lines, parse);
    forall j | k < j < |es| ensures es[j].word != es[k].word {
      assert Some(es[j]) == ParseLine(lines[j], parse);
    }
    StoreLastWins(m, es, k);
  }

  /** A line written as a word followed by its numbers, separated by single
      spaces and ended by a newline, loads as that word and those numbers. */
  lemma ParseWrittenLine(word: string, numbers: seq<string>, parse: string -> Option<real>)
    requires IsWord(word) && forall k :: 0 <= k < |numbers| ==> IsWord(numbers[k])
    requires forall k :: 0 <= k < |numbers| ==> parse(numbers[k]).Some?
    ensures var r := ParseLine(JoinSpaced([word] + numbers) + "\n", parse);
      r.Some? && r.value.word == word && |r.value.vector| == |numbers| &&
      forall k :: 0 <= k < |numbers| ==> r.value.vector[k] == parse(numbers[k]).value
  {
    var ws := [word] + numbers;
    assert forall k :: 0 <= k < |ws| ==> IsWord(ws[k]);
    SplitJoinSpaced(ws);
    assert IsSpace('\n');
    SplitTrailingSpace(JoinSpaced(ws), '\n');
    assert ws[1..] == numbers;
  }

  // ------------------------------------------------------------- resolution

  /** The terms that resolve, keyed by the term as written in the catalog and
      mapped to the vector of its lower-case form. */
  function SelectedOf(we: map<string, Vector>, terms: set<string>): map<string, Vector> {
    map t | t in terms && Lower(t) in we :: we[Lower(t)]
  }

  /** The terms whose lower-case form has no vector. */
  function MissingOf(we: map<string, Vector>, terms: set<string>): set<string> {
    set t | t in terms && Lower(t) !in we
  }

  /** Resolution partitions the vocabulary: every term is selected or
      missing, never both; a selected term carries the vector of its
      lower-case form and a missing term's lower-case form has none. */
  lemma ResolutionPartitions(we: map<string, Vector>, terms: set<string>)
    ensures SelectedOf(we, terms).Keys !! MissingOf(we, terms)
    ensures SelectedOf(we, terms).Keys + MissingOf(we, terms) == terms
    ensures forall t :: t in SelectedOf(we, terms) ==> SelectedOf(we, terms)[t] == we[Lower(t)]
    ensures forall t :: t in MissingOf(we, terms) ==> Lower(t) !in we
    ensures |SelectedOf(we, terms)| + |MissingOf(we, terms)| == |terms|
  {
    var keys, missing := SelectedOf(we, terms).Keys, MissingOf(we, terms);
    assert keys + missing == terms;
    assert |keys + missing| == |keys| + |missing|;
  }

  // --------------------------------------------------------------- centroid

  /** The vectors of the terms that resolve, in order and with repeats. */
  function Resolved(we: map<string, Vector>, ts: seq<string>): (vs: seq<Vector>)
    ensures |vs| <= |ts|
    ensures |vs| > 0 <==> exists t :: t in ts && Lower(t) in we
  {
    if ts == [] then []
    else
      var init, t := ts[..|ts| - 1], ts[|ts| - 1];
      assert forall u :: u in ts <==> u in init || u == t;
      Resolved(we, init) + (if Lower(t) in we then [we[Lower(t)]] else [])
  }

  /** Every term that resolves has a vector of `Dim` components. */
  predicate ResolvesToDim(we: map<string, Vector>, ts: seq<string>) {
    forall t :: t in ts && Lower(t) in we ==> |we[Lower(t)]| == Dim
  }

  lemma {:induction false} ResolvedDim(we: map<string, Vector>, ts: seq<string>)
    requires ResolvesToDim(we, ts)
    ensures AllDim(Resolved(we, ts), Dim)
  {
    if ts != [] {
      var init := ts[..|ts| - 1];
      assert forall u :: u in init ==> u in ts;
      ResolvedDim(we, init);
    }
  }

  lemma {:induction false} ResolvedAppend(we: map<string, Vector>, a: seq<string>, b: seq<string>)
    ensures Resolved(we, a + b) == Resolved(we, a) + Resolved(we, b)
  {
    if b == [] {
      assert a + b == a;
    } else {
      var init, t := b[..|b| - 1], b[|b| - 1];
      var tail := if Lower(t) in we then [we[Lower(t)]] else [];
      assert (a + b)[..|a + b| - 1] == a + init;
      assert (a + b)[|a + b| - 1] == t;
      assert Resolved(we, a + b) == Resolved(we, a + init) + tail;
      assert Resolved(we, b) == Resolved(we, init) + tail;
      ResolvedAppend(we, a, init);
    }
  }

  /** Taking term `k` out and putting it at the end keeps the resolved
      vectors, as a multiset. */
  lemma ResolvedRemoveAt(we: map<string, Vector>, us: seq<string>, k: nat)
    requires k < |us|
    ensures multiset(Resolved(we, us)) ==
      multiset(Resolved(we, us[..k] + us[k + 1..])) + multiset(Resolved(we, [us[k]]))
  {
    var left, t, right := us[..k], us[k], us[k + 1..];
    assert us == left + [t] + right;
    ResolvedAppend(we, left + [t], right);
    ResolvedAppend(we, left, [t]);
    ResolvedAppend(we, left, right);
  }

  /** The resolved vectors of a reordering of the terms are a reordering of
      the resolved vectors. */
  lemma {:induction false} ResolvedPermutation(we: map<string, Vector>, ts: seq<string>, us: seq<string>)
    requires multiset(ts) == multiset(us)
    ensures multiset(Resolved(we, ts)) == multiset(Resolved(we, us))
    decreases |ts|
  {
    if ts == [] {
      assert |multiset(us)| == 0;
      assert us == [];
    } else {
      var init, t := ts[..|ts| - 1], ts[|ts| - 1];
      assert ts == init + [t];
      assert t in multiset(us);
      var k :| 0 <= k < |us| && us[k] == t;
      var rest := us[..k] + us[k + 1..];
      MultisetRemoveAt(us, k);
      assert multiset(ts) == multiset(init) + multiset{t};
      MultisetCancel(multiset(init), multiset(rest), t);
      ResolvedPermutation(we, init, rest);
      ResolvedRemoveAt(we, us, k);
      ResolvedAppend(we, init, [t]);
    }
  }

  /** The combined vector of one wine: the mean of the vectors its terms
      resolve to, or nothing when none of its five terms resolves. */
  function Centroid(we: map<string, Vector>, a: Attributes): (r: Option<Vector>)
    requires ResolvesToDim(we, Terms(a))
    ensures r.Some? <==> exists c :: Lower(Field(a, c)) in we
    ensures r.Some? ==> |r.value| == Dim
  {
    var vs := Resolved(we, Terms(a));
    ResolvedDim(we, Terms(a));
    if |vs| == 0 then None else Some(Mean(vs, Dim))
  }

  /** The combined vector is the component-wise mean of the one to five
      vectors the terms resolve to. */
  lemma CentroidIsMean(we: map<string, Vector>, a: Attributes)
    requires ResolvesToDim(we, Terms(a))
    ensures Centroid(we, a).Some? ==>
      1 <= |Resolved(we, Terms(a))| <= 5 && AllDim(Resolved(we, Terms(a)), Dim)
    ensures Centroid(we, a).Some? ==> forall j :: 0 <= j < Dim ==>
      Centroid(we, a).value[j] == ComponentSum(Resolved(we, Terms(a)), j) / (|Resolved(we, Terms(a))| as real)
  {
    ResolvedDim(we, Terms(a));
  }

  /** If every term that resolves resolves to `v`, the combined vector is `v`. */
  lemma CentroidOfEqualVectors(we: map<string, Vector>, a: Attributes, v: Vector)
    requires |v| == Dim
    requires forall t :: t in Terms(a) && Lower(t) in we ==> we[Lower(t)] == v
    requires exists c :: Lower(Field(a, c)) in we
    ensures Centroid(we, a) == Some(v)
  {
    var vs := Resolved(we, Terms(a));
    ResolvedCopies(we, Terms(a), v);
    MeanOfCopies(vs, v);
  }

  lemma {:induction false} ResolvedCopies(we: map<string, Vector>, ts: seq<string>, v: Vector)
    requires forall t :: t in ts && Lower(t) in we ==> we[Lower(t)] == v
    ensures forall k :: 0 <= k < |Resolved(we, ts)| ==> Resolved(we, ts)[k] == v
  {
    if ts != [] {
      var init := ts[..|ts| - 1];
      assert forall u :: u in init ==> u in ts;
      ResolvedCopies(we, init, v);
    }
  }

  /** The combined vector does not depend on the order of the terms. */
  lemma MeanIgnoresTermOrder(we: map<string, Vector>, ts: seq<string>, us: seq<string>)
    requires multiset(ts) == multiset(us)
    requires ResolvesToDim(we, ts)
    ensures ResolvesToDim(we, us)
    ensures AllDim(Resolved(we, ts), Dim) && AllDim(Resolved(we, us), Dim)
    ensures |Resolved(we, ts)| == |Resolved(we, us)|
    ensures |Resolved(we, ts)| > 0 ==> Mean(Resolved(we, ts), Dim) == Mean(Resolved(we, us), Dim)
  {
    assert forall t :: t in ts <==> t in us by {
      forall t ensures t in ts <==> t in us {
        assert t in ts <==> t in multiset(ts);
        assert t in us <==> t in multiset(us);
      }
    }
    ResolvedPermutation(we, ts, us);
    var a, b := Resolved(we, ts), Resolved(we, us);
    assert |a| == |multiset(a)| == |multiset(b)| == |b|;
    ResolvedDim(we, ts);
    ResolvedDim(we, us);
    SumPermutation(a, b, Dim);
  }

  /** Every row's resolved terms have `Dim` components, so that `+=` onto
      `np.zeros(50)` is defined for every row. */
  predicate CentroidsDefined(we: map<string, Vector>, rows: seq<WineRow>) {
    forall i :: 0 <= i < |rows| ==> ResolvesToDim(we, Terms(rows[i].attrs))
  }

  lemma CentroidsDefinedPrefix(we: map<string, Vector>, rows: seq<WineRow>, n: nat)
    requires CentroidsDefined(we, rows) && n <= |rows|
    ensures CentroidsDefined(we, rows[..n])
  {
    assert forall i :: 0 <= i < n ==> rows[..n][i] == rows[i];
  }

  /** The `combined_embeddings` table after inserting the rows in order:
      one row per wine that has a combined vector. */
  function CombinedTable(we: map<string, Vector>, rows: seq<WineRow>): map<int, Vector>
    requires CentroidsDefined(we, rows)
  {
    if rows == [] then map[]
    else
      var init, r := rows[..|rows| - 1], rows[|rows| - 1];
      CentroidsDefinedPrefix(we, rows, |rows| - 1);
      var table := CombinedTable(we, init);
      match Centroid(we, r.attrs)
      case None => table
      case Some(v) => table[r.id := v]
  }

  /** Only ids of the rows are keys of the table. */
  lemma {:induction false} CombinedTableKeys(we: map<string, Vector>, rows: seq<WineRow>)
    requires CentroidsDefined(we, rows)
    ensures forall id :: id in CombinedTable(we, rows) ==> exists i :: 0 <= i < |rows| && rows[i].id == id
  {
    if rows != [] {
      var init := rows[..|rows| - 1];
      CentroidsDefinedPrefix(we, rows, |rows| - 1);
      CombinedTableKeys(we, init);
      assert CombinedTable(we, rows).Keys <= CombinedTable(we, init).Keys + {rows[|rows| - 1].id};
      forall id | id in CombinedTable(we, rows)
        ensures exists i :: 0 <= i < |rows| && rows[i].id == id
      {
        if id != rows[|rows| - 1].id {
          var i :| 0 <= i < |init| && init[i].id == id;
          assert rows[i].id == id;
        }
      }
    }
  }

  /** The last wine's row holds its centroid, under an id no earlier wine has. */
  lemma CombinedTableLast(we: map<string, Vector>, rows: seq<WineRow>)
    requires CentroidsDefined(we, rows) && DistinctIds(rows) && rows != []
    ensures CentroidsDefined(we, rows[..|rows| - 1])
    ensures rows[|rows| - 1].id !in CombinedTable(we, rows[..|rows| - 1])
    ensures CombinedTable(we, rows) ==
      match Centroid(we, rows[|rows| - 1].attrs)
      case None => CombinedTable(we, rows[..|rows| - 1])
      case Some(v) => CombinedTable(we, rows[..|rows| - 1])[rows[|rows| - 1].id := v]
  {
    var n := |rows| - 1;
    CentroidsDefinedPrefix(we, rows, n);
    CombinedTableKeys(we, rows[..n]);
    assert forall k :: 0 <= k < n ==> rows[..n][k].id != rows[n].id;
  }

  /** Inserting an optional value under a fresh key leaves the other keys alone. */
  lemma InsertFresh(t: map<int, Vector>, t2: map<int, Vector>, k: int, c: Option<Vector>)
    requires k !in t
    requires t2 == match c case None => t case Some(v) => t[k := v]
    ensures forall id :: id != k ==> (id in t2 <==> id in t)
    ensures forall id :: id != k && id in t ==> t2[id] == t[id]
    ensures k in t2 <==> c.Some?
    ensures k in t2 ==> Some(t2[k]) == c
  {
  }

  /** The row of one wine, by induction on the rows after it. */
  lemma {:induction false} CombinedTableAt(we: map<string, Vector>, rows: seq<WineRow>, i: nat)
    requires CentroidsDefined(we, rows) && DistinctIds(rows) && i < |rows|
    ensures rows[i].id in CombinedTable(we, rows) <==> Centroid(we, rows[i].attrs).Some?
    ensures rows[i].id in CombinedTable(we, rows) ==>
      Some(CombinedTable(we, rows)[rows[i].id]) == Centroid(we, rows[i].attrs)
  {
    var n := |rows| - 1;
    var init := rows[..n];
    CombinedTableLast(we, rows);
    InsertFresh(CombinedTable(we, init), CombinedTable(we, rows), rows[n].id, Centroid(we, rows[n].attrs));
    if i < n {
      assert DistinctIds(init);
      assert rows[i] == init[i] && rows[i].id != rows[n].id;
      CombinedTableAt(we, init, i);
      assert rows[i].id in CombinedTable(we, rows) <==> rows[i].id in CombinedTable(we, init);
    }
  }

  /** With distinct ids, a wine has a row in `combined_embeddings` exactly
      when one of its five terms, lower-cased, is a GloVe word, and that row
      holds the wine's combined vector. */
  lemma CombinedTableContents(we: map<string, Vector>, rows: seq<WineRow>)
    requires CentroidsDefined(we, rows) && DistinctIds(rows)
    ensures forall i :: 0 <= i < |rows| ==>
      (rows[i].id in CombinedTable(we, rows) <==> exists c :: Lower(Field(rows[i].attrs, c)) in we)
    ensures forall i :: 0 <= i < |rows| && rows[i].id in CombinedTable(we, rows) ==>
      Some(CombinedTable(we, rows)[rows[i].id]) == Centroid(we, rows[i].attrs)
  {
    forall i | 0 <= i < |rows|
      ensures rows[i].id in CombinedTable(we, rows) <==> exists c :: Lower(Field(rows[i].attrs, c)) in we
      ensures rows[i].id in CombinedTable(we, rows) ==>
        Some(CombinedTable(we, rows)[rows[i].id]) == Centroid(we, rows[i].attrs)
    {
      CombinedTableAt(we, rows, i);
    }
  }

  // ------------------------------------------------------------ the class

  /** One more line of the file: it parses, and loading it assigns its word. */
  lemma LoadStep(m: map<string, Vector>, lines: seq<string>, parse: string -> Option<real>, i: nat)
    requires i < |lines| && AllParse(lines[..i], parse) && ParseLine(lines[i], parse).Some?
    ensures AllParse(lines[..i + 1], parse)
    ensures var e := ParseLine(lines[i], parse).value;
      Store(m, Entries(lines[..i + 1], parse)) == Store(m, Entries(lines[..i], parse))[e.word := e.vector]
  {
    assert forall k :: 0 <= k < i + 1 ==> lines[..i + 1][k] == lines[k];
    EntriesPrefix(lines, parse, i);
    var es := Entries(lines[..i + 1], parse);
    assert es[..|es| - 1] == Entries(lines[..i], parse);
  }

  /** Resolving one more term of the vocabulary. */
  lemma ResolveStep(we: map<string, Vector>, done: set<string>, t: string)
    requires t !in done
    ensures Lower(t) in we ==>
      SelectedOf(we, done + {t}) == SelectedOf(we, done)[t := we[Lower(t)]] &&
      MissingOf(we, done + {t}) == MissingOf(we, done)
    ensures Lower(t) !in we ==>
      SelectedOf(we, done + {t}) == SelectedOf(we, done) &&
      MissingOf(we, done + {t}) == MissingOf(we, done) + {t}
  {
  }

  /** One more term in a resolution pass, given the selection `sel` the pass
      has built so far on top of `selected0`. */
  lemma SelectStep(we: map<string, Vector>, selected0: map<string, Vector>, sel: map<string, Vector>,
                   done: set<string>, t: string)
    requires t !in done && sel == selected0 + SelectedOf(we, done)
    ensures Lower(t) in we ==> sel[t := we[Lower(t)]] == selected0 + SelectedOf(we, done + {t})
    ensures Lower(t) !in we ==> sel == selected0 + SelectedOf(we, done + {t})
    ensures Lower(t) in we ==> MissingOf(we, done + {t}) == MissingOf(we, done)
    ensures Lower(t) !in we ==> MissingOf(we, done + {t}) == MissingOf(we, done) + {t}
  {
    ResolveStep(we, done, t);
  }

  /** One more term of a wine: its vector joins the resolved list if its
      lower-case form is a GloVe word. */
  lemma TermStep(we: map<string, Vector>, ts: seq<string>, j: nat)
    requires j < |ts| && ResolvesToDim(we, ts)
    ensures AllDim(Resolved(we, ts[..j]), Dim) && AllDim(Resolved(we, ts[..j + 1]), Dim)
    ensures Lower(ts[j]) in we ==>
      |we[Lower(ts[j])]| == Dim &&
      Resolved(we, ts[..j + 1]) == Resolved(we, ts[..j]) + [we[Lower(ts[j])]] &&
      Sum(Resolved(we, ts[..j + 1]), Dim) == Add(Sum(Resolved(we, ts[..j]), Dim), we[Lower(ts[j])])
    ensures Lower(ts[j]) !in we ==> Resolved(we, ts[..j + 1]) == Resolved(we, ts[..j])
  {
    assert ts[..j + 1][..j] == ts[..j];
    assert ResolvesToDim(we, ts[..j]) && ResolvesToDim(we, ts[..j + 1]) by {
      assert forall u :: u in ts[..j + 1] ==> u in ts;
      assert forall u :: u in ts[..j] ==> u in ts;
    }
    ResolvedDim(we, ts[..j]);
    ResolvedDim(we, ts[..j + 1]);
    var vs := Resolved(we, ts[..j + 1]);
    if Lower(ts[j]) in we {
      assert vs[..|vs| - 1] == Resolved(we, ts[..j]);
    }
  }

  /** The mean computed as the loop computes it: the running total divided
      by the number of resolved terms. */
  lemma CentroidByLoop(we: map<string, Vector>, a: Attributes, total: Vector, count: nat)
    requires ResolvesToDim(we, Terms(a)) && AllDim(Resolved(we, Terms(a)), Dim)
    requires total == Sum(Resolved(we, Terms(a)), Dim) && count == |Resolved(we, Terms(a))|
    ensures count == 0 ==> Centroid(we, a) == None
    ensures count > 0 ==> Centroid(we, a) == Some(DivBy(total, count))
  {
  }

  /** One more wine: the table gains its combined vector under a new id, if
      it has one. */
  lemma WineStep(we: map<string, Vector>, rows: seq<WineRow>, i: nat)
    requires i < |rows| && CentroidsDefined(we, rows) && DistinctIds(rows)
    ensures CentroidsDefined(we, rows[..i]) && CentroidsDefined(we, rows[..i + 1])
    ensures ResolvesToDim(we, Terms(rows[i].attrs))
    ensures rows[i].id !in CombinedTable(we, rows[..i])
    ensures CombinedTable(we, rows[..i + 1]) ==
      match Centroid(we, rows[i].attrs)
      case None => CombinedTable(we, rows[..i])
      case Some(v) => CombinedTable(we, rows[..i])[rows[i].id := v]
  {
    CentroidsDefinedPrefix(we, rows, i);
    CentroidsDefinedPrefix(we, rows, i + 1);
    assert rows[..i + 1][..i] == rows[..i];
    assert rows[..i + 1][i] == rows[i];
    CombinedTableKeys(we, rows[..i]);
    assert forall k :: 0 <= k < i ==> rows[..i][k].id != rows[i].id;
  }

  /** Appending a term not yet listed keeps the list duplicate-free. */
  lemma AppendFresh(s: seq<string>, t: string)
    requires NoDuplicates(s) && t !in Elements(s)
    ensures NoDuplicates(s + [t]) && Elements(s + [t]) == Elements(s) + {t}
  {
  }

  /** `dict.get(key)`: the value, or `None` when the key is absent. */
  function Get(m: map<string, Vector>, key: string): (r: Option<Vector>)
    ensures r.Some? <==> key in m
    ensures r.Some? ==> r.value == m[key]
  {
    if key in m then Some(m[key]) else None
  }

  predicate NoDuplicates(s: seq<string>) {
    forall i, j :: 0 <= i < j < |s| ==> s[i] != s[j]
  }

  function Elements(s: seq<string>): set<string> {
    set x | x in s
  }

  /** The ingestion state: the fetched rows, the five column sets, the GloVe
      table, the selected subset and the list of terms with no vector. */
  class VectorizeTheWines {
    var wines: seq<WineRow>
    var typeSet: set<string>
    var varietySet: set<string>
    var regionSet: set<string>
    var topNoteSet: set<string>
    var bottomNoteSet: set<string>
    var wordEmbeddings: map<string, Vector>
    var selectedEmbeddings: map<string, Vector>
    var missingTerms: seq<string>

    /** The union of the five column sets. */
    function UniqueTerms(): set<string>
      reads this
    {
      typeSet + varietySet + regionSet + topNoteSet + bottomNoteSet
    }

    /** What one resolution pass leaves, given the selection and the missing
        list it started from: the resolving terms added to the selection (an
        existing key takes the new vector), and every missing term appended
        once, in some order. */
    ghost predicate ExtractedFrom(selected0: map<string, Vector>, missing0: seq<string>)
      reads this
    {
      && selectedEmbeddings == selected0 + SelectedOf(wordEmbeddings, UniqueTerms())
      && |missingTerms| >= |missing0|
      && missingTerms[..|missing0|] == missing0
      && NoDuplicates(missingTerms[|missing0|..])
      && Elements(missingTerms[|missing0|..]) == MissingOf(wordEmbeddings, UniqueTerms())
    }

    /** Empty state, as `__init__` sets it up before loading GloVe. */
    constructor ()
      ensures wines == [] && UniqueTerms() == {}
      ensures typeSet == {} && varietySet == {} && regionSet == {}
      ensures topNoteSet == {} && bottomNoteSet == {}
      ensures wordEmbeddings == map[] && selectedEmbeddings == map[] && missingTerms == []
    {
      wines := [];
      typeSet, varietySet, regionSet, topNoteSet, bottomNoteSet := {}, {}, {}, {}, {};
      wordEmbeddings, selectedEmbeddings, missingTerms := map[], map[], [];
    }

    /** Reads the GloVe lines into `wordEmbeddings`, one assignment per line.
        `file` is `None` when the file cannot be opened. */
    method LoadGloveModel(file: Option<seq<string>>, parse: string -> Option<real>)
      returns (outcome: LoadOutcome)
      modifies this`wordEmbeddings
      ensures outcome == Unreadable <==> file.None?
      ensures file.None? ==> wordEmbeddings == old(wordEmbeddings)
      ensures file.Some? ==> (outcome.Loaded? <==> AllParse(file.value, parse))
      ensures outcome.Loaded? ==>
        file.Some? && AllParse(file.value, parse) &&
        wordEmbeddings == Store(old(wordEmbeddings), Entries(file.value, parse))
      ensures outcome.Malformed? ==>
        file.Some? && outcome.line < |file.value| &&
        ParseLine(file.value[outcome.line], parse).None? &&
        AllParse(file.value[..outcome.line], parse) &&
        wordEmbeddings == Store(old(wordEmbeddings), Entries(file.value[..outcome.line], parse))
    {
      if file.None? {
        return Unreadable;
      }
      var lines := file.value;
      ghost var loaded := wordEmbeddings;
      for i := 0 to |lines|
        invariant AllParse(lines[..i], parse)
        invariant wordEmbeddings == Store(loaded, Entries(lines[..i], parse))
      {
        var values := ParseLine(lines[i], parse);
        if values.None? {
          return Malformed(i);
        }
        LoadStep(loaded, lines, parse, i);
        wordEmbeddings := wordEmbeddings[values.value.word := values.value.vector];
      }
      assert lines[..|lines|] == lines;
      return Loaded;
    }

    /** Stores the fetched rows, adds each row's five values to the five
        column sets, then resolves the vocabulary. */
    method GetWines(rows: seq<WineRow>)
      modifies this`wines, this`typeSet, this`varietySet, this`regionSet
      modifies this`topNoteSet, this`bottomNoteSet, this`selectedEmbeddings, this`missingTerms
      ensures wines == rows
      ensures typeSet == old(typeSet) + ColumnValues(AttributesOf(rows), WineType)
      ensures varietySet == old(varietySet) + ColumnValues(AttributesOf(rows), Variety)
      ensures regionSet == old(regionSet) + ColumnValues(AttributesOf(rows), Region)
      ensures topNoteSet == old(topNoteSet) + ColumnValues(AttributesOf(rows), TopNote)
      ensures bottomNoteSet == old(bottomNoteSet) + ColumnValues(AttributesOf(rows), BottomNote)
      ensures ExtractedFrom(old(selectedEmbeddings), old(missingTerms))
    {
      wines := rows;
      CollectColumns(rows);
      ExtractSelectedEmbeddings();
    }

    /** The loop of `get_wines`: adds each row's five values to the five
        column sets. */
    method CollectColumns(rows: seq<WineRow>)
      modifies this`typeSet, this`varietySet, this`regionSet, this`topNoteSet, this`bottomNoteSet
      ensures typeSet == old(typeSet) + ColumnValues(AttributesOf(rows), WineType)
      ensures varietySet == old(varietySet) + ColumnValues(AttributesOf(rows), Variety)
      ensures regionSet == old(regionSet) + ColumnValues(AttributesOf(rows), Region)
      ensures topNoteSet == old(topNoteSet) + ColumnValues(AttributesOf(rows), TopNote)
      ensures bottomNoteSet == old(bottomNoteSet) + ColumnValues(AttributesOf(rows), BottomNote)
    {
      ghost var attrs := AttributesOf(rows);
      ghost var sets0 := ColumnSets(typeSet, varietySet, regionSet, topNoteSet, bottomNoteSet);
      for i := 0 to |rows|
        invariant ColumnSets(typeSet, varietySet, regionSet, topNoteSet, bottomNoteSet) == Collect(sets0, attrs[..i])
      {
        var a := rows[i].attrs;
        assert attrs[i] == a;
        CollectStep(sets0, attrs, i);
        typeSet := typeSet + {a.wineType};
        varietySet := varietySet + {a.variety};
        regionSet := regionSet + {a.region};
        topNoteSet := topNoteSet + {a.topNote};
        bottomNoteSet := bottomNoteSet + {a.bottomNote};
      }
      assert attrs[..|rows|] == attrs;
      CollectUnion(sets0, attrs);
    }

    /** Resolves every term of the union of the column sets by its lower-case
        form: a term that resolves is stored under its own spelling, the
        others are appended to `missingTerms`. */
    method ExtractSelectedEmbeddings()
      modifies this`selectedEmbeddings, this`missingTerms
      ensures ExtractedFrom(old(selectedEmbeddings), old(missingTerms))
    {
      var uniqueTerms := UniqueTerms();
      var pending := uniqueTerms;
      ghost var selected0, missing0 := selectedEmbeddings, missingTerms;
      ghost var added: seq<string> := [];
      while pending != {}
        invariant pending <= uniqueTerms
        invariant selectedEmbeddings == selected0 + SelectedOf(wordEmbeddings, uniqueTerms - pending)
        invariant missingTerms == missing0 + added
        invariant NoDuplicates(added)
        invariant Elements(added) == MissingOf(wordEmbeddings, uniqueTerms - pending)
        decreases pending
      {
        var term :| term in pending;
        ghost var done := uniqueTerms - pending;
        assert uniqueTerms - (pending - {term}) == done + {term};
        SelectStep(wordEmbeddings, selected0, selectedEmbeddings, done, term);
        var vector := Get(wordEmbeddings, Lower(term));
        if vector.Some? {
          selectedEmbeddings := selectedEmbeddings[term := vector.value];
        } else {
          AppendFresh(added, term);
          missingTerms := missingTerms + [term];
          added := added + [term];
        }
        pending := pending - {term};
      }
      assert uniqueTerms - pending == UniqueTerms();
      assert missingTerms[..|missing0|] == missing0;
      assert missingTerms[|missing0|..] == added;
    }

    /** Drops and recreates `token_embeddings`, then inserts every selected
        term with `ON CONFLICT (token) DO NOTHING`. The conflict never
        happens, so the table ends up equal to the selection. */
    method SaveEmbeddingsToDb(db: Database)
      modifies db`tokenEmbeddings
      ensures db.tokenEmbeddings == selectedEmbeddings
    {
      db.tokenEmbeddings := map[];
      var pending := selectedEmbeddings.Keys;
      while pending != {}
        invariant pending <= selectedEmbeddings.Keys
        invariant db.tokenEmbeddings == map t | t in selectedEmbeddings.Keys - pending :: selectedEmbeddings[t]
        decreases pending
      {
        var token :| token in pending;
        if token !in db.tokenEmbeddings {
          db.tokenEmbeddings := db.tokenEmbeddings[token := selectedEmbeddings[token]];
        }
        pending := pending - {token};
      }
    }

    /** The inner loop of `save_combined_vectors_to_db`: adds up the vectors
        of those terms whose lower-case form has an embedding, and counts
        them. */
    method SumResolved(terms: seq<string>) returns (combinedVector: Vector, termCount: nat)
      requires ResolvesToDim(wordEmbeddings, terms)
      ensures AllDim(Resolved(wordEmbeddings, terms), Dim)
      ensures combinedVector == Sum(Resolved(wordEmbeddings, terms), Dim)
      ensures termCount == |Resolved(wordEmbeddings, terms)|
    {
      combinedVector := Zeros(Dim);
      termCount := 0;
      for j := 0 to |terms|
        invariant AllDim(Resolved(wordEmbeddings, terms[..j]), Dim)
        invariant combinedVector == Sum(Resolved(wordEmbeddings, terms[..j]), Dim)
        invariant termCount == |Resolved(wordEmbeddings, terms[..j])|
      {
        TermStep(wordEmbeddings, terms, j);
        var vector := Get(wordEmbeddings, Lower(terms[j]));
        if vector.Some? {
          combinedVector := Add(combinedVector, vector.value);
          termCount := termCount + 1;
        }
      }
      assert terms[..|terms|] == terms;
    }

    /** Drops and recreates `combined_embeddings`; for each fetched wine, adds
        up the vectors of those of its five terms that resolve and, when at
        least one does, inserts their sum divided by their number. The
        caller guarantees distinct ids (the INSERT has no conflict clause)
        and 50 components in every vector a term resolves to. */
    method SaveCombinedVectorsToDb(db: Database)
      requires DistinctIds(wines) && CentroidsDefined(wordEmbeddings, wines)
      modifies db`combinedEmbeddings
      ensures db.combinedEmbeddings == CombinedTable(wordEmbeddings, wines)
    {
      ghost var we := wordEmbeddings;
      db.combinedEmbeddings := map[];
      for i := 0 to |wines|
        invariant CentroidsDefined(we, wines[..i])
        invariant db.combinedEmbeddings == CombinedTable(we, wines[..i])
      {
        var row := wines[i];
        WineStep(we, wines, i);
        var combinedVector, termCount := SumResolved(Terms(row.attrs));
        CentroidByLoop(we, row.attrs, combinedVector, termCount);
        if termCount > 0 {
          combinedVector := DivBy(combinedVector, termCount);
          db.combinedEmbeddings := db.combinedEmbeddings[row.id := combinedVector];
        }
      }
      assert wines[..|wines|] == wines;
    }
  }
}

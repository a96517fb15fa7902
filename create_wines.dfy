/** The wine name formatter `generate_wine_name`. */
module WineNames {
  import opened Text

  /** Region, descriptor and variety, each capitalised, separated by single
      spaces. */
  function GenerateWineName(region: string, variety: string, descriptor: string): (name: string)
    ensures |name| == |region| + |descriptor| + |variety| + 2
  {
    Capitalize(region) + " " + Capitalize(descriptor) + " " + Capitalize(variety)
  }

  /** The name of the doc comment's first example. */
  lemma NameExample()
    ensures GenerateWineName("napa", "cabernet", "bold") == "Napa Bold Cabernet"
  {
    ExampleWords();
    assert "Napa" + " " + "Bold" + " " + "Cabernet" == "Napa Bold Cabernet";
  }

  /** The three words of the example, capitalised. */
  lemma ExampleWords()
    ensures Capitalize("napa") == "Napa"
    ensures Capitalize("bold") == "Bold"
    ensures Capitalize("cabernet") == "Cabernet"
  {
    CapitalizeTo("napa", "Napa");
    CapitalizeTo("bold", "Bold");
    CapitalizeTo("cabernet", "Cabernet");
  }

  /** `t` is `s` capitalised when their first characters and their
      lower-cased rests agree. */
  lemma CapitalizeTo(s: string, t: string)
    requires |s| == |t| > 0 && UpperChar(s[0]) == t[0] && Lower(s[1..]) == t[1..]
    ensures Capitalize(s) == t
  {
  }

  /** A name reads back as exactly three words: the capitalised region,
      descriptor and variety, in that order. */
  lemma NameWords(region: string, variety: string, descriptor: string)
    requires IsWord(region) && IsWord(variety) && IsWord(descriptor)
    ensures Split(GenerateWineName(region, variety, descriptor)) ==
      [Capitalize(region), Capitalize(descriptor), Capitalize(variety)]
  {
    var ws := [Capitalize(region), Capitalize(descriptor), Capitalize(variety)];
    CaseKeepsWords(region);
    CaseKeepsWords(descriptor);
    CaseKeepsWords(variety);
    assert JoinSpaced(ws[2..]) == ws[2];
    assert JoinSpaced(ws) == GenerateWineName(region, variety, descriptor);
    SplitJoinSpaced(ws);
  }
}

/**
 The synthetic catalog generator: one hundred wines whose type, region,
 variety, notes, year and price are drawn at random, each named after its
 region, one of its notes and its variety, then inserted into `wines2`.
 The random draws are inputs here.
 */
module CreateWines {
  import opened Text
  import opened Catalog
  import opened WineNames

  const WineTypes: seq<string> := ["red", "white", "rose", "sparkling", "dessert", "fortified"]

  /** Each region with its three descriptors. */
  const Regions: map<string, seq<string>> := map[
    "bordeaux" := ["rich", "bold", "earthy"],
    "napa" := ["woody", "dark", "robust"],
    "tuscany" := ["herbaceous", "spicy", "smooth"],
    "rioja" := ["oak", "vanilla", "leathery"],
    "barossa" := ["spicy", "intense", "smoky"],
    "champagne" := ["bubbly", "citrus", "light"],
    "mosel" := ["sweet", "floral", "fruity"],
    "mendoza" := ["ripe", "plummy", "bold"],
    "sonoma" := ["fruity", "complex", "aromatic"]
  ]

  const Varieties: seq<string> :=
    ["cabernet", "sauvignon", "pinot", "chardonnay", "merlot", "blanc", "syrah", "malbec", "zinfandel", "riesling"]

  /** The number of wines generated. */
  const N: nat := 100

  /** Every descriptor list has three distinct entries, so drawing two
      different positions gives two different notes. */
  lemma RegionsWellFormed()
    ensures forall r :: r in Regions ==> |Regions[r]| == 3
    ensures forall r, i, j :: r in Regions && 0 <= i < j < |Regions[r]| ==> Regions[r][i] != Regions[r][j]
  {
  }

  /** The descriptors that occur in `Regions`, each listed once. They are
      kept in three groups of eight only so that each group's `IsWord` fact
      is a proof obligation of moderate size: one list of 24 string literals
      makes that single obligation expensive for the solver. The grouping
      carries no meaning of its own. */
  const Descriptors1: seq<string> := ["rich", "bold", "earthy", "woody", "dark", "robust", "herbaceous", "spicy"]
  const Descriptors2: seq<string> := ["smooth", "oak", "vanilla", "leathery", "intense", "smoky", "bubbly", "citrus"]
  const Descriptors3: seq<string> := ["light", "sweet", "floral", "fruity", "ripe", "plummy", "complex", "aromatic"]

  lemma DescriptorsListed()
    ensures forall r, w :: r in Regions && w in Regions[r] ==> w in Descriptors1 || w in Descriptors2 || w in Descriptors3
  {
  }

  lemma DescriptorsAreWords()
    ensures forall w :: w in Descriptors1 ==> IsWord(w)
    ensures forall w :: w in Descriptors2 ==> IsWord(w)
    ensures forall w :: w in Descriptors3 ==> IsWord(w)
  {
    Descriptors1AreWords();
    Descriptors2AreWords();
    Descriptors3AreWords();
  }

  lemma Descriptors1AreWords()
    ensures forall w :: w in Descriptors1 ==> IsWord(w)
  {
    assert forall k :: 0 <= k < |Descriptors1| ==> IsWord(Descriptors1[k]);
  }

  lemma Descriptors2AreWords()
    ensures forall w :: w in Descriptors2 ==> IsWord(w)
  {
    assert forall k :: 0 <= k < |Descriptors2| ==> IsWord(Descriptors2[k]);
  }

  lemma Descriptors3AreWords()
    ensures forall w :: w in Descriptors3 ==> IsWord(w)
  {
    assert forall k :: 0 <= k < |Descriptors3| ==> IsWord(Descriptors3[k]);
  }

  /** Region names, descriptors and varieties are single words (no
      whitespace), so a name built from them splits back into its parts. */
  lemma RegionNamesAreWords()
    ensures forall r :: r in Regions ==> IsWord(r)
  {
  }

  /** Every note of every region is a single word. */
  lemma NotesAreWords()
    ensures forall r, w :: r in Regions && w in Regions[r] ==> IsWord(w)
  {
    DescriptorsListed();
    DescriptorsAreWords();
  }

  lemma VarietiesAreWords()
    ensures forall k :: 0 <= k < |Varieties| ==> IsWord(Varieties[k])
  {
  }

  /** The random choices behind one wine: its type, region and variety; the
      two positions `random.sample` picks from the region's descriptors; which
      of the two notes names the wine; the year and the price. */
  datatype Draw = Draw(
    wineType: string, region: string, variety: string,
    top: nat, bottom: nat, pickTop: bool, year: int, price: int)

  /** What `random.choice`, `random.sample(…, 2)` and the inclusive
      `random.randint` can return. */
  predicate ValidDraw(d: Draw) {
    && d.wineType in WineTypes && d.region in Regions && d.variety in Varieties
    && d.top < |Regions[d.region]| && d.bottom < |Regions[d.region]| && d.top != d.bottom
    && 1980 <= d.year <= 2023 && 10 <= d.price <= 300
  }

  /** The row the loop builds in iteration `i` from draw `d`. */
  function MakeWine(i: nat, d: Draw): WineRecord
    requires ValidDraw(d)
  {
    var notes := Regions[d.region];
    var topNote, bottomNote := notes[d.top], notes[d.bottom];
    var descriptor := if d.pickTop then topNote else bottomNote;
    WineRecord(i + 1, GenerateWineName(d.region, d.variety, descriptor), d.wineType, d.variety,
               d.year, d.region, d.price, topNote, bottomNote)
  }

  /** What every generated row satisfies, whatever the draws. */
  predicate ValidWine(w: WineRecord) {
    && w.wineType in WineTypes && w.region in Regions && w.variety in Varieties
    && w.topNote in Regions[w.region] && w.bottomNote in Regions[w.region]
    && w.topNote != w.bottomNote
    && 1980 <= w.year <= 2023 && 10 <= w.price <= 300
    && (w.name == GenerateWineName(w.region, w.variety, w.topNote) ||
        w.name == GenerateWineName(w.region, w.variety, w.bottomNote))
    && |Split(w.name)| == 3
    && (Split(w.name)[1] == Capitalize(w.topNote) || Split(w.name)[1] == Capitalize(w.bottomNote))
  }

  lemma MakeWineValid(i: nat, d: Draw)
    requires ValidDraw(d)
    ensures MakeWine(i, d).id == i + 1 && ValidWine(MakeWine(i, d))
  {
    RegionsWellFormed();
    RegionNamesAreWords();
    NotesAreWords();
    VarietiesAreWords();
    var notes := Regions[d.region];
    var descriptor := if d.pickTop then notes[d.top] else notes[d.bottom];
    assert IsWord(d.region) && IsWord(descriptor);
    NameWords(d.region, d.variety, descriptor);
  }

  /** The rows the loop has built after the draws `ds`. */
  function Generated(ds: seq<Draw>): seq<WineRecord>
    requires forall k :: 0 <= k < |ds| ==> ValidDraw(ds[k])
  {
    if ds == [] then [] else Generated(ds[..|ds| - 1]) + [MakeWine(|ds| - 1, ds[|ds| - 1])]
  }

  /** Row `k` is built from draw `k` and has id `k + 1`. */
  lemma {:induction false} GeneratedAt(ds: seq<Draw>, k: nat)
    requires forall j :: 0 <= j < |ds| ==> ValidDraw(ds[j])
    requires k < |ds|
    ensures |Generated(ds)| == |ds|
    ensures Generated(ds)[k] == MakeWine(k, ds[k])
  {
    GeneratedLength(ds);
    if k < |ds| - 1 {
      GeneratedAt(ds[..|ds| - 1], k);
    }
  }

  /** One more draw, as the loop sees it. */
  lemma GeneratedStep(ds: seq<Draw>, i: nat)
    requires forall j :: 0 <= j < |ds| ==> ValidDraw(ds[j])
    requires i < |ds|
    ensures Generated(ds[..i + 1]) == Generated(ds[..i]) + [MakeWine(i, ds[i])]
  {
    assert ds[..i + 1][..i] == ds[..i];
  }

  lemma {:induction false} GeneratedLength(ds: seq<Draw>)
    requires forall j :: 0 <= j < |ds| ==> ValidDraw(ds[j])
    ensures |Generated(ds)| == |ds|
  {
    if ds != [] {
      GeneratedLength(ds[..|ds| - 1]);
    }
  }

  /** The generation loop: one row per draw, in order (the catalog script
      makes `N` draws). */
  method GenerateWines(draws: seq<Draw>) returns (wines: seq<WineRecord>)
    requires forall k :: 0 <= k < |draws| ==> ValidDraw(draws[k])
    ensures wines == Generated(draws)
  {
    wines := [];
    for i := 0 to |draws|
      invariant wines == Generated(draws[..i])
    {
      var wine := MakeWine(i, draws[i]);
      GeneratedStep(draws, i);
      wines := wines + [wine];
    }
    assert draws[..|draws|] == draws;
  }

  /** Whatever the draws, there is one valid row per draw, with ids 1, 2, 3,
      ..., row `k` built from draw `k`. */
  lemma GeneratedValid(draws: seq<Draw>)
    requires forall k :: 0 <= k < |draws| ==> ValidDraw(draws[k])
    ensures |Generated(draws)| == |draws|
    ensures forall k :: 0 <= k < |draws| ==> Generated(draws)[k] == MakeWine(k, draws[k])
    ensures forall k :: 0 <= k < |draws| ==> Generated(draws)[k].id == k + 1 && ValidWine(Generated(draws)[k])
  {
    GeneratedLength(draws);
    forall k | 0 <= k < |draws| ensures Generated(draws)[k] == MakeWine(k, draws[k]) {
      GeneratedAt(draws, k);
    }
    forall k | 0 <= k < |draws| ensures Generated(draws)[k].id == k + 1 && ValidWine(Generated(draws)[k]) {
      MakeWineValid(k, draws[k]);
    }
  }

  /** The table after inserting the rows in order with
      `ON CONFLICT (id) DO NOTHING`: a row whose id is taken is dropped. */
  function InsertAll(table: map<int, WineRecord>, rows: seq<WineRecord>): map<int, WineRecord> {
    if rows == [] then table
    else
      var before := InsertAll(table, rows[..|rows| - 1]);
      var r := rows[|rows| - 1];
      if r.id in before then before else before[r.id := r]
  }

  /** No two generated records share an id: the same `id INT PRIMARY KEY`
      property as `Catalog.DistinctIds`, stated over the full records that
      the insert writes rather than the rows the ingestion fetches. */
  predicate DistinctRecordIds(rows: seq<WineRecord>) {
    forall i, j :: 0 <= i < j < |rows| ==> rows[i].id != rows[j].id
  }

  /** With distinct ids nothing is dropped: every row is stored under its
      id, nothing else is, and the table has one entry per row. */
  lemma {:induction false} InsertAllKeepsAll(rows: seq<WineRecord>)
    requires DistinctRecordIds(rows)
    ensures forall id :: id in InsertAll(map[], rows) <==> exists k :: 0 <= k < |rows| && rows[k].id == id
    ensures forall k :: 0 <= k < |rows| ==> rows[k].id in InsertAll(map[], rows) && InsertAll(map[], rows)[rows[k].id] == rows[k]
    ensures |InsertAll(map[], rows)| == |rows|
  {
    if rows != [] {
      var init, last := rows[..|rows| - 1], rows[|rows| - 1];
      assert DistinctRecordIds(init);
      InsertAllKeepsAll(init);
      var before := InsertAll(map[], init);
      assert last.id !in before by {
        forall k | 0 <= k < |init| ensures init[k].id != last.id {
          assert init[k] == rows[k];
        }
      }
      assert InsertAll(map[], rows) == before[last.id := last];
      forall k | 0 <= k < |rows| - 1 ensures rows[k] == init[k] {}
    }
  }

  /** The generated ids are 1..N, so all N rows are kept. */
  lemma GeneratedRowsKept(wines: seq<WineRecord>)
    requires |wines| == N && forall k :: 0 <= k < N ==> wines[k].id == k + 1
    ensures forall id :: id in InsertAll(map[], wines) <==> 1 <= id <= N
    ensures |InsertAll(map[], wines)| == N
    ensures forall k :: 0 <= k < N ==> InsertAll(map[], wines)[k + 1] == wines[k]
  {
    InsertAllKeepsAll(wines);
    forall id | 1 <= id <= N ensures id in InsertAll(map[], wines) {
      assert wines[id - 1].id == id;
    }
  }

  /** Drops and recreates `wines2`, then inserts the rows one by one with
      `ON CONFLICT (id) DO NOTHING`. */
  method InsertWines(db: Database, wines: seq<WineRecord>)
    modifies db`wines2
    ensures db.wines2 == InsertAll(map[], wines)
  {
    db.wines2 := map[];
    for i := 0 to |wines|
      invariant db.wines2 == InsertAll(map[], wines[..i])
    {
      assert wines[..i + 1][..i] == wines[..i];
      var row := wines[i];
      if row.id !in db.wines2 {
        db.wines2 := db.wines2[row.id := row];
      }
    }
    assert wines[..|wines|] == wines;
  }
}

/**
 * The category tiles of the home page: an "All" tile showing the total
 * and one tile per entry of a fixed table, each showing its count and
 * highlighted when it is the selected category.
 */
module CategoriesSection {
  import opened Wrappers
  import opened JsString
  import opened Records
  import opened CategoryCounts

  /** An entry of the tile table: the id matched against count keys, and the label shown. */
  datatype Category = Category(id: string, name: string)

  /** The fixed tile table. */
  const Categories: seq<Category> := [
    Category("technology", "Technology"),
    Category("design", "Design"),
    Category("startup", "Startup"),
    Category("ai", "AI & ML"),
    Category("mobile", "Mobile"),
    Category("business", "Business")
  ]

  /**
   * The figure on the "All" tile:
   * `categoryCounts['all'] ?? Object.values(categoryCounts).reduce((a, b) => a + b, 0)`.
   * `??` falls back only when "all" is missing, so a present 0 is shown as 0.
   */
  ghost function TotalPosts(counts: map<string, int>): (r: int)
    ensures counts == map[] ==> r == 0
    ensures AllKey in counts ==> r == counts[AllKey]
  {
    if AllKey in counts then counts[AllKey] else Sum(counts)
  }

  /**
   * `SumBoundsValues` read on the "All" figure: without "all", the fallback
   * total of counts that are not negative is at least every count.
   */
  lemma FallbackTotalBoundsEachCount(counts: map<string, int>, k: string)
    requires AllKey !in counts
    requires forall j :: j in counts ==> counts[j] >= 0
    ensures TotalPosts(counts) >= 0
    ensures k in counts ==> TotalPosts(counts) >= counts[k]
  {
    SumBoundsValues(counts, k);
  }

  /** The figure on a category tile: `categoryCounts[category.id] || 0`. */
  function TileCount(counts: map<string, int>, id: string): (r: int)
    ensures r == if id in counts then counts[id] else 0
  {
    if id in counts && counts[id] != 0 then counts[id] else 0
  }

  /** The "All" tile is highlighted when `selectedCategory` is falsy. */
  predicate AllTileSelected(selected: Option<string>) {
    !Truthy(selected)
  }

  /** A category tile is highlighted when `selectedCategory === category.id`. */
  predicate TileSelected(selected: Option<string>, c: Category) {
    selected == Some(c.id)
  }

  /** Clicking "All" selects `undefined`. */
  function ClickAll(): (r: Option<string>)
    ensures AllTileSelected(r)
  {
    None
  }

  /** Clicking a category tile selects its id. */
  function ClickTile(c: Category): (r: Option<string>)
    ensures TileSelected(r, c)
  {
    Some(c.id)
  }

  /** The table has six distinct ids, none of them empty or the reserved "all". */
  lemma CategoryIdsDistinct()
    ensures |Categories| == 6
    ensures forall i, j :: 0 <= i < j < |Categories| ==> Categories[i].id != Categories[j].id
    ensures forall c :: c in Categories ==> c.id != "" && c.id != AllKey
  {
  }

  /** Every id is a key in normal form, so the normaliser maps it to itself. */
  lemma CategoryIdsAreKeys()
    ensures forall c :: c in Categories ==> IsKey(c.id) && NormalizeKey(c.id) == c.id
  {
    assert forall c :: c in Categories ==> IsLowerWord(c.id);
    forall c | c in Categories ensures IsKey(c.id) && NormalizeKey(c.id) == c.id {
      LowerWordIsOwnKey(c.id);
    }
  }

  /**
   * After any click exactly one tile is highlighted: "All" after clicking
   * "All", and after clicking a category tile that tile and no other.
   */
  lemma ClickHighlightsOneTile()
    ensures AllTileSelected(ClickAll())
    ensures forall c :: c in Categories ==> !TileSelected(ClickAll(), c)
    ensures forall i :: 0 <= i < |Categories| ==> !AllTileSelected(ClickTile(Categories[i]))
    ensures forall i, j :: 0 <= i < |Categories| && 0 <= j < |Categories| ==>
              (TileSelected(ClickTile(Categories[i]), Categories[j]) <==> i == j)
  {
    CategoryIdsDistinct();
  }

  /**
   * Fed the counts handler's response, the "All" tile shows the number of
   * posts examined (the fallback sum is never used), and each category
   * tile shows the number of posts whose category has its id as key.
   */
  lemma TilesShowTally(rows: seq<Row>, c: Category)
    requires c in Categories
    ensures TotalPosts(Tally(rows)) == |rows|
    ensures TileCount(Tally(rows), c.id) == Occurrences(rows, c.id)
  {
    CategoryIdsDistinct();
    TallyIsOccurrences(rows, c.id);
  }

  /** The figures on the given category tiles, added up. */
  function TilesTotal(counts: map<string, int>, cats: seq<Category>): int {
    if cats == [] then 0 else TileCount(counts, cats[0].id) + TilesTotal(counts, cats[1..])
  }

  predicate DistinctIds(cats: seq<Category>) {
    forall i, j :: 0 <= i < j < |cats| ==> cats[i].id != cats[j].id
  }

  /** The number of the given tiles whose id is `key`. */
  function Hits(cats: seq<Category>, key: Option<string>): nat {
    if cats == [] then 0 else (if key == Some(cats[0].id) then 1 else 0) + Hits(cats[1..], key)
  }

  /** For each given tile, the number of rows whose key is its id, added up. */
  function TileOccurrences(rows: seq<Row>, cats: seq<Category>): nat {
    if cats == [] then 0 else Occurrences(rows, cats[0].id) + TileOccurrences(rows, cats[1..])
  }

  lemma {:induction false} HitsAtMostOne(cats: seq<Category>, key: Option<string>)
    requires DistinctIds(cats)
    ensures Hits(cats, key) <= 1
    ensures (forall c :: c in cats ==> key != Some(c.id)) ==> Hits(cats, key) == 0
  {
    if cats != [] {
      HitsAtMostOne(cats[1..], key);
      if key == Some(cats[0].id) {
        forall c | c in cats[1..] ensures key != Some(c.id) {
          var j :| 0 <= j < |cats[1..]| && cats[1..][j] == c;
          assert cats[j + 1] == c;
        }
      }
    }
  }

  lemma {:induction false} TileOccurrencesStep(rows: seq<Row>, cats: seq<Category>)
    requires rows != []
    ensures TileOccurrences(rows, cats) ==
              TileOccurrences(rows[..|rows| - 1], cats) + Hits(cats, KeyOf(rows[|rows| - 1]))
  {
    if cats != [] {
      TileOccurrencesStep(rows, cats[1..]);
    }
  }

  /** Each row has at most one key, so the tiles together count each row at most once. */
  lemma {:induction false} TileOccurrencesBound(rows: seq<Row>, cats: seq<Category>)
    requires DistinctIds(cats)
    ensures TileOccurrences(rows, cats) <= Categorised(rows)
  {
    if rows == [] {
      TileOccurrencesOfNoRows(cats);
    } else {
      var n := |rows| - 1;
      TileOccurrencesBound(rows[..n], cats);
      TileOccurrencesStep(rows, cats);
      HitsAtMostOne(cats, KeyOf(rows[n]));
    }
  }

  lemma {:induction false} TileOccurrencesOfNoRows(cats: seq<Category>)
    ensures TileOccurrences([], cats) == 0
  {
    if cats != [] {
      TileOccurrencesOfNoRows(cats[1..]);
    }
  }

  lemma {:induction false} TilesTotalOfTally(rows: seq<Row>, cats: seq<Category>)
    requires forall c :: c in cats ==> c.id != AllKey
    ensures TilesTotal(Tally(rows), cats) == TileOccurrences(rows, cats)
  {
    if cats != [] {
      assert cats[0] in cats;
      TallyIsOccurrences(rows, cats[0].id);
      TilesTotalOfTally(rows, cats[1..]);
    }
  }

  /**
   * Fed the counts handler's response, the "All" tile never shows fewer
   * posts than the six category tiles together.
   */
  lemma AllTileBoundsCategoryTiles(rows: seq<Row>)
    ensures TilesTotal(Tally(rows), Categories) <= TotalPosts(Tally(rows))
  {
    CategoryIdsDistinct();
    TilesTotalOfTally(rows, Categories);
    TileOccurrencesBound(rows, Categories);
    CategorisedBound(rows, AllKey);
  }
}

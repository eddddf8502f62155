/**
 * How the home page ties the tiles to the post list: the counts come from
 * the counts handler over the published posts, the post list from the
 * posts handler over the same published posts, and clicking a tile sets
 * the selection the list is filtered by.
 */
module HomePage {
  import opened Wrappers
  import opened JsString
  import opened CategoryCounts
  import opened PostFilter
  import opened CategoriesSection

  /** The rows the counts handler reads for the given posts: their categories. */
  function RowsOf(posts: seq<Post>): (rows: seq<Row>)
    ensures |rows| == |posts|
    ensures forall i :: 0 <= i < |posts| ==> rows[i] == Row(posts[i].category)
  {
    seq(|posts|, i requires 0 <= i < |posts| => Row(posts[i].category))
  }

  /** The post's category, if it has one, contains no whitespace and no `&`. */
  predicate PlainCategory(p: Post) {
    Truthy(p.category) ==> NormalizeKey(p.category.value) == ToLowerCase(p.category.value)
  }

  /** With an empty search, a post is shown for a tile exactly when its category's key is the tile's id. */
  lemma ShownForTileIffKey(p: Post, id: string)
    requires IsKey(id) && id != ""
    requires PlainCategory(p)
    ensures Keep(p, "", Some(id)) <==> KeyOf(Row(p.category)) == Some(id)
  {
    IncludesEmpty(ToLowerCase(p.title));
    assert ToLowerCase("") == "";
    assert ToLowerCase(id) == id by {
      NormalizeKeyFixedPoint(id);
      ToLowerCaseFixedPoint(id);
      assert HasNoUpper(id);
    }
  }

  lemma OccurrencesCons(r: Row, rows: seq<Row>, k: string)
    ensures Occurrences([r] + rows, k) == (if KeyOf(r) == Some(k) then 1 else 0) + Occurrences(rows, k)
  {
    OccurrencesConcat([r], rows, k);
    assert [r][..0] == [];
  }

  lemma {:induction false} TileCountIsFilterLength(posts: seq<Post>, id: string)
    requires IsKey(id) && id != ""
    requires forall p :: p in posts ==> PlainCategory(p)
    ensures Occurrences(RowsOf(posts), id) == |Filter(posts, "", Some(id))|
  {
    if posts != [] {
      var p := posts[0];
      assert p in posts;
      assert forall q :: q in posts[1..] ==> q in posts;
      TileCountIsFilterLength(posts[1..], id);
      RowsOfCons(posts);
      OccurrencesCons(Row(p.category), RowsOf(posts[1..]), id);
      FilterLengthCons(posts, "", Some(id));
      ShownForTileIffKey(p, id);
    }
  }

  lemma RowsOfCons(posts: seq<Post>)
    requires posts != []
    ensures RowsOf(posts) == [Row(posts[0].category)] + RowsOf(posts[1..])
  {
  }

  lemma FilterLengthCons(posts: seq<Post>, searchTerm: string, selected: Option<string>)
    requires posts != []
    ensures |Filter(posts, searchTerm, selected)| ==
              (if Keep(posts[0], searchTerm, selected) then 1 else 0) + |Filter(posts[1..], searchTerm, selected)|
  {
  }

  /**
   * When no category holds whitespace or `&`, the figure on a category tile
   * is the number of posts the list shows after clicking that tile (with an
   * empty search).
   */
  lemma TileCountMatchesShownPosts(posts: seq<Post>, c: Category)
    requires c in Categories
    requires forall p :: p in posts ==> PlainCategory(p)
    ensures TileCount(Tally(RowsOf(posts)), c.id) == |Filter(posts, "", ClickTile(c))|
  {
    CategoryIdsDistinct();
    CategoryIdsAreKeys();
    TilesShowTally(RowsOf(posts), c);
    TileCountIsFilterLength(posts, c.id);
  }

  /**
   * A category whose key is a tile's id but which holds whitespace or `&`
   * (such as "Mobile ") is counted on that tile, yet the post is not shown
   * after clicking it, because the list compares lower-cased categories
   * without removing those characters.
   */
  lemma TileCountCanExceedShownPosts(p: Post, c: Category)
    requires c in Categories
    requires Truthy(p.category) && NormalizeKey(p.category.value) == c.id
    requires ToLowerCase(p.category.value) != c.id
    ensures TileCount(Tally(RowsOf([p])), c.id) == 1
    ensures Filter([p], "", ClickTile(c)) == []
  {
    TilesShowTally(RowsOf([p]), c);
    assert RowsOf([p]) == [Row(p.category)];
    assert [Row(p.category)][..0] == [];
    CategoryIdsAreKeys();
    assert ToLowerCase(c.id) == c.id by {
      ToLowerCaseFixedPoint(c.id);
      assert HasNoUpper(c.id);
    }
  }

  /** "Mobile " has the key "mobile" but lower-cases to "mobile ". */
  lemma TrailingSpaceExample()
    ensures NormalizeKey("M" + "obile" + " ") == "mobile"
    ensures ToLowerCase("M" + "obile" + " ") != "mobile"
  {
    CapitalisedWordKey('M', "obile");
    NormalizeKeyConcat("M" + "obile", " ");
    NormalizeKeyOfChar(' ');
  }
}

# Blog category counts, post filter and category tiles

This project models the part of the blog application that decides which
posts a reader sees and what the category tiles on the home page say:

- **Category counts** (`api/categoryCounts.ts`). The `GET` handler reads the
  category of every published post. It turns each truthy category into a
  key: lower-cased, with every whitespace character and every `&` removed.
  It counts the keys in a record and writes the number of posts examined
  under the reserved key `"all"`. Modules: `CategoryCounts` (normaliser,
  tally loop, properties), `PlainObject` (the record as the JavaScript plain
  object it really is), `JsString` (`toLowerCase`, `\s`, `includes`,
  truthiness) and `Records` (the sum of a record's values).
- **Post filter** (`src/pages/home.tsx`). `filteredPosts` keeps a post when
  the lower-cased search term occurs in its lower-cased title or content,
  and, when a category is selected, when its lower-cased category equals
  the lower-cased selection. Module `PostFilter`.
- **Category tiles** (`src/components/categories-section.tsx`). The "All"
  tile shows `categoryCounts['all']`, falling back to the sum of all values
  when that key is missing. Each tile of the fixed six-entry table shows
  `categoryCounts[id] || 0`. Clicking a tile selects its id; clicking
  "All" selects nothing. Module `CategoriesSection`.
- **Excerpt** (`src/components/blog-card.tsx`). A card shows content longer
  than 200 characters as its first 200 characters followed by `"..."`.
  Module `BlogCard`.
- **Tiles against the list** (module `HomePage`). The tile counts and the
  filtered list disagree for categories that hold whitespace or `&`:
  `"Mobile "` is counted on the "mobile" tile, but clicking that tile does
  not show the post, because the filter compares lower-cased categories
  without removing those characters. `HomePage.TileCountMatchesShownPosts`
  proves that, with an empty search box, the two agree when no category
  holds such characters. `HomePage.TileCountCanExceedShownPosts` proves
  that they can differ otherwise. With a search term typed, the list
  narrows and the tile figures do not. These lemmas assume that the counts
  query and the posts query, two separate fetches, return the same
  published posts; `HomePage.RowsOf` turns those posts into the rows the
  handler reads.

The handler's loop is modelled as a method, `CategoryCounts.CountCategories`,
proved against the specification function `CategoryCounts.Tally`. Everything
else in the core is expression code and is modelled as functions and lemmas.

## Model

| member | source | states |
|---|---|---|
| CategoryCounts.Tally | api/categoryCounts.ts:10-19 | The response the handler sends: "all" holds the number of rows examined, and every other value is at least 1 |
| CategoryCounts.Counts | api/categoryCounts.ts:10-18 | The record after the loop, before "all" is written: every value is at least 1 |
| CategoryCounts.NormalizeKey | api/categoryCounts.ts:15 | The key of a category: lower-cased, then stripped of whitespace and `&`; its properties are the lemmas below |
| CategoryCounts.KeyOf | api/categoryCounts.ts:14-15 | A row adds to the key of its category when the category is truthy, and to no key otherwise |
| CategoryCounts.Bump | api/categoryCounts.ts:16 | One update of the tally on a record of counts: the key's count goes up by one, starting from 0 |
| CategoryCounts.CountCategories | api/categoryCounts.ts:10-19 | The loop's result is the tally of the rows, and "all" holds the number of rows examined, counting rows without a category |
| CategoryCounts.Strip | api/categoryCounts.ts:15 | Removing whitespace and `&` never lengthens a string |
| CategoryCounts.StripKeeps | api/categoryCounts.ts:15 | A character survives the replacement exactly when it occurs in the input and is neither whitespace nor `&` |
| CategoryCounts.NormalizeKeyIsKey | api/categoryCounts.ts:15 | Every key has no upper-case letter, no whitespace and no `&`, and is no longer than its label |
| CategoryCounts.NormalizeKeyConcat | api/categoryCounts.ts:15 | The key of a concatenation is the concatenation of the keys |
| CategoryCounts.NormalizeKeyOfChar | api/categoryCounts.ts:15 | A single character is dropped when it is whitespace or `&` and lower-cased otherwise |
| CategoryCounts.NormalizeKeyFixedPoint | api/categoryCounts.ts:15 | A label is its own key exactly when it has no upper-case letter, whitespace or `&` |
| CategoryCounts.NormalizeKeyIdempotent | api/categoryCounts.ts:15 | Normalising a key again leaves it unchanged |
| CategoryCounts.LowerWordIsOwnKey | api/categoryCounts.ts:15 | A word of lower-case letters is in normal form and is its own key |
| CategoryCounts.CapitalisedWordKey | api/categoryCounts.ts:15 | A capitalised word has the lower-cased word as key |
| CategoryCounts.SeparatorKeys | api/categoryCounts.ts:15 | `" "`, `"&"` and `" & "` have the empty key |
| CategoryCounts.AiMlExample | api/categoryCounts.ts:15 | "AI & ML", "ai&ml" and "ai ml" all have the key "aiml" |
| CategoryCounts.TechExample | api/categoryCounts.ts:15 | "Tech" and "tech" share the key "tech" |
| CategoryCounts.AllKeyExample | api/categoryCounts.ts:15 | The label "A ll" has the reserved key "all" |
| CategoryCounts.CountsAreOccurrences | api/categoryCounts.ts:12-18 | Before "all" is written, a key is present exactly when some row has that key, and then it holds the number of such rows |
| CategoryCounts.TallyIsOccurrences | api/categoryCounts.ts:12-19 | "all" holds the number of rows; any other key is present exactly when some row has it, and then it holds that number of rows, at least 1 |
| CategoryCounts.UncategorisedRowOnlyCountsInAll | api/categoryCounts.ts:13-14 | A row whose category is null, undefined or "" changes only "all", which goes up by one |
| CategoryCounts.AllCategoryIsOverwritten | api/categoryCounts.ts:16-19 | A row whose category has the key "all" gives the same response as a row without a category |
| CategoryCounts.CategorisedBound | api/categoryCounts.ts:13-14 | The rows with any one key are at most the rows with a category, which are at most all rows |
| CategoryCounts.SumOfCounts | api/categoryCounts.ts:12-18 | Before "all" is written, the values add up to the number of rows with a category |
| CategoryCounts.TallySum | api/categoryCounts.ts:12-19 | The values other than "all" add up to the rows with a category, minus those whose key is "all" |
| CategoryCounts.TallySumWithoutAllCategory | api/categoryCounts.ts:12-19 | When no key is "all", the other values add up to the rows with a category, which is at most the value of "all" |
| CategoryCounts.OccurrencesConcat | api/categoryCounts.ts:12-18 | Counting a key over two batches of rows gives the sum of the two counts |
| CategoryCounts.OccurrencesPermutation | api/categoryCounts.ts:12-18 | Reordering the rows does not change the count of any key |
| CategoryCounts.TallyPermutation | api/categoryCounts.ts:8-19 | The response does not depend on the order in which the query returns the rows |
| CategoryCounts.TallyOfTwoTechRows | api/categoryCounts.ts:10-19 | Two rows with key "tech" and one without a category give {tech: 2, all: 3} |
| CategoryCounts.TallyExample | api/categoryCounts.ts:10-19 | The categories "Tech", "tech" and null give {tech: 2, all: 3} |
| JsString.LowerChar | api/categoryCounts.ts:15 | A lower-cased character is never upper-case; upper-case ASCII letters move to lower case and every other character is kept |
| JsString.Truthy | api/categoryCounts.ts:14 | A category is truthy when it is present and not the empty string |
| JsString.IsWhitespace | api/categoryCounts.ts:15 | The characters ECMAScript's `\s` matches: the WhiteSpace and LineTerminator code points |
| JsString.ToLowerCase | src/pages/home.tsx:32-35 | `toLowerCase` keeps the length and lower-cases each character in place |
| JsString.ToLowerCaseFixedPoint | src/pages/home.tsx:32-35 | The result has no upper-case letter, and a string is unchanged exactly when it has none |
| JsString.Includes | src/pages/home.tsx:32-33 | `s.includes(t)`: a string only includes strings no longer than itself; `IncludesIff` ties it to occurrence at a position |
| JsString.IncludesHasOccurrence | src/pages/home.tsx:32-33 | When `s.includes(t)` holds, `t` occurs in `s` at some position |
| JsString.OccurrenceIsIncluded | src/pages/home.tsx:32-33 | When `t` occurs in `s` at some position, `s.includes(t)` holds |
| JsString.IncludesIff | src/pages/home.tsx:32-33 | `s.includes(t)` holds exactly when `t` occurs in `s` at some position |
| JsString.IncludesEmpty | src/pages/home.tsx:32-33 | Every string includes the empty string |
| Records.Sum | src/components/categories-section.tsx:23 | `Object.values(record).reduce((a, b) => a + b, 0)`: the sum of the record's values, independent of the visiting order by `SumRemove` |
| Records.SumRemove | src/components/categories-section.tsx:23 | Whichever property `reduce` adds first, the sum is its value plus the sum of the rest |
| Records.SumUpdate | src/components/categories-section.tsx:23 | Setting one property changes the sum by the new value minus the old one |
| Records.SumBoundsValues | src/components/categories-section.tsx:23 | With no negative value, the sum is non-negative and at least each value |
| PostFilter.MatchesSearch | src/pages/home.tsx:31-33 | The lower-cased search term occurs in the lower-cased title or the lower-cased content |
| PostFilter.MatchesCategory | src/pages/home.tsx:34-35 | No category is selected, or the post's category equals the selection ignoring case |
| PostFilter.Keep | src/pages/home.tsx:30-36 | The callback passed to `posts.filter`: both tests hold |
| PostFilter.Filter | src/pages/home.tsx:30-37 | The result keeps the input's order, and each post appears as often as in the input if it passes the test, and never otherwise |
| PostFilter.FilteredPosts | src/pages/home.tsx:28-29 | No posts until the query has data; then an order-preserving selection of them |
| PostFilter.KeptPostMatches | src/pages/home.tsx:30-37 | A shown post came from the input, contains the search term in its title or content ignoring case, and, when a category is selected, has a category equal to it ignoring case |
| PostFilter.NoCriteriaKeepsEveryPost | src/pages/home.tsx:30-37 | An empty search with no selection shows every post, in order |
| PostFilter.NoSelectionIgnoresCategory | src/pages/home.tsx:34-35 | A selection of undefined or "" filters exactly as no selection |
| PostFilter.FilterIdempotent | src/pages/home.tsx:28-38 | Filtering the filtered list again with the same criteria changes nothing |
| CategoriesSection.CategoryIdsDistinct | src/components/categories-section.tsx:5-12 | The table has six distinct ids, none empty and none the reserved "all" |
| CategoriesSection.CategoryIdsAreKeys | src/components/categories-section.tsx:5-12 | Every id is in normal form, so the normaliser maps it to itself |
| CategoriesSection.TotalPosts | src/components/categories-section.tsx:23 | The "All" figure is the value of "all" whenever it is present, even 0, and 0 for an empty record |
| CategoriesSection.FallbackTotalBoundsEachCount | src/components/categories-section.tsx:23 | Without "all", the fallback total of non-negative counts is non-negative and at least each count |
| CategoriesSection.TileCount | src/components/categories-section.tsx:45 | A tile shows the count stored under its id, and 0 when the id is missing |
| CategoriesSection.AllTileSelected | src/components/categories-section.tsx:32 | The "All" tile is highlighted when the selection is falsy |
| CategoriesSection.TileSelected | src/components/categories-section.tsx:44 | A category tile is highlighted when the selection is its id |
| CategoriesSection.ClickAll | src/components/categories-section.tsx:34 | Clicking "All" selects nothing, which highlights "All" |
| CategoriesSection.ClickTile | src/components/categories-section.tsx:51 | Clicking a tile selects its id, which highlights that tile |
| CategoriesSection.ClickHighlightsOneTile | src/components/categories-section.tsx:32-51 | After clicking "All" only "All" is highlighted; after clicking a tile, that tile and no other is |
| CategoriesSection.TilesShowTally | src/components/categories-section.tsx:23-45 | Fed the handler's response, "All" shows the number of posts, and each tile shows the number of posts whose key is its id |
| CategoriesSection.HitsAtMostOne | src/components/categories-section.tsx:5-12 | With distinct ids, a key matches at most one tile |
| CategoriesSection.TileOccurrencesBound | src/components/categories-section.tsx:5-12 | Together the tiles count each post at most once, so at most the posts with a category |
| CategoriesSection.TilesTotalOfTally | src/components/categories-section.tsx:45 | Fed the handler's response, the tile figures add up to the posts counted under their ids |
| CategoriesSection.AllTileBoundsCategoryTiles | src/components/categories-section.tsx:23-45 | Fed the handler's response, "All" never shows fewer posts than the six tiles together |
| BlogCard.Excerpt | src/components/blog-card.tsx:126 | Content of at most 200 characters is shown unchanged; longer content becomes its first 200 characters followed by "...", 203 in all |
| BlogCard.ExcerptIdempotent | src/components/blog-card.tsx:126 | The excerpt of an excerpt is the excerpt itself |
| BlogCard.ExcerptUnchangedIff | src/components/blog-card.tsx:126 | Content is shown unchanged exactly when it fits in 200 characters, or is 203 characters ending in "..." |
| HomePage.RowsOf | api/categoryCounts.ts:8-12 | The handler reads one row per post, holding that post's category, assuming both queries return the same published posts |
| HomePage.ShownForTileIffKey | src/pages/home.tsx:34-35 | With an empty search and a category free of whitespace and `&`, a post is shown for a tile exactly when its key is the tile's id |
| HomePage.TileCountIsFilterLength | src/pages/home.tsx:28-38 | For such categories and an empty search box, the count of a key equals the length of the list filtered by it |
| HomePage.TileCountMatchesShownPosts | src/components/categories-section.tsx:45-51 | When no category holds whitespace or `&`, a tile's figure is the number of posts shown after clicking it with an empty search box |
| HomePage.TileCountCanExceedShownPosts | src/components/categories-section.tsx:45-51 | A category such as "Mobile " is counted on its tile, but clicking the tile does not show the post |
| HomePage.TrailingSpaceExample | api/categoryCounts.ts:15 | "Mobile " has the key "mobile" but lower-cases to "mobile " |
| PlainObject.PrototypeNamesReachableByKeys | api/categoryCounts.ts:10-15 | Of the names Object.prototype provides, only "constructor" and "__proto__" can be keys |
| PlainObject.PrototypeMethodsHaveUpper | api/categoryCounts.ts:10-15 | Every method name of Object.prototype has an upper-case letter, so it is never a key |
| PlainObject.CountsAsWrittenAgree | api/categoryCounts.ts:10-18 | While no key is a name Object.prototype provides, the plain object holds exactly the counts of the map model |
| PlainObject.BumpAgrees | api/categoryCounts.ts:16 | One update of the plain object matches one update of the map for such a key |
| PlainObject.TallyAsWrittenAgrees | api/categoryCounts.ts:10-20 | While no key is a name Object.prototype provides, the response as written is the map model's tally |
| PlainObject.BumpAsWritten | api/categoryCounts.ts:16 | One update of the tally on a plain object: every other property is unchanged, and a key other than "__proto__" becomes an own property while "__proto__" leaves the object as it was |
| PlainObject.CountsAsWritten | api/categoryCounts.ts:10-18 | The object after the loop, as written: "__proto__" never becomes an own property |
| PlainObject.TallyAsWritten | api/categoryCounts.ts:10-19 | The response as written: "all" holds the number of rows as a number, and "__proto__" is never a property |
| PlainObject.ProtoCategoryIsDropped | api/categoryCounts.ts:16 | Posts whose key is "__proto__" are missing from the response, where the map model counts them |
| PlainObject.ConstructorCountIsAString | api/categoryCounts.ts:16 | The first post with key "constructor" stores the Object function's source text followed by "1" instead of the number 1 |
| PlainObject.ConstructorLabelExample | api/categoryCounts.ts:15 | The category "Constructor" has the key "constructor" |

## Left out

- The database query, the request method check and the error path that answers 500 (api/categoryCounts.ts:6-9): the rows are a parameter.
- `res.json`: the response is the record itself, not its JSON text.
- The post fetch, the counts fetch and the loading flags: the posts and counts are parameters, and a query that has not produced posts is `None`. The two fetches are separate requests; `HomePage` assumes both see the same published posts.
- The icon, colour and static `count` fields of the tile table: they do not reach any figure or decision.
- The rest of the blog card (sharing, bookmarks, avatar) and every other page and component.
- JsString.ToLowerCase: lower-cases ASCII letters only; JavaScript also lower-cases letters outside ASCII, and some of them change length.
- Strings: a Dafny `char` is a Unicode scalar value, while JavaScript strings are UTF-16 code units, so lengths and `substring(0, 200)` differ for text outside the Basic Multilingual Plane.
- BlogCard.Excerpt: counts characters, not UTF-16 code units, for the same reason.
- CategoriesSection.TotalPosts: a ghost function, because the sum of a record's values is defined by choosing a key; JavaScript numbers are modelled as unbounded integers, with no floating point and no rounding.
- CategoryCounts.CountCategories: models the record as a map; how the real plain object differs is shown in `PlainObject`.
- The standard property descriptors of Object.prototype are not modelled; `PlainObject.Inherited` covers every property Object.prototype has, the accessor `__proto__` included.

## Findings

| source | as written | input that shows it | evidently intended | confidence | as-written member | corrected member |
|---|---|---|---|---|---|---|
| api/categoryCounts.ts:10-16 | `result` is a plain object, so `result[key]` reads inherited members of Object.prototype, and `result['__proto__'] = n` calls the prototype setter | a published post with category "Constructor" (key "constructor") stores the string "function Object() { [native code] }1"; a post with category "__proto__" is dropped from the response | each key maps to the number of posts with that key | not executed | PlainObject.ConstructorCountIsAString | CategoryCounts.TallyIsOccurrences |

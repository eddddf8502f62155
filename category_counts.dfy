/**
 * The `GET /api/categoryCounts` handler: every published post's category is
 * turned into a lookup key (lower-cased, with whitespace and `&` removed)
 * and the keys are tallied, together with a reserved key "all" that holds
 * the number of posts examined.
 */
module CategoryCounts {
  import opened Wrappers
  import opened JsString
  import opened Records

  /** One row of the `select('category')` query: the category may be null. */
  datatype Row = Row(category: Option<string>)

  /** The reserved key that receives the total. */
  const AllKey: string := "all"

  /** A character the pattern `/\s|&/g` removes. */
  predicate Stripped(c: char) {
    IsWhitespace(c) || c == '&'
  }

  /** `s.replace(/\s|&/g, "")`: drop every whitespace character and every `&`. */
  function Strip(s: string): (r: string)
    ensures |r| <= |s|
  {
    if s == [] then []
    else (if Stripped(s[0]) then [] else [s[0]]) + Strip(s[1..])
  }

  /** Stripping keeps exactly the characters the pattern does not match. */
  lemma {:induction false} StripKeeps(s: string)
    ensures forall c :: c in Strip(s) <==> c in s && !Stripped(c)
  {
    if s != [] {
      StripKeeps(s[1..]);
      assert s == [s[0]] + s[1..];
    }
  }

  /** The key of a category label: `category.toLowerCase().replace(/\s|&/g, "")`. */
  function NormalizeKey(category: string): string {
    Strip(ToLowerCase(category))
  }

  /** A string the normaliser can produce: no upper-case letter, no whitespace, no `&`. */
  predicate IsKey(s: string) {
    forall c :: c in s ==> !IsUpper(c) && !Stripped(c)
  }

  /** Every key is in normal form and no longer than the label it came from. */
  lemma NormalizeKeyIsKey(category: string)
    ensures IsKey(NormalizeKey(category))
    ensures |NormalizeKey(category)| <= |category|
  {
    ToLowerCaseFixedPoint(category);
    StripKeeps(ToLowerCase(category));
  }

  lemma {:induction false} StripConcat(a: string, b: string)
    ensures Strip(a + b) == Strip(a) + Strip(b)
  {
    if a != [] {
      assert (a + b)[1..] == a[1..] + b;
      StripConcat(a[1..], b);
    } else {
      assert a + b == b;
    }
  }

  /** The key of a concatenation is the concatenation of the keys. */
  lemma NormalizeKeyConcat(a: string, b: string)
    ensures NormalizeKey(a + b) == NormalizeKey(a) + NormalizeKey(b)
  {
    assert ToLowerCase(a + b) == ToLowerCase(a) + ToLowerCase(b);
    StripConcat(ToLowerCase(a), ToLowerCase(b));
  }

  /**
   * A single character is removed when it is whitespace or `&` and
   * lower-cased otherwise. With `NormalizeKeyConcat` this determines the key
   * of every label: no other character is removed or changed.
   */
  lemma NormalizeKeyOfChar(c: char)
    ensures NormalizeKey([c]) == if Stripped(c) then "" else [LowerChar(c)]
  {
    assert ToLowerCase([c]) == [LowerChar(c)];
    assert [LowerChar(c)][1..] == [];
  }

  lemma {:induction false} StripFixedPoint(s: string)
    requires forall c :: c in s ==> !Stripped(c)
    ensures Strip(s) == s
  {
    if s != [] {
      assert s[0] in s;
      StripFixedPoint(s[1..]);
    }
  }

  /** A label is its own key exactly when it is already in normal form. */
  lemma NormalizeKeyFixedPoint(s: string)
    ensures NormalizeKey(s) == s <==> IsKey(s)
  {
    NormalizeKeyIsKey(s);
    if IsKey(s) {
      ToLowerCaseFixedPoint(s);
      StripFixedPoint(s);
    }
  }

  /** Normalising a key again leaves it unchanged. */
  lemma NormalizeKeyIdempotent(s: string)
    ensures NormalizeKey(NormalizeKey(s)) == NormalizeKey(s)
  {
    NormalizeKeyIsKey(s);
    NormalizeKeyFixedPoint(NormalizeKey(s));
  }

  /** A word of lower-case ASCII letters is its own key. */
  predicate IsLowerWord(s: string) {
    forall c :: c in s ==> 'a' <= c <= 'z'
  }

  lemma LowerWordIsOwnKey(s: string)
    requires IsLowerWord(s)
    ensures IsKey(s) && NormalizeKey(s) == s
  {
    NormalizeKeyFixedPoint(s);
  }

  /** A capitalised word has the lower-case word as key. */
  lemma CapitalisedWordKey(first: char, rest: string)
    requires IsUpper(first) && IsLowerWord(rest)
    ensures NormalizeKey([first] + rest) == [LowerChar(first)] + rest
  {
    NormalizeKeyConcat([first], rest);
    NormalizeKeyOfChar(first);
    LowerWordIsOwnKey(rest);
  }

  /** A separator of whitespace and `&` has the empty key. */
  lemma SeparatorKeys()
    ensures NormalizeKey(" ") == NormalizeKey("&") == NormalizeKey(" & ") == ""
  {
    NormalizeKeyOfChar(' ');
    NormalizeKeyOfChar('&');
    NormalizeKeyConcat(" ", "&");
    NormalizeKeyConcat(" &", " ");
  }

  /** Labels that differ only in case, spacing and ampersands share a key: "AI & ML", "ai&ml" and "ai ml". */
  lemma AiMlExample()
    ensures NormalizeKey("AI & ML") == NormalizeKey("ai&ml") == NormalizeKey("ai ml") == "aiml"
  {
    SpacedAiMlKey();
    SeparatorKeys();
    JoinedAiMlKey("&");
    JoinedAiMlKey(" ");
  }

  lemma SpacedAiMlKey()
    ensures NormalizeKey("AI & ML") == "aiml"
  {
    SeparatorKeys();
    CapitalisedPair('A', 'I');
    CapitalisedPair('M', 'L');
    assert "AI & ML" == "AI" + " & " + "ML";
    NormalizeKeyConcat("AI" + " & ", "ML");
    NormalizeKeyConcat("AI", " & ");
  }

  lemma JoinedAiMlKey(sep: string)
    requires NormalizeKey(sep) == ""
    ensures NormalizeKey("ai" + sep + "ml") == "aiml"
  {
    LowerWordIsOwnKey("ai");
    LowerWordIsOwnKey("ml");
    NormalizeKeyConcat("ai" + sep, "ml");
    NormalizeKeyConcat("ai", sep);
  }

  lemma CapitalisedPair(a: char, b: char)
    requires IsUpper(a) && IsUpper(b)
    ensures NormalizeKey([a, b]) == [LowerChar(a), LowerChar(b)]
  {
    NormalizeKeyConcat([a], [b]);
    NormalizeKeyOfChar(a);
    NormalizeKeyOfChar(b);
    assert [a] + [b] == [a, b];
  }

  /** "Tech" and "tech" share the key "tech". */
  lemma TechExample()
    ensures NormalizeKey("Tech") == NormalizeKey("tech") == "tech"
  {
    assert "Tech" == ['T'] + "ech";
    CapitalisedWordKey('T', "ech");
    assert LowerChar('T') == 't';
    LowerWordIsOwnKey("tech");
  }

  /** The label "A ll" has the reserved key "all". */
  lemma AllKeyExample()
    ensures NormalizeKey("A" + " " + "ll") == AllKey
  {
    NormalizeKeyConcat("A" + " ", "ll");
    NormalizeKeyConcat("A", " ");
    NormalizeKeyOfChar('A');
    NormalizeKeyOfChar(' ');
    LowerWordIsOwnKey("ll");
  }

  /** The key a row adds to, if any: a row whose category is falsy adds to none. */
  function KeyOf(row: Row): Option<string> {
    if Truthy(row.category) then Some(NormalizeKey(row.category.value)) else None
  }

  /** The number of rows whose category has key `k`. */
  function Occurrences(rows: seq<Row>, k: string): nat {
    if rows == [] then 0
    else Occurrences(rows[..|rows| - 1], k) + (if KeyOf(rows[|rows| - 1]) == Some(k) then 1 else 0)
  }

  /** The number of rows with a truthy category. */
  function Categorised(rows: seq<Row>): nat {
    if rows == [] then 0
    else Categorised(rows[..|rows| - 1]) + (if KeyOf(rows[|rows| - 1]).Some? then 1 else 0)
  }

  /** `result[key] = (result[key] || 0) + 1` on a record whose values are all at least 1. */
  function Bump(m: map<string, nat>, key: string): map<string, nat> {
    m[key := (if key in m then m[key] else 0) + 1]
  }

  /** The record after the loop has visited `rows`, before "all" is written. */
  function Counts(rows: seq<Row>): (r: map<string, nat>)
    ensures forall k :: k in r ==> r[k] >= 1
  {
    if rows == [] then map[]
    else
      var before := Counts(rows[..|rows| - 1]);
      match KeyOf(rows[|rows| - 1])
      case None => before
      case Some(key) => Bump(before, key)
  }

  /** The handler's response body: the counts with "all" overwritten by the total. */
  function Tally(rows: seq<Row>): (r: map<string, nat>)
    ensures AllKey in r && r[AllKey] == |rows|
    ensures forall k :: k in r && k != AllKey ==> r[k] >= 1
  {
    Counts(rows)[AllKey := |rows|]
  }

  /**
   * The loop of the handler. `result` and `total` are updated in place, one
   * row at a time, and "all" is written after the loop.
   */
  method CountCategories(rows: seq<Row>) returns (result: map<string, nat>)
    ensures result == Tally(rows)
    ensures AllKey in result && result[AllKey] == |rows|
  {
    result := map[];
    var total := 0;
    for i := 0 to |rows|
      invariant result == Counts(rows[..i])
      invariant total == i
    {
      var row := rows[i];
      total := total + 1;
      if Truthy(row.category) {
        var key := NormalizeKey(row.category.value);
        result := result[key := (if key in result then result[key] else 0) + 1];
      }
      assert rows[..i + 1][..i] == rows[..i];
    }
    assert rows[..|rows|] == rows;
    result := result[AllKey := total];
  }

  /** Before "all" is written, a key is present exactly when some row has it, and holds that many rows. */
  lemma {:induction false} CountsAreOccurrences(rows: seq<Row>, k: string)
    ensures k in Counts(rows) <==> Occurrences(rows, k) > 0
    ensures k in Counts(rows) ==> Counts(rows)[k] == Occurrences(rows, k)
  {
    if rows != [] {
      CountsAreOccurrences(rows[..|rows| - 1], k);
    }
  }

  /**
   * The response holds "all" = the number of rows examined, counting rows
   * without a category; every other key is present exactly when some row's
   * category has that key, and then holds the number of such rows, at least 1.
   */
  lemma TallyIsOccurrences(rows: seq<Row>, k: string)
    ensures AllKey in Tally(rows) && Tally(rows)[AllKey] == |rows|
    ensures k != AllKey ==> (k in Tally(rows) <==> Occurrences(rows, k) > 0)
    ensures k != AllKey && k in Tally(rows) ==> Tally(rows)[k] == Occurrences(rows, k) >= 1
  {
    CountsAreOccurrences(rows, k);
  }

  /** A row whose category is null, undefined or "" only adds to "all". */
  lemma UncategorisedRowOnlyCountsInAll(rows: seq<Row>, row: Row)
    requires !Truthy(row.category)
    ensures Tally(rows + [row]) == Tally(rows)[AllKey := |rows| + 1]
  {
    assert (rows + [row])[..|rows|] == rows;
  }

  /**
   * A category whose key is "all" (such as "A ll") is counted and then
   * overwritten by the total: the response is the same as if that row had
   * no category at all.
   */
  lemma AllCategoryIsOverwritten(rows: seq<Row>, row: Row)
    requires KeyOf(row) == Some(AllKey)
    ensures Tally(rows + [row]) == Tally(rows + [Row(None)])
  {
    assert (rows + [row])[..|rows|] == rows;
    assert (rows + [Row(None)])[..|rows|] == rows;
  }

  lemma {:induction false} CategorisedBound(rows: seq<Row>, k: string)
    ensures Occurrences(rows, k) <= Categorised(rows) <= |rows|
  {
    if rows != [] {
      CategorisedBound(rows[..|rows| - 1], k);
    }
  }

  lemma {:induction false} SumOfCounts(rows: seq<Row>)
    ensures Sum(Counts(rows)) == Categorised(rows)
  {
    if rows != [] {
      var before := Counts(rows[..|rows| - 1]);
      SumOfCounts(rows[..|rows| - 1]);
      match KeyOf(rows[|rows| - 1])
      case None =>
      case Some(key) =>
        SumUpdate(before, key, (if key in before then before[key] else 0) + 1);
    }
  }

  lemma RemoveOverwritten(m: map<string, nat>, k: string, v: nat)
    ensures m[k := v] - {k} == m - {k}
  {
  }

  /**
   * The values other than "all" add up to the number of rows with a
   * category, less those whose category has the key "all" (their count is
   * lost when "all" is overwritten).
   */
  lemma TallySum(rows: seq<Row>)
    ensures Sum(Tally(rows) - {AllKey}) == Categorised(rows) - Occurrences(rows, AllKey)
  {
    var counts := Counts(rows);
    assert Tally(rows) - {AllKey} == counts - {AllKey} by {
      RemoveOverwritten(counts, AllKey, |rows|);
    }
    SumOfCounts(rows);
    CountsAreOccurrences(rows, AllKey);
    if AllKey in counts {
      SumRemove(counts, AllKey);
    } else {
      assert counts - {AllKey} == counts;
    }
  }

  /**
   * When no category has the key "all", the other values add up to the
   * number of rows with a category, which is at most the value of "all".
   */
  lemma TallySumWithoutAllCategory(rows: seq<Row>)
    requires Occurrences(rows, AllKey) == 0
    ensures Sum(Tally(rows) - {AllKey}) == Categorised(rows) <= Tally(rows)[AllKey]
  {
    TallySum(rows);
    CategorisedBound(rows, AllKey);
  }

  lemma {:induction false} OccurrencesConcat(a: seq<Row>, b: seq<Row>, k: string)
    ensures Occurrences(a + b, k) == Occurrences(a, k) + Occurrences(b, k)
  {
    if b == [] {
      assert a + b == a;
    } else {
      assert (a + b)[..|a + b| - 1] == a + b[..|b| - 1];
      OccurrencesConcat(a, b[..|b| - 1], k);
    }
  }

  lemma {:induction false} OccurrencesPermutation(a: seq<Row>, b: seq<Row>, k: string)
    requires multiset(a) == multiset(b)
    ensures Occurrences(a, k) == Occurrences(b, k)
    decreases |a|
  {
    if a == [] {
      assert |b| == |multiset(b)| == 0;
    } else {
      var n := |a| - 1;
      var x := a[n];
      assert a == a[..n] + [x];
      assert x in multiset(b);
      var j :| 0 <= j < |b| && b[j] == x;
      assert b == b[..j] + [x] + b[j + 1..];
      var rest := b[..j] + b[j + 1..];
      assert multiset(b) == multiset(b[..j]) + multiset{x} + multiset(b[j + 1..]);
      assert multiset(rest) == multiset(b[..j]) + multiset(b[j + 1..]);
      assert multiset(a) == multiset(a[..n]) + multiset{x};
      assert multiset(a[..n]) == multiset(a) - multiset{x};
      assert multiset(rest) == multiset(b) - multiset{x};
      assert multiset(a[..n]) == multiset(rest);
      OccurrencesPermutation(a[..n], rest, k);
      OccurrencesConcat(b[..j] + [x], b[j + 1..], k);
      OccurrencesConcat(b[..j], [x], k);
      OccurrencesConcat(b[..j], b[j + 1..], k);
      assert [x][..0] == [];
    }
  }

  /** The response depends only on the multiset of rows, not on the order the query returned them in. */
  lemma TallyPermutation(a: seq<Row>, b: seq<Row>)
    requires multiset(a) == multiset(b)
    ensures Tally(a) == Tally(b)
  {
    assert |a| == |multiset(a)| == |multiset(b)| == |b|;
    forall k ensures (k in Tally(a) <==> k in Tally(b)) && (k in Tally(a) ==> Tally(a)[k] == Tally(b)[k]) {
      TallyIsOccurrences(a, k);
      TallyIsOccurrences(b, k);
      OccurrencesPermutation(a, b, k);
    }
  }

  /** Two rows with the key "tech" and one without a category. */
  lemma TallyOfTwoTechRows(r0: Row, r1: Row, r2: Row)
    requires KeyOf(r0) == KeyOf(r1) == Some("tech") && KeyOf(r2) == None
    ensures Tally([r0, r1, r2]) == map["tech" := 2, AllKey := 3]
  {
    assert [r0][..0] == [];
    assert [r0, r1][..1] == [r0];
    assert [r0, r1, r2][..2] == [r0, r1];
    assert Counts([r0]) == map["tech" := 1];
    assert Counts([r0, r1]) == map["tech" := 2];
    assert Counts([r0, r1, r2]) == map["tech" := 2];
  }

  /** "Tech", "tech" and a null category give {tech: 2, all: 3}. */
  lemma TallyExample()
    ensures Tally([Row(Some("Tech")), Row(Some("tech")), Row(None)]) == map["tech" := 2, AllKey := 3]
  {
    TechExample();
    TallyOfTwoTechRows(Row(Some("Tech")), Row(Some("tech")), Row(None));
  }
}

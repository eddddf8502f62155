/** The excerpt a blog card shows in place of a post's full content. */
module BlogCard {

  /** The number of characters of content a card shows before cutting it. */
  const ExcerptLength: nat := 200

  /** What is appended to content that was cut. */
  const Ellipsis: string := "..."

  /**
   * `content.length > 200 ? content.substring(0, 200) + "..." : content`:
   * the card shows the content unchanged when it fits, and otherwise its
   * first 200 characters marked as cut.
   */
  function Excerpt(content: string): (r: string)
    ensures |content| <= ExcerptLength ==> r == content
    ensures |content| > ExcerptLength ==> |r| == ExcerptLength + |Ellipsis| && r[ExcerptLength..] == Ellipsis
    ensures |r| <= ExcerptLength + |Ellipsis|
    ensures content[..Min(ExcerptLength, |content|)] <= r
  {
    if |content| > ExcerptLength then content[..ExcerptLength] + Ellipsis else content
  }

  function Min(a: nat, b: nat): nat {
    if a <= b then a else b
  }

  /** An excerpt is its own excerpt: a card built from an excerpt shows the same text. */
  lemma ExcerptIdempotent(content: string)
    ensures Excerpt(Excerpt(content)) == Excerpt(content)
  {
    if |content| > ExcerptLength {
      var r := Excerpt(content);
      assert r[..ExcerptLength] == content[..ExcerptLength];
    }
  }

  /**
   * The card shows the content unchanged exactly when it fits in 200
   * characters or when it is 203 characters ending in the 200 characters
   * and "..." that cutting it would produce anyway.
   */
  lemma ExcerptUnchangedIff(content: string)
    ensures Excerpt(content) == content <==>
              |content| <= ExcerptLength ||
              (|content| == ExcerptLength + |Ellipsis| && content[ExcerptLength..] == Ellipsis)
  {
    if |content| == ExcerptLength + |Ellipsis| && content[ExcerptLength..] == Ellipsis {
      assert content == content[..ExcerptLength] + content[ExcerptLength..];
    }
  }
}

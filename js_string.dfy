/**
 * The JavaScript string operations the core relies on: truthiness of an
 * optional string, `toLowerCase` (on ASCII letters), the `\s` character
 * class of regular expressions, and `String.prototype.includes`.
 */
module JsString {
  import opened Wrappers

  /** JavaScript truthiness of an optional string: `null`, `undefined` and `""` are falsy. */
  predicate Truthy(s: Option<string>) {
    s.Some? && s.value != ""
  }

  predicate IsUpper(c: char) {
    'A' <= c <= 'Z'
  }

  /** `toLowerCase` on one character; letters outside ASCII are left as they are. */
  function LowerChar(c: char): (r: char)
    ensures !IsUpper(r)
    ensures !IsUpper(c) ==> r == c
    ensures IsUpper(c) ==> r as int == c as int + 32
  {
    if IsUpper(c) then (c as int + 32) as char else c
  }

  /** `s.toLowerCase()`, character by character. */
  function ToLowerCase(s: string): (r: string)
    ensures |r| == |s|
    ensures forall i :: 0 <= i < |s| ==> r[i] == LowerChar(s[i])
  {
    seq(|s|, i requires 0 <= i < |s| => LowerChar(s[i]))
  }

  predicate HasNoUpper(s: string) {
    forall c :: c in s ==> !IsUpper(c)
  }

  /** Lower-casing yields no upper-case letter and changes nothing that has none. */
  lemma ToLowerCaseFixedPoint(s: string)
    ensures HasNoUpper(ToLowerCase(s))
    ensures ToLowerCase(s) == s <==> HasNoUpper(s)
  {
    var r := ToLowerCase(s);
    forall c | c in r ensures !IsUpper(c) {
      var i :| 0 <= i < |r| && r[i] == c;
    }
    if HasNoUpper(s) {
      forall i | 0 <= i < |s| ensures r[i] == s[i] {
        assert s[i] in s;
      }
    }
  }

  /**
   * The characters `\s` matches in an ECMAScript regular expression: the
   * WhiteSpace code points (tab, vertical tab, form feed, space, no-break
   * space, the byte order mark and every space separator) and the
   * LineTerminator code points (line feed, carriage return, line and
   * paragraph separator).
   */
  predicate IsWhitespace(c: char) {
    var n := c as int;
    n == 0x09 || n == 0x0A || n == 0x0B || n == 0x0C || n == 0x0D || n == 0x20 ||
    n == 0xA0 || n == 0x1680 || (0x2000 <= n <= 0x200A) || n == 0x2028 || n == 0x2029 ||
    n == 0x202F || n == 0x205F || n == 0x3000 || n == 0xFEFF
  }

  /** `s.includes(t)`: `t` starts at some position of `s`. */
  predicate Includes(s: string, t: string)
    ensures Includes(s, t) ==> |t| <= |s|
  {
    t <= s || (|s| > 0 && Includes(s[1..], t))
  }

  /** `t` occurs in `s` starting at position `i`. */
  predicate OccursAt(s: string, t: string, i: int) {
    0 <= i <= |s| - |t| && s[i..i + |t|] == t
  }

  lemma {:induction false} IncludesHasOccurrence(s: string, t: string)
    requires Includes(s, t)
    ensures exists i :: OccursAt(s, t, i)
  {
    if t <= s {
      assert OccursAt(s, t, 0);
    } else {
      IncludesHasOccurrence(s[1..], t);
      var i :| OccursAt(s[1..], t, i);
      assert s[i + 1..i + 1 + |t|] == s[1..][i..i + |t|];
      assert OccursAt(s, t, i + 1);
    }
  }

  lemma {:induction false} OccurrenceIsIncluded(s: string, t: string, i: int)
    requires OccursAt(s, t, i)
    ensures Includes(s, t)
    decreases i
  {
    if i == 0 {
      assert t <= s;
    } else {
      assert s[1..][i - 1..i - 1 + |t|] == s[i..i + |t|];
      OccurrenceIsIncluded(s[1..], t, i - 1);
    }
  }

  /** `Includes` holds exactly when `t` is a contiguous piece of `s`. */
  lemma IncludesIff(s: string, t: string)
    ensures Includes(s, t) <==> exists i :: OccursAt(s, t, i)
  {
    forall i | OccursAt(s, t, i) ensures Includes(s, t) {
      OccurrenceIsIncluded(s, t, i);
    }
    if Includes(s, t) {
      IncludesHasOccurrence(s, t);
    }
  }

  /** Every string includes the empty string. */
  lemma IncludesEmpty(s: string)
    ensures Includes(s, "")
  {
  }
}

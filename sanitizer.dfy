/** The path sanitiser: one global replace of every character that some
    filesystem (Windows above all) refuses in a folder or file name. */
module Sanitizer {

  /** The characters matched by the regular-expression class `\s`:
      the ASCII controls TAB..CR, SPACE, and the Unicode space separators,
      line and paragraph separators and the byte-order mark. No letter,
      digit or underscore is whitespace. */
  predicate IsSpace(c: char): (space: bool)
    ensures ('0' <= c <= '9' || 'A' <= c <= 'Z' || 'a' <= c <= 'z' || c == '_') ==> !space
  {
    var n := c as int;
    (9 <= n <= 13) || n == 32 || n == 0xA0 || n == 0x1680 ||
    (0x2000 <= n <= 0x200A) || n == 0x2028 || n == 0x2029 ||
    n == 0x202F || n == 0x205F || n == 0x3000 || n == 0xFEFF
  }

  /** The class `[\s\\/:*?"<>|.]`. The path separator and the dot are in
      it; letters, digits and the replacement `_` are not. */
  predicate Forbidden(c: char): (forbidden: bool)
    ensures c == '/' || c == '.' ==> forbidden
    ensures ('0' <= c <= '9' || 'A' <= c <= 'Z' || 'a' <= c <= 'z' || c == '_') ==> !forbidden
  {
    IsSpace(c) || c == '\\' || c == '/' || c == ':' || c == '*' || c == '?' ||
    c == '"' || c == '<' || c == '>' || c == '|' || c == '.'
  }

  const Replacement: char := '_'

  /** `text.replace(/[\s\\/:*?"<>|.]/g, '_')`. */
  function Sanitize(text: string): (r: string)
    ensures |r| == |text|
    ensures forall i :: 0 <= i < |r| ==> !Forbidden(r[i])
  {
    if text == [] then []
    else [if Forbidden(text[0]) then Replacement else text[0]] + Sanitize(text[1..])
  }

  /** Position by position: a forbidden character becomes exactly one
      underscore and every other character is kept. */
  lemma {:induction false} SanitizeAt(text: string, i: nat)
    requires i < |text|
    ensures Sanitize(text)[i] == if Forbidden(text[i]) then Replacement else text[i]
  {
    if i > 0 {
      SanitizeAt(text[1..], i - 1);
    }
  }

  /** Sanitising distributes over concatenation: the replace works character
      by character, with no collapsing across a boundary. */
  lemma {:induction false} SanitizeConcat(a: string, b: string)
    ensures Sanitize(a + b) == Sanitize(a) + Sanitize(b)
  {
    if a == [] {
      assert a + b == b;
    } else {
      assert (a + b)[0] == a[0];
      assert (a + b)[1..] == a[1..] + b;
      SanitizeConcat(a[1..], b);
      assert Sanitize(a + b) == [Sanitize(a)[0]] + Sanitize(a[1..]) + Sanitize(b);
    }
  }

  /** A sanitised string is left alone by a second pass. */
  lemma {:induction false} SanitizeIdempotent(text: string)
    ensures Sanitize(Sanitize(text)) == Sanitize(text)
  {
    var once := Sanitize(text);
    forall i | 0 <= i < |once|
      ensures Sanitize(once)[i] == once[i]
    {
      SanitizeAt(once, i);
    }
  }

  /** A string with no forbidden character is its own sanitised form. */
  lemma {:induction false} SanitizeClean(text: string)
    requires forall i :: 0 <= i < |text| ==> !Forbidden(text[i])
    ensures Sanitize(text) == text
  {
    forall i | 0 <= i < |text|
      ensures Sanitize(text)[i] == text[i]
    {
      SanitizeAt(text, i);
    }
  }

  /** A sanitised segment never holds the path separator or a dot, so it is
      one path component and never `.` or `..`. */
  lemma SanitizedIsOneComponent(text: string)
    ensures '/' !in Sanitize(text) && '.' !in Sanitize(text)
  {
  }

  /** A spec named `weird/name:*?` is stored as `weird_name___`: one
      underscore for each of its four forbidden characters. */
  lemma WeirdNameExample(name: string)
    requires name == "weird/name:*?"
    ensures Sanitize(name) == "weird_name___"
  {
    var r := Sanitize(name);
    forall k | 0 <= k < |name|
      ensures r[k] == "weird_name___"[k]
    {
      SanitizeAt(name, k);
    }
  }
}

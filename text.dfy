/** Text primitives the hub and the browser clients rely on: substring
    search (Python's `in` on strings, JavaScript's `includes`) and the two
    languages' notions of "blank after trimming". */
module Text {

  /** `t` occurs in `s` starting at position `i`. */
  ghost predicate OccursAt(t: string, s: string, i: int)
  {
    0 <= i && i + |t| <= |s| && s[i..i + |t|] == t
  }

  /** `t` occurs somewhere in `s` as a contiguous block. */
  ghost predicate Occurs(t: string, s: string)
  {
    exists i :: OccursAt(t, s, i)
  }

  /** Substring search, as `t in s` in Python and `s.includes(t)` in JavaScript. */
  function Contains(s: string, t: string): (b: bool)
    ensures b <==> Occurs(t, s)
    decreases |s|
  {
    if |t| > |s| then false
    else if s[..|t|] == t then (assert OccursAt(t, s, 0); true)
    else
      var b := Contains(s[1..], t);
      assert Occurs(t, s[1..]) ==> Occurs(t, s) by {
        if Occurs(t, s[1..]) {
          var i :| OccursAt(t, s[1..], i);
          assert s[i + 1..i + 1 + |t|] == s[1..][i..i + |t|];
          assert OccursAt(t, s, i + 1);
        }
      }
      assert Occurs(t, s) ==> Occurs(t, s[1..]) by {
        if Occurs(t, s) {
          var i :| OccursAt(t, s, i);
          assert i != 0;
          assert s[1..][i - 1..i - 1 + |t|] == s[i..i + |t|];
          assert OccursAt(t, s[1..], i - 1);
        }
      }
      b
  }

  /** The characters Python's `str.strip()` removes: those for which
      `str.isspace()` holds. */
  predicate PyIsSpace(c: char)
  {
    || c == ' ' || ('\t' <= c <= '\r')            // \t \n \v \f \r
    || ('\U{1C}' <= c <= '\U{1F}')                 // file/group/record/unit separators
    || c == '\U{85}' || c == '\U{A0}' || c == '\U{1680}'
    || ('\U{2000}' <= c <= '\U{200A}')
    || c == '\U{2028}' || c == '\U{2029}' || c == '\U{202F}' || c == '\U{205F}'
    || c == '\U{3000}'
  }

  /** The characters JavaScript's `String.prototype.trim()` removes:
      WhiteSpace and LineTerminator of ECMAScript. */
  predicate JsIsSpace(c: char)
  {
    || c == ' ' || ('\t' <= c <= '\r')            // \t \n \v \f \r
    || c == '\U{A0}' || c == '\U{1680}'
    || ('\U{2000}' <= c <= '\U{200A}')
    || c == '\U{2028}' || c == '\U{2029}' || c == '\U{202F}' || c == '\U{205F}'
    || c == '\U{3000}' || c == '\U{FEFF}'
  }

  /** `s.strip() == ""` in Python. */
  predicate PyBlank(s: string)
  {
    forall i :: 0 <= i < |s| ==> PyIsSpace(s[i])
  }

  /** `s.trim() === ""` in JavaScript. */
  predicate JsBlank(s: string)
  {
    forall i :: 0 <= i < |s| ==> JsIsSpace(s[i])
  }
}

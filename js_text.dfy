/**
 * The two facts about JavaScript strings the signup controller relies on:
 * what the regular-expression class `\s` matches, and what `s.length` counts.
 * A JavaScript string is modelled as a Dafny `string` (a sequence of Unicode
 * scalar values).
 */
module JsText {

  /**
   * The characters matched by `\s` in a JavaScript regular expression
   * (ECMAScript 2015, section 21.2.2.12): the WhiteSpace code points
   * TAB, VT, FF, SP, NBSP, ZWNBSP and the other Zs characters, and the
   * LineTerminator code points LF, CR, LS and PS.
   */
  predicate IsJsWhitespace(c: char) {
    var n := c as int;
    n == 0x09 || n == 0x0A || n == 0x0B || n == 0x0C || n == 0x0D
    || n == 0x20 || n == 0xA0 || n == 0x1680 || (0x2000 <= n <= 0x200A)
    || n == 0x2028 || n == 0x2029 || n == 0x202F || n == 0x205F
    || n == 0x3000 || n == 0xFEFF
  }

  /** The number of UTF-16 code units that encode `c`. */
  function CodeUnits(c: char): (k: nat)
    ensures k == 1 || k == 2
    ensures k == 1 <==> c as int < 0x10000
  {
    if c as int < 0x10000 then 1 else 2
  }

  /**
   * `s.length` in JavaScript: the length in UTF-16 code units, so a character
   * outside the Basic Multilingual Plane counts twice.
   */
  function Utf16Length(s: string): (n: nat)
    ensures |s| <= n <= 2 * |s|
    ensures s == [] <==> n == 0
  {
    if s == [] then 0 else CodeUnits(s[0]) + Utf16Length(s[1..])
  }

  /** On text inside the Basic Multilingual Plane, `length` counts characters. */
  lemma {:induction false} Utf16LengthOfBmp(s: string)
    requires forall i :: 0 <= i < |s| ==> s[i] as int < 0x10000
    ensures Utf16Length(s) == |s|
  {
    if s != [] {
      assert s[0] as int < 0x10000;
      forall i | 0 <= i < |s[1..]| ensures s[1..][i] as int < 0x10000 {
        assert s[1..][i] == s[i + 1];
      }
      Utf16LengthOfBmp(s[1..]);
    }
  }
}

/**
 * The JavaScript string operations the frontend uses, on strings of code
 * points: `trim`, `toLowerCase` (on ASCII letters) and `includes`.
 */
module JsString {
  import Chars

  /**
   * ECMAScript WhiteSpace and LineTerminator: the characters `trim()` removes
   * and the regular-expression class `\s` matches.
   */
  predicate IsJsWhitespace(c: char) {
    var n := c as int;
    (9 <= n <= 13) || n == 0x20 || n == 0xA0 || n == 0x1680 || (0x2000 <= n <= 0x200A)
    || n == 0x2028 || n == 0x2029 || n == 0x202F || n == 0x205F || n == 0x3000 || n == 0xFEFF
  }

  /** `s.trim()`. */
  function Trim(s: string): string {
    Chars.Strip(s, IsJsWhitespace)
  }

  /** `s.toLowerCase()`, on ASCII letters. */
  function ToLowerCase(s: string): string {
    Chars.AsciiLower(s)
  }

  /** `s.includes(sub)`. */
  predicate Includes(s: string, sub: string) {
    Chars.Contains(s, sub)
  }

  /** Blank text: nothing is left after `trim()`. */
  predicate IsBlank(s: string) {
    Trim(s) == ""
  }

  lemma BlankIsAllWhitespace(s: string)
    ensures IsBlank(s) <==> forall i :: 0 <= i < |s| ==> IsJsWhitespace(s[i])
  {
  }
}

/**
  JavaScript strings as the page's handlers see them: sequences of UTF-16
  code units, the `\s` character class of ECMAScript regular expressions,
  and the truthiness of a string.
 */
module JsText {

  /** One UTF-16 code unit. A JavaScript string is a sequence of these. */
  newtype CodeUnit = x: int | 0 <= x < 0x1_0000

  type JsString = seq<CodeUnit>

  /** LineTerminator (ECMA-262, section 12.3): LF, CR, LINE SEPARATOR, PARAGRAPH SEPARATOR. */
  predicate IsLineTerminator(c: CodeUnit)
  {
    c == 0x000A || c == 0x000D || c == 0x2028 || c == 0x2029
  }

  /** Code points of the Unicode general category Zs ("space separator"), all in the BMP. */
  predicate IsSpaceSeparator(c: CodeUnit)
  {
    c == 0x0020 || c == 0x00A0 || c == 0x1680 || (0x2000 <= c <= 0x200A) ||
    c == 0x202F || c == 0x205F || c == 0x3000
  }

  /** WhiteSpace (ECMA-262, section 12.2): TAB, VT, FF, ZWNBSP and every Zs code point. */
  predicate IsWhiteSpace(c: CodeUnit)
  {
    c == 0x0009 || c == 0x000B || c == 0x000C || c == 0xFEFF || IsSpaceSeparator(c)
  }

  /**
    The regular-expression class escape `\s`: WhiteSpace or LineTerminator.
    Without the `u` flag a pattern reads its input one code unit at a time,
    so `\S` is every code unit for which this is false.
   */
  predicate IsRegExpSpace(c: CodeUnit)
    ensures c < 0x80 ==> (IsRegExpSpace(c) <==> 0x09 <= c <= 0x0D || c == 0x20)
    ensures IsRegExpSpace(c) ==> c != 0x40 && c != 0x2E
  {
    IsWhiteSpace(c) || IsLineTerminator(c)
  }

  /** ToBoolean on a string: only the empty string is falsy. */
  predicate Truthy(s: JsString)
  {
    |s| > 0
  }

  /**
    A Dafny string as code units: a character of the BMP becomes the code
    unit of the same value, any other becomes U+FFFD.
   */
  function FromBmp(s: string): (r: JsString)
    ensures |r| == |s|
    ensures forall k :: 0 <= k < |s| && s[k] as int < 0x1_0000 ==> r[k] as int == s[k] as int
  {
    seq(|s|, k requires 0 <= k < |s| => if s[k] as int < 0x1_0000 then s[k] as int as CodeUnit else 0xFFFD)
  }
}

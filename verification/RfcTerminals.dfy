/**
 The characters of RFC 8259 that the tokenizer tells apart, by themselves: whitespace (section 2) and
 the interiors of strings (section 7). Nothing here depends on how the parser classes characters.
 */
module RfcTerminals {

  predicate IsWhitespace(c: char) {
    c == ' ' || c == '\t' || c == '\n' || c == '\r'
  }

  predicate IsHexadecimal(c: char) {
    '0' <= c <= '9' || 'a' <= c <= 'f' || 'A' <= c <= 'F'
  }

  /** What may follow a backslash on its own. */
  predicate IsEscaped(c: char) {
    c == '\"' || c == '\\' || c == '/' || c == 'b' || c == 'f' || c == 'n' || c == 'r' || c == 't'
  }

  predicate IsUnicodeEscape(s: string) {
    && |s| == 6 && s[0] == '\\' && s[1] == 'u'
    && IsHexadecimal(s[2]) && IsHexadecimal(s[3]) && IsHexadecimal(s[4]) && IsHexadecimal(s[5])
  }

  /**
   The interior of a string: plain characters and the escapes of section 7, each `\u` followed by
   exactly four hexadecimal digits; no bare quote. (As in the source, a plain character may be a
   control character other than NUL; the RFC's own grammar is `IsRfcString`.)
   */
  predicate StringBody(s: string)
    decreases |s|
  {
    || s == ""
    || (s[0] != '\\' && s[0] != '\"' && s[0] != '\0' && StringBody(s[1..]))
    || (|s| >= 2 && s[0] == '\\' && IsEscaped(s[1]) && StringBody(s[2..]))
    || (|s| >= 6 && IsUnicodeEscape(s[..6]) && StringBody(s[6..]))
  }

  /** The interior of a string by section 7: no unescaped control character. */
  predicate IsRfcString(s: string) {
    StringBody(s) && forall i | 0 <= i < |s| :: s[i] >= ' '
  }
}

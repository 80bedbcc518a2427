/** The character classes of the Unicode standard that the source asks for. */
module Characters {
  /** General category Cc. */
  predicate IsControl(c: char) {
    var n := c as int;
    n < 0x20 || 0x7f <= n < 0xa0
  }

  /** The White_Space property. */
  predicate IsWhitespace(c: char) {
    var n := c as int;
    || 0x9 <= n <= 0xd || n == 0x20 || n == 0x85 || n == 0xa0 || n == 0x1680
    || 0x2000 <= n <= 0x200a || n == 0x2028 || n == 0x2029 || n == 0x202f || n == 0x205f || n == 0x3000
  }

  /** Control characters are the two blocks of 32 that open the two halves of Latin-1, and DEL. */
  lemma ControlExact(c: char)
    ensures IsControl(c) <==> c as int < 256 && (c as int % 128 < 32 || c == '\U{7F}')
  {
  }

  /** White space is exactly these characters. */
  lemma WhitespaceExact(c: char)
    ensures IsWhitespace(c) <==>
            c in "\t\n\U{B}\U{C}\r \U{85}\U{A0}\U{1680}\U{2000}\U{2001}\U{2002}\U{2003}\U{2004}\U{2005}" +
                 "\U{2006}\U{2007}\U{2008}\U{2009}\U{200A}\U{2028}\U{2029}\U{202F}\U{205F}\U{3000}"
  {
  }
}

/** What the parsers need to know about characters. */
module Chars {
  /** Unicode white space. */
  predicate IsSpace(c: char) {
    var v := c as int;
    || 0x9 <= v <= 0xd || v == 0x20 || v == 0x85 || v == 0xa0 || v == 0x1680 || 0x2000 <= v <= 0x200a
    || v == 0x2028 || v == 0x2029 || v == 0x202f || v == 0x205f || v == 0x3000
  }
}

/** Options and character classes shared by the models. */
module Base {

  datatype Option<+T> = None | Some(value: T)

  /** The character classes the decoder and the reader skip over. */
  datatype Class = JsonSpace | PythonSpace | Digit

  predicate Member(c: char, k: Class) {
    match k
    case JsonSpace => c == ' ' || c == '\t' || c == '\n' || c == '\r'
    case Digit => '0' <= c <= '9'
    case PythonSpace => IsPythonSpace(c)
  }

  /** `str.isspace` of a single character: wider than the white space of RFC 8259, section 2. */
  predicate IsPythonSpace(c: char) {
    '\t' <= c <= '\r' || '\U{1c}' <= c <= ' ' || c == '\U{85}' || c == '\U{a0}' || c == '\U{1680}'
    || '\U{2000}' <= c <= '\U{200a}' || c == '\U{2028}' || c == '\U{2029}' || c == '\U{202f}'
    || c == '\U{205f}' || c == '\U{3000}'
  }

  predicate IsHex(c: char) {
    '0' <= c <= '9' || 'a' <= c <= 'f' || 'A' <= c <= 'F'
  }

  predicate AllIn(s: string, k: Class) {
    forall i :: 0 <= i < |s| ==> Member(s[i], k)
  }

  // ---------------------------------------------------------------- the classes, character by character

  const RFC_SPACES: string := " \t\n\r"
  const DECIMALS: string := "0123456789"
  const HEX_DIGITS: string := "0123456789abcdefABCDEF"

  /** The white space of Unicode that RFC 8259 does not know. */
  const OTHER_SPACES: string :=
    "\U{b}\U{c}\U{1c}\U{1d}\U{1e}\U{1f}\U{85}\U{a0}\U{1680}\U{2000}\U{2001}\U{2002}\U{2003}\U{2004}\U{2005}\U{2006}"
    + "\U{2007}\U{2008}\U{2009}\U{200a}\U{2028}\U{2029}\U{202f}\U{205f}\U{3000}"

  /** The members of each class, one by one; what is white space in RFC 8259 is white space to Python. */
  lemma ClassesAre(c: char)
    ensures Member(c, JsonSpace) <==> c in RFC_SPACES
    ensures Member(c, PythonSpace) <==> c in RFC_SPACES || c in OTHER_SPACES
    ensures Member(c, Digit) <==> c in DECIMALS
    ensures IsHex(c) <==> c in HEX_DIGITS
  {
    var t, u := RFC_SPACES, OTHER_SPACES;
    assert t[0] == ' ' && t[1] == '\t' && t[2] == '\n' && t[3] == '\r';
  }
}

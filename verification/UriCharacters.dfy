/**
 * The characters that may occur in the parts of a URI, written out. They are compared with the character classes of the
 * parser, so that the grammar and the round trip do not depend on those.
 */
module UriCharacters {
  import UrlAutomata

  predicate Letter(c: char) { 'A' <= c <= 'Z' || 'a' <= c <= 'z' }

  predicate DigitChar(c: char) { '0' <= c <= '9' }

  /** In a scheme, behind its first letter. */
  predicate SchemeChar(c: char) { Letter(c) || DigitChar(c) || c == '+' || c == '-' || c == '.' }

  /** In a host name. */
  predicate NameChar(c: char) { Letter(c) || DigitChar(c) || c == '-' || c == '.' || c == '_' }

  /** In a bracketed address. */
  predicate AddressChar(c: char) { DigitChar(c) || 'A' <= c <= 'F' || 'a' <= c <= 'f' || c == ':' || c == '.' }

  /** In a user name or a password. */
  predicate LoginChar(c: char) {
    || Letter(c) || DigitChar(c)
    || c == '!' || c == '$' || c == '%' || c == '&' || c == '\'' || c == '(' || c == ')' || c == '*' || c == '+'
    || c == ',' || c == '-' || c == '.' || c == ':' || c == ';' || c == '=' || c == '_' || c == '~'
  }

  /** In a path: no space, no control character but tab and form feed, and neither '#' nor '?'. */
  predicate PathChar(c: char) {
    || c as int == 9 || c as int == 12
    || (33 <= c as int <= 126 && c != '#' && c != '?')
    || 128 <= c as int <= 255
  }

  /** The classes of the parser are these. */
  lemma SameClasses()
    ensures forall c :: UrlAutomata.IsAlpha(c) <==> Letter(c)
    ensures forall c :: UrlAutomata.IsNum(c) <==> DigitChar(c)
    ensures forall c :: UrlAutomata.IsSchemeChar(c) <==> SchemeChar(c)
    ensures forall c :: UrlAutomata.IsHostChar(c) <==> NameChar(c)
    ensures forall c :: (UrlAutomata.IsHex(c) || c == ':' || c == '.') <==> AddressChar(c)
    ensures forall c :: UrlAutomata.IsUserinfoChar(c) <==> LoginChar(c)
    ensures forall c :: UrlAutomata.IsUrlChar(c) <==> PathChar(c)
  {
  }
}

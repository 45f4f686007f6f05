/** Character classes and runs shared by the delimiter and tag scanners. */
module Text {

  /** The characters \s matches in a Unicode pattern, which are also those strip() removes. */
  predicate IsSpace(c: char) {
    || '\t' <= c <= '\r' || '\U{1c}' <= c <= ' ' || c == '\U{85}' || c == '\U{a0}' || c == '\U{1680}'
    || '\U{2000}' <= c <= '\U{200a}' || c == '\U{2028}' || c == '\U{2029}' || c == '\U{202f}'
    || c == '\U{205f}' || c == '\U{3000}'
  }

  /** The same characters one by one. */
  const SPACES: seq<char> := [
    '\t', '\n', '\U{b}', '\U{c}', '\r', '\U{1c}', '\U{1d}', '\U{1e}', '\U{1f}', ' ', '\U{85}', '\U{a0}',
    '\U{1680}', '\U{2000}', '\U{2001}', '\U{2002}', '\U{2003}', '\U{2004}', '\U{2005}', '\U{2006}', '\U{2007}',
    '\U{2008}', '\U{2009}', '\U{200a}', '\U{2028}', '\U{2029}', '\U{202f}', '\U{205f}', '\U{3000}']

  lemma SpacesListed(c: char)
    ensures IsSpace(c) <==> c in SPACES
  {
  }

  /** The end of the run of characters of a class that starts at i. */
  function RunEnd(text: string, i: nat, end: nat, member: char -> bool): (r: nat)
    requires i <= end <= |text|
    ensures i <= r <= end
    ensures forall k :: i <= k < r ==> member(text[k])
    ensures r < end ==> !member(text[r])
    decreases end - i
  {
    if i < end && member(text[i]) then RunEnd(text, i + 1, end, member) else i
  }
}

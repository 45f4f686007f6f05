/** The tag patterns as hand-written matchers: name, attributes, and reference lists. */
module TagSyntax {
  import opened Basics
  import opened Text

  const FOCUS_ATTR := "magic_chunks"

  predicate IsLower(c: char) { 'a' <= c <= 'z' }

  predicate IsDigit(c: char) { '0' <= c <= '9' }

  predicate IsLetter(c: char) { IsLower(c) || 'A' <= c <= 'Z' }

  predicate NameChar(c: char) { IsLower(c) || IsDigit(c) || c == '_' }

  predicate AttrChar(c: char) { IsLower(c) || c == '_' }

  predicate NotQuote(c: char) { c != '"' }

  datatype Attr = Attr(name: string, value: string)

  datatype Tag = Tag(closing: bool, name: string, attrs: seq<Attr>)

  /** An optional slash and a name; `rest` is where the name ends. */
  datatype Head = Head(closing: bool, name: string, rest: nat)

  function ParseHead(s: string): (r: Option<Head>)
    ensures r.Some? ==> r.value.rest <= |s|
  {
    var i := if s != "" && s[0] == '/' then 1 else 0;
    if i < |s| && IsLower(s[i]) then
      var e := RunEnd(s, i, |s|, NameChar);
      Some(Head(i == 1, s[i..e], e))
    else None
  }

  /** Zero or more ` name="value"` and trailing blanks, from i to the end. */
  function ParseAttrs(s: string, i: nat): Option<seq<Attr>>
    requires i <= |s|
    decreases |s| - i
  {
    var j := RunEnd(s, i, |s|, IsSpace);
    if j == |s| then Some([])
    else if j == i then None
    else
      var k := RunEnd(s, j, |s|, AttrChar);
      if k == j || k + 1 >= |s| || s[k] != '=' || s[k + 1] != '"' then None
      else
        var e := RunEnd(s, k + 2, |s|, NotQuote);
        if e == |s| then None
        else match ParseAttrs(s, e + 1)
          case None => None
          case Some(more) => Some([Attr(s[j..k], s[k + 2..e])] + more)
  }

  /** The strict pattern over the text between < and >. */
  function ParseTag(s: string): Option<Tag> {
    match ParseHead(s)
    case None => None
    case Some(h) =>
      match ParseAttrs(s, h.rest)
      case None => None
      case Some(attrs) => Some(Tag(h.closing, h.name, attrs))
  }

  /** The loose pattern: a name, then nothing or blanks and one line of anything. */
  function ParseLoose(s: string): Option<Head> {
    match ParseHead(s)
    case None => None
    case Some(h) =>
      var j := RunEnd(s, h.rest, |s|, IsSpace);
      if h.rest == |s| || (j > h.rest && forall k :: j <= k < |s| - 1 ==> s[k] != '\n') then Some(h) else None
  }

  // ---------------------------------------------------------------------------
  // Reference lists
  // ---------------------------------------------------------------------------

  function DropLeading(s: string): string {
    s[RunEnd(s, 0, |s|, IsSpace)..]
  }

  function DropTrailing(s: string): string {
    if s != "" && IsSpace(s[|s| - 1]) then DropTrailing(s[..|s| - 1]) else s
  }

  /** str.strip() */
  function Strip(s: string): string { DropTrailing(DropLeading(s)) }

  /** str.split(sep) */
  function Split(s: string, sep: char): (r: seq<string>)
    ensures r != []
  {
    if s == "" then [""]
    else
      var r := Split(s[..|s| - 1], sep);
      if s[|s| - 1] == sep then r + [""]
      else r[..|r| - 1] + [r[|r| - 1] + [s[|s| - 1]]]
  }

  predicate Number(s: string) {
    s != "" && forall i :: 0 <= i < |s| ==> IsDigit(s[i])
  }

  function DigitValue(c: char): nat
    requires IsDigit(c)
  {
    c as int - '0' as int
  }

  /** int(s) for a digit string. */
  function NumberValue(s: string): nat
    requires forall i :: 0 <= i < |s| ==> IsDigit(s[i])
  {
    if s == "" then 0 else NumberValue(s[..|s| - 1]) * 10 + DigitValue(s[|s| - 1])
  }

  predicate AllNumbers(parts: seq<string>) {
    forall i :: 0 <= i < |parts| ==> Number(parts[i])
  }

  function Values(parts: seq<string>): seq<int>
    requires AllNumbers(parts)
  {
    seq(|parts|, i requires 0 <= i < |parts| => NumberValue(parts[i]))
  }

  function Elements(xs: seq<int>): set<int> { set x | x in xs }

  /** The sorted distinct references of a K[,M[,N]] list, or None when it is malformed. */
  function ParseRefs(value: string): Option<seq<int>> {
    var parts := Split(Strip(value), ',');
    if AllNumbers(parts) then Some(SortedInts(Elements(Values(parts)))) else None
  }
}

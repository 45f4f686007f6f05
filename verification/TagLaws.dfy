/** What each tag does to mode and references, tag text by tag text, under any chunking. */
module TagLaws {
  import opened Basics
  import opened Text
  import opened Visibility
  import opened TagSyntax
  import opened TagParser
  import opened StreamLaws
  import opened RoundTrip

  /** From an empty buffer the tokens settle as this event, token numbers aside, and nothing else. */
  ghost predicate Yields(cfg: Config, c: Control, tokens: seq<string>, after: Control, e: Event) {
    var (next, items) := Stream(cfg, Scan(c, ""), tokens);
    && next == Scan(after, "") && TextsOf(items) == []
    && |EventsOf(items)| == 1 && Anonymous(EventsOf(items)[0]) == e
  }

  /** A tag moves the request to another mode. */
  ghost predicate Moves(cfg: Config, c: Control, tokens: seq<string>, name: string, after: Control, attempt: bool) {
    Yields(cfg, c, tokens, after, Event(Transition, name, c.mode, after.mode, after.refs, 0, 1, NoReason, attempt))
  }

  /** A tag changes nothing. */
  ghost predicate Keeps(cfg: Config, c: Control, tokens: seq<string>, kind: Kind, name: string) {
    Yields(cfg, c, tokens, c, Event(kind, name, c.mode, c.mode, c.refs, 0, 1, NoReason, false))
  }

  /** A tag is recorded as an anomaly and changes nothing. */
  ghost predicate Rejected(
    cfg: Config, c: Control, tokens: seq<string>, reason: Reason, name: string, about: seq<int>, attempt: bool)
  {
    Yields(cfg, c, tokens, c, Event(Anomaly, name, c.mode, c.mode, about, 0, 1, reason, attempt))
  }

  // ---------------------------------------------------------------------------
  // Reading a tag text
  // ---------------------------------------------------------------------------

  predicate Spaces(s: string) {
    forall i :: 0 <= i < |s| ==> IsSpace(s[i])
  }

  predicate TagName(n: string) {
    && n != "" && 'a' <= n[0] <= 'z'
    && forall i :: 0 <= i < |n| ==> 'a' <= n[i] <= 'z' || '0' <= n[i] <= '9' || n[i] == '_'
  }

  predicate AttrName(a: string) {
    a != "" && forall i :: 0 <= i < |a| ==> 'a' <= a[i] <= 'z' || a[i] == '_'
  }

  /** No character that would end or reopen a tag. */
  predicate Tame(s: string) {
    forall i :: 0 <= i < |s| ==> s[i] != '<' && s[i] != '>'
  }

  function Headed(closing: bool, name: string): string {
    (if closing then "/" else "") + name
  }

  function Tagged(inner: string): string {
    "<" + inner + ">"
  }

  lemma SpaceIsNoName(c: char)
    requires IsSpace(c)
    ensures !NameChar(c) && !AttrChar(c) && c != '=' && c != '"' && c != '<' && c != '>' && !IsDigit(c) && c != ','
  {
  }

  lemma HeadReads(closing: bool, name: string, rest: string)
    requires TagName(name) && (rest != "" ==> !NameChar(rest[0]))
    ensures ParseHead(Headed(closing, name) + rest) == Some(Head(closing, name, |Headed(closing, name)|))
  {
    var s, i := Headed(closing, name) + rest, if closing then 1 else 0;
    var e := i + |name|;
    forall k | i <= k < e ensures NameChar(s[k]) {
      assert s[k] == name[k - i] && NameChar(name[k - i]);
    }
    assert rest != "" ==> s[e] == rest[0];
    assert s[i] == name[0];
    assert closing <==> s[0] == '/';
    RunEndsAt(s, i, e, NameChar);
    assert s[i..e] == name;
  }

  lemma BlankTail(s: string, i: nat)
    requires i <= |s| && forall k :: i <= k < |s| ==> IsSpace(s[k])
    ensures ParseAttrs(s, i) == Some([])
  {
    RunEndsAt(s, i, |s|, IsSpace);
  }

  /** A name and trailing blanks. */
  lemma BareReads(closing: bool, name: string, tail: string)
    requires TagName(name) && Spaces(tail)
    ensures ParseTag(Headed(closing, name) + tail) == Some(Tag(closing, name, []))
  {
    if tail != "" { SpaceIsNoName(tail[0]); }
    HeadReads(closing, name, tail);
    var s, h := Headed(closing, name) + tail, |Headed(closing, name)|;
    forall k | h <= k < |s| ensures IsSpace(s[k]) { assert s[k] == tail[k - h]; }
    BlankTail(s, h);
  }

  /** One attribute after blanks, with blanks behind it. */
  function Attributed(blanks: string, a: string, v: string, tail: string): string {
    blanks + (a + ("=\"" + (v + ("\"" + tail))))
  }

  predicate AttrShape(blanks: string, a: string, v: string) {
    blanks != "" && Spaces(blanks) && AttrName(a) && forall i :: 0 <= i < |v| ==> NotQuote(v[i])
  }

  lemma AttrReads(closing: bool, name: string, blanks: string, a: string, v: string, tail: string)
    requires TagName(name) && AttrShape(blanks, a, v) && Spaces(tail)
    ensures ParseTag(Headed(closing, name) + Attributed(blanks, a, v, tail)) == Some(Tag(closing, name, [Attr(a, v)]))
  {
    AttributedSpaced(blanks, a, v, tail);
    SpaceIsNoName(blanks[0]);
    HeadReads(closing, name, Attributed(blanks, a, v, tail));
    AttrAt(Headed(closing, name), blanks, a, v, tail);
  }

  lemma AttrAt(head: string, blanks: string, a: string, v: string, tail: string)
    requires AttrShape(blanks, a, v) && Spaces(tail)
    ensures ParseAttrs(head + Attributed(blanks, a, v, tail), |head|) == Some([Attr(a, v)])
  {
    hide AttrShape, ParseAttrs, RunEnd;
    var s := head + Attributed(blanks, a, v, tail);
    var e := |s| - |tail|;
    forall x | e <= x < |s| ensures IsSpace(s[x]) { assert s[x] == tail[x - e]; }
    BlankTail(s, e);
    AttrBefore(head, blanks, a, v, tail, []);
    assert [Attr(a, v)] + [] == [Attr(a, v)];
  }

  /** One attribute in front of whatever follows. */
  lemma AttrBefore(head: string, blanks: string, a: string, v: string, tail: string, more: seq<Attr>)
    requires AttrShape(blanks, a, v)
    requires var s := head + Attributed(blanks, a, v, tail); ParseAttrs(s, |s| - |tail|) == Some(more)
    ensures ParseAttrs(head + Attributed(blanks, a, v, tail), |head|) == Some([Attr(a, v)] + more)
  {
    hide AttrShape, ParseAttrs, Attributed, RunEnd;
    var s := head + Attributed(blanks, a, v, tail);
    var i := |head|;
    var j := i + |blanks|;
    var k := j + |a|;
    AttributedAt(head, blanks, a, v, tail);
    AttributedChars(s, i, blanks, a, v, tail);
    OneAttr(s, i, j, k, k + 2 + |v|, more);
  }

  /** Two attributes, one behind the other. */
  lemma TwoAttrsAt(head: string, b1: string, v1: string, b2: string, v2: string, a: string, tail: string)
    requires AttrShape(b1, a, v1) && AttrShape(b2, a, v2) && Spaces(tail)
    ensures ParseAttrs(head + Attributed(b1, a, v1, Attributed(b2, a, v2, tail)), |head|)
         == Some([Attr(a, v1), Attr(a, v2)])
  {
    hide AttrShape, ParseAttrs;
    var second := Attributed(b2, a, v2, tail);
    var s := head + Attributed(b1, a, v1, second);
    var e := |s| - |second|;
    assert s == s[..e] + second by { AttributedAt(head, b1, a, v1, second); }
    AttrAt(s[..e], b2, a, v2, tail);
    AttrBefore(head, b1, a, v1, second, [Attr(a, v2)]);
    assert [Attr(a, v1)] + [Attr(a, v2)] == [Attr(a, v1), Attr(a, v2)];
  }

  /** Where the pieces of an attribute lie. */
  ghost predicate Laid(s: string, i: nat, blanks: string, a: string, v: string, tail: string) {
    var j := i + |blanks|;
    var k := j + |a|;
    var e := k + 2 + |v|;
    && |s| == e + 1 + |tail|
    && s[i..j] == blanks && s[j..k] == a && s[k] == '=' && s[k + 1] == '"'
    && s[k + 2..e] == v && s[e] == '"' && s[e + 1..] == tail
  }

  lemma AttributedAt(head: string, blanks: string, a: string, v: string, tail: string)
    ensures Laid(head + Attributed(blanks, a, v, tail), |head|, blanks, a, v, tail)
  {
    var s := head + Attributed(blanks, a, v, tail);
    var k := |head| + |blanks| + |a|;
    assert s[|head|..] == Attributed(blanks, a, v, tail);
    assert s[k..] == "=\"" + (v + ("\"" + tail));
    assert s[k + 2..] == v + ("\"" + tail);
    assert s[k + 2 + |v|..] == "\"" + tail;
  }

  lemma AttributedChars(s: string, i: nat, blanks: string, a: string, v: string, tail: string)
    requires AttrShape(blanks, a, v) && Laid(s, i, blanks, a, v, tail)
    ensures var j := i + |blanks|; var k := j + |a|; var e := k + 2 + |v|;
      && i < j < k && e < |s| && RunEnd(s, i, |s|, IsSpace) == j && RunEnd(s, j, |s|, AttrChar) == k
      && RunEnd(s, k + 2, |s|, NotQuote) == e
      && s[k] == '=' && s[k + 1] == '"' && s[j..k] == a && s[k + 2..e] == v
  {
    hide RunEnd;
    var j := i + |blanks|;
    var k := j + |a|;
    var e := k + 2 + |v|;
    forall x | i <= x < j ensures IsSpace(s[x]) { assert s[x] == blanks[x - i]; }
    forall x | j <= x < k ensures AttrChar(s[x]) { assert s[x] == a[x - j]; }
    forall x | k + 2 <= x < e ensures NotQuote(s[x]) { assert s[x] == v[x - k - 2]; }
    if IsSpace(s[j]) { SpaceIsNoName(s[j]); }
    RunEndsAt(s, i, j, IsSpace);
    RunEndsAt(s, j, k, AttrChar);
    RunEndsAt(s, k + 2, e, NotQuote);
  }

  // ---------------------------------------------------------------------------
  // Scanning a tag text
  // ---------------------------------------------------------------------------

  /** A tag whose text before '>' fits the buffer is closed as a whole, under any chunking. */
  lemma WholeTag(cfg: Config, c: Control, tokens: seq<string>, inner: string)
    requires inner != "" && (inner[0] == '/' || IsLetter(inner[0])) && Tame(inner) && |inner| + 1 <= cfg.maxBuffer
    requires Concat(tokens) == Tagged(inner)
    ensures var (d, e) := Close(cfg, c, Tagged(inner), 0);
      Yields(cfg, c, tokens, d, e)
  {
    var p := Tagged(inner);
    var n := |p| - 1;
    assert p[n] == '>' && p[..n] == "<" + inner && p[..n] + [p[n]] == p;
    Collects(cfg, Scan(c, ""), p[..n], 0);
    FeedLast(cfg, Scan(c, ""), p, 0, Scan(c, p[..n]), []);
    ClosingChar(cfg, c, p, 0);
    SettledAsOne(cfg, c, tokens, p, Close(cfg, c, p, 0));
  }

  lemma SettledAsOne(cfg: Config, c: Control, tokens: seq<string>, p: string, verdict: (Control, Event))
    requires Concat(tokens) == p && Feed(cfg, Scan(c, ""), p, 0) == (Scan(verdict.0, ""), [Closed(p, verdict.1)])
    ensures var (d, e) := verdict;
      Yields(cfg, c, tokens, d, e)
  {
    var items := Stream(cfg, Scan(c, ""), tokens).1;
    StreamIsText(cfg, Scan(c, ""), tokens);
    EventsAnonymous(items);
    TextsAnonymous(items);
    OneEvent(Closed(p, verdict.1), verdict.1);
    assert [Closed(p, verdict.1)][..0] == [];
    assert TextsOf([Closed(p, verdict.1)]) == [];
  }

  lemma InnerOf(inner: string)
    ensures |Tagged(inner)| >= 2 && Tagged(inner)[1..|Tagged(inner)| - 1] == inner
  {
  }

  lemma TameParts(a: string, b: string)
    requires Tame(a) && Tame(b)
    ensures Tame(a + b)
  {
  }

  lemma NamesTame(closing: bool, name: string)
    requires TagName(name)
    ensures Tame(Headed(closing, name))
    ensures Headed(closing, name) != "" && (Headed(closing, name)[0] == '/' || IsLetter(Headed(closing, name)[0]))
  {
    forall i | 0 <= i < |name| ensures name[i] != '<' && name[i] != '>' { assert NameChar(name[i]); }
  }

  lemma SpacesTame(s: string)
    requires Spaces(s)
    ensures Tame(s)
  {
    forall i | 0 <= i < |s| ensures s[i] != '<' && s[i] != '>' { SpaceIsNoName(s[i]); }
  }

  /** A bare tag does what the verdict on its name says. */
  lemma BareTag(cfg: Config, c: Control, tokens: seq<string>, closing: bool, name: string)
    requires TagName(name) && Concat(tokens) == Tagged(Headed(closing, name))
    requires |Headed(closing, name)| + 1 <= cfg.maxBuffer
    ensures var (d, e) := Act(cfg, c, Tag(closing, name, []), 0);
      Yields(cfg, c, tokens, d, e)
  {
    var inner := Headed(closing, name);
    NamesTame(closing, name);
    BareReads(closing, name, "");
    assert inner + "" == inner;
    InnerOf(inner);
    WholeTag(cfg, c, tokens, inner);
  }

  /** The known names are names. */
  lemma KnownNames()
    ensures TagName("global") && TagName("local") && TagName("focus") && TagName("answer")
  {
  }

  // ---------------------------------------------------------------------------
  // The mode tags
  // ---------------------------------------------------------------------------

  /** </focus> leaves focus for global, and is a mismatch elsewhere. */
  lemma CloseFocus(cfg: Config, c: Control, tokens: seq<string>)
    requires Concat(tokens) == "</focus>" && cfg.maxBuffer >= 7
    ensures c.mode == Focus ==> Moves(cfg, c, tokens, "focus", Control(Global, []), false)
    ensures c.mode != Focus ==> Rejected(cfg, c, tokens, MismatchedClose, "", [], false)
  {
    KnownNames();
    hide Stream, EventsOf, TextsOf, Concat, TagName;
    assert "</focus>" == Tagged(Headed(true, "focus"));
    BareTag(cfg, c, tokens, true, "focus");
  }

  /** </local> leaves local for global, and is a mismatch elsewhere. */
  lemma CloseLocal(cfg: Config, c: Control, tokens: seq<string>)
    requires Concat(tokens) == "</local>" && cfg.maxBuffer >= 7
    ensures c.mode == Local ==> Moves(cfg, c, tokens, "local", Control(Global, []), false)
    ensures c.mode != Local ==> Rejected(cfg, c, tokens, MismatchedClose, "", [], false)
  {
    KnownNames();
    hide Stream, EventsOf, TextsOf, Concat, TagName;
    assert "</local>" == Tagged(Headed(true, "local"));
    BareTag(cfg, c, tokens, true, "local");
  }

  /** <local> enters local from every mode and drops the references. */
  lemma OpenLocal(cfg: Config, c: Control, tokens: seq<string>)
    requires Concat(tokens) == "<local>" && cfg.maxBuffer >= 6
    ensures Moves(cfg, c, tokens, "local", Control(Local, []), false)
  {
    KnownNames();
    hide Stream, EventsOf, TextsOf, Concat, TagName;
    assert "<local>" == Tagged(Headed(false, "local"));
    BareTag(cfg, c, tokens, false, "local");
  }

  /** <global> changes nothing. */
  lemma OpenGlobal(cfg: Config, c: Control, tokens: seq<string>)
    requires Concat(tokens) == "<global>" && cfg.maxBuffer >= 7
    ensures Keeps(cfg, c, tokens, Noop, "global")
  {
    KnownNames();
    hide Stream, EventsOf, TextsOf, Concat, TagName;
    assert "<global>" == Tagged(Headed(false, "global"));
    BareTag(cfg, c, tokens, false, "global");
  }

  /** </global> changes nothing in global and is a mismatch elsewhere. */
  lemma CloseGlobal(cfg: Config, c: Control, tokens: seq<string>)
    requires Concat(tokens) == "</global>" && cfg.maxBuffer >= 8
    ensures c.mode == Global ==> Keeps(cfg, c, tokens, Noop, "global")
    ensures c.mode != Global ==> Rejected(cfg, c, tokens, MismatchedClose, "", [], false)
  {
    KnownNames();
    hide Stream, EventsOf, TextsOf, Concat, TagName;
    assert "</global>" == Tagged(Headed(true, "global"));
    BareTag(cfg, c, tokens, true, "global");
  }

  /** The answer wrapper is a marker, opening and closing. */
  lemma Answer(cfg: Config, c: Control, tokens: seq<string>)
    requires (Concat(tokens) == "<answer>" || Concat(tokens) == "</answer>") && cfg.maxBuffer >= 8
    ensures Keeps(cfg, c, tokens, Marker, "answer")
  {
    KnownNames();
    hide Stream, EventsOf, TextsOf, Concat, TagName;
    assert "<answer>" == Tagged(Headed(false, "answer")) && "</answer>" == Tagged(Headed(true, "answer"));
    BareTag(cfg, c, tokens, Concat(tokens) == "</answer>", "answer");
  }

  // ---------------------------------------------------------------------------
  // Tags that are recorded as anomalies
  // ---------------------------------------------------------------------------

  /** <focus> alone lacks its references. */
  lemma FocusWithoutReferences(cfg: Config, c: Control, tokens: seq<string>)
    requires Concat(tokens) == "<focus>" && cfg.maxBuffer >= 6
    ensures Rejected(cfg, c, tokens, MissingAttribute, "focus", [], true)
  {
    KnownNames();
    hide Stream, EventsOf, TextsOf, Concat, TagName;
    assert "<focus>" == Tagged(Headed(false, "focus"));
    BareTag(cfg, c, tokens, false, "focus");
  }

  /** Any other name is unknown. */
  lemma UnknownName(cfg: Config, c: Control, tokens: seq<string>, closing: bool, name: string)
    requires TagName(name) && name != "global" && name != "local" && name != "focus" && name != "answer"
    requires Concat(tokens) == Tagged(Headed(closing, name)) && |Headed(closing, name)| + 1 <= cfg.maxBuffer
    ensures Rejected(cfg, c, tokens, UnknownTag, name, [], false)
  {
    BareTag(cfg, c, tokens, closing, name);
  }

  /** A tag whose name does not start with a small letter is nobody's tag. */
  lemma NoName(cfg: Config, c: Control, tokens: seq<string>, inner: string)
    requires inner != "" && (inner[0] == '/' || 'A' <= inner[0] <= 'Z')
    requires inner[0] == '/' ==> |inner| == 1 || !('a' <= inner[1] <= 'z')
    requires Tame(inner) && Concat(tokens) == Tagged(inner) && |inner| + 1 <= cfg.maxBuffer
    ensures Rejected(cfg, c, tokens, UnknownTag, "", [], false)
  {
    hide Stream, EventsOf, TextsOf, Concat;
    InnerOf(inner);
    WholeTag(cfg, c, tokens, inner);
    assert ParseHead(inner).None?;
  }

  /** A tag with one attribute, in any spacing. */
  lemma AttrTag(
    cfg: Config, c: Control, tokens: seq<string>, closing: bool, name: string, blanks: string, a: string, v: string,
    tail: string)
    requires TagName(name) && AttrShape(blanks, a, v) && Spaces(tail) && Tame(v)
    requires Concat(tokens) == Tagged(Headed(closing, name) + Attributed(blanks, a, v, tail))
    requires |Concat(tokens)| - 1 <= cfg.maxBuffer
    ensures var (d, e) := Act(cfg, c, Tag(closing, name, [Attr(a, v)]), 0);
      Yields(cfg, c, tokens, d, e)
  {
    var inner := Headed(closing, name) + Attributed(blanks, a, v, tail);
    NamesTame(closing, name);
    SpacesTame(tail);
    AttrTame(blanks, a, v, tail);
    TameParts(Headed(closing, name), Attributed(blanks, a, v, tail));
    AttrReads(closing, name, blanks, a, v, tail);
    InnerOf(inner);
    WholeTag(cfg, c, tokens, inner);
  }

  lemma AttrTame(blanks: string, a: string, v: string, tail: string)
    requires AttrShape(blanks, a, v) && Tame(v) && Tame(tail)
    ensures Tame(Attributed(blanks, a, v, tail))
  {
    SpacesTame(blanks);
    forall i | 0 <= i < |a| ensures a[i] != '<' && a[i] != '>' { assert AttrChar(a[i]); }
    TameParts("\"", tail);
    TameParts(v, "\"" + tail);
    TameParts("=\"", v + ("\"" + tail));
    TameParts(a, "=\"" + (v + ("\"" + tail)));
    TameParts(blanks, a + ("=\"" + (v + ("\"" + tail))));
  }

  /** Only an opening focus tag takes an attribute, and only magic_chunks. */
  lemma UnexpectedAttr(
    cfg: Config, c: Control, tokens: seq<string>, closing: bool, name: string, blanks: string, a: string, v: string,
    tail: string)
    requires name == "global" || name == "local" || name == "focus" || name == "answer"
    requires name == "focus" && !closing ==> a != "magic_chunks"
    requires AttrShape(blanks, a, v) && Spaces(tail) && Tame(v)
    requires Concat(tokens) == Tagged(Headed(closing, name) + Attributed(blanks, a, v, tail))
    requires |Concat(tokens)| - 1 <= cfg.maxBuffer
    ensures Rejected(cfg, c, tokens, UnexpectedAttribute, name, [], name == "focus" && !closing)
  {
    KnownNames();
    AttrTag(cfg, c, tokens, closing, name, blanks, a, v, tail);
    assert [Attr(a, v)][0].name == a;
  }

  /** Two reference lists in one tag. */
  lemma RepeatedReferences(
    cfg: Config, c: Control, tokens: seq<string>, b1: string, v1: string, b2: string, v2: string, tail: string)
    requires AttrShape(b1, "magic_chunks", v1) && AttrShape(b2, "magic_chunks", v2) && Spaces(tail)
    requires Tame(v1) && Tame(v2) && |Concat(tokens)| - 1 <= cfg.maxBuffer
    requires Concat(tokens)
          == Tagged("focus" + Attributed(b1, "magic_chunks", v1, Attributed(b2, "magic_chunks", v2, tail)))
    ensures Rejected(cfg, c, tokens, DuplicateAttribute, "focus", [], true)
  {
    hide AttrShape, ParseAttrs, RunEnd, Stream, EventsOf, TextsOf, Attributed, ParseHead;
    var a, second := "magic_chunks", Attributed(b2, "magic_chunks", v2, tail);
    var rest := Attributed(b1, a, v1, second);
    KnownNames();
    NamesTame(false, "focus");
    assert Headed(false, "focus") == "focus";
    SpacesTame(tail);
    AttrTame(b2, a, v2, tail);
    AttrTame(b1, a, v1, second);
    TameParts("focus", rest);
    AttributedSpaced(b1, a, v1, second);
    SpaceIsNoName(b1[0]);
    HeadReads(false, "focus", rest);
    TwoAttrsAt("focus", b1, v1, b2, v2, a, tail);
    InnerOf("focus" + rest);
    WholeTag(cfg, c, tokens, "focus" + rest);
  }

  lemma AttributedSpaced(blanks: string, a: string, v: string, tail: string)
    requires AttrShape(blanks, a, v)
    ensures Attributed(blanks, a, v, tail) != "" && Attributed(blanks, a, v, tail)[0] == blanks[0]
    ensures blanks != "" && IsSpace(blanks[0])
  {
  }

  /** An opening focus tag whose value holds anything but digits, commas and blanks. */
  lemma MalformedReferences(
    cfg: Config, c: Control, tokens: seq<string>, blanks: string, v: string, tail: string, i: nat)
    requires AttrShape(blanks, "magic_chunks", v) && Spaces(tail) && Tame(v)
    requires i < |v| && !('0' <= v[i] <= '9') && v[i] != ',' && !IsSpace(v[i])
    requires Concat(tokens) == Tagged("focus" + Attributed(blanks, "magic_chunks", v, tail))
    requires |Concat(tokens)| - 1 <= cfg.maxBuffer
    ensures Rejected(cfg, c, tokens, MalformedAttribute, "focus", [], true)
  {
    KnownNames();
    assert Headed(false, "focus") == "focus";
    AttrTag(cfg, c, tokens, false, "focus", blanks, "magic_chunks", v, tail);
    hide Stream, EventsOf, TextsOf, Concat, Attributed, AttrShape, ParseRefs;
    StrayCharacter(v, i);
  }

  lemma StrayCharacter(v: string, i: nat)
    requires i < |v| && !IsDigit(v[i]) && v[i] != ',' && !IsSpace(v[i])
    ensures ParseRefs(v).None?
  {
    StripKeeps(v, v[i]);
    if AllNumbers(Split(Strip(v), ',')) { NumbersOnly(Strip(v), v[i]); }
  }

  lemma StripKeeps(s: string, c: char)
    requires !IsSpace(c) && c in s
    ensures c in Strip(s)
  {
    var r := RunEnd(s, 0, |s|, IsSpace);
    assert s[..r] + s[r..] == s;
    assert c in DropLeading(s) by {
      var i :| 0 <= i < |s| && s[i] == c;
      assert i >= r && s[r..][i - r] == c;
    }
    DropTrailingKeeps(DropLeading(s), c);
  }

  lemma {:induction false} DropTrailingKeeps(s: string, c: char)
    requires !IsSpace(c) && c in s
    ensures c in DropTrailing(s)
  {
    if IsSpace(s[|s| - 1]) {
      assert s == s[..|s| - 1] + [s[|s| - 1]];
      DropTrailingKeeps(s[..|s| - 1], c);
    }
  }

  lemma {:induction false} NumbersOnly(s: string, c: char)
    requires c in s && c != ',' && AllNumbers(Split(s, ','))
    ensures IsDigit(c)
  {
    SplitKeeps(s, c);
    var parts := Split(s, ',');
    var i :| 0 <= i < |parts| && c in parts[i];
    assert Number(parts[i]);
  }

  lemma {:induction false} SplitKeeps(s: string, c: char)
    requires c in s && c != ','
    ensures exists i :: 0 <= i < |Split(s, ',')| && c in Split(s, ',')[i]
  {
    var n := |s| - 1;
    var r, parts := Split(s[..n], ','), Split(s, ',');
    assert s == s[..n] + [s[n]];
    if c in s[..n] {
      SplitKeeps(s[..n], c);
      var i :| 0 <= i < |r| && c in r[i];
      assert c in parts[i];
    } else {
      assert c == s[n] && c in parts[|parts| - 1];
    }
  }

  /** References out of range void the whole declaration. */
  lemma ReferencesOutOfRange(cfg: Config, c: Control, ns: seq<nat>, tokens: seq<string>, i: nat)
    requires i < |ns| && !(1 <= ns[i] <= cfg.segments)
    requires Concat(tokens) == Print(ns) && |Print(ns)| - 1 <= cfg.maxBuffer
    ensures Rejected(cfg, c, tokens, InvalidReference, "focus", SortedInts(RefSet(ns)), true)
  {
    hide Act, Inner, CommaList, ParseTag, ParseRefs, RefsInRange, Stream, SortedInts, Print;
    var refs := SortedInts(RefSet(ns));
    InnerParses(ns);
    CommaListParses(ns);
    InnerTame(ns);
    InnerOf(Inner(ns));
    WholeTag(cfg, c, tokens, Inner(ns));
    assert !RefsInRange(refs, cfg.segments) by { ListedOutside(ns, cfg.segments, i); }
    Voided(cfg, c, CommaList(ns), refs);
  }

  lemma ListedOutside(ns: seq<nat>, segments: nat, i: nat)
    requires i < |ns| && !(1 <= ns[i] <= segments)
    ensures !RefsInRange(SortedInts(RefSet(ns)), segments)
  {
    assert ns[i] in ns && ns[i] in RefSet(ns) && ns[i] in SortedInts(RefSet(ns));
  }

  lemma InnerTame(ns: seq<nat>)
    requires ns != []
    ensures Print(ns) == Tagged(Inner(ns)) && Tame(Inner(ns)) && Inner(ns) != "" && IsLetter(Inner(ns)[0])
  {
    var p, inner := Print(ns), Inner(ns);
    PrintShape(ns);
    assert p == Tagged(inner);
    forall k | 0 <= k < |inner| ensures inner[k] != '<' && inner[k] != '>' { assert p[k + 1] == inner[k]; }
    assert p[1] == inner[0];
  }

  lemma Voided(cfg: Config, c: Control, value: string, refs: seq<int>)
    requires ParseRefs(value) == Some(refs) && !RefsInRange(refs, cfg.segments)
    ensures Act(cfg, c, Tag(false, "focus", [Attr(FOCUS_ATTR, value)]), 0)
         == (c, Event(Anomaly, "focus", c.mode, c.mode, refs, 0, 1, InvalidReference, true))
  {
    assert [Attr(FOCUS_ATTR, value)][0].name == FOCUS_ATTR;
  }

  /** A known name followed by something that is not an attribute. */
  lemma MalformedTag(cfg: Config, c: Control, tokens: seq<string>, closing: bool, name: string, junk: string)
    requires name == "global" || name == "local" || name == "focus" || name == "answer"
    requires junk != "" && !IsSpace(junk[0]) && Tame(junk) && '=' !in junk && '\n' !in junk
    requires Concat(tokens) == Tagged(Headed(closing, name) + (" " + junk)) && |Concat(tokens)| - 1 <= cfg.maxBuffer
    ensures Rejected(cfg, c, tokens, MalformedAttribute, name, [], name == "focus" && !closing)
  {
    KnownNames();
    hide ParseHead, ParseAttrs, RunEnd, Stream, EventsOf, TextsOf;
    var inner, rest := Headed(closing, name) + (" " + junk), " " + junk;
    NamesTame(closing, name);
    TameParts(" ", junk);
    TameParts(Headed(closing, name), rest);
    HeadReads(closing, name, rest);
    NotAttributes(Headed(closing, name), junk);
    InnerOf(inner);
    WholeTag(cfg, c, tokens, inner);
    LooselyClosed(cfg, c, closing, name, inner);
  }

  /** A known head without readable attributes is malformed. */
  lemma LooselyClosed(cfg: Config, c: Control, closing: bool, name: string, inner: string)
    requires Known(name) && ParseTag(inner).None? && ParseLoose(inner).Some?
    requires ParseLoose(inner).value.name == name && ParseLoose(inner).value.closing == closing
    ensures Tagged(inner)[1..|Tagged(inner)| - 1] == inner
    ensures Close(cfg, c, Tagged(inner), 0)
         == Strange(c, MalformedAttribute, name, [], 0, name == "focus" && !closing)
  {
    InnerOf(inner);
  }

  lemma NotAttributes(head: string, junk: string)
    requires junk != "" && !IsSpace(junk[0]) && '=' !in junk && '\n' !in junk
    ensures ParseAttrs(head + (" " + junk), |head|) == None
    ensures var s := head + (" " + junk); var j := RunEnd(s, |head|, |s|, IsSpace);
      j > |head| && forall k :: j <= k < |s| - 1 ==> s[k] != '\n'
  {
    var s, i := head + (" " + junk), |head|;
    var j := i + 1;
    forall x | j <= x < |s| ensures s[x] in junk { assert s[x] == junk[x - j]; }
    assert s[i] == ' ' && s[j] == junk[0];
    RunEndsAt(s, i, j, IsSpace);
    var k := RunEnd(s, j, |s|, AttrChar);
    assert k < |s| ==> s[k] != '=';
  }

  // ---------------------------------------------------------------------------
  // Text outside tags
  // ---------------------------------------------------------------------------

  /** '<' before anything but '/', a letter or another '<' is text. */
  lemma LoneAngle(cfg: Config, c: Control, ch: char, tokens: seq<string>)
    requires Concat(tokens) == ['<', ch] && ch != '/' && ch != '<'
    requires !('a' <= ch <= 'z') && !('A' <= ch <= 'Z')
    ensures var (next, items) := Stream(cfg, Scan(c, ""), tokens);
      next == Scan(c, "") && TextsOf(items) == ["<", [ch]] && EventsOf(items) == []
  {
    var text, items := ['<', ch], Stream(cfg, Scan(c, ""), tokens).1;
    StreamIsText(cfg, Scan(c, ""), tokens);
    EventsAnonymous(items);
    TextsAnonymous(items);
    assert text[..1] == ['<'] && text[..1][..0] == [];
    assert Feed(cfg, Scan(c, ""), text[..1], 0) == (Scan(c, "<"), []);
    FeedLast(cfg, Scan(c, ""), text, 0, Scan(c, "<"), []);
    TwoPlain("<", [ch]);
  }

  /** '<' and then '/' or a letter open a tag: nothing is settled until more arrives. */
  lemma TagOpens(cfg: Config, c: Control, ch: char, tokens: seq<string>)
    requires Concat(tokens) == ['<', ch] && (ch == '/' || 'a' <= ch <= 'z' || 'A' <= ch <= 'Z')
    ensures Stream(cfg, Scan(c, ""), tokens) == (Scan(c, ['<', ch]), [])
  {
    StreamIsText(cfg, Scan(c, ""), tokens);
    Collects(cfg, Scan(c, ""), ['<', ch], 0);
  }

  /** A tag text one character longer than the buffer allows becomes plain text and one anomaly. */
  lemma Overlong(cfg: Config, c: Control, tokens: seq<string>, p: string)
    requires |p| == Max(2, cfg.maxBuffer) + 1 && p[0] == '<' && (p[1] == '/' || IsLetter(p[1])) && '>' !in p
    requires Concat(tokens) == p
    ensures var (next, items) := Stream(cfg, Scan(c, ""), tokens);
      next == Scan(c, "") && TextsOf(items) == [p] && OnlyOverflow(EventsOf(items))
  {
    var n, items := |p| - 1, Stream(cfg, Scan(c, ""), tokens).1;
    Collects(cfg, Scan(c, ""), p[..n], 0);
    Spills(cfg, c, p, 0);
    StreamIsText(cfg, Scan(c, ""), tokens);
    EventsAnonymous(items);
    TextsAnonymous(items);
  }

  /** A tag left open at the end becomes plain text and one anomaly at the current token. */
  lemma LeftOpen(s: Scan, token: int)
    requires s.buffer != ""
    ensures TextsOf(FlushItems(s, token)) == [s.buffer]
    ensures var events, c := EventsOf(FlushItems(s, token)), s.control;
      && |events| == 1 && events[0].kind == Anomaly && events[0].reason == IncompleteTag
      && events[0].before == events[0].after == c.mode && events[0].refs == []
      && events[0].token == token && events[0].effectStep == token + 1
  {
    SpilledViews([], s.buffer, FlushItems(s, token)[0].event);
    assert [] + FlushItems(s, token) == FlushItems(s, token);
  }

  /** An unclosed tag is named by the longest name behind its '<' or '</'; only a known name counts, and only
      an opening focus is an attempt. */
  lemma NameOfUnclosed(closing: bool, name: string, rest: string)
    requires TagName(name)
    requires rest != "" ==> !('a' <= rest[0] <= 'z') && !('0' <= rest[0] <= '9') && rest[0] != '_'
    ensures var known := name == "global" || name == "local" || name == "focus" || name == "answer";
      NameOfIncomplete("<" + (Headed(closing, name) + rest))
      == if known then (name, name == "focus" && !closing) else ("", false)
  {
    var inner := Headed(closing, name) + rest;
    HeadReads(closing, name, rest);
    hide ParseHead, TagName, IsSpace, Headed;
    assert ("<" + inner)[1..] == inner;
  }

  /** A reference list may have blanks around it. */
  lemma SpacedListParses(before: string, ns: seq<nat>, behind: string)
    requires ns != [] && Spaces(before) && Spaces(behind)
    ensures ParseRefs(before + CommaList(ns) + behind) == Some(SortedInts(RefSet(ns)))
  {
    hide RunEnd, CommaList, Split, SortedInts;
    var v, s := CommaList(ns), before + CommaList(ns) + behind;
    CommaListChars(ns);
    CommaListParses(ns);
    StripNothing(v);
    StripsBlanks(before, v, behind);
  }

  lemma StripsBlanks(before: string, v: string, behind: string)
    requires v != "" && ListChar(v[0]) && ListChar(v[|v| - 1]) && Spaces(before) && Spaces(behind)
    ensures Strip(before + v + behind) == v
  {
    var s, r := before + v + behind, |before|;
    if IsSpace(v[0]) { SpaceIsNoName(v[0]); }
    if IsSpace(v[|v| - 1]) { SpaceIsNoName(v[|v| - 1]); }
    forall k | 0 <= k < r ensures IsSpace(s[k]) { assert s[k] == before[k]; }
    assert s[r] == v[0];
    RunEndsAt(s, 0, r, IsSpace);
    assert s[r..] == v + behind;
    DropsBlanks(v, behind);
  }

  lemma {:induction false} DropsBlanks(v: string, behind: string)
    requires v != "" && !IsSpace(v[|v| - 1]) && Spaces(behind)
    ensures DropTrailing(v + behind) == v
    decreases |behind|
  {
    var n := |behind| - 1;
    if behind == "" {
      assert v + behind == v;
    } else {
      assert (v + behind)[..|v + behind| - 1] == v + behind[..n];
      DropsBlanks(v, behind[..n]);
    }
  }
}

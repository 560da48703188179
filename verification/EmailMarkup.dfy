/**
 * The markup of a sanctions email's body as text. The style attributes of the tags are given by a
 * function, since nothing depends on them but that they hold no angle bracket.
 */
module EmailMarkup {
  import opened Sequences
  import opened Text
  import opened EmailLists
  import opened Linkify

  /** The attributes of each tag of a piece, by name; the link in a button's fallback line goes by "p a". */
  type Look = string -> string

  predicate IsAttributes(s: string) {
    '<' !in s && (s == "" || s[0] == ' ')
  }

  ghost predicate PlainLook(look: Look) {
    forall name :: IsAttributes(look(name))
  }

  ghost predicate PlainLooks(looks: Piece -> Look) {
    forall piece :: PlainLook(looks(piece))
  }

  /** A tag by its name and its attributes, text that is shown as it is, and text whose addresses become links. */
  datatype Part = Element(name: string, attributes: string) | Shown(text: string) | WithLinks(text: string)

  function Show(part: Part): string {
    match part
    case Element(name, attributes) => Tag(name + attributes)
    case Shown(text) => text
    case WithLinks(text) => Linked(text)
  }

  function Wrapped(name: string, look: Look, inner: seq<Part>): seq<Part> {
    [Element(name, look(name))] + inner + [Element("/" + name, "")]
  }

  function LinkTo(link: string, attributes: string, text: string): seq<Part> {
    [Element("a", HREF + link + "\"" + attributes), Shown(text), Element("/a", "")]
  }

  const HREF := " href=\""
  const FALLBACK := "If the button does not work, use: "

  /** The table around a button's link. */
  function ButtonTable(link: string, look: Look): seq<Part> {
    Wrapped("table", look, Wrapped("tr", look, Wrapped("td", look, LinkTo(link, look("a"), "Respond securely"))))
  }

  /** The line that gives the address again. */
  function Fallback(link: string, look: Look): seq<Part> {
    Wrapped("p", look, [Shown(FALLBACK)] + LinkTo(link, look("p a"), link))
  }

  /** The markup of a piece: list marks, an item, a button with its fallback line, or a block. */
  function Parts(piece: Piece, look: Look): seq<Part> {
    match piece
    case OpenList => [Element("ul", look("ul"))]
    case CloseList => [Element("/ul", "")]
    case Leaf(Item(text)) => Wrapped("li", look, [WithLinks(text)])
    case Leaf(Button(url)) => ButtonTable(Escape(url), look) + Fallback(Escape(url), look)
    case Leaf(Block(AllegedRule, text)) => Wrapped("div", look, [WithLinks(text)])
    case Leaf(Block(_, text)) => Wrapped("p", look, [WithLinks(text)])
    case Leaf(Nothing) => []
  }

  function ShowAll(parts: seq<Part>): string {
    if parts == [] then "" else Show(parts[0]) + ShowAll(parts[1..])
  }

  function PartsOf(pieces: seq<Piece>, looks: Piece -> Look): seq<Part> {
    if pieces == [] then [] else Parts(pieces[0], looks(pieces[0])) + PartsOf(pieces[1..], looks)
  }

  /** The content of the message. */
  function Body(pieces: seq<Piece>, looks: Piece -> Look): string {
    ShowAll(PartsOf(pieces, looks))
  }

  // -------- reading the list marks back --------

  datatype Mark = ListOpens | ListCloses | ItemOpens | ItemCloses

  /** The name of the tag that begins here. */
  function NameAt(s: string): string {
    if s == "" || s[0] == ' ' || s[0] == '>' then "" else [s[0]] + NameAt(s[1..])
  }

  function MarkOf(name: string): seq<Mark> {
    if name == "ul" then [ListOpens]
    else if name == "/ul" then [ListCloses]
    else if name == "li" then [ItemOpens]
    else if name == "/li" then [ItemCloses]
    else []
  }

  /** The list marks of a text of markup, from the left. */
  function Marks(s: string): seq<Mark> {
    if s == "" then []
    else (if s[0] == '<' then MarkOf(NameAt(s[1..])) else []) + Marks(s[1..])
  }

  datatype Place = Outside | InList | InItem

  /** Lists open and close in turn, items stand inside a list and not inside each other, and nothing stays open. */
  predicate Nested(marks: seq<Mark>, place: Place) {
    if marks == [] then place == Outside
    else
      match marks[0]
      case ListOpens => place == Outside && Nested(marks[1..], InList)
      case ListCloses => place == InList && Nested(marks[1..], Outside)
      case ItemOpens => place == InList && Nested(marks[1..], InItem)
      case ItemCloses => place == InItem && Nested(marks[1..], InList)
  }

  lemma {:induction false} MarksPlain(t: string, rest: string)
    requires '<' !in t
    ensures Marks(t + rest) == Marks(rest)
    decreases |t|
  {
    if t == "" {
      assert t + rest == rest;
    } else {
      assert (t + rest)[1..] == t[1..] + rest;
      MarksPlain(t[1..], rest);
    }
  }

  lemma {:induction false} NameEnds(name: string, rest: string)
    requires ' ' !in name && '>' !in name
    requires rest != "" && (rest[0] == ' ' || rest[0] == '>')
    ensures NameAt(name + rest) == name
    decreases |name|
  {
    if name == "" {
      assert name + rest == rest;
    } else {
      assert (name + rest)[1..] == name[1..] + rest;
      NameEnds(name[1..], rest);
    }
  }

  /** A tag adds the mark of its name, whatever its attributes. */
  lemma MarksTag(name: string, attributes: string, rest: string)
    requires '<' !in name && '>' !in name && ' ' !in name && IsAttributes(attributes)
    ensures Marks(Tag(name + attributes) + rest) == MarkOf(name) + Marks(rest)
  {
    var s := Tag(name + attributes) + rest;
    var after := attributes + ">" + rest;
    assert s[1..] == name + after;
    NameEnds(name, after);
    assert s[1..] == (name + attributes + ">") + rest;
    MarksPlain(name + attributes + ">", rest);
  }

  lemma MarksLink(attributes: string, text: string, rest: string)
    requires IsAttributes(attributes) && '<' !in text
    ensures Marks(Tag("a" + attributes) + text + Tag("/a") + rest) == Marks(rest)
  {
    var open := Tag("a" + attributes);
    assert "/a" + "" == "/a";
    MarksTag("/a", "", rest);
    MarksPlain(text, Tag("/a") + rest);
    MarksTag("a", attributes, text + (Tag("/a") + rest));
    Regroup(open, text, Tag("/a"));
    Regroup(open, text + Tag("/a"), rest);
    Regroup(text, Tag("/a"), rest);
  }

  lemma QuotedIsPlain(link: string, style: string)
    requires '<' !in link && '<' !in style
    ensures IsAttributes(HREF + link + "\"" + style)
  {
    assert '<' !in HREF;
  }

  lemma AnchorIs(href: string, style: string)
    ensures "a href=\"" + href + "\"" + style == "a" + (HREF + href + "\"" + style)
  {
    assert "a href=\"" == "a" + HREF;
  }

  /** A link between texts adds no mark. */
  lemma MarksAnchor(link: string, rest: string)
    ensures Marks(Anchor(link) + rest) == Marks(rest)
  {
    var href := Escape(link);
    EscapedIsPlain(link);
    StyleIsPlain();
    QuotedIsPlain(href, STYLE);
    AnchorIs(href, STYLE);
    MarksLink(HREF + href + "\"" + STYLE, href, rest);
  }

  lemma MarksSegment(segment: Segment, rest: string)
    ensures Marks(Markup(segment) + rest) == Marks(rest)
  {
    match segment
    case Plain(text) =>
      EscapedIsPlain(text);
      MarksPlain(Escape(text), rest);
    case Url(raw) =>
      var link := TrimPunctuation(raw);
      var trailing := Escape(raw[|link|..]);
      EscapedIsPlain(raw[|link|..]);
      MarksPlain(trailing, rest);
      MarksAnchor(link, trailing + rest);
      Regroup(Anchor(link), trailing, rest);
  }

  lemma {:induction false} MarksRendered(segments: seq<Segment>, rest: string)
    ensures Marks(Rendered(segments) + rest) == Marks(rest)
    decreases |segments|
  {
    if segments == [] {
      assert Rendered(segments) + rest == rest;
    } else {
      MarksRendered(segments[1..], rest);
      MarksSegment(segments[0], Rendered(segments[1..]) + rest);
      Regroup(Markup(segments[0]), Rendered(segments[1..]), rest);
    }
  }

  // -------- the marks of parts and pieces --------

  /** A part whose tags and texts are what they seem. */
  ghost predicate Sound(part: Part) {
    match part
    case Element(name, attributes) =>
      '<' !in name && '>' !in name && ' ' !in name && IsAttributes(attributes)
    case Shown(text) => '<' !in text
    case WithLinks(_) => true
  }

  function MarksOfPart(part: Part): seq<Mark> {
    if part.Element? then MarkOf(part.name) else []
  }

  function PartMarks(parts: seq<Part>): seq<Mark> {
    if parts == [] then [] else MarksOfPart(parts[0]) + PartMarks(parts[1..])
  }

  lemma MarksShown(part: Part, rest: string)
    requires Sound(part)
    ensures Marks(Show(part) + rest) == MarksOfPart(part) + Marks(rest)
  {
    match part
    case Element(name, attributes) => MarksTag(name, attributes, rest);
    case Shown(text) => MarksPlain(text, rest);
    case WithLinks(text) => MarksRendered(Segments(text, 0, FindAll(Addresses(text), 0)), rest);
  }

  /** Reading the text back finds the marks of its tags and no others, whatever the texts say. */
  lemma {:induction false} MarksOfParts(parts: seq<Part>)
    requires forall k | 0 <= k < |parts| :: Sound(parts[k])
    ensures Marks(ShowAll(parts)) == PartMarks(parts)
    decreases |parts|
  {
    if parts != [] {
      MarksOfParts(parts[1..]);
      MarksShown(parts[0], ShowAll(parts[1..]));
    }
  }

  lemma {:induction false} PartMarksAppend(a: seq<Part>, b: seq<Part>)
    ensures PartMarks(a + b) == PartMarks(a) + PartMarks(b)
    decreases |a|
  {
    if a == [] {
      assert a + b == b;
    } else {
      assert (a + b)[1..] == a[1..] + b;
      PartMarksAppend(a[1..], b);
    }
  }

  lemma FirstPart(part: Part, rest: seq<Part>)
    ensures PartMarks([part] + rest) == MarksOfPart(part) + PartMarks(rest)
  {
    assert ([part] + rest)[1..] == rest;
  }

  lemma OnlyPart(part: Part)
    ensures PartMarks([part]) == MarksOfPart(part)
  {
    FirstPart(part, []);
    assert [part] + [] == [part] && MarksOfPart(part) + [] == MarksOfPart(part);
  }

  lemma WrappedMarks(name: string, look: Look, inner: seq<Part>)
    ensures PartMarks(Wrapped(name, look, inner)) == MarkOf(name) + PartMarks(inner) + MarkOf("/" + name)
  {
    var first, last := Element(name, look(name)), Element("/" + name, "");
    PartMarksAppend([first] + inner, [last]);
    FirstPart(first, inner);
    OnlyPart(last);
  }

  function MarksOf(piece: Piece): seq<Mark> {
    match piece
    case OpenList => [ListOpens]
    case CloseList => [ListCloses]
    case Leaf(e) => if e.Item? then [ItemOpens, ItemCloses] else []
  }

  ghost predicate AllSound(parts: seq<Part>) {
    forall part | part in parts :: Sound(part)
  }

  /** Sound parts with these marks. */
  ghost predicate Bears(parts: seq<Part>, marks: seq<Mark>) {
    AllSound(parts) && PartMarks(parts) == marks
  }

  predicate IsName(name: string) {
    '<' !in name && '>' !in name && ' ' !in name
  }

  /** A name that does not begin as those of the list marks do. */
  predicate IsNeutral(name: string) {
    IsName(name) && name != "" && name[0] != 'u' && name[0] != 'l' && name[0] != '/'
  }

  lemma NeutralMarks(name: string)
    requires IsNeutral(name)
    ensures MarkOf(name) == [] && MarkOf("/" + name) == []
  {
    var closing := "/" + name;
    assert closing[0] == '/' && closing[1] == name[0];
    assert "ul"[0] == 'u' && "li"[0] == 'l' && "/ul"[1] == 'u' && "/li"[1] == 'l';
    assert name != "/ul" && name != "/li" && closing != "ul" && closing != "li";
  }

  lemma Joined(a: seq<Part>, b: seq<Part>)
    requires Bears(a, []) && Bears(b, [])
    ensures Bears(a + b, [])
  {
    PartMarksAppend(a, b);
  }

  /** An element around parts that add no marks. */
  lemma WrappedParts(name: string, look: Look, inner: seq<Part>)
    requires PlainLook(look) && IsName(name) && Bears(inner, [])
    ensures Bears(Wrapped(name, look, inner), MarkOf(name) + MarkOf("/" + name))
  {
    WrappedMarks(name, look, inner);
    assert MarkOf(name) + [] == MarkOf(name);
    assert Sound(Element(name, look(name))) && Sound(Element("/" + name, ""));
  }

  lemma NeutralParts(name: string, look: Look, inner: seq<Part>)
    requires PlainLook(look) && IsNeutral(name) && Bears(inner, [])
    ensures Bears(Wrapped(name, look, inner), [])
  {
    NeutralMarks(name);
    WrappedParts(name, look, inner);
  }

  lemma TextParts(text: string)
    ensures Bears([WithLinks(text)], [])
  {
    OnlyPart(WithLinks(text));
  }

  lemma ItemParts(look: Look, text: string)
    requires PlainLook(look)
    ensures Bears(Wrapped("li", look, [WithLinks(text)]), [ItemOpens, ItemCloses])
  {
    TextParts(text);
    WrappedParts("li", look, [WithLinks(text)]);
    assert "/" + "li" == "/li";
    assert MarkOf("li") == [ItemOpens] && MarkOf("/li") == [ItemCloses];
  }

  lemma AnchorMarks()
    ensures IsName("a") && MarkOf("a") == [] && IsName("/a") && MarkOf("/a") == []
  {
  }

  lemma LinkParts(link: string, attributes: string, text: string)
    requires IsAttributes(attributes) && '<' !in link && '<' !in text
    ensures Bears(LinkTo(link, attributes, text), [])
  {
    var first, last := Element("a", HREF + link + "\"" + attributes), Element("/a", "");
    QuotedIsPlain(link, attributes);
    OnlyPart(last);
    FirstPart(Shown(text), [last]);
    assert [Shown(text)] + [last] == [Shown(text), last];
    FirstPart(first, [Shown(text), last]);
    assert [first] + [Shown(text), last] == LinkTo(link, attributes, text);
    AnchorMarks();
  }

  lemma CellParts(look: Look, inner: seq<Part>)
    requires PlainLook(look) && Bears(inner, [])
    ensures Bears(Wrapped("table", look, Wrapped("tr", look, Wrapped("td", look, inner))), [])
  {
    NeutralParts("td", look, inner);
    NeutralParts("tr", look, Wrapped("td", look, inner));
    NeutralParts("table", look, Wrapped("tr", look, Wrapped("td", look, inner)));
  }

  lemma TableParts(link: string, look: Look)
    requires PlainLook(look) && '<' !in link
    ensures Bears(ButtonTable(link, look), [])
  {
    assert '<' !in "Respond securely";
    LinkParts(link, look("a"), "Respond securely");
    CellParts(look, LinkTo(link, look("a"), "Respond securely"));
  }

  lemma ShownParts(text: string)
    requires '<' !in text
    ensures Bears([Shown(text)], [])
  {
    OnlyPart(Shown(text));
  }

  lemma FallbackIsPlain()
    ensures '<' !in FALLBACK
  {
    assert forall c | c in FALLBACK :: c != '<';
  }

  lemma FallbackParts(link: string, look: Look)
    requires PlainLook(look) && '<' !in link
    ensures Bears(Fallback(link, look), [])
  {
    var address := LinkTo(link, look("p a"), link);
    FallbackIsPlain();
    ShownParts(FALLBACK);
    LinkParts(link, look("p a"), link);
    Joined([Shown(FALLBACK)], address);
    NeutralParts("p", look, [Shown(FALLBACK)] + address);
  }

  lemma ButtonParts(url: string, look: Look)
    requires PlainLook(look)
    ensures Bears(ButtonTable(Escape(url), look) + Fallback(Escape(url), look), [])
  {
    EscapedIsPlain(url);
    TableParts(Escape(url), look);
    FallbackParts(Escape(url), look);
    Joined(ButtonTable(Escape(url), look), Fallback(Escape(url), look));
  }

  lemma BlockParts(text: string, look: Look)
    requires PlainLook(look)
    ensures Bears(Wrapped("div", look, [WithLinks(text)]), []) && Bears(Wrapped("p", look, [WithLinks(text)]), [])
  {
    TextParts(text);
    NeutralParts("div", look, [WithLinks(text)]);
    NeutralParts("p", look, [WithLinks(text)]);
  }

  lemma ListTags(attributes: string)
    requires IsAttributes(attributes)
    ensures Bears([Element("ul", attributes)], [ListOpens]) && Bears([Element("/ul", "")], [ListCloses])
  {
    OnlyPart(Element("ul", attributes));
    OnlyPart(Element("/ul", ""));
  }

  /** The markup of a piece is sound, and has the marks of the piece. */
  lemma PieceParts(piece: Piece, look: Look)
    requires PlainLook(look)
    ensures Bears(Parts(piece, look), MarksOf(piece))
  {
    match piece
    case OpenList => ListTags(look("ul"));
    case CloseList => ListTags(look("ul"));
    case Leaf(e) => EntryParts(e, look);
  }

  lemma EntryParts(e: Entry, look: Look)
    requires PlainLook(look)
    ensures Bears(Parts(Leaf(e), look), MarksOf(Leaf(e)))
  {
    match e
    case Item(text) => ItemParts(look, text);
    case Button(url) => ButtonParts(url, look);
    case Block(kind, text) => BlockParts(text, look);
    case Nothing =>
  }

  function AllMarks(pieces: seq<Piece>): seq<Mark> {
    if pieces == [] then [] else MarksOf(pieces[0]) + AllMarks(pieces[1..])
  }

  lemma {:induction false} PiecesParts(pieces: seq<Piece>, looks: Piece -> Look)
    requires PlainLooks(looks)
    ensures Bears(PartsOf(pieces, looks), AllMarks(pieces))
    decreases |pieces|
  {
    if pieces != [] {
      PieceParts(pieces[0], looks(pieces[0]));
      PiecesParts(pieces[1..], looks);
      PartMarksAppend(Parts(pieces[0], looks(pieces[0])), PartsOf(pieces[1..], looks));
    }
  }

  lemma {:induction false} WellFormedIsNested(pieces: seq<Piece>, open: bool)
    requires WellFormed(pieces, open)
    ensures Nested(AllMarks(pieces), if open then InList else Outside)
    decreases |pieces|
  {
    if pieces != [] {
      var piece, marks := pieces[0], AllMarks(pieces[1..]);
      match piece
      case OpenList =>
        WellFormedIsNested(pieces[1..], true);
        assert AllMarks(pieces)[1..] == marks;
      case CloseList =>
        WellFormedIsNested(pieces[1..], false);
        assert AllMarks(pieces)[1..] == marks;
      case Leaf(e) =>
        WellFormedIsNested(pieces[1..], open);
        if e.Item? {
          assert AllMarks(pieces)[1..] == [ItemCloses] + marks && ([ItemCloses] + marks)[1..] == marks;
        } else {
          assert AllMarks(pieces) == marks;
        }
    }
  }

  /**
   * In the text written for any body the list tags balance and every item stands inside one list, whatever
   * the lines say: no text can open or close one.
   */
  lemma ListTagsBalance(body: string, looks: Piece -> Look)
    requires PlainLooks(looks)
    ensures Nested(Marks(Body(Document(Entries(Lines(Normalise(body)))), looks)), Outside)
  {
    var pieces := Document(Entries(Lines(Normalise(body))));
    DocumentIsWellFormed(Entries(Lines(Normalise(body))));
    WellFormedIsNested(pieces, false);
    PiecesParts(pieces, looks);
    var parts := PartsOf(pieces, looks);
    assert forall k | 0 <= k < |parts| :: parts[k] in parts;
    MarksOfParts(parts);
  }
}

/** The text that is written for each piece of a sanctions email. */
module MarkupMeaning {
  import opened Common
  import opened Sequences
  import opened Text
  import opened EmailLists
  import opened Linkify
  import opened EmailMarkup

  lemma {:induction false} ShowAppend(a: seq<Part>, b: seq<Part>)
    ensures ShowAll(a + b) == ShowAll(a) + ShowAll(b)
    decreases |a|
  {
    if a == [] {
      assert a + b == b;
    } else {
      assert (a + b)[1..] == a[1..] + b;
      ShowAppend(a[1..], b);
      Regroup(Show(a[0]), ShowAll(a[1..]), ShowAll(b));
    }
  }

  lemma ShowOne(part: Part)
    ensures ShowAll([part]) == Show(part)
  {
    assert [part][1..] == [];
  }

  /** The opening tag with its attributes, the content, and the closing tag. */
  function Around(name: string, attributes: string, content: string): string {
    ("<" + (name + attributes) + ">") + content + ("<" + ("/" + name) + ">")
  }

  lemma WrappedText(name: string, look: Look, inner: seq<Part>)
    ensures ShowAll(Wrapped(name, look, inner)) == Around(name, look(name), ShowAll(inner))
  {
    var open, close := Element(name, look(name)), Element("/" + name, "");
    ShowAppend([open] + inner, [close]);
    ShowAppend([open], inner);
    ShowOne(open);
    ShowOne(close);
    assert "/" + name + "" == "/" + name;
  }

  lemma LinkText(link: string, attributes: string, text: string)
    ensures ShowAll(LinkTo(link, attributes, text)) == Around("a", " href=\"" + link + "\"" + attributes, text)
  {
    var open, close := Element("a", HREF + link + "\"" + attributes), Element("/a", "");
    assert LinkTo(link, attributes, text) == [open] + [Shown(text)] + [close];
    ShowAppend([open] + [Shown(text)], [close]);
    ShowAppend([open], [Shown(text)]);
    ShowOne(open);
    ShowOne(Shown(text));
    ShowOne(close);
    assert "/a" + "" == "/" + "a";
  }

  /** A button is a table of one cell around the link, and a line that gives the address again follows. */
  lemma ButtonText(url: string, look: Look)
    ensures ShowAll(Parts(Leaf(Button(url)), look)) == TableText(Escape(url), look) + LineText(Escape(url), look)
  {
    var link := Escape(url);
    ShowAppend(ButtonTable(link, look), Fallback(link, look));
    TableShown(link, look);
    LineShown(link, look);
  }

  function TableText(link: string, look: Look): string {
    var anchor := Around("a", " href=\"" + link + "\"" + look("a"), "Respond securely");
    Around("table", look("table"), Around("tr", look("tr"), Around("td", look("td"), anchor)))
  }

  function LineText(link: string, look: Look): string {
    Around("p", look("p"),
      "If the button does not work, use: " + Around("a", " href=\"" + link + "\"" + look("p a"), link))
  }

  lemma TableShown(link: string, look: Look)
    ensures ShowAll(ButtonTable(link, look)) == TableText(link, look)
  {
    var anchor := LinkTo(link, look("a"), "Respond securely");
    LinkText(link, look("a"), "Respond securely");
    CellShown(look, anchor, ShowAll(anchor));
  }

  lemma CellShown(look: Look, inner: seq<Part>, text: string)
    requires ShowAll(inner) == text
    ensures ShowAll(Wrapped("table", look, Wrapped("tr", look, Wrapped("td", look, inner))))
      == Around("table", look("table"), Around("tr", look("tr"), Around("td", look("td"), text)))
  {
    WrappedText("td", look, inner);
    WrappedText("tr", look, Wrapped("td", look, inner));
    WrappedText("table", look, Wrapped("tr", look, Wrapped("td", look, inner)));
  }

  lemma LineShown(link: string, look: Look)
    ensures ShowAll(Fallback(link, look)) == LineText(link, look)
  {
    var address := LinkTo(link, look("p a"), link);
    LinkText(link, look("p a"), link);
    ShowAppend([Shown(FALLBACK)], address);
    ShowOne(Shown(FALLBACK));
    WrappedText("p", look, [Shown(FALLBACK)] + address);
  }

  lemma ElementWritten(name: string, text: string, look: Look)
    ensures ShowAll(Wrapped(name, look, [WithLinks(text)])) == Around(name, look(name), Linked(text))
  {
    ShowOne(WithLinks(text));
    WrappedText(name, look, [WithLinks(text)]);
  }

  /** An item is one element around the text with its links. */
  lemma ItemWritten(text: string, look: Look)
    ensures ShowAll(Parts(Leaf(Item(text)), look)) == Around("li", look("li"), Linked(text))
    ensures ShowAll(Parts(Leaf(Nothing), look)) == ""
  {
    ElementWritten("li", text, look);
  }

  /** So is every block; the rule in question has an element of its own. */
  lemma BlockWritten(text: string, kind: Kind, look: Look)
    ensures ShowAll(Parts(Leaf(Block(kind, text)), look))
      == if kind == AllegedRule then Around("div", look("div"), Linked(text)) else Around("p", look("p"), Linked(text))
  {
    ElementWritten("div", text, look);
    ElementWritten("p", text, look);
  }

  lemma ListWritten(look: Look)
    ensures ShowAll(Parts(OpenList, look)) + ShowAll(Parts(CloseList, look)) == Around("ul", look("ul"), "")
  {
    ShowOne(Element("ul", look("ul")));
    ShowOne(Element("/ul", ""));
    assert "/ul" + "" == "/" + "ul";
  }

  /** The message is the texts of its pieces in order. */
  lemma {:induction false} PiecesInOrder(a: seq<Piece>, b: seq<Piece>, looks: Piece -> Look)
    ensures Body([], looks) == "" && Body(a + b, looks) == Body(a, looks) + Body(b, looks)
    decreases |a|
  {
    if a == [] {
      assert a + b == b;
    } else {
      assert (a + b)[1..] == a[1..] + b;
      PiecesInOrder(a[1..], b, looks);
      var first := Parts(a[0], looks(a[0]));
      ShowAppend(first, PartsOf(a[1..], looks));
      ShowAppend(first, PartsOf(a[1..] + b, looks));
      Regroup(ShowAll(first), Body(a[1..], looks), Body(b, looks));
    }
  }

  lemma OnePiece(piece: Piece, looks: Piece -> Look)
    ensures Body([piece], looks) == ShowAll(Parts(piece, looks(piece)))
  {
    var parts := Parts(piece, looks(piece));
    assert [piece][1..] == [] && PartsOf([piece][1..], looks) == [];
    assert PartsOf([piece], looks) == parts + PartsOf([piece][1..], looks);
    assert parts + [] == parts;
  }

  // -------- what it is for list tags to balance --------

  /** The tag that may come next: `None` stands for the beginning and for the end of the text. */
  predicate MayFollow(before: Option<Mark>, after: Option<Mark>) {
    match before
    case None => after == None || after == Some(ListOpens)
    case Some(ListOpens) => after == Some(ItemOpens) || after == Some(ListCloses)
    case Some(ItemOpens) => after == Some(ItemCloses)
    case Some(ItemCloses) => after == Some(ItemOpens) || after == Some(ListCloses)
    case Some(ListCloses) => after == Some(ListOpens) || after == None
  }

  function At(marks: seq<Mark>, i: int): Option<Mark> {
    if 0 <= i < |marks| then Some(marks[i]) else None
  }

  /** Every two neighbours fit, and so do the first and the last tag where they stand. */
  predicate Fit(before: Option<Mark>, marks: seq<Mark>) {
    && MayFollow(before, At(marks, 0))
    && (forall i | 0 <= i < |marks| :: MayFollow(Some(marks[i]), At(marks, i + 1)))
  }

  function PlaceAfter(before: Option<Mark>): Place {
    match before
    case None => Outside
    case Some(ListCloses) => Outside
    case Some(ItemOpens) => InItem
    case _ => InList
  }

  lemma FitFirst(marks: seq<Mark>, before: Option<Mark>)
    requires marks != []
    ensures Fit(before, marks) <==> MayFollow(before, Some(marks[0])) && Fit(Some(marks[0]), marks[1..])
  {
    var rest := marks[1..];
    assert marks == [marks[0]] + rest;
    if Fit(Some(marks[0]), rest) {
      forall i | 0 < i < |marks| ensures MayFollow(Some(marks[i]), At(marks, i + 1)) {
        assert MayFollow(Some(rest[i - 1]), At(rest, i));
      }
    }
    if Fit(before, marks) {
      forall i | 0 <= i < |rest| ensures MayFollow(Some(rest[i]), At(rest, i + 1)) {
        assert MayFollow(Some(marks[i + 1]), At(marks, i + 2));
      }
    }
  }

  lemma {:induction false} FitFrom(marks: seq<Mark>, before: Option<Mark>)
    ensures Nested(marks, PlaceAfter(before)) <==> Fit(before, marks)
    decreases |marks|
  {
    if marks != [] {
      FitFirst(marks, before);
      FitFrom(marks[1..], Some(marks[0]));
    }
  }

  /** The tags balance exactly when every tag is one that may follow the tag before it. */
  lemma NestedExactly(marks: seq<Mark>)
    ensures Nested(marks, Outside) <==> Fit(None, marks)
  {
    FitFrom(marks, None);
  }
}

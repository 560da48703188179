/** The body of a sanctions email: lines become blocks, and runs of dashed lines become lists. */
module EmailLists {
  import opened Sequences
  import opened Text
  import Linkify

  // -------- the rule pattern --------

  /** \s and \w of the pattern language, which know ASCII only. */
  predicate IsBlank(c: char) {
    c == ' ' || c == '\t' || c == '\n' || c == '\U{000C}' || c == '\r'
  }

  predicate IsWord(c: char) {
    IsDigit(c) || 'a' <= c <= 'z' || 'A' <= c <= 'Z' || c == '_'
  }

  function DigitRun(s: string): (n: nat)
    ensures n <= |s|
  {
    if s == "" || !IsDigit(s[0]) then 0 else 1 + DigitRun(s[1..])
  }

  function BlankRun(s: string): (n: nat)
    ensures n <= |s|
  {
    if s == "" || !IsBlank(s[0]) then 0 else 1 + BlankRun(s[1..])
  }

  predicate WordNext(s: string) {
    s != "" && IsWord(s[0])
  }

  /** Some way for [0-9]+(\.[0-9]+)*\b to match at the front of the text. */
  ghost predicate NumbersMatch(s: string)
    decreases |s|
  {
    exists n | 0 < n <= DigitRun(s) ::
      !WordNext(s[n..]) || (s[n..] != "" && s[n] == '.' && NumbersMatch(s[n + 1..]))
  }

  /** Some way for the whole pattern to match. */
  ghost predicate RuleMatches(s: string) {
    && HasPrefix(Lower(s), "rule")
    && exists n | 0 < n <= BlankRun(s[4..]) :: NumbersMatch(s[4..][n..])
  }

  /** The reader's test: blanks, then digits, and after the first run of digits no word character. */
  predicate IsRule(s: string) {
    HasPrefix(Lower(s), "rule") &&
    var rest := s[4..];
    var number := rest[BlankRun(rest)..];
    BlankRun(rest) > 0 && DigitRun(number) > 0 && !WordNext(number[DigitRun(number)..])
  }

  lemma {:induction false} DigitRunAt(s: string, n: nat)
    requires n <= DigitRun(s)
    ensures n < DigitRun(s) ==> IsDigit(s[n])
    ensures n == DigitRun(s) && n < |s| ==> !IsDigit(s[n])
    decreases |s|
  {
    if n > 0 {
      DigitRunAt(s[1..], n - 1);
    }
  }

  lemma {:induction false} BlankRunAt(s: string, n: nat)
    requires n <= BlankRun(s)
    ensures n < BlankRun(s) ==> IsBlank(s[n])
    ensures n == BlankRun(s) && n < |s| ==> !IsBlank(s[n])
    decreases |s|
  {
    if n > 0 {
      BlankRunAt(s[1..], n - 1);
    }
  }

  lemma NumbersMatchExactly(s: string)
    ensures NumbersMatch(s) <==> DigitRun(s) > 0 && !WordNext(s[DigitRun(s)..])
  {
    var d := DigitRun(s);
    if NumbersMatch(s) {
      var n :| 0 < n <= d && (!WordNext(s[n..]) || (s[n..] != "" && s[n] == '.' && NumbersMatch(s[n + 1..])));
      DigitRunAt(s, n);
    } else if d > 0 {
      assert !(!WordNext(s[d..]));
    }
  }

  /** The pattern matches, in whatever way, exactly when the test says so. */
  lemma RuleMatchesExactly(s: string)
    ensures RuleMatches(s) <==> IsRule(s)
  {
    if HasPrefix(Lower(s), "rule") {
      var rest := s[4..];
      var b := BlankRun(rest);
      forall n | 0 < n <= b ensures NumbersMatch(rest[n..]) ==> n == b {
        BlankRunAt(rest, n);
        NumbersMatchExactly(rest[n..]);
      }
      NumbersMatchExactly(rest[b..]);
    }
  }

  // -------- lines --------

  datatype Kind = RuleHeading | AllegedRule | Source | Heading | Paragraph

  /** What a line of the body turns into. */
  datatype Entry = Item(text: string) | Button(link: string) | Block(kind: Kind, text: string) | Nothing

  const DASH := "- "
  const RESPOND := "/sanctions/case/respond"

  /** A line that answers a case becomes a button, and nothing at all when it holds no address. */
  function EntryOf(line: string): Entry {
    var trimmed := Trim(line);
    var lower := Lower(trimmed);
    if HasPrefix(trimmed, DASH) then Item(Trim(trimmed[2..]))
    else if trimmed == "" then Nothing
    else if Contains(lower, RESPOND) then
      var link := Linkify.FirstUrl(trimmed);
      if link != "" then Button(link) else Nothing
    else if HasPrefix(lower, "rule being checked:") || HasPrefix(lower, "rule determination:") then
      Block(RuleHeading, trimmed)
    else if HasPrefix(lower, "alleged rule under investigation:") || IsRule(trimmed) then Block(AllegedRule, trimmed)
    else if HasPrefix(lower, "published source:") then Block(Source, trimmed)
    else if HasSuffix(trimmed, ":") && Bytes(trimmed) < 80 then Block(Heading, trimmed)
    else Block(Paragraph, trimmed)
  }

  /** A line that is not blank is lost exactly when it is no item, names the answer page and holds no address. */
  lemma LostLine(line: string)
    ensures Trim(line) != "" ==>
      (EntryOf(line) == Nothing <==>
        && !HasPrefix(Trim(line), DASH)
        && Contains(Lower(Trim(line)), RESPOND)
        && forall i | 0 <= i < |Trim(line)| :: Linkify.Addresses(Trim(line))[i] == 0)
  {
    Linkify.FirstUrlExists(Trim(line));
  }

  // -------- the output --------

  /** The pieces of markup written, in order: list marks, and items, buttons and blocks. */
  datatype Piece = OpenList | CloseList | Leaf(entry: Entry)

  function PieceOf(e: Entry): seq<Piece> {
    if e.Nothing? then [] else [Leaf(e)]
  }

  function PiecesOf(entries: seq<Entry>): seq<Piece> {
    if entries == [] then [] else PieceOf(entries[0]) + PiecesOf(entries[1..])
  }

  function Run(entries: seq<Entry>): (n: nat)
    ensures n <= |entries|
    ensures entries != [] && entries[0].Item? ==> n > 0
  {
    if entries == [] || !entries[0].Item? then 0 else 1 + Run(entries[1..])
  }

  /** The document: every longest run of items is one list, and everything else stands between lists. */
  function Document(entries: seq<Entry>): seq<Piece>
    decreases |entries|
  {
    if entries == [] then []
    else if entries[0].Item? then
      var n := Run(entries);
      [OpenList] + PiecesOf(entries[..n]) + [CloseList] + Document(entries[n..])
    else PieceOf(entries[0]) + Document(entries[1..])
  }

  /** The rest of the output when the writer is inside a list. */
  function Continued(entries: seq<Entry>): seq<Piece> {
    PiecesOf(entries[..Run(entries)]) + [CloseList] + Document(entries[Run(entries)..])
  }

  function Entries(lines: seq<string>): (entries: seq<Entry>)
    ensures |entries| == |lines| && forall k | 0 <= k < |lines| :: entries[k] == EntryOf(lines[k])
  {
    seq(|lines|, k requires 0 <= k < |lines| => EntryOf(lines[k]))
  }

  function Remaining(inList: bool, entries: seq<Entry>): seq<Piece> {
    if inList then Continued(entries) else Document(entries)
  }

  /** The mark that a line needs before it. */
  function Mark(inList: bool, e: Entry): seq<Piece> {
    if inList == e.Item? then [] else if inList then [CloseList] else [OpenList]
  }

  /** One line, as the writer handles it. */
  lemma NextLine(inList: bool, entries: seq<Entry>)
    requires entries != []
    ensures Remaining(inList, entries)
      == Mark(inList, entries[0]) + (PieceOf(entries[0]) + Remaining(entries[0].Item?, entries[1..]))
  {
    var rest := entries[1..];
    if entries[0].Item? {
      var n := Run(entries);
      assert entries[..n][1..] == rest[..n - 1] && entries[n..] == rest[n - 1..];
      assert PiecesOf(entries[..n]) == PieceOf(entries[0]) + PiecesOf(rest[..n - 1]);
    } else {
      assert entries[..0] == [] && entries[0..] == entries;
    }
  }

  lemma Step(content: seq<Piece>, inList: bool, entries: seq<Entry>, k: nat, next: seq<Piece>)
    requires k < |entries| && next == content + Mark(inList, entries[k]) + PieceOf(entries[k])
    ensures content + Remaining(inList, entries[k..]) == next + Remaining(entries[k].Item?, entries[k + 1..])
  {
    var mark, piece, more := Mark(inList, entries[k]), PieceOf(entries[k]),
      Remaining(entries[k].Item?, entries[k + 1..]);
    assert entries[k..][1..] == entries[k + 1..];
    NextLine(inList, entries[k..]);
    Regroup(content, mark, piece + more);
    Regroup(content + mark, piece, more);
  }

  /** One turn of the loop. */
  method WriteEntry(content: seq<Piece>, inList: bool, e: Entry) returns (next: seq<Piece>, nextInList: bool)
    ensures next == content + Mark(inList, e) + PieceOf(e) && nextInList == e.Item?
  {
    next, nextInList := content, inList;
    if e.Item? {
      if !nextInList {
        next := next + [OpenList];
        nextInList := true;
      }
      next := next + [Leaf(e)];
    } else {
      if nextInList {
        next := next + [CloseList];
        nextInList := false;
      }
      next := next + PieceOf(e);
    }
  }

  /** The loop over the lines of the body, with its flag for an open list. */
  method WriteEntries(entries: seq<Entry>) returns (content: seq<Piece>)
    ensures content == Document(entries)
  {
    content := [];
    var inList := false;
    for k := 0 to |entries|
      invariant Document(entries) == content + Remaining(inList, entries[k..])
    {
      ghost var before, wasInList := content, inList;
      content, inList := WriteEntry(content, inList, entries[k]);
      Step(before, wasInList, entries, k, content);
    }
    assert entries[|entries|..] == [];
    assert Remaining(inList, []) == if inList then [CloseList] else [];
    if inList {
      content := content + [CloseList];
    }
  }

  method Write(body: string) returns (content: seq<Piece>)
    ensures content == Document(Entries(Lines(Normalise(body))))
  {
    content := WriteEntries(Entries(Lines(Normalise(body))));
  }

  // -------- lists are well formed --------

  /** Lists open and close in turn, and items stand inside a list and nothing else does. */
  predicate WellFormed(pieces: seq<Piece>, open: bool) {
    if pieces == [] then !open
    else
      match pieces[0]
      case OpenList => !open && WellFormed(pieces[1..], true)
      case CloseList => open && WellFormed(pieces[1..], false)
      case Leaf(e) => open == e.Item? && WellFormed(pieces[1..], open)
  }

  /** What a reader of the pieces sees when the list marks are left out. */
  function Content(pieces: seq<Piece>): seq<Piece> {
    if pieces == [] then []
    else (if pieces[0].OpenList? || pieces[0].CloseList? then [] else [pieces[0]]) + Content(pieces[1..])
  }

  lemma LeafThen(item: Entry, rest: seq<Piece>)
    requires item.Item?
    ensures WellFormed([Leaf(item)] + rest, true) == WellFormed(rest, true)
    ensures Content([Leaf(item)] + rest) == [Leaf(item)] + Content(rest)
  {
    assert ([Leaf(item)] + rest)[1..] == rest;
  }

  lemma {:induction false} ItemsThen(entries: seq<Entry>, rest: seq<Piece>)
    requires forall e | e in entries :: e.Item?
    ensures WellFormed(PiecesOf(entries) + rest, true) == WellFormed(rest, true)
    ensures Content(PiecesOf(entries) + rest) == PiecesOf(entries) + Content(rest)
    decreases |entries|
  {
    if entries == [] {
      assert PiecesOf(entries) + rest == rest;
    } else {
      var first, others := entries[0], PiecesOf(entries[1..]);
      ItemsThen(entries[1..], rest);
      assert first in entries && PiecesOf(entries) == [Leaf(first)] + others;
      LeafThen(first, others + rest);
      Regroup([Leaf(first)], others, rest);
      Regroup([Leaf(first)], others, Content(rest));
    }
  }

  lemma {:induction false} RunIsItems(entries: seq<Entry>)
    ensures forall e | e in entries[..Run(entries)] :: e.Item?
    ensures Run(entries) < |entries| ==> !entries[Run(entries)].Item?
    decreases |entries|
  {
    if entries != [] && entries[0].Item? {
      RunIsItems(entries[1..]);
      assert entries[..Run(entries)] == [entries[0]] + entries[1..][..Run(entries[1..])];
    }
  }

  lemma {:induction false} PiecesAppend(a: seq<Entry>, b: seq<Entry>)
    ensures PiecesOf(a + b) == PiecesOf(a) + PiecesOf(b)
    decreases |a|
  {
    if a == [] {
      assert a + b == b;
    } else {
      assert (a + b)[1..] == a[1..] + b;
      PiecesAppend(a[1..], b);
    }
  }

  lemma ListAround(items: seq<Entry>, rest: seq<Piece>)
    requires (forall e | e in items :: e.Item?) && WellFormed(rest, false)
    ensures var list := [OpenList] + (PiecesOf(items) + ([CloseList] + rest));
      WellFormed(list, false) && Content(list) == PiecesOf(items) + Content(rest)
  {
    var closed := [CloseList] + rest;
    assert closed[1..] == rest;
    ItemsThen(items, closed);
    var inside := PiecesOf(items) + closed;
    assert ([OpenList] + inside)[1..] == inside;
  }

  lemma DocumentOfRun(entries: seq<Entry>)
    requires entries != [] && entries[0].Item?
    ensures var n := Run(entries);
      Document(entries) == [OpenList] + (PiecesOf(entries[..n]) + ([CloseList] + Document(entries[n..])))
  {
    var n := Run(entries);
    var items, rest := PiecesOf(entries[..n]), Document(entries[n..]);
    Regroup([OpenList] + items, [CloseList], rest);
    Regroup([OpenList], items, [CloseList] + rest);
  }

  /** List marks balance, every item is inside one list, and no line is lost, moved or written twice. */
  lemma {:induction false} DocumentIsWellFormed(entries: seq<Entry>)
    ensures WellFormed(Document(entries), false)
    ensures Content(Document(entries)) == PiecesOf(entries)
    decreases |entries|
  {
    if entries == [] {
    } else if entries[0].Item? {
      var items, others := entries[..Run(entries)], entries[Run(entries)..];
      DocumentIsWellFormed(others);
      RunIsItems(entries);
      ListAround(items, Document(others));
      DocumentOfRun(entries);
      PiecesAppend(items, others);
      assert entries == items + others;
    } else {
      DocumentIsWellFormed(entries[1..]);
      OtherThen(entries[0], Document(entries[1..]));
    }
  }

  lemma OtherThen(e: Entry, rest: seq<Piece>)
    requires !e.Item?
    ensures WellFormed(PieceOf(e) + rest, false) == WellFormed(rest, false)
    ensures Content(PieceOf(e) + rest) == PieceOf(e) + Content(rest)
  {
    if e.Nothing? {
      assert PieceOf(e) + rest == rest;
    } else {
      assert (PieceOf(e) + rest)[1..] == rest;
    }
  }
}

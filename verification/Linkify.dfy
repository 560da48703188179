/** The links of the sanctions emails: web addresses in plain text become anchors, everything else is escaped. */
module Linkify {
  import opened Common
  import opened Sequences
  import opened Text

  lemma NotPrefix(s: string, p: string, k: nat)
    requires k < |s| && k < |p| && s[k] != p[k]
    ensures !HasPrefix(s, p)
  {
    if |p| <= |s| {
      assert s[..|p|][k] == s[k];
    }
  }

  // -------- escaping --------

  function EscapeChar(c: char): string {
    if c == '&' then "&amp;" else if c == '<' then "&lt;" else if c == '>' then "&gt;"
    else if c == '"' then "&#34;" else if c == '\'' then "&#39;" else [c]
  }

  /** html.EscapeString */
  function Escape(s: string): string {
    if s == "" then "" else EscapeChar(s[0]) + Escape(s[1..])
  }

  /** The entity at the front of the text: what it stands for and its length. */
  function Entity(s: string): Option<(char, nat)> {
    if HasPrefix(s, "&amp;") then Some(('&', 5)) else if HasPrefix(s, "&lt;") then Some(('<', 4))
    else if HasPrefix(s, "&gt;") then Some(('>', 4)) else if HasPrefix(s, "&#34;") then Some(('"', 5))
    else if HasPrefix(s, "&#39;") then Some(('\'', 5)) else None
  }

  /** What a mail reader shows for escaped text. */
  function Unescape(s: string): string
    decreases |s|
  {
    var e := Entity(s);
    if s == "" then "" else if e.Some? then [e.value.0] + Unescape(s[e.value.1..]) else [s[0]] + Unescape(s[1..])
  }

  lemma EntityOf(c: char, rest: string)
    ensures c in "&<>\"'" ==> Entity(EscapeChar(c) + rest) == Some((c, |EscapeChar(c)|))
    ensures c !in "&<>\"'" ==> Entity(EscapeChar(c) + rest) == None
  {
    var s := EscapeChar(c) + rest;
    if c in "&<>\"'" {
      assert s[..|EscapeChar(c)|] == EscapeChar(c);
      assert s[1] == EscapeChar(c)[1] && s[2] == EscapeChar(c)[2] && s[3] == EscapeChar(c)[3];
      assert c == '&' ==> s[1] == 'a';
      assert c == '<' ==> s[1] == 'l';
      assert c == '>' ==> s[1] == 'g';
      assert HasPrefix(s, "&amp;") ==> s[1] == "&amp;"[1];
      assert HasPrefix(s, "&lt;") ==> s[1] == "&lt;"[1];
      assert HasPrefix(s, "&gt;") ==> s[1] == "&gt;"[1];
      assert HasPrefix(s, "&#34;") ==> s[3] == "&#34;"[3];
    } else {
      assert s[0] != '&';
    }
  }

  lemma {:induction false} UnescapeEscape(s: string)
    ensures Unescape(Escape(s)) == s
    decreases |s|
  {
    if s != "" {
      var head, rest := EscapeChar(s[0]), Escape(s[1..]);
      EntityOf(s[0], rest);
      UnescapeEscape(s[1..]);
      assert (head + rest)[|head|..] == rest;
      assert Escape(s) == head + rest;
    }
  }

  lemma {:induction false} EscapeAppend(s: string, t: string)
    ensures Escape(s + t) == Escape(s) + Escape(t)
    decreases |s|
  {
    if s == "" {
      assert s + t == t;
    } else {
      assert (s + t)[1..] == s[1..] + t;
      EscapeAppend(s[1..], t);
    }
  }

  /** Escaped text can end neither a tag nor a quoted attribute, and begins no tag. */
  lemma {:induction false} EscapedIsPlain(s: string)
    ensures '<' !in Escape(s) && '>' !in Escape(s) && '"' !in Escape(s)
    decreases |s|
  {
    if s != "" {
      EscapedIsPlain(s[1..]);
    }
  }

  // -------- finding addresses --------

  /** A character the address pattern accepts after the two slashes. */
  predicate IsUrlChar(c: char) {
    c != ' ' && c != '\t' && c != '\n' && c != '\U{000C}' && c != '\r'
    && c != '<' && c != '>' && c != '"' && c != '\''
  }

  function UrlRun(s: string): (n: nat)
    ensures n <= |s|
  {
    if s == "" || !IsUrlChar(s[0]) then 0 else 1 + UrlRun(s[1..])
  }

  lemma {:induction false} UrlRunIsLongest(s: string)
    ensures forall k | 0 <= k < UrlRun(s) :: IsUrlChar(s[k])
    ensures UrlRun(s) < |s| ==> !IsUrlChar(s[UrlRun(s)])
    decreases |s|
  {
    if s != "" && IsUrlChar(s[0]) {
      UrlRunIsLongest(s[1..]);
    }
  }

  /** The length of the scheme at the front of the text, or none. */
  function Scheme(s: string): nat {
    if HasPrefix(s, "http://") then 7 else if HasPrefix(s, "https://") then 8 else 0
  }

  /** The length of the address that the pattern matches at the front of the text, or none. */
  function UrlLength(s: string): (n: nat)
    ensures n <= |s|
    ensures n > 0 <==> Scheme(s) > 0 && UrlRun(s[Scheme(s)..]) > 0
    ensures n > 0 ==> n > Scheme(s) && s[Scheme(s) - 1] == '/'
  {
    var scheme := Scheme(s);
    assert HasPrefix(s, "http://") ==> s[6] == "http://"[6];
    assert HasPrefix(s, "https://") ==> s[7] == "https://"[7];
    if scheme == 0 || UrlRun(s[scheme..]) == 0 then 0 else scheme + UrlRun(s[scheme..])
  }

  /** A matcher: the length of its match at every position, 0 where it has none. */
  ghost predicate Fits(lens: seq<nat>) {
    forall i | 0 <= i < |lens| :: i + lens[i] <= |lens|
  }

  /** The address pattern as a matcher. */
  function Addresses(text: string): (lens: seq<nat>)
    ensures |lens| == |text| && Fits(lens)
  {
    if text == "" then [] else [UrlLength(text)] + Addresses(text[1..])
  }

  lemma {:induction false} AddressesAt(text: string, i: nat)
    requires i < |text|
    ensures Addresses(text)[i] == UrlLength(text[i..])
    decreases |text|
  {
    if i > 0 {
      AddressesAt(text[1..], i - 1);
      assert text[1..][i - 1..] == text[i..];
    }
  }

  datatype Loc = Loc(from: nat, to: nat)

  /** The leftmost match at or after a position. */
  function Find(lens: seq<nat>, from: nat): (loc: Option<Loc>)
    requires Fits(lens) && from <= |lens|
    ensures loc.None? ==> forall i | from <= i < |lens| :: lens[i] == 0
    ensures loc.Some? ==> from <= loc.value.from < loc.value.to <= |lens|
    ensures loc.Some? ==> loc.value.to == loc.value.from + lens[loc.value.from]
    ensures loc.Some? ==> forall i | from <= i < loc.value.from :: lens[i] == 0
    decreases |lens| - from
  {
    if from == |lens| then None
    else if lens[from] > 0 then Some(Loc(from, from + lens[from]))
    else Find(lens, from + 1)
  }

  /** Matches in order, none reaching into the next. */
  ghost predicate Ordered(locs: seq<Loc>, from: nat, limit: nat) {
    if locs == [] then from <= limit
    else from <= locs[0].from < locs[0].to <= limit && Ordered(locs[1..], locs[0].to, limit)
  }

  /** FindAllStringIndex */
  function FindAll(lens: seq<nat>, from: nat): (locs: seq<Loc>)
    requires Fits(lens) && from <= |lens|
    ensures Ordered(locs, from, |lens|)
    decreases |lens| - from
  {
    var first := Find(lens, from);
    if first.None? then []
    else
      var rest := FindAll(lens, first.value.to);
      assert ([first.value] + rest)[1..] == rest;
      [first.value] + rest
  }

  ghost predicate Covered(locs: seq<Loc>, i: nat) {
    exists loc :: loc in locs && loc.from <= i < loc.to
  }

  /** The matches found are matches, and no match begins outside them. */
  lemma {:induction false} FindsAll(lens: seq<nat>, from: nat)
    requires Fits(lens) && from <= |lens|
    ensures forall loc | loc in FindAll(lens, from) ::
      from <= loc.from < |lens| && lens[loc.from] > 0 && loc.to == loc.from + lens[loc.from]
    ensures forall i | from <= i < |lens| && lens[i] > 0 :: Covered(FindAll(lens, from), i)
    decreases |lens| - from
  {
    var first := Find(lens, from);
    if first.Some? {
      var locs, rest := FindAll(lens, from), FindAll(lens, first.value.to);
      FindsAll(lens, first.value.to);
      forall i | from <= i < |lens| && lens[i] > 0 ensures Covered(locs, i) {
        if i < first.value.to {
          assert first.value in locs;
        } else {
          assert Covered(rest, i);
        }
      }
    }
  }

  /** The punctuation that TrimRight takes off the end of an address. */
  predicate IsPunctuation(c: char) {
    c == '.' || c == ',' || c == ';' || c == ':' || c == '!' || c == '?' || c == ')' || c == ']' || c == '}'
  }

  function TrimPunctuation(s: string): (r: string)
    ensures r <= s
    ensures r != "" ==> !IsPunctuation(r[|r| - 1])
  {
    if s == "" || !IsPunctuation(s[|s| - 1]) then s else TrimPunctuation(s[..|s| - 1])
  }

  /** Only punctuation is trimmed away. */
  lemma {:induction false} TrimKeeps(s: string, k: nat)
    requires k < |s| && !IsPunctuation(s[k])
    ensures k < |TrimPunctuation(s)|
    decreases |s|
  {
    if IsPunctuation(s[|s| - 1]) {
      TrimKeeps(s[..|s| - 1], k);
    }
  }

  /** The first address of the text, or the empty string. */
  function FirstUrl(text: string): string {
    var loc := Find(Addresses(text), 0);
    if loc.None? then "" else TrimPunctuation(text[loc.value.from..loc.value.to])
  }

  /** No address is trimmed away: its slashes are not in the cut set. */
  lemma AddressStays(text: string, from: nat, to: nat)
    requires from < to <= |text| && to == from + UrlLength(text[from..])
    ensures TrimPunctuation(text[from..to]) != ""
  {
    SlashStays(text[from..]);
    assert text[from..][..to - from] == text[from..to];
  }

  lemma SlashStays(s: string)
    requires UrlLength(s) > 0
    ensures TrimPunctuation(s[..UrlLength(s)]) != ""
  {
    TrimKeeps(s[..UrlLength(s)], Scheme(s) - 1);
  }

  /** What the first address is. */
  lemma FirstUrlExists(text: string)
    ensures var loc := Find(Addresses(text), 0);
      if loc.None? then FirstUrl(text) == ""
      else FirstUrl(text) != "" && FirstUrl(text) == TrimPunctuation(text[loc.value.from..loc.value.to])
  {
    var loc := Find(Addresses(text), 0);
    if loc.Some? {
      AddressesAt(text, loc.value.from);
      AddressStays(text, loc.value.from, loc.value.to);
    }
  }

  // -------- the output --------

  const OPEN_HREF := "<a href=\""
  const COLOUR := " style=\"color:#9f152f;"
  const DECORATION := "text-decoration:underline\""
  const STYLE := COLOUR + DECORATION

  function Tag(name: string): string {
    "<" + name + ">"
  }

  function Anchor(link: string): string {
    Tag("a href=\"" + Escape(link) + "\"" + STYLE) + Escape(link) + Tag("/a")
  }

  /** The text between matches, and the matches. */
  datatype Segment = Plain(text: string) | Url(text: string)

  function Segments(text: string, from: nat, locs: seq<Loc>): seq<Segment>
    requires Ordered(locs, from, |text|)
    decreases |locs|
  {
    if locs == [] then [Plain(text[from..])]
    else [Plain(text[from..locs[0].from]), Url(text[locs[0].from..locs[0].to])] + Segments(text, locs[0].to, locs[1..])
  }

  /** An address goes into an anchor, the punctuation at its end after it. */
  function Markup(segment: Segment): string {
    match segment
    case Plain(text) => Escape(text)
    case Url(raw) => Anchor(TrimPunctuation(raw)) + Escape(raw[|TrimPunctuation(raw)|..])
  }

  function Rendered(segments: seq<Segment>): string {
    if segments == [] then "" else Markup(segments[0]) + Rendered(segments[1..])
  }

  /** The markup of a text for any ordered disjoint matches. */
  function Output(text: string, locs: seq<Loc>): string
    requires Ordered(locs, 0, |text|)
  {
    Rendered(Segments(text, 0, locs))
  }

  function Linked(text: string): string {
    Output(text, FindAll(Addresses(text), 0))
  }

  lemma RenderNext(text: string, from: nat, locs: seq<Loc>, out: string)
    requires Ordered(locs, from, |text|) && locs != []
    ensures out + Rendered(Segments(text, from, locs))
      == out + Markup(Plain(text[from..locs[0].from])) + Markup(Url(text[locs[0].from..locs[0].to]))
        + Rendered(Segments(text, locs[0].to, locs[1..]))
  {
    var all, rest := Segments(text, from, locs), Segments(text, locs[0].to, locs[1..]);
    assert all[1..][1..] == rest;
    var plain, url := Markup(all[0]), Markup(all[1]);
    assert Rendered(all) == plain + (url + Rendered(rest));
    Regroup(out, plain, url + Rendered(rest));
    Regroup(out + plain, url, Rendered(rest));
  }

  method Linkify(text: string) returns (out: string)
    ensures out == Linked(text)
  {
    out := "";
    var last: nat := 0;
    var locs := FindAll(Addresses(text), 0);
    for k := 0 to |locs|
      invariant Ordered(locs[k..], last, |text|)
      invariant Output(text, locs) == out + Rendered(Segments(text, last, locs[k..]))
    {
      var loc := locs[k];
      RenderNext(text, last, locs[k..], out);
      out := out + Escape(text[last..loc.from]);
      var raw := text[loc.from..loc.to];
      var link := TrimPunctuation(raw);
      out := out + (Anchor(link) + Escape(raw[|link|..]));
      last := loc.to;
    }
    assert Rendered(Segments(text, last, [])) == Escape(text[last..]) + Rendered([]);
    out := out + Escape(text[last..]);
  }

  // -------- reading the output back --------

  /** What follows the end of the tag. */
  function AfterTag(s: string): (r: string)
    ensures |r| <= |s|
  {
    if s == "" then "" else if s[0] == '>' then s[1..] else AfterTag(s[1..])
  }

  function StripTags(s: string): string
    decreases |s|
  {
    if s == "" then "" else if s[0] == '<' then StripTags(AfterTag(s[1..])) else [s[0]] + StripTags(s[1..])
  }

  function UntilQuote(s: string): string {
    if s == "" || s[0] == '"' then "" else [s[0]] + UntilQuote(s[1..])
  }

  /** The addresses of all anchors, from the left. */
  function Hrefs(s: string): seq<string>
    decreases |s|
  {
    if s == "" then []
    else (if HasPrefix(s, OPEN_HREF) then [UntilQuote(s[|OPEN_HREF|..])] else []) + Hrefs(s[1..])
  }

  lemma {:induction false} PlainText(t: string, rest: string)
    requires '<' !in t
    ensures StripTags(t + rest) == t + StripTags(rest) && Hrefs(t + rest) == Hrefs(rest)
    decreases |t|
  {
    if t == "" {
      assert t + rest == rest;
    } else {
      PlainText(t[1..], rest);
      assert (t + rest)[1..] == t[1..] + rest;
      NotPrefix(t + rest, OPEN_HREF, 0);
    }
  }

  lemma {:induction false} TagEnds(t: string, rest: string)
    requires '>' !in t
    ensures AfterTag(t + ">" + rest) == rest
    decreases |t|
  {
    var s := t + ">" + rest;
    if t == "" {
      assert s[1..] == rest;
    } else {
      assert s[1..] == t[1..] + ">" + rest;
      TagEnds(t[1..], rest);
    }
  }

  lemma {:induction false} QuoteEnds(t: string, rest: string)
    requires '"' !in t
    ensures UntilQuote(t + "\"" + rest) == t
    decreases |t|
  {
    var s := t + "\"" + rest;
    if t != "" {
      assert s[1..] == t[1..] + "\"" + rest;
      QuoteEnds(t[1..], rest);
    }
  }

  /** A tag disappears, and adds an address only if it opens an anchor. */
  lemma TagText(name: string, rest: string)
    requires '>' !in name && '<' !in name
    ensures StripTags(Tag(name) + rest) == StripTags(rest)
    ensures name == "/a" ==> Hrefs(Tag(name) + rest) == Hrefs(rest)
  {
    var s := Tag(name) + rest;
    assert s[1..] == name + ">" + rest;
    TagEnds(name, rest);
    if name == "/a" {
      PlainText(name + ">", rest);
      assert s[1] == '/';
      NotPrefix(s, OPEN_HREF, 1);
    }
  }

  lemma HrefText(href: string, style: string, rest: string)
    requires '"' !in href && '<' !in href && '<' !in style
    ensures Hrefs(Tag("a href=\"" + href + "\"" + style) + rest) == [href] + Hrefs(rest)
  {
    var name, after := "a href=\"" + href + "\"" + style, style + ">" + rest;
    var s := Tag(name) + rest;
    assert s == OPEN_HREF + (href + "\"" + after);
    assert s[..|OPEN_HREF|] == OPEN_HREF && s[|OPEN_HREF|..] == href + "\"" + after;
    QuoteEnds(href, after);
    assert s[1..] == (name + ">") + rest;
    assert '<' !in "a href=\"";
    PlainText(name + ">", rest);
  }

  lemma ColourIsPlain()
    ensures forall c | c in COLOUR :: c != '<' && c != '>'
  {
  }

  lemma DecorationIsPlain()
    ensures forall c | c in DECORATION :: c != '<' && c != '>'
  {
  }

  lemma StyleIsPlain()
    ensures '<' !in STYLE && '>' !in STYLE
  {
    ColourIsPlain();
    DecorationIsPlain();
  }

  /** One anchor, in front of anything. */
  lemma AnchorText(link: string, rest: string)
    ensures StripTags(Anchor(link) + rest) == Escape(link) + StripTags(rest)
    ensures Hrefs(Anchor(link) + rest) == [Escape(link)] + Hrefs(rest)
  {
    var href := Escape(link);
    EscapedIsPlain(link);
    StyleIsPlain();
    ElementText(href, STYLE, rest);
  }

  lemma ElementText(href: string, style: string, rest: string)
    requires '<' !in href && '>' !in href && '"' !in href && '<' !in style && '>' !in style
    ensures var element := Tag("a href=\"" + href + "\"" + style) + href + Tag("/a");
      StripTags(element + rest) == href + StripTags(rest) && Hrefs(element + rest) == [href] + Hrefs(rest)
  {
    var name, after := "a href=\"" + href + "\"" + style, href + (Tag("/a") + rest);
    assert '<' !in "a href=\"" && '>' !in "a href=\"";
    assert '<' !in name && '>' !in name;
    AfterElement(href, rest);
    TagText(name, after);
    HrefText(href, style, after);
    Regroup(Tag(name), href, Tag("/a"));
    Regroup(Tag(name), href + Tag("/a"), rest);
    Regroup(href, Tag("/a"), rest);
  }

  lemma AfterElement(href: string, rest: string)
    requires '<' !in href
    ensures StripTags(href + (Tag("/a") + rest)) == href + StripTags(rest)
    ensures Hrefs(href + (Tag("/a") + rest)) == Hrefs(rest)
  {
    TagText("/a", rest);
    PlainText(href, Tag("/a") + rest);
  }

  function Original(segments: seq<Segment>): string {
    if segments == [] then "" else segments[0].text + Original(segments[1..])
  }

  function Links(segments: seq<Segment>): seq<string> {
    if segments == [] then []
    else (if segments[0].Url? then [Escape(TrimPunctuation(segments[0].text))] else []) + Links(segments[1..])
  }

  lemma {:induction false} SegmentsCover(text: string, from: nat, locs: seq<Loc>)
    requires Ordered(locs, from, |text|)
    ensures Original(Segments(text, from, locs)) == text[from..]
    decreases |locs|
  {
    var all := Segments(text, from, locs);
    if locs == [] {
      assert all[1..] == [];
    } else {
      var rest := Segments(text, locs[0].to, locs[1..]);
      SegmentsCover(text, locs[0].to, locs[1..]);
      assert all[1..][1..] == rest;
      assert Original(all) == all[0].text + (all[1].text + Original(rest));
    }
  }

  lemma MarkupText(segment: Segment, rest: string)
    ensures StripTags(Markup(segment) + rest) == Escape(segment.text) + StripTags(rest)
    ensures Hrefs(Markup(segment) + rest) == Links([segment]) + Hrefs(rest)
  {
    assert [segment][1..] == [];
    match segment
    case Plain(text) =>
      EscapedIsPlain(text);
      PlainText(Escape(text), rest);
    case Url(raw) =>
      LinkText(TrimPunctuation(raw), raw[|TrimPunctuation(raw)|..], rest);
      assert raw == TrimPunctuation(raw) + raw[|TrimPunctuation(raw)|..];
  }

  lemma LinkText(link: string, trailing: string, rest: string)
    ensures var s := Anchor(link) + Escape(trailing) + rest;
      StripTags(s) == Escape(link + trailing) + StripTags(rest) && Hrefs(s) == [Escape(link)] + Hrefs(rest)
  {
    EscapedIsPlain(trailing);
    PlainText(Escape(trailing), rest);
    AnchorText(link, Escape(trailing) + rest);
    EscapeAppend(link, trailing);
    Regroup(Anchor(link), Escape(trailing), rest);
    Regroup(Escape(link), Escape(trailing), StripTags(rest));
  }

  lemma {:induction false} RenderedText(segments: seq<Segment>)
    ensures StripTags(Rendered(segments)) == Escape(Original(segments))
    ensures Hrefs(Rendered(segments)) == Links(segments)
    decreases |segments|
  {
    if segments != [] {
      var rest := segments[1..];
      RenderedText(rest);
      MarkupText(segments[0], Rendered(rest));
      EscapeAppend(segments[0].text, Original(rest));
      assert [segments[0]][1..] == [];
    }
  }

  /**
   * Whatever the ordered disjoint matches are, taking the tags out of the markup and unescaping it
   * gives back the text.
   */
  lemma TextSurvives(text: string, locs: seq<Loc>)
    requires Ordered(locs, 0, |text|)
    ensures Unescape(StripTags(Output(text, locs))) == text
  {
    var segments := Segments(text, 0, locs);
    RenderedText(segments);
    SegmentsCover(text, 0, locs);
    UnescapeEscape(text);
  }

  /** The first link of the markup leads to the first address of the text, and there is one if there is an address. */
  lemma FirstLink(text: string)
    ensures var hrefs := Hrefs(Linked(text));
      if FirstUrl(text) == "" then hrefs == [] else hrefs != [] && Unescape(hrefs[0]) == FirstUrl(text)
  {
    var locs := FindAll(Addresses(text), 0);
    FirstUrlExists(text);
    RenderedText(Segments(text, 0, locs));
    UnescapeEscape(FirstUrl(text));
    if locs == [] {
      assert Segments(text, 0, locs)[1..] == [];
    } else {
      FirstOfLinks(text, locs);
    }
  }

  lemma FirstOfLinks(text: string, locs: seq<Loc>)
    requires Ordered(locs, 0, |text|) && locs != []
    ensures var links := Links(Segments(text, 0, locs));
      links != [] && links[0] == Escape(TrimPunctuation(text[locs[0].from..locs[0].to]))
  {
    var segments := Segments(text, 0, locs);
    assert Links(segments) == Links(segments[1..]);
  }
}

/**
 * What the links of the sanctions emails come to, with the pattern, the cut set, the entities and the
 * anchor written out as texts.
 */
module LinkMeaning {
  import opened Common
  import opened Sequences
  import opened Text
  import opened Linkify

  /** The characters that end an address. */
  const EXCLUDED := " \t\n\U{000C}\r<>\"'"
  /** The characters that are taken off its end. */
  const CUT := ".,;:!?)]}"

  predicate At(s: string, i: nat, p: string) {
    i + |p| <= |s| && s[i..i + |p|] == p
  }

  /** An address begins with a scheme and a character that does not end it. */
  predicate Begins(s: string, i: nat) {
    || (At(s, i, "http://") && i + 7 < |s| && s[i + 7] !in EXCLUDED)
    || (At(s, i, "https://") && i + 8 < |s| && s[i + 8] !in EXCLUDED)
  }

  /** It goes on up to the next character that ends it. */
  predicate Spans(s: string, i: nat, n: nat) {
    && 7 < n <= |s| - i && (At(s, i, "https://") ==> 8 < n)
    && (forall c | c in s[i + (if At(s, i, "https://") then 8 else 7)..i + n] :: c !in EXCLUDED)
    && (i + n < |s| ==> s[i + n] in EXCLUDED)
  }

  lemma ExcludedExactly(c: char)
    ensures IsUrlChar(c) <==> c !in EXCLUDED
  {
  }

  lemma CutExactly(c: char)
    ensures IsPunctuation(c) <==> c in CUT
  {
  }

  lemma SchemeExactly(s: string)
    ensures Scheme(s) == if At(s, 0, "http://") then 7 else if At(s, 0, "https://") then 8 else 0
    ensures At(s, 0, "http://") ==> !At(s, 0, "https://")
  {
    assert "http://"[4] == ':' && "https://"[4] == 's';
    assert At(s, 0, "http://") ==> s[4] == s[0..7][4];
    assert At(s, 0, "https://") ==> s[4] == s[0..8][4];
  }

  lemma {:induction false} RunExactly(s: string)
    ensures forall c | c in s[..UrlRun(s)] :: c !in EXCLUDED
    ensures UrlRun(s) < |s| ==> s[UrlRun(s)] in EXCLUDED
    ensures UrlRun(s) > 0 <==> s != "" && s[0] !in EXCLUDED
    decreases |s|
  {
    if s != "" {
      ExcludedExactly(s[0]);
      if IsUrlChar(s[0]) {
        RunExactly(s[1..]);
        assert s[..UrlRun(s)] == [s[0]] + s[1..][..UrlRun(s[1..])];
      }
    }
  }

  lemma LengthExactly(s: string)
    ensures UrlLength(s) > 0 <==> Begins(s, 0)
    ensures UrlLength(s) > 0 ==> Spans(s, 0, UrlLength(s))
  {
    SchemeExactly(s);
    var scheme := Scheme(s);
    if scheme > 0 {
      RunExactly(s[scheme..]);
      var run := UrlRun(s[scheme..]);
      assert s[scheme..][..run] == s[scheme..scheme + run];
    }
  }

  lemma AtShifted(s: string, i: nat, p: string)
    requires i <= |s|
    ensures At(s[i..], 0, p) <==> At(s, i, p)
  {
    if i + |p| <= |s| {
      assert s[i..][0..|p|] == s[i..i + |p|];
    }
  }

  lemma Shifted(s: string, i: nat, n: nat)
    requires i <= |s|
    ensures Begins(s[i..], 0) <==> Begins(s, i)
    ensures Spans(s[i..], 0, n) ==> Spans(s, i, n)
  {
    AtShifted(s, i, "http://");
    AtShifted(s, i, "https://");
    var from := if At(s, i, "https://") then 8 else 7;
    if from <= n <= |s| - i {
      assert s[i..][from..n] == s[i + from..i + n];
    }
  }

  /** A match begins exactly at a scheme in front of a character of an address, and goes on as far as it can. */
  lemma MatchesExactly(text: string, i: nat)
    requires i < |text|
    ensures Addresses(text)[i] > 0 <==> Begins(text, i)
    ensures Addresses(text)[i] > 0 ==> Spans(text, i, Addresses(text)[i])
  {
    AddressesAt(text, i);
    LengthExactly(text[i..]);
    Shifted(text, i, Addresses(text)[i]);
  }

  lemma AllMatches(text: string)
    ensures forall i: nat | i < |text| :: Addresses(text)[i] > 0 <==> Begins(text, i)
  {
    forall i: nat | i < |text| ensures Addresses(text)[i] > 0 <==> Begins(text, i) {
      MatchesExactly(text, i);
    }
  }

  /** The text without the punctuation at its end. */
  predicate IsCut(raw: string, url: string) {
    && url <= raw && (forall c | c in raw[|url|..] :: c in CUT)
    && url != "" && url[|url| - 1] !in CUT
  }

  lemma {:induction false} TrimsCut(s: string)
    ensures forall c | c in s[|TrimPunctuation(s)|..] :: c in CUT
    ensures TrimPunctuation(s) != "" ==> TrimPunctuation(s)[|TrimPunctuation(s)| - 1] !in CUT
    decreases |s|
  {
    if s != "" {
      var init := s[..|s| - 1];
      CutExactly(s[|s| - 1]);
      if IsPunctuation(s[|s| - 1]) {
        TrimsCut(init);
        assert s[|TrimPunctuation(s)|..] == init[|TrimPunctuation(s)|..] + [s[|s| - 1]];
      }
    }
  }

  /** The first address stands where the first match begins. */
  predicate IsFirst(text: string, url: string, from: nat, n: nat) {
    && from + n <= |text| && Begins(text, from) && Spans(text, from, n) && IsCut(text[from..from + n], url)
    && forall i: nat | i < from :: !Begins(text, i)
  }

  /** The matcher finds addresses and nothing else. */
  ghost predicate Matches(text: string, lens: seq<nat>) {
    && |lens| == |text| && Fits(lens)
    && forall i: nat | i < |text| :: (lens[i] > 0 <==> Begins(text, i)) && (lens[i] > 0 ==> Spans(text, i, lens[i]))
  }

  lemma AddressesMatch(text: string)
    ensures Matches(text, Addresses(text))
  {
    forall i: nat | i < |text|
      ensures Addresses(text)[i] > 0 <==> Begins(text, i)
      ensures Addresses(text)[i] > 0 ==> Spans(text, i, Addresses(text)[i])
    {
      MatchesExactly(text, i);
    }
  }

  lemma FoundIsFirst(text: string, lens: seq<nat>, from: nat, n: nat, url: string)
    requires Matches(text, lens) && Find(lens, 0) == Some(Loc(from, from + n))
    requires url == TrimPunctuation(text[from..from + n]) && url != ""
    ensures IsFirst(text, url, from, n)
  {
    assert lens[from] == n;
    TrimsCut(text[from..from + n]);
    assert forall i: nat | i < from :: lens[i] == 0;
  }

  lemma NoneBegins(text: string, lens: seq<nat>)
    requires Matches(text, lens)
    ensures Find(lens, 0) == None <==> forall i: nat | i < |text| :: !Begins(text, i)
  {
    if Find(lens, 0) == None {
      assert forall i: nat | i < |text| :: lens[i] == 0;
    } else {
      assert Begins(text, Find(lens, 0).value.from);
    }
  }

  lemma FirstFound(text: string, lens: seq<nat>, url: string)
    requires Matches(text, lens)
    requires var loc := Find(lens, 0);
      if loc.None? then url == "" else url != "" && url == TrimPunctuation(text[loc.value.from..loc.value.to])
    ensures url == "" <==> forall i: nat | i < |text| :: !Begins(text, i)
    ensures url != "" ==> exists from, n :: IsFirst(text, url, from, n)
  {
    NoneBegins(text, lens);
    var loc := Find(lens, 0);
    if loc.Some? {
      var from, n := loc.value.from, loc.value.to - loc.value.from;
      FoundIsFirst(text, lens, from, n, url);
      assert IsFirst(text, url, from, n);
    }
  }

  lemma FirstUrlExactly(text: string)
    ensures FirstUrl(text) == "" <==> forall i: nat | i < |text| :: !Begins(text, i)
    ensures FirstUrl(text) != "" ==> exists from, n :: IsFirst(text, FirstUrl(text), from, n)
  {
    AddressesMatch(text);
    FirstUrlExists(text);
    FirstFound(text, Addresses(text), FirstUrl(text));
  }

  /** Either scheme, in front of anything that can stand in an address, is an address. */
  lemma BothSchemes(t: string)
    requires t != "" && t[0] !in EXCLUDED
    ensures FirstUrl("http://" + t) != "" && FirstUrl("https://" + t) != ""
  {
    var plain, secure := "http://" + t, "https://" + t;
    assert At(plain, 0, "http://") && At(secure, 0, "https://");
    assert Begins(plain, 0) && Begins(secure, 0);
    FirstUrlExactly(plain);
    FirstUrlExactly(secure);
  }

  // -------- the markup --------

  /** The address stands in the link and is shown, in the house style. */
  lemma AnchorWritten(link: string)
    ensures Anchor(link)
      == "<a href=\"" + (Escape(link) + "\"" + (" style=\"color:#9f152f;" + "text-decoration:underline\"") + ">")
         + Escape(link) + "</a>"
  {
    AnchorParts(Escape(link), STYLE);
  }

  lemma AnchorParts(href: string, style: string)
    ensures Tag("a href=\"" + href + "\"" + style) + href + Tag("/a")
      == "<a href=\"" + (href + "\"" + style + ">") + href + "</a>"
  {
    assert Tag("/a") == "</a>";
    assert "<" + "a href=\"" == "<a href=\"";
    assert Tag("a href=\"" + href + "\"" + style) == "<a href=\"" + (href + "\"" + style + ">");
  }

  /** The entities; every other character stands for itself, and texts are escaped character by character. */
  lemma EscapesEach(c: char, rest: string)
    ensures Escape("") == "" && Escape([c] + rest) == Escape([c]) + Escape(rest)
    ensures Escape("&") == "&amp;" && Escape("<") == "&lt;" && Escape(">") == "&gt;"
    ensures Escape("\"") == "&#34;" && Escape("'") == "&#39;"
    ensures c !in "&<>\"'" ==> Escape([c]) == [c]
  {
    EscapeAppend([c], rest);
  }

  lemma RenderedOne(segment: Segment)
    ensures Rendered([segment]) == Markup(segment)
  {
    assert [segment][1..] == [];
  }

  lemma RenderedTwo(a: Segment, b: Segment, c: Segment)
    ensures Rendered([a, b, c]) == Markup(a) + Markup(b) + Markup(c)
  {
    assert [a, b, c][1..] == [b, c] && [b, c][1..] == [c];
    RenderedOne(c);
    Regroup(Markup(a), Markup(b), Markup(c));
  }

  predicate NoAddress(text: string, from: nat) {
    forall i: nat | from <= i < |text| :: !Begins(text, i)
  }

  /** A text without an address is only escaped. */
  lemma PlainStaysPlain(text: string)
    requires NoAddress(text, 0)
    ensures Linked(text) == Escape(text)
  {
    AddressesMatch(text);
    PlainOutput(text, Addresses(text));
  }

  lemma PlainOutput(text: string, lens: seq<nat>)
    requires Matches(text, lens) && NoAddress(text, 0)
    ensures Output(text, FindAll(lens, 0)) == Escape(text)
  {
    NoneFound(text, lens);
    OutputOfNone(text, FindAll(lens, 0));
  }

  lemma OutputOfNone(text: string, locs: seq<Loc>)
    requires locs == []
    ensures Output(text, locs) == Escape(text)
  {
    assert text[0..] == text;
    RenderedOne(Plain(text));
  }

  lemma NoneFound(text: string, lens: seq<nat>)
    requires Matches(text, lens) && NoAddress(text, 0)
    ensures FindAll(lens, 0) == []
  {
    NoneBegins(text, lens);
  }

  /** The only address is linked up to its punctuation, between texts that are only escaped. */
  lemma OneLink(text: string, from: nat, n: nat)
    requires IsFirst(text, FirstUrl(text), from, n) && NoAddress(text, from + n)
    ensures var url, raw := FirstUrl(text), text[from..from + n];
      Linked(text) == Escape(text[..from]) + (Anchor(url) + Escape(raw[|url|..])) + Escape(text[from + n..])
  {
    AddressesMatch(text);
    FirstUrlExists(text);
    OneOutput(text, Addresses(text), from, n, FirstUrl(text));
  }

  lemma OneOutput(text: string, lens: seq<nat>, from: nat, n: nat, url: string)
    requires Matches(text, lens) && IsFirst(text, url, from, n) && NoAddress(text, from + n)
    ensures Output(text, FindAll(lens, 0))
      == Escape(text[..from]) + (Anchor(url) + Escape(text[from..from + n][|url|..])) + Escape(text[from + n..])
  {
    OneFound(text, lens, from, n);
    CutOnce(text[from..from + n], url);
    OutputOfOne(text, FindAll(lens, 0), from, n, url);
  }

  lemma CutOnce(raw: string, url: string)
    requires IsCut(raw, url)
    ensures url == TrimPunctuation(raw)
  {
    TrimsCut(raw);
  }

  lemma OutputOfOne(text: string, locs: seq<Loc>, from: nat, n: nat, url: string)
    requires from + n <= |text| && n > 0 && locs == [Loc(from, from + n)]
    requires url == TrimPunctuation(text[from..from + n])
    ensures Output(text, locs)
      == Escape(text[..from]) + (Anchor(url) + Escape(text[from..from + n][|url|..])) + Escape(text[from + n..])
  {
    assert text[0..from] == text[..from];
    OneSegment(text, from, n);
    RenderedTwo(Plain(text[..from]), Url(text[from..from + n]), Plain(text[from + n..]));
  }

  lemma OneFound(text: string, lens: seq<nat>, from: nat, n: nat)
    requires Matches(text, lens) && from + n <= |text|
    requires Begins(text, from) && Spans(text, from, n) && (forall i: nat | i < from :: !Begins(text, i))
    requires NoAddress(text, from + n)
    ensures Find(lens, 0) == Some(Loc(from, from + n)) && FindAll(lens, 0) == [Loc(from, from + n)]
  {
    SpansOnce(text, from, n, lens[from]);
    assert Find(lens, 0) == Some(Loc(from, from + n));
    assert Find(lens, from + n) == None;
  }

  /** An address has one end. */
  lemma SpansOnce(text: string, from: nat, n: nat, m: nat)
    requires from < |text| && Spans(text, from, n) && Spans(text, from, m)
    ensures n == m
  {
  }

  lemma OneSegment(text: string, from: nat, n: nat)
    requires from + n <= |text| && n > 0
    ensures Segments(text, 0, [Loc(from, from + n)])
      == [Plain(text[0..from]), Url(text[from..from + n]), Plain(text[from + n..])]
  {
    var loc := Loc(from, from + n);
    assert [loc][1..] == [];
    assert Segments(text, from + n, []) == [Plain(text[from + n..])];
  }
}

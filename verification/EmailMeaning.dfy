/** What each line of a sanctions email becomes, with the words it is known by written out. */
module EmailMeaning {
  import opened Text
  import opened EmailLists
  import Linkify

  // -------- a line that names a rule --------

  const BLANKS := " \t\n\U{000C}\r"

  /** A letter without accents, a digit or an underscore. */
  predicate WordLike(c: char) {
    'a' <= c <= 'z' || 'A' <= c <= 'Z' || '0' <= c <= '9' || c == '_'
  }

  lemma CharsExactly(c: char)
    ensures IsBlank(c) <==> c in BLANKS
    ensures IsWord(c) <==> WordLike(c)
    ensures IsDigit(c) <==> c in "0123456789"
  {
  }

  /** "rule" in any case, blanks up to `a`, digits up to `b`, and then no word character. */
  predicate NamesRule(s: string, a: nat, b: nat) {
    && 4 < a < b <= |s| && Lower(s[..4]) == "rule"
    && (forall c | c in s[4..a] :: c in BLANKS)
    && (forall c | c in s[a..b] :: c in "0123456789")
    && (b < |s| ==> !WordLike(s[b]))
  }

  lemma {:induction false} BlankRunExactly(s: string)
    ensures forall c | c in s[..BlankRun(s)] :: c in BLANKS
    ensures BlankRun(s) < |s| ==> s[BlankRun(s)] !in BLANKS
    decreases |s|
  {
    if s != "" {
      CharsExactly(s[0]);
      if IsBlank(s[0]) {
        BlankRunExactly(s[1..]);
        assert s[..BlankRun(s)] == [s[0]] + s[1..][..BlankRun(s[1..])];
      }
    }
  }

  lemma {:induction false} DigitRunExactly(s: string)
    ensures forall c | c in s[..DigitRun(s)] :: c in "0123456789"
    ensures DigitRun(s) < |s| ==> s[DigitRun(s)] !in "0123456789"
    decreases |s|
  {
    if s != "" {
      CharsExactly(s[0]);
      if IsDigit(s[0]) {
        DigitRunExactly(s[1..]);
        assert s[..DigitRun(s)] == [s[0]] + s[1..][..DigitRun(s[1..])];
      }
    }
  }

  lemma RuleWord(s: string)
    ensures HasPrefix(Lower(s), "rule") <==> |s| >= 4 && Lower(s[..4]) == "rule"
  {
    if |s| >= 4 {
      assert Lower(s)[..4] == Lower(s[..4]);
    }
  }

  /** A run of blanks that does not stop before `n` and is followed by none is as long as that. */
  lemma {:induction false} BlankRunIs(s: string, n: nat)
    requires n <= |s| && (forall c | c in s[..n] :: c in BLANKS) && (n < |s| ==> s[n] !in BLANKS)
    ensures BlankRun(s) == n
    decreases n
  {
    if s != "" {
      CharsExactly(s[0]);
      if n > 0 {
        assert s[0] in s[..n];
        assert forall c | c in s[1..][..n - 1] :: c in s[..n];
        BlankRunIs(s[1..], n - 1);
      }
    }
  }

  lemma {:induction false} DigitRunIs(s: string, n: nat)
    requires n <= |s| && (forall c | c in s[..n] :: c in "0123456789") && (n < |s| ==> s[n] !in "0123456789")
    ensures DigitRun(s) == n
    decreases n
  {
    if s != "" {
      CharsExactly(s[0]);
      if n > 0 {
        assert s[0] in s[..n];
        assert forall c | c in s[1..][..n - 1] :: c in s[..n];
        DigitRunIs(s[1..], n - 1);
      }
    }
  }

  lemma RuleNamed(s: string)
    requires IsRule(s)
    ensures exists a, b :: NamesRule(s, a, b)
  {
    RuleWord(s);
    var rest := s[4..];
    var n := BlankRun(rest);
    var number := rest[n..];
    var d := DigitRun(number);
    BlankRunExactly(rest);
    DigitRunExactly(number);
    assert s[4..4 + n] == rest[..n] && s[4 + n..4 + n + d] == number[..d];
    if 4 + n + d < |s| {
      assert s[4 + n + d] == number[d..][0];
      CharsExactly(s[4 + n + d]);
    }
    assert NamesRule(s, 4 + n, 4 + n + d);
  }

  lemma NamedIsRule(s: string, a: nat, b: nat)
    requires NamesRule(s, a, b)
    ensures IsRule(s)
  {
    RuleWord(s);
    var rest := s[4..];
    var number := s[a..];
    assert rest[..a - 4] == s[4..a] && rest[a - 4..] == number && number[..b - a] == s[a..b];
    assert s[a] in s[a..b];
    DigitIsNoBlank(s[a]);
    assert rest[a - 4] == s[a];
    BlankRunIs(rest, a - 4);
    if b < |s| {
      CharsExactly(s[b]);
      assert number[b - a] == s[b];
    }
    DigitRunIs(number, b - a);
  }

  lemma DigitIsNoBlank(c: char)
    requires c in "0123456789"
    ensures c !in BLANKS
  {
  }

  /** The rule test, in terms of the characters alone. */
  lemma RuleExactly(s: string)
    ensures IsRule(s) <==> exists a, b :: NamesRule(s, a, b)
  {
    if IsRule(s) {
      RuleNamed(s);
    }
    if a, b :| NamesRule(s, a, b) {
      NamedIsRule(s, a, b);
    }
  }

  // -------- what a line becomes --------

  predicate Begins(s: string, p: string) {
    |p| <= |s| && s[..|p|] == p
  }

  predicate Names(t: string, word: string) {
    Begins(Lower(t), word)
  }

  /** The line is marked as the rule in question. */
  ghost predicate Alleged(t: string) {
    Names(t, "alleged rule under investigation:") || exists a, b :: NamesRule(t, a, b)
  }

  predicate Marked(t: string) {
    Names(t, "rule being checked:") || Names(t, "rule determination:")
  }

  /** A short line that ends with a colon. */
  predicate Titled(t: string) {
    t != "" && t[|t| - 1] == ':' && Bytes(t) <= 79
  }

  predicate Answers(t: string) {
    Contains(Lower(t), "/sanctions/case/respond")
  }

  lemma DashedExactly(line: string)
    ensures Begins(Trim(line), "- ") ==> EntryOf(line) == Item(Trim(Trim(line)[2..]))
    ensures Trim(line) == "" ==> EntryOf(line) == Nothing
    ensures EntryOf(line).Item? ==> Begins(Trim(line), "- ")
  {
  }

  lemma AnswerExactly(line: string)
    requires Trim(line) != "" && !Begins(Trim(line), "- ")
    ensures Answers(Trim(line)) ==>
      EntryOf(line) == if Linkify.FirstUrl(Trim(line)) == "" then Nothing else Button(Linkify.FirstUrl(Trim(line)))
    ensures !Answers(Trim(line)) ==> EntryOf(line).Block? && EntryOf(line).text == Trim(line)
  {
  }

  lemma TitledExactly(t: string)
    ensures HasSuffix(t, ":") && Bytes(t) < 80 <==> Titled(t)
  {
    if t != "" {
      assert t[|t| - 1..] == [t[|t| - 1]];
    }
  }

  /** The first of these that fits decides on a block; what fits none is a paragraph. */
  lemma BlockExactly(line: string)
    requires Trim(line) != "" && !Begins(Trim(line), "- ") && !Answers(Trim(line))
    ensures var t := Trim(line);
      EntryOf(line) == Block(
        if Marked(t) then RuleHeading else if Alleged(t) then AllegedRule
        else if Names(t, "published source:") then Source else if Titled(t) then Heading else Paragraph, t)
  {
    var t := Trim(line);
    RuleExactly(t);
    TitledExactly(t);
    BlockOf(line, t, Alleged(t), Marked(t), Titled(t));
  }

  lemma BlockOf(line: string, t: string, alleged: bool, marked: bool, titled: bool)
    requires t == Trim(line) && t != "" && !Begins(t, "- ") && !Answers(t)
    requires alleged == (HasPrefix(Lower(t), "alleged rule under investigation:") || IsRule(t))
    requires marked == (HasPrefix(Lower(t), "rule being checked:") || HasPrefix(Lower(t), "rule determination:"))
    requires titled == (HasSuffix(t, ":") && Bytes(t) < 80)
    ensures EntryOf(line) == Block(
      if marked then RuleHeading else if alleged then AllegedRule
      else if Names(t, "published source:") then Source else if titled then Heading else Paragraph, t)
  {
  }
}

/** What the shared string operations do, in terms of the characters. */
module TextMeaning {
  import opened Text

  // -------- blanks and letters --------

  const SPACES := " \t\n\U{000B}\U{000C}\r\U{0085}\U{00A0}\U{1680}"
  const WIDE_SPACES := "\U{2028}\U{2029}\U{202F}\U{205F}\U{3000}"

  predicate Blank(c: char) {
    c in SPACES || c in WIDE_SPACES || (0x2000 <= c as int && c as int <= 0x200a)
  }

  lemma BlankExactly(c: char)
    ensures IsSpace(c) <==> Blank(c)
  {
    assert c in SPACES <==>
      c == ' ' || c == '\t' || c == '\n' || c == '\U{000B}' || c == '\U{000C}' || c == '\r' || c == '\U{0085}'
      || c == '\U{00A0}' || c == '\U{1680}';
    assert '\t' as int == 9 && '\r' as int == 13;
  }

  predicate AllBlank(s: string) {
    forall c | c in s :: Blank(c)
  }

  lemma {:induction false} LeftTrimmed(s: string)
    ensures TrimLeft(s) == s[|s| - |TrimLeft(s)|..] && AllBlank(s[..|s| - |TrimLeft(s)|])
    decreases |s|
  {
    if s != "" {
      BlankExactly(s[0]);
      if IsSpace(s[0]) {
        LeftTrimmed(s[1..]);
        var n := |s| - |TrimLeft(s)|;
        assert s[..n] == [s[0]] + s[1..][..n - 1] && s[n..] == s[1..][n - 1..];
      }
    }
  }

  lemma {:induction false} RightTrimmed(s: string)
    ensures TrimRight(s) == s[..|TrimRight(s)|] && AllBlank(s[|TrimRight(s)|..])
    decreases |s|
  {
    if s != "" {
      var init := s[..|s| - 1];
      BlankExactly(s[|s| - 1]);
      if IsSpace(s[|s| - 1]) {
        RightTrimmed(init);
        assert s[|TrimRight(s)|..] == init[|TrimRight(s)|..] + [s[|s| - 1]];
      }
    }
  }

  /** The text stands at this place, between blanks. */
  predicate BlankAround(s: string, t: string, i: nat) {
    && i + |t| <= |s| && s[i..i + |t|] == t && AllBlank(s[..i]) && AllBlank(s[i + |t|..])
  }

  lemma TrimmedBetween(s: string)
    ensures |Trim(s)| <= |TrimLeft(s)| <= |s| && BlankAround(s, Trim(s), |s| - |TrimLeft(s)|)
  {
    var left := TrimLeft(s);
    LeftTrimmed(s);
    RightTrimmed(left);
    var i := |s| - |left|;
    assert s[i..i + |Trim(s)|] == left[..|Trim(s)|] && s[i + |Trim(s)|..] == left[|Trim(s)|..];
  }

  /** Trimming takes blanks off both ends and nothing else, and leaves none there. */
  lemma TrimExactly(s: string)
    ensures exists i :: BlankAround(s, Trim(s), i)
    ensures Trim(s) != "" ==> !Blank(Trim(s)[0]) && !Blank(Trim(s)[|Trim(s)| - 1])
  {
    TrimmedBetween(s);
    if Trim(s) != "" {
      BlankExactly(Trim(s)[0]);
      BlankExactly(Trim(s)[|Trim(s)| - 1]);
    }
  }

  predicate OnlySpaces(s: string) {
    forall c | c in s :: c == ' '
  }

  predicate SpacesAround(s: string, t: string, i: nat) {
    && i + |t| <= |s| && s[i..i + |t|] == t && OnlySpaces(s[..i]) && OnlySpaces(s[i + |t|..])
  }

  lemma SpaceInFront(s: string, t: string, i: nat)
    requires s != "" && s[0] == ' ' && SpacesAround(s[1..], t, i)
    ensures SpacesAround(s, t, i + 1)
  {
    assert s[..i + 1] == [' '] + s[1..][..i];
    assert s[i + 1..i + 1 + |t|] == s[1..][i..i + |t|] && s[i + 1 + |t|..] == s[1..][i + |t|..];
  }

  lemma SpaceBehind(s: string, t: string, i: nat)
    requires s != "" && s[|s| - 1] == ' ' && SpacesAround(s[..|s| - 1], t, i)
    ensures SpacesAround(s, t, i)
  {
    var init := s[..|s| - 1];
    assert s[..i] == init[..i] && s[i..i + |t|] == init[i..i + |t|];
    assert s[i + |t|..] == init[i + |t|..] + [' '];
  }

  /** The database takes off plain spaces alone. */
  lemma {:induction false} SqlTrimExactly(s: string) returns (i: nat)
    ensures SpacesAround(s, SqlTrim(s), i)
    ensures SqlTrim(s) != "" ==> SqlTrim(s)[0] != ' ' && SqlTrim(s)[|SqlTrim(s)| - 1] != ' '
    decreases |s|
  {
    if s != "" && s[0] == ' ' {
      i := SqlTrimExactly(s[1..]);
      SpaceInFront(s, SqlTrim(s), i);
      i := i + 1;
    } else if s != "" && s[|s| - 1] == ' ' {
      i := SqlTrimExactly(s[..|s| - 1]);
      SpaceBehind(s, SqlTrim(s), i);
    } else {
      i := 0;
      assert s[0..|s|] == s && s[..0] == "" && s[|s|..] == "";
    }
  }

  const CAPITALS := "ABCDEFGHIJKLMNOPQRSTUVWXYZ"
  const SMALL := "abcdefghijklmnopqrstuvwxyz"

  /** Capital letters become small ones and every other character stays. */
  lemma LowerExactly(c: char, i: nat)
    ensures i < 26 ==> LowerChar(CAPITALS[i]) == SMALL[i]
    ensures c !in CAPITALS ==> LowerChar(c) == c
  {
    if 'A' <= c <= 'Z' {
      assert CAPITALS[c as int - 'A' as int] == c;
    }
  }

  // -------- parts of a text --------

  lemma PartsExactly(s: string, p: string)
    ensures HasPrefix(s, p) <==> exists rest :: s == p + rest
    ensures HasSuffix(s, p) <==> exists rest :: s == rest + p
  {
    if HasPrefix(s, p) {
      assert s == p + s[|p|..];
    }
    if HasSuffix(s, p) {
      assert s == s[..|s| - |p|] + p;
    }
    if rest :| s == rest + p {
      assert s[|s| - |p|..] == p;
    }
  }

  predicate OccursAt(s: string, p: string, i: nat) {
    i + |p| <= |s| && s[i..i + |p|] == p
  }

  lemma {:induction false} ContainsExactly(s: string, p: string)
    ensures Contains(s, p) <==> exists i :: OccursAt(s, p, i)
    decreases |s|
  {
    if HasPrefix(s, p) {
      assert OccursAt(s, p, 0);
    }
    if OccursAt(s, p, 0) {
      assert s[0..|p|] == s[..|p|];
    }
    if s != "" {
      ContainsExactly(s[1..], p);
      if i: nat :| i > 0 && OccursAt(s, p, i) {
        assert s[1..][i - 1..i - 1 + |p|] == s[i..i + |p|];
        assert OccursAt(s[1..], p, i - 1);
      }
      if i: nat :| OccursAt(s[1..], p, i) {
        assert s[i + 1..i + 1 + |p|] == s[1..][i..i + |p|];
        assert OccursAt(s, p, i + 1);
      }
    }
  }

  // -------- lines --------

  /** Every CRLF becomes an LF, read from the left; nothing else changes. */
  lemma NormaliseExactly(s: string, c: char)
    ensures Normalise("") == "" && Normalise("\r\n" + s) == "\n" + Normalise(s)
    ensures !(c == '\r' && s != "" && s[0] == '\n') ==> Normalise([c] + s) == [c] + Normalise(s)
  {
    assert ([c] + s)[1..] == s;
    var t := "\r\n" + s;
    assert t[1..] == "\n" + s && t[1..][1..] == s;
    assert Normalise(t) == Normalise(t[1..]);
  }

  function JoinedBy(lines: seq<string>): string
    requires lines != []
  {
    if |lines| == 1 then lines[0] else lines[0] + "\n" + JoinedBy(lines[1..])
  }

  /** Lines hold no LF, and put together with one between each two they are the text. */
  lemma {:induction false} LinesExactly(s: string)
    ensures JoinedBy(Lines(s)) == s && forall l | l in Lines(s) :: '\n' !in l
    decreases |s|
  {
    if s != "" {
      var rest := Lines(s[1..]);
      LinesExactly(s[1..]);
      if s[0] == '\n' {
        assert Lines(s)[1..] == rest;
        assert "" + "\n" + JoinedBy(rest) == s;
      } else {
        assert Lines(s)[1..] == rest[1..];
        assert rest[0] in rest;
        if |rest| == 1 {
          assert [s[0]] + rest[0] == s;
        } else {
          assert ([s[0]] + rest[0]) + "\n" + JoinedBy(rest[1..]) == [s[0]] + (rest[0] + "\n" + JoinedBy(rest[1..]));
        }
        assert forall l | l in Lines(s) :: l == [s[0]] + rest[0] || l in rest;
      }
    }
  }

  /** The UTF-8 form takes one byte for ASCII, and up to four. */
  lemma BytesExactly(c: char, s: string)
    ensures Bytes("") == 0 && Bytes([c] + s) == Bytes([c]) + Bytes(s)
    ensures c as int <= 0x7f ==> Bytes([c]) == 1
    ensures 0x80 <= c as int <= 0x7ff ==> Bytes([c]) == 2
    ensures 0x800 <= c as int <= 0xffff ==> Bytes([c]) == 3
    ensures 0x10000 <= c as int ==> Bytes([c]) == 4
  {
    assert ([c] + s)[1..] == s && [c][1..] == "";
  }

  // -------- numbers --------

  /** Decimal digits, the last one counting once and each other ten times what follows. */
  lemma DigitsExactly(s: string, d: nat)
    requires d < 10 && forall k | 0 <= k < |s| :: '0' <= s[k] <= '9'
    ensures Digits("") == 0 && Digits(s + ["0123456789"[d]]) == 10 * Digits(s) + d
  {
    var c := "0123456789"[d];
    assert c as int - '0' as int == d;
    assert (s + [c])[..|s|] == s;
  }

  lemma {:induction false} NoLeadingZero(n: nat)
    ensures n > 0 ==> Itoa(n)[0] != '0'
    ensures n < 10 ==> Itoa(n) == ["0123456789"[n]]
    decreases n
  {
    if n >= 10 {
      NoLeadingZero(n / 10);
      assert Itoa(n)[0] == Itoa(n / 10)[0];
    }
  }

  lemma DigitExactly(c: char)
    ensures IsDigit(c) <==> c in "0123456789"
  {
  }
}

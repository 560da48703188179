/** The string operations the handlers share. Case folding covers ASCII letters only. */
module Text {

  predicate IsSpace(c: char) {
    c == ' ' || '\t' <= c <= '\r' || c == '\U{0085}' || c == '\U{00A0}' || c == '\U{1680}'
    || '\U{2000}' <= c <= '\U{200A}' || c == '\U{2028}' || c == '\U{2029}' || c == '\U{202F}'
    || c == '\U{205F}' || c == '\U{3000}'
  }

  function TrimLeft(s: string): (r: string)
    ensures r == "" || !IsSpace(r[0])
    ensures |r| <= |s|
  {
    if s == "" then "" else if IsSpace(s[0]) then TrimLeft(s[1..]) else s
  }

  function TrimRight(s: string): (r: string)
    ensures r == "" || !IsSpace(r[|r| - 1])
    ensures |r| <= |s| && r == s[..|r|]
  {
    if s == "" then ""
    else if IsSpace(s[|s| - 1]) then TrimRight(s[..|s| - 1])
    else s
  }

  /** Go's strings.TrimSpace. */
  function Trim(s: string): (r: string)
    ensures r == "" || (!IsSpace(r[0]) && !IsSpace(r[|r| - 1]))
  {
    TrimRight(TrimLeft(s))
  }

  /** SQL's TRIM, which removes plain spaces only. */
  function SqlTrim(s: string): string {
    if s == "" then "" else if s[0] == ' ' then SqlTrim(s[1..])
    else if s[|s| - 1] == ' ' then SqlTrim(s[..|s| - 1]) else s
  }

  predicate Trimmed(s: string) {
    s == "" || (!IsSpace(s[0]) && !IsSpace(s[|s| - 1]))
  }

  /** Trimming a string that has no blank at either end changes nothing; so trimming is idempotent. */
  lemma TrimStable(s: string)
    ensures Trimmed(Trim(s))
    ensures Trimmed(s) ==> Trim(s) == s
  {
  }

  function LowerChar(c: char): char {
    if 'A' <= c <= 'Z' then c - 'A' + 'a' else c
  }

  function Lower(s: string): (r: string)
    ensures |r| == |s|
    ensures forall i | 0 <= i < |s| :: r[i] == LowerChar(s[i])
  {
    seq(|s|, i requires 0 <= i < |s| => LowerChar(s[i]))
  }

  predicate HasPrefix(s: string, p: string) {
    |p| <= |s| && s[..|p|] == p
  }

  predicate HasSuffix(s: string, p: string) {
    |p| <= |s| && s[|s| - |p|..] == p
  }

  predicate Contains(s: string, p: string) {
    HasPrefix(s, p) || (s != "" && Contains(s[1..], p))
  }

  // -------- lines --------

  /** The CR of a CRLF pair at the front of the text. */
  predicate StartsEnding(s: string) {
    |s| >= 2 && s[0] == '\r' && s[1] == '\n'
  }

  /** Every CRLF replaced by an LF: a CR goes when an LF follows it. */
  function Normalise(s: string): string {
    if s == "" then "" else (if StartsEnding(s) then "" else [s[0]]) + Normalise(s[1..])
  }

  /** The text split at every LF. */
  function Lines(s: string): (lines: seq<string>)
    ensures lines != []
  {
    if s == "" then [""]
    else
      var rest := Lines(s[1..]);
      if s[0] == '\n' then [""] + rest else [[s[0]] + rest[0]] + rest[1..]
  }

  /** The length in bytes of the UTF-8 form. */
  function Bytes(s: string): nat {
    if s == "" then 0
    else
      var width := if s[0] < '\U{0080}' then 1 else if s[0] < '\U{0800}' then 2
        else if s[0] < '\U{10000}' then 3 else 4;
      width + Bytes(s[1..])
  }

  // -------- numbers --------

  predicate IsDigit(c: char) {
    '0' <= c <= '9'
  }

  function DigitChar(d: nat): (c: char)
    requires d < 10
    ensures '0' <= c <= '9' && c as int - '0' as int == d
  {
    '0' + d as char
  }

  /** A number in decimal, as strconv.Itoa and a cast to text write it. */
  function Itoa(n: nat): (s: string)
    ensures s != "" && forall k | 0 <= k < |s| :: '0' <= s[k] <= '9'
  {
    if n < 10 then [DigitChar(n)] else Itoa(n / 10) + [DigitChar(n % 10)]
  }

  function Digits(s: string): (n: nat)
    requires forall k | 0 <= k < |s| :: '0' <= s[k] <= '9'
  {
    if s == "" then 0 else 10 * Digits(s[..|s| - 1]) + (s[|s| - 1] as int - '0' as int)
  }

  lemma {:induction false} DigitsOfItoa(n: nat)
    ensures Digits(Itoa(n)) == n
    decreases n
  {
    if n >= 10 {
      DigitsOfItoa(n / 10);
      assert Itoa(n)[..|Itoa(n)| - 1] == Itoa(n / 10);
    } else {
      assert Itoa(n)[..0] == "";
    }
  }
}

/** The writer that breaks base64 text into lines of 76 bytes, over a sink whose writes may fail. */
module LineWriter {
  import opened Sequences

  newtype byte = x: int | 0 <= x < 256

  const LINE: nat := 76
  const CRLF: seq<byte> := [13, 10]

  // -------- the text the writer has to produce --------

  /** The input in lines of 76 bytes, a line break between two lines and none after the last. */
  function Wrap(s: seq<byte>): seq<byte> {
    if |s| <= LINE then s else s[..LINE] + CRLF + Wrap(s[LINE..])
  }

  /** The length of the last line. */
  function LastLine(s: seq<byte>): nat {
    if s == [] then 0 else (|s| - 1) % LINE + 1
  }

  predicate IsBreak(b: byte) {
    b == 13 || b == 10
  }

  /** What a decoder reads: it ignores line breaks. */
  function WithoutBreaks(s: seq<byte>): seq<byte> {
    if s == [] then [] else (if IsBreak(s[0]) then [] else [s[0]]) + WithoutBreaks(s[1..])
  }

  /** A line break stands before position 76 of every 78 bytes, and the rest is the input in order. */
  lemma {:induction false} WrapAt(s: seq<byte>, k: nat)
    requires k < |Wrap(s)|
    ensures k % 78 == 76 ==> k + 2 < |Wrap(s)| && Wrap(s)[k] == 13 && Wrap(s)[k + 1] == 10
    ensures k % 78 < 76 ==> k - 2 * (k / 78) < |s| && Wrap(s)[k] == s[k - 2 * (k / 78)]
    decreases |s|
  {
    if |s| > LINE && k >= 78 {
      WrapAt(s[LINE..], k - 78);
      assert k / 78 == (k - 78) / 78 + 1 && k % 78 == (k - 78) % 78;
    }
  }

  /** No line is longer than 76 bytes: any 77 consecutive bytes contain a line break. */
  lemma LinesAreShort(s: seq<byte>, k: nat)
    requires k + 77 <= |Wrap(s)|
    ensures exists j :: k <= j < k + 77 && IsBreak(Wrap(s)[j])
  {
    var j := if k % 78 == 77 then k else k + 76 - k % 78;
    assert k % 78 == 77 ==> (k - 1) % 78 == 76;
    assert k % 78 != 77 ==> j == 78 * (k / 78) + 76;
    assert k % 78 != 77 ==> j % 78 == 76;
    WrapAt(s, if k % 78 == 77 then k - 1 else j);
  }

  /** The output ends with the last byte of the input, never with a line break of the writer's own. */
  lemma {:induction false} EndsWithInput(s: seq<byte>)
    requires s != []
    ensures Wrap(s) != [] && Wrap(s)[|Wrap(s)| - 1] == s[|s| - 1]
    decreases |s|
  {
    if |s| > LINE {
      EndsWithInput(s[LINE..]);
    }
  }

  lemma {:induction false} WithoutBreaksAppend(s: seq<byte>, t: seq<byte>)
    ensures WithoutBreaks(s + t) == WithoutBreaks(s) + WithoutBreaks(t)
    decreases |s|
  {
    if s == [] {
      assert s + t == t;
    } else {
      assert (s + t)[1..] == s[1..] + t;
      WithoutBreaksAppend(s[1..], t);
    }
  }

  lemma {:induction false} NoBreaks(s: seq<byte>)
    requires forall b | b in s :: !IsBreak(b)
    ensures WithoutBreaks(s) == s
    decreases |s|
  {
    if s != [] {
      NoBreaks(s[1..]);
    }
  }

  /** Ignoring the line breaks gives back the encoder's text, which has none of its own. */
  lemma {:induction false} RecoversInput(s: seq<byte>)
    requires forall b | b in s :: !IsBreak(b)
    ensures WithoutBreaks(Wrap(s)) == s
    decreases |s|
  {
    NoBreaks(s);
    if |s| > LINE {
      var line, rest := s[..LINE], s[LINE..];
      RecoversInput(rest);
      NoBreaks(line);
      WithoutBreaksAppend(line + CRLF, Wrap(rest));
      WithoutBreaksAppend(line, CRLF);
      assert WithoutBreaks(CRLF) == [] by {
        assert CRLF[1..] == [10] && [10 as byte][1..] == [];
      }
      assert WithoutBreaks(Wrap(s)) == line + rest;
    }
  }

  // -------- extending a wrapped text --------

  lemma {:induction false} WrapMore(s: seq<byte>, t: seq<byte>)
    requires LastLine(s) + |t| <= LINE
    ensures Wrap(s + t) == Wrap(s) + t
    decreases |s|
  {
    if |s| > LINE {
      assert (|s| - 1) % LINE == (|s[LINE..]| - 1) % LINE;
      WrapMore(s[LINE..], t);
      assert (s + t)[..LINE] == s[..LINE] && (s + t)[LINE..] == s[LINE..] + t;
    }
  }

  lemma {:induction false} WrapBreak(s: seq<byte>, t: seq<byte>)
    requires LastLine(s) == LINE && 0 < |t| <= LINE
    ensures Wrap(s + t) == Wrap(s) + CRLF + t
    decreases |s|
  {
    if |s| > LINE {
      assert (|s| - 1) % LINE == (|s[LINE..]| - 1) % LINE;
      WrapBreak(s[LINE..], t);
      assert (s + t)[..LINE] == s[..LINE] && (s + t)[LINE..] == s[LINE..] + t;
    } else {
      assert (s + t)[..LINE] == s && (s + t)[LINE..] == t;
    }
  }

  lemma LastLineMore(s: seq<byte>, t: seq<byte>)
    requires t != [] && (LastLine(s) + |t| <= LINE || (LastLine(s) == LINE && |t| <= LINE))
    ensures LastLine(s + t) == (if LastLine(s) == LINE then 0 else LastLine(s)) + |t|
  {
    if s != [] {
      var q, r := (|s| - 1) / LINE, (|s| - 1) % LINE;
      assert |s| - 1 == LINE * q + r;
      if r + 1 == LINE {
        assert |s + t| - 1 == LINE * (q + 1) + (|t| - 1);
      } else {
        assert |s + t| - 1 == LINE * q + (r + |t|);
      }
    }
  }

  // -------- the writer --------

  /**
   * What the sink holds: the wrapped input. Only when the write after a line break failed does it
   * also hold that line break, and then the writer knows that a line has begun.
   */
  ghost predicate Holds(lineLen: nat, input: seq<byte>, data: seq<byte>) {
    if lineLen == LastLine(input) then data == Wrap(input)
    else lineLen == 0 && LastLine(input) == LINE && data == Wrap(input) + CRLF
  }

  lemma Broken(input: seq<byte>, data: seq<byte>)
    requires Holds(LINE, input, data)
    ensures Holds(0, input, data + CRLF)
  {
  }

  lemma Extended(lineLen: nat, input: seq<byte>, data: seq<byte>, part: seq<byte>)
    requires Holds(lineLen, input, data) && lineLen < LINE && 0 < |part| <= LINE - lineLen
    ensures Holds(lineLen + |part|, input + part, data + part)
    ensures data + part == Wrap(input + part)
  {
    if lineLen == LastLine(input) {
      WrapMore(input, part);
    } else {
      WrapBreak(input, part);
    }
    LastLineMore(input, part);
  }

  /** The underlying writer: it takes a write whole or fails, and may stop accepting writes at any time. */
  class Sink {
    var data: seq<byte>
    var accepts: nat

    constructor (accepts: nat)
      ensures data == [] && this.accepts == accepts
    {
      this.accepts := accepts;
      data := [];
    }

    method Write(p: seq<byte>) returns (ok: bool)
      modifies this
      ensures ok == (old(accepts) > 0)
      ensures ok ==> data == old(data) + p && accepts == old(accepts) - 1
      ensures !ok ==> data == old(data) && accepts == old(accepts)
    {
      ok := accepts > 0;
      if ok {
        data, accepts := data + p, accepts - 1;
      }
    }
  }

  /** What the sink holds and what is left after the next `n` bytes of the call have been written. */
  lemma Taken(before: seq<byte>, text: seq<byte>, input: seq<byte>, done: seq<byte>, rest: seq<byte>, n: nat)
    requires n <= |rest|
    ensures before + text + rest[..n] == before + (text + rest[..n])
    ensures input + done + rest[..n] == input + (done + rest[..n])
    ensures done + rest == done + rest[..n] + rest[n..]
  {
    Regroup(before, text, rest[..n]);
    Regroup(input, done, rest[..n]);
    Regroup(done, rest[..n], rest[n..]);
    assert rest == rest[..n] + rest[n..];
  }

  class LineWriter {
    const w: Sink
    var lineLen: nat
    ghost const before: seq<byte>
    ghost var input: seq<byte>
    ghost var text: seq<byte>

    ghost predicate Valid()
      reads this, w
    {
      lineLen <= LINE && w.data == before + text && Holds(lineLen, input, text)
    }

    constructor (w: Sink)
      ensures Valid() && this.w == w && before == w.data && input == []
    {
      this.w := w;
      lineLen := 0;
      before, input, text := w.data, [], [];
    }

    /**
     * The bytes reported as written extend the wrapped input; a call that reports fewer than it was
     * given reports an error, and a later call goes on from there.
     */
    method Write(p: seq<byte>) returns (written: nat, ok: bool)
      requires Valid()
      modifies this, w
      ensures Valid()
      ensures written <= |p| && input == old(input) + p[..written]
      ensures ok ==> written == |p|
      ensures !ok ==> w.accepts == 0 && old(w.accepts) < 2 * |p|
      ensures written > 0 && ok ==> w.data == before + Wrap(input)
    {
      written, ok := 0, true;
      var rest := p;
      ghost var done: seq<byte> := [];
      while |rest| > 0
        invariant Valid()
        invariant written == |done| && p == done + rest && input == old(input) + done
        invariant written > 0 ==> text == Wrap(input)
        invariant w.accepts + 2 * written >= old(w.accepts)
      {
        var remaining := LINE - lineLen;
        if remaining == 0 {
          ok := w.Write(CRLF);
          if !ok {
            return;
          }
          lineLen := 0;
          remaining := LINE;
          Broken(input, text);
          Regroup(before, text, CRLF);
          text := text + CRLF;
        }
        var n := if remaining > |rest| then |rest| else remaining;
        var part := rest[..n];
        ok := w.Write(part);
        if !ok {
          return;
        }
        Extended(lineLen, input, text, part);
        Taken(before, text, old(input), done, rest, n);
        text, input, done := text + part, input + part, done + part;
        written := written + n;
        lineLen := lineLen + n;
        rest := rest[n..];
      }
    }
  }
}

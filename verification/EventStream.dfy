/**
 * The event-stream reader of the rules assistant: chunks of decoded text go into a buffer,
 * and every block that a blank line completes is dispatched to its handler.
 */
module EventStream {
  import opened Common
  import opened Sequences
  import opened Text

  const BLANK_LINE := "\n\n"

  datatype Dispatch = Dispatch(event: string, data: string)

  // -------- chunks --------

  function Concat(chunks: seq<string>): string {
    if chunks == [] then "" else chunks[0] + Concat(chunks[1..])
  }

  /** Each chunk is normalised on its own. */
  function Received(chunks: seq<string>): string {
    if chunks == [] then "" else Normalise(chunks[0]) + Received(chunks[1..])
  }

  // -------- blocks --------

  predicate BlankAt(s: string, i: nat) {
    i + 2 <= |s| && s[i] == '\n' && s[i + 1] == '\n'
  }

  /** indexOf('\n\n'): the leftmost blank line, if there is one. */
  function FindBlank(s: string): (b: Option<nat>)
    ensures b.Some? ==> BlankAt(s, b.value) && forall i: nat | i < b.value :: !BlankAt(s, i)
    ensures b.None? ==> forall i: nat :: !BlankAt(s, i)
  {
    if |s| < 2 then None
    else if BlankAt(s, 0) then Some(0)
    else
      var rest := FindBlank(s[1..]);
      assert forall i: nat | i > 0 :: BlankAt(s, i) == BlankAt(s[1..], i - 1);
      if rest.None? then None else Some(rest.value + 1)
  }

  /** The blocks that blank lines complete, from the left. */
  function Blocks(s: string): seq<string>
    decreases |s|
  {
    var b := FindBlank(s);
    if b.None? then [] else [s[..b.value]] + Blocks(s[b.value + 2..])
  }

  /** What is left unfinished after the last blank line. */
  function Tail(s: string): string
    decreases |s|
  {
    var b := FindBlank(s);
    if b.None? then s else Tail(s[b.value + 2..])
  }

  // -------- one block --------

  predicate IsJsSpace(c: char) {
    (IsSpace(c) && c != '\U{0085}') || c == '\U{FEFF}'
  }

  /** JavaScript's trim. */
  function JsTrim(s: string): string {
    if s == "" then "" else if IsJsSpace(s[0]) then JsTrim(s[1..])
    else if IsJsSpace(s[|s| - 1]) then JsTrim(s[..|s| - 1]) else s
  }

  const START := Dispatch("", "")

  function ParseLine(acc: Dispatch, line: string): Dispatch {
    var named := if HasPrefix(line, "event:") then acc.(event := JsTrim(line[6..])) else acc;
    if HasPrefix(line, "data:") then named.(data := named.data + JsTrim(line[5..])) else named
  }

  /** The last event line names the event; the data lines are joined without a newline. */
  function ParseLines(lines: seq<string>, acc: Dispatch): Dispatch
    decreases |lines|
  {
    if lines == [] then acc else ParseLines(lines[1..], ParseLine(acc, lines[0]))
  }

  function ParseBlock(block: string): Dispatch {
    ParseLines(Lines(block), START)
  }

  /** A block without data, or for an event without a handler, is skipped. */
  function Emit(d: Dispatch, handlers: set<string>): seq<Dispatch> {
    if d.data != "" && d.event in handlers then [d] else []
  }

  function Deliver(block: string, handlers: set<string>): seq<Dispatch> {
    Emit(ParseBlock(block), handlers)
  }

  function DeliverAll(blocks: seq<string>, handlers: set<string>): seq<Dispatch> {
    if blocks == [] then [] else Deliver(blocks[0], handlers) + DeliverAll(blocks[1..], handlers)
  }

  // -------- splitting is unique --------

  /** Blocks that no earlier blank line could have ended. */
  ghost predicate Complete(block: string) {
    FindBlank(block + "\n").None?
  }

  function Joined(blocks: seq<string>, tail: string): string {
    if blocks == [] then tail else blocks[0] + BLANK_LINE + Joined(blocks[1..], tail)
  }

  lemma FindBlankAt(block: string, rest: string)
    requires Complete(block)
    ensures FindBlank(block + BLANK_LINE + rest) == Some(|block|)
  {
    var s := block + BLANK_LINE + rest;
    assert BlankAt(s, |block|);
    forall i: nat | i < |block| ensures !BlankAt(s, i) {
      assert !BlankAt(block + "\n", i);
    }
  }

  lemma FoundIsComplete(s: string, b: nat)
    requires FindBlank(s) == Some(b)
    ensures Complete(s[..b]) && s == s[..b] + BLANK_LINE + s[b + 2..]
  {
    forall i: nat ensures !BlankAt(s[..b] + "\n", i) {
      assert i < b ==> !BlankAt(s, i);
    }
  }

  lemma {:induction false} SplitsBack(s: string)
    ensures Joined(Blocks(s), Tail(s)) == s
    ensures FindBlank(Tail(s)).None?
    ensures forall b | b in Blocks(s) :: Complete(b)
    decreases |s|
  {
    var b := FindBlank(s);
    if b.Some? {
      FoundIsComplete(s, b.value);
      SplitsBack(s[b.value + 2..]);
      assert Blocks(s)[1..] == Blocks(s[b.value + 2..]);
    }
  }

  /** Any way of writing a text as complete blocks, blank lines and an unfinished tail is the reader's way. */
  lemma {:induction false} SplitIsUnique(blocks: seq<string>, tail: string)
    requires FindBlank(tail).None? && forall b | b in blocks :: Complete(b)
    ensures Blocks(Joined(blocks, tail)) == blocks && Tail(Joined(blocks, tail)) == tail
    decreases |blocks|
  {
    if blocks != [] {
      var rest := Joined(blocks[1..], tail);
      FindBlankAt(blocks[0], rest);
      SplitIsUnique(blocks[1..], tail);
      var s := blocks[0] + BLANK_LINE + rest;
      assert s[..|blocks[0]|] == blocks[0] && s[|blocks[0]| + 2..] == rest;
    }
  }

  // -------- splitting piece by piece --------

  lemma FindBlankAppend(s: string, t: string)
    requires FindBlank(s).Some?
    ensures FindBlank(s + t) == FindBlank(s)
  {
    var b := FindBlank(s).value;
    assert BlankAt(s + t, b);
    forall i: nat | i < b ensures !BlankAt(s + t, i) {
      assert !BlankAt(s, i);
    }
  }

  /** More text leaves the blocks found so far alone, wherever the text was cut. */
  lemma {:induction false} SplitAppend(s: string, t: string)
    ensures Blocks(s + t) == Blocks(s) + Blocks(Tail(s) + t)
    ensures Tail(s + t) == Tail(Tail(s) + t)
    decreases |s|
  {
    var b := FindBlank(s);
    if b.Some? {
      var rest := s[b.value + 2..];
      FindBlankAppend(s, t);
      assert (s + t)[..b.value] == s[..b.value] && (s + t)[b.value + 2..] == rest + t;
      SplitAppend(rest, t);
      assert Blocks(s + t) == [s[..b.value]] + Blocks(rest + t);
    }
  }

  lemma DeliverHead(block: string, rest: seq<string>, handlers: set<string>)
    ensures DeliverAll([block] + rest, handlers) == Deliver(block, handlers) + DeliverAll(rest, handlers)
  {
    assert ([block] + rest)[1..] == rest;
  }

  lemma {:induction false} DeliverAppend(a: seq<string>, b: seq<string>, handlers: set<string>)
    ensures DeliverAll(a + b, handlers) == DeliverAll(a, handlers) + DeliverAll(b, handlers)
    decreases |a|
  {
    if a == [] {
      assert a + b == b;
    } else {
      var first, rest := a[0], a[1..];
      DeliverAppend(rest, b, handlers);
      assert a == [first] + rest && a + b == [first] + (rest + b);
      DeliverHead(first, rest, handlers);
      DeliverHead(first, rest + b, handlers);
      Regroup(Deliver(first, handlers), DeliverAll(rest, handlers), DeliverAll(b, handlers));
    }
  }

  lemma DeliverFirst(s: string, handlers: set<string>)
    requires FindBlank(s).Some?
    ensures var b := FindBlank(s).value;
      && DeliverAll(Blocks(s), handlers) == Deliver(s[..b], handlers) + DeliverAll(Blocks(s[b + 2..]), handlers)
      && Tail(s) == Tail(s[b + 2..])
  {
    var b := FindBlank(s).value;
    assert Blocks(s) == [s[..b]] + Blocks(s[b + 2..]);
    assert Blocks(s)[1..] == Blocks(s[b + 2..]);
  }

  lemma {:induction false} ReceivedAppend(chunks: seq<string>, chunk: string)
    ensures Received(chunks + [chunk]) == Received(chunks) + Normalise(chunk)
    ensures Concat(chunks + [chunk]) == Concat(chunks) + chunk
    decreases |chunks|
  {
    if chunks != [] {
      ReceivedAppend(chunks[1..], chunk);
      assert (chunks + [chunk])[1..] == chunks[1..] + [chunk];
    }
  }

  /** One more chunk: what was dispatched stays dispatched, and the buffer holds all that is still to come. */
  lemma ChunkArrives(chunks: seq<string>, k: nat, handlers: set<string>)
    requires k < |chunks|
    ensures var text, more := Received(chunks[..k]), Received(chunks[..k + 1]);
      var buffer := Tail(text) + Normalise(chunks[k]);
      && DeliverAll(Blocks(more), handlers) == DeliverAll(Blocks(text), handlers) + DeliverAll(Blocks(buffer), handlers)
      && Tail(more) == Tail(buffer)
  {
    var text := Received(chunks[..k]);
    assert chunks[..k + 1] == chunks[..k] + [chunks[k]];
    ReceivedAppend(chunks[..k], chunks[k]);
    SplitAppend(text, Normalise(chunks[k]));
    DeliverAppend(Blocks(text), Blocks(Tail(text) + Normalise(chunks[k])), handlers);
  }

  /**
   * The reader. Whatever the chunks, it dispatches exactly the complete blocks of the text it has
   * received and keeps the unfinished rest in its buffer.
   */
  method ReadSSE(chunks: seq<string>, handlers: set<string>) returns (out: seq<Dispatch>, buffer: string)
    ensures out == DeliverAll(Blocks(Received(chunks)), handlers)
    ensures buffer == Tail(Received(chunks))
  {
    buffer, out := "", [];
    for k := 0 to |chunks|
      invariant out == DeliverAll(Blocks(Received(chunks[..k])), handlers)
      invariant buffer == Tail(Received(chunks[..k]))
    {
      ChunkArrives(chunks, k, handlers);
      buffer := buffer + Normalise(chunks[k]);
      ghost var all, tail := DeliverAll(Blocks(Received(chunks[..k + 1])), handlers), Tail(Received(chunks[..k + 1]));
      var boundary := FindBlank(buffer);
      while boundary.Some?
        invariant boundary == FindBlank(buffer)
        invariant all == out + DeliverAll(Blocks(buffer), handlers) && tail == Tail(buffer)
        decreases |buffer|
      {
        var block := buffer[..boundary.value];
        DeliverFirst(buffer, handlers);
        Regroup(out, Deliver(block, handlers), DeliverAll(Blocks(buffer[boundary.value + 2..]), handlers));
        buffer := buffer[boundary.value + 2..];
        out := out + Deliver(block, handlers);
        boundary := FindBlank(buffer);
      }
    }
    assert chunks[..|chunks|] == chunks;
  }

  // -------- cuts inside a line ending --------

  /** A cut that separates the CR of a line ending from its LF. */
  predicate CutsEnding(s: string, t: string) {
    s != "" && t != "" && s[|s| - 1] == '\r' && t[0] == '\n'
  }

  /** How many of the cuts do, the text before the first chunk included. */
  function CutEndings(before: string, chunks: seq<string>): nat
    decreases |chunks|
  {
    if chunks == [] then 0
    else (if CutsEnding(before, chunks[0]) then 1 else 0) + CutEndings(before + chunks[0], chunks[1..])
  }

  /** What is left of the first character. */
  function Head(s: string): string
    requires s != ""
  {
    if StartsEnding(s) then "" else [s[0]]
  }

  lemma NormaliseHead(first: char, rest: string)
    ensures Normalise([first] + rest) == Head([first] + rest) + Normalise(rest)
  {
    assert ([first] + rest)[1..] == rest;
  }

  /** Normalising in two parts misses the line ending that the cut separates, and nothing else. */
  lemma {:induction false} NormaliseAppend(s: string, t: string)
    ensures !CutsEnding(s, t) ==> Normalise(s + t) == Normalise(s) + Normalise(t)
    ensures |Normalise(s)| + |Normalise(t)| == |Normalise(s + t)| + if CutsEnding(s, t) then 1 else 0
    decreases |s|
  {
    if s == "" {
      assert s + t == t;
    } else {
      var first, rest := s[0], s[1..];
      NormaliseAppend(rest, t);
      assert s == [first] + rest && s + t == [first] + (rest + t);
      NormaliseHead(first, rest);
      NormaliseHead(first, rest + t);
      HeadAppend(first, rest, t);
      Regroup(Head(s), Normalise(rest), Normalise(t));
    }
  }

  /** More text matters to the first character only when there is no other. */
  lemma HeadAppend(first: char, rest: string, t: string)
    ensures rest != "" ==>
      Head([first] + (rest + t)) == Head([first] + rest) && CutsEnding([first] + rest, t) == CutsEnding(rest, t)
    ensures rest == "" ==> |Head([first] + rest)| == 1 && rest + t == t
    ensures rest == "" ==> |Head([first] + (rest + t))| == if CutsEnding([first] + rest, t) then 0 else 1
    ensures rest == "" && !CutsEnding([first] + rest, t) ==> Head([first] + (rest + t)) == Head([first] + rest)
    ensures !CutsEnding("", t)
  {
    if rest != "" {
      assert ([first] + (rest + t))[1] == rest[0] == ([first] + rest)[1];
    }
  }

  lemma {:induction false} ReceivedLength(before: string, chunks: seq<string>)
    ensures |Normalise(before)| + |Received(chunks)|
      == |Normalise(before + Concat(chunks))| + CutEndings(before, chunks)
    ensures CutEndings(before, chunks) == 0 ==>
      Normalise(before) + Received(chunks) == Normalise(before + Concat(chunks))
    decreases |chunks|
  {
    if chunks == [] {
      assert before + Concat(chunks) == before;
      assert Normalise(before) + Received(chunks) == Normalise(before);
    } else {
      var next, rest := before + chunks[0], chunks[1..];
      NormaliseAppend(before, chunks[0]);
      ReceivedLength(next, rest);
      Regroup(before, chunks[0], Concat(rest));
      Regroup(Normalise(before), Normalise(chunks[0]), Received(rest));
    }
  }

  /** The reader works on the normalised stream if and only if no cut falls inside a line ending. */
  lemma ReceivedExactly(chunks: seq<string>)
    ensures Received(chunks) == Normalise(Concat(chunks)) <==> CutEndings("", chunks) == 0
  {
    ReceivedLength("", chunks);
    assert "" + Concat(chunks) == Concat(chunks);
  }

  /**
   * So two ways of cutting the same stream dispatch the same events, also when a cut separates the
   * two newlines of a blank line.
   */
  lemma CuttingDoesNotMatter(chunks: seq<string>, others: seq<string>, handlers: set<string>)
    requires Concat(chunks) == Concat(others)
    requires CutEndings("", chunks) == 0 && CutEndings("", others) == 0
    ensures DeliverAll(Blocks(Received(chunks)), handlers) == DeliverAll(Blocks(Received(others)), handlers)
    ensures DeliverAll(Blocks(Received(chunks)), handlers) == DeliverAll(Blocks(Normalise(Concat(chunks))), handlers)
  {
    ReceivedExactly(chunks);
    ReceivedExactly(others);
  }

  lemma {:induction false} NormalisePlain(line: string, rest: string)
    requires '\r' !in line
    ensures Normalise(line + rest) == line + Normalise(rest)
    decreases |line|
  {
    if line == "" {
      assert line + rest == rest;
    } else {
      assert (line + rest)[1..] == line[1..] + rest;
      NormalisePlain(line[1..], rest);
    }
  }

  /** The condition is needed: a block whose blank line is cut inside its line ending is never dispatched. */
  lemma CutBlankLineIsLost(line: string)
    requires '\r' !in line && '\n' !in line
    ensures Blocks(Received([line + "\r\n\r", "\n"])) == []
    ensures Blocks(Normalise(Concat([line + "\r\n\r", "\n"]))) == [line]
  {
    var chunks := [line + "\r\n\r", "\n"];
    NormalisePlain(line, "\r\n\r");
    NormaliseTails();
    OneChunk("\n");
    assert chunks[1..] == ["\n"];
    var text := Received(chunks);
    assert text == line + "\n\r" + "\n";
    forall i: nat ensures !BlankAt(text, i) {
      assert i < |line| ==> text[i] == line[i];
    }
    assert Concat(chunks) == line + "\r\n\r\n";
    NormalisePlain(line, "\r\n\r\n");
    assert Normalise(Concat(chunks)) == line + BLANK_LINE + "";
    assert Complete(line) by {
      assert forall i: nat | i < |line| :: (line + "\n")[i] == line[i];
    }
    SplitIsUnique([line], "");
    assert Joined([line], "") == line + BLANK_LINE + Joined([line][1..], "");
  }

  lemma OneChunk(chunk: string)
    ensures Received([chunk]) == Normalise(chunk) && Concat([chunk]) == chunk
  {
    assert [chunk][1..] == [];
  }

  lemma NormaliseTails()
    ensures Normalise("\r\n\r") == "\n\r" && Normalise("\r\n\r\n") == "\n\n" && Normalise("\n") == "\n"
  {
    assert "\r\n\r"[1..] == "\n\r" && "\n\r"[1..] == "\r" && "\r"[1..] == "";
    assert "\r\n\r\n"[1..] == "\n\r\n" && "\n\r\n"[1..] == "\r\n" && "\r\n"[1..] == "\n" && "\n"[1..] == "";
  }
}

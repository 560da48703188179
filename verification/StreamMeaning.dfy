/** What the event-stream reader takes from its chunks, its lines and its blocks, with the field names written out. */
module StreamMeaning {
  import opened Common
  import opened Text
  import opened TextMeaning
  import opened EventStream

  lemma ChunksTakeEach(chunk: string, chunks: seq<string>)
    ensures Concat([]) == "" && Concat([chunk] + chunks) == chunk + Concat(chunks)
    ensures Received([]) == "" && Received([chunk] + chunks) == Normalise(chunk) + Received(chunks)
  {
    assert ([chunk] + chunks)[1..] == chunks;
  }

  // -------- JavaScript's blanks --------

  /** The blanks of `TextMeaning` without the next-line character, and the byte order mark. */
  predicate JsBlank(c: char) {
    c == '\U{FEFF}' || (Blank(c) && c != '\U{0085}')
  }

  lemma JsBlankExactly(c: char)
    ensures IsJsSpace(c) <==> JsBlank(c)
  {
    BlankExactly(c);
  }

  predicate AllJsBlank(s: string) {
    forall c | c in s :: JsBlank(c)
  }

  predicate JsBlankAround(s: string, t: string, i: nat) {
    && i + |t| <= |s| && s[i..i + |t|] == t && AllJsBlank(s[..i]) && AllJsBlank(s[i + |t|..])
  }

  lemma JsBlankInFront(s: string, t: string, i: nat)
    requires s != "" && JsBlank(s[0]) && JsBlankAround(s[1..], t, i)
    ensures JsBlankAround(s, t, i + 1)
  {
    assert s[..i + 1] == [s[0]] + s[1..][..i];
    assert s[i + 1..i + 1 + |t|] == s[1..][i..i + |t|] && s[i + 1 + |t|..] == s[1..][i + |t|..];
  }

  lemma JsBlankBehind(s: string, t: string, i: nat)
    requires s != "" && JsBlank(s[|s| - 1]) && JsBlankAround(s[..|s| - 1], t, i)
    ensures JsBlankAround(s, t, i)
  {
    var init := s[..|s| - 1];
    assert s[..i] == init[..i] && s[i..i + |t|] == init[i..i + |t|];
    assert s[i + |t|..] == init[i + |t|..] + [s[|s| - 1]];
  }

  /** Trimming takes blanks off both ends and nothing else, and leaves none there. */
  lemma {:induction false} JsTrimExactly(s: string) returns (i: nat)
    ensures JsBlankAround(s, JsTrim(s), i)
    ensures JsTrim(s) != "" ==> !JsBlank(JsTrim(s)[0]) && !JsBlank(JsTrim(s)[|JsTrim(s)| - 1])
    decreases |s|
  {
    i := 0;
    if s != "" {
      JsBlankExactly(s[0]);
      JsBlankExactly(s[|s| - 1]);
      if IsJsSpace(s[0]) {
        i := JsTrimExactly(s[1..]);
        JsBlankInFront(s, JsTrim(s), i);
        i := i + 1;
        return;
      } else if IsJsSpace(s[|s| - 1]) {
        i := JsTrimExactly(s[..|s| - 1]);
        JsBlankBehind(s, JsTrim(s), i);
        return;
      }
    }
    assert s[0..|s|] == s && s[..0] == "" && s[|s|..] == "";
  }

  // -------- lines and blocks --------

  predicate BeginsWith(line: string, field: string) {
    |field| <= |line| && line[..|field|] == field
  }

  /** An event line names the event anew, a data line adds to the data, and every other line is passed over. */
  lemma LineExactly(acc: Dispatch, line: string)
    ensures var u := ParseLine(acc, line);
      && (BeginsWith(line, "event:") ==> u.event == JsTrim(line[6..]))
      && (!BeginsWith(line, "event:") ==> u.event == acc.event)
      && (BeginsWith(line, "data:") ==> u.data == acc.data + JsTrim(line[5..]))
      && (!BeginsWith(line, "data:") ==> u.data == acc.data)
  {
  }

  lemma LinesTakeEach(lines: seq<string>, line: string, acc: Dispatch)
    ensures ParseLines([], acc) == acc && ParseLines([line] + lines, acc) == ParseLines(lines, ParseLine(acc, line))
  {
    assert ([line] + lines)[1..] == lines;
  }

  /** A block starts from nothing, and is dispatched if it has data and its event has a handler. */
  lemma BlockExactly(block: string, handlers: set<string>)
    ensures ParseBlock(block) == ParseLines(Lines(block), Dispatch("", ""))
    ensures Deliver(block, handlers)
      == if ParseBlock(block).data == "" || ParseBlock(block).event !in handlers then [] else [ParseBlock(block)]
  {
  }

  lemma BlocksTakeEach(block: string, blocks: seq<string>, handlers: set<string>)
    ensures DeliverAll([], handlers) == []
    ensures DeliverAll([block] + blocks, handlers) == Deliver(block, handlers) + DeliverAll(blocks, handlers)
  {
    assert ([block] + blocks)[1..] == blocks;
  }
}

/**
 * What a cut inside a line ending does to the events dispatched. The reader is first shown to work line
 * by line; a cut then only adds a CR to the end of a line, which matters where the line is empty.
 */
module EventCuts {
  import opened Common
  import opened Sequences
  import opened Text
  import opened EventStream

  // -------- the reader line by line --------

  /** The lines that an LF ends. */
  function Completed(s: string): seq<string> {
    Lines(s)[..|Lines(s)| - 1]
  }

  function LastLine(s: string): string {
    Lines(s)[|Lines(s)| - 1]
  }

  /** An empty line dispatches what has been gathered and starts again; every other line adds to it. */
  function ByLine(lines: seq<string>, acc: Dispatch, handlers: set<string>): seq<Dispatch>
    decreases |lines|
  {
    if lines == [] then []
    else if lines[0] == "" then Emit(acc, handlers) + ByLine(lines[1..], START, handlers)
    else ByLine(lines[1..], ParseLine(acc, lines[0]), handlers)
  }

  /** A character in front of a text's lines. */
  function Onto(c: char, lines: seq<string>): seq<string>
    requires lines != []
  {
    if c == '\n' then [""] + lines else [[c] + lines[0]] + lines[1..]
  }

  lemma LinesHead(c: char, rest: string)
    ensures Lines([c] + rest) == Onto(c, Lines(rest))
  {
    assert ([c] + rest)[1..] == rest;
  }

  lemma OntoAppended(c: char, lines: seq<string>, more: seq<string>)
    requires lines != []
    ensures Onto(c, lines) + more == Onto(c, lines + more)
  {
  }

  lemma FirstOf(c: char, rest: string, t: string)
    ensures [c] + rest + "\n" + t == [c] + (rest + "\n" + t)
  {
  }

  lemma {:induction false} LinesJoin(a: string, t: string)
    ensures Lines(a + "\n" + t) == Lines(a) + Lines(t)
    decreases |a|
  {
    if a == "" {
      assert a + "\n" + t == ['\n'] + t;
      LinesHead('\n', t);
    } else {
      var c, rest := a[0], a[1..];
      assert a == [c] + rest;
      FirstOf(c, rest, t);
      LinesHead(c, rest);
      LinesHead(c, rest + "\n" + t);
      LinesJoin(rest, t);
      OntoAppended(c, Lines(rest), Lines(t));
    }
  }

  /** A text without a blank line has no empty line but its first and its unfinished last. */
  lemma {:induction false} NoBlankLines(s: string)
    requires FindBlank(s).None?
    ensures forall i | 1 <= i < |Lines(s)| - 1 :: Lines(s)[i] != ""
    decreases |s|
  {
    if s != "" {
      var rest := s[1..];
      forall i: nat ensures !BlankAt(rest, i) {
        assert !BlankAt(s, i + 1);
      }
      NoBlankLines(rest);
      var ls := Lines(rest);
      if s[0] == '\n' && |ls| > 1 {
        assert !BlankAt(s, 0);
        assert ls[0] != "" by {
          assert rest != "" && rest[0] == s[1];
        }
      }
    }
  }

  lemma {:induction false} InBlock(ls: seq<string>, more: seq<string>, acc: Dispatch, handlers: set<string>)
    requires forall i | 0 <= i < |ls| :: ls[i] != ""
    ensures ByLine(ls + more, acc, handlers) == ByLine(more, ParseLines(ls, acc), handlers)
    decreases |ls|
  {
    if ls == [] {
      assert ls + more == more;
    } else {
      assert (ls + more)[1..] == ls[1..] + more;
      InBlock(ls[1..], more, ParseLine(acc, ls[0]), handlers);
    }
  }

  /** The lines of one block: the first may be empty, and then says nothing. */
  lemma BlockByLine(ls: seq<string>, more: seq<string>, handlers: set<string>)
    requires forall i | 1 <= i < |ls| :: ls[i] != ""
    ensures ByLine(ls + more, START, handlers) == ByLine(more, ParseLines(ls, START), handlers)
  {
    if ls != [] && ls[0] == "" {
      assert (ls + more)[1..] == ls[1..] + more;
      InBlock(ls[1..], more, START, handlers);
    } else {
      InBlock(ls, more, START, handlers);
    }
  }

  lemma CompletedSplits(block: string, rest: string)
    ensures Completed(block + BLANK_LINE + rest) == Lines(block) + ([""] + Completed(rest))
  {
    assert block + BLANK_LINE + rest == block + "\n" + ("" + "\n" + rest);
    LinesJoin(block, "" + "\n" + rest);
    LinesJoin("", rest);
  }

  /** Looking for blank lines dispatches what reading line by line dispatches. */
  lemma {:induction false} BlocksByLine(s: string, handlers: set<string>)
    ensures DeliverAll(Blocks(s), handlers) == ByLine(Completed(s), START, handlers)
    decreases |s|
  {
    var b := FindBlank(s);
    if b.None? {
      NoBlankLines(s);
      BlockByLine(Completed(s), [], handlers);
      assert Completed(s) + [] == Completed(s);
    } else {
      var block, rest := s[..b.value], s[b.value + 2..];
      FoundIsComplete(s, b.value);
      CompletedSplits(block, rest);
      NoBlankLines(block + "\n");
      LinesJoin(block, "");
      assert block + "\n" + "" == block + "\n";
      assert forall i | 0 <= i < |Lines(block)| :: Lines(block + "\n")[i] == Lines(block)[i];
      BlockByLine(Lines(block), [""] + Completed(rest), handlers);
      assert ([""] + Completed(rest))[1..] == Completed(rest);
      DeliverFirst(s, handlers);
      BlocksByLine(rest, handlers);
    }
  }

  // -------- what the cuts do to the lines --------

  /** For each LF of a chunk, whether a cut separates it from its CR; only the first character's can be. */
  function CutFlags(first: bool, chunk: string): seq<bool> {
    if chunk == "" then []
    else (if chunk[0] == '\n' then [first] else []) + CutFlags(false, chunk[1..])
  }

  /** For each line of the stream that an LF ends, whether its CRLF is cut. */
  function Cuts(before: string, chunks: seq<string>): seq<bool>
    decreases |chunks|
  {
    if chunks == [] then []
    else CutFlags(CutsEnding(before, chunks[0]), chunks[0]) + Cuts(before + chunks[0], chunks[1..])
  }

  function Padded(lines: seq<string>, cuts: seq<bool>): (padded: seq<string>)
    requires |lines| == |cuts|
    ensures |padded| == |lines|
    ensures forall i | 0 <= i < |lines| :: padded[i] == lines[i] + if cuts[i] then "\r" else ""
  {
    seq(|lines|, i requires 0 <= i < |lines| => lines[i] + if cuts[i] then "\r" else "")
  }

  /** The received text `r` has the lines of the normalised text `n`, with a CR where an ending was cut. */
  ghost predicate SameLines(r: string, n: string, cuts: seq<bool>) {
    |Completed(n)| == |cuts| && Completed(r) == Padded(Completed(n), cuts) && LastLine(r) == LastLine(n)
  }

  /** The lines with one more character at the end of the last. */
  function Grown(lines: seq<string>, c: char): seq<string>
    requires lines != []
  {
    lines[..|lines| - 1] + [lines[|lines| - 1] + [c]]
  }

  lemma OntoGrown(first: char, lines: seq<string>, c: char)
    requires lines != []
    ensures Onto(first, Grown(lines, c)) == Grown(Onto(first, lines), c)
  {
    Regroup([first], lines[0], [c]);
  }

  lemma {:induction false} LastLineGrows(s: string, c: char)
    requires c != '\n'
    ensures Lines(s + [c]) == Grown(Lines(s), c)
    decreases |s|
  {
    if s == "" {
      LinesHead(c, "");
      assert s + [c] == [c] + "";
    } else {
      var first, rest := s[0], s[1..];
      assert s == [first] + rest;
      Regroup([first], rest, [c]);
      LinesHead(first, rest);
      LinesHead(first, rest + [c]);
      LastLineGrows(rest, c);
      OntoGrown(first, Lines(rest), c);
    }
  }

  lemma CharAppended(s: string, c: char)
    ensures c == '\n' ==> Completed(s + [c]) == Completed(s) + [LastLine(s)] && LastLine(s + [c]) == ""
    ensures c != '\n' ==> Completed(s + [c]) == Completed(s) && LastLine(s + [c]) == LastLine(s) + [c]
  {
    if c == '\n' {
      LinesJoin(s, "");
      assert s + "\n" + "" == s + [c];
    } else {
      LastLineGrows(s, c);
    }
  }

  lemma PaddedMore(lines: seq<string>, cuts: seq<bool>, line: string, cut: bool)
    requires |lines| == |cuts|
    ensures Padded(lines + [line], cuts + [cut]) == Padded(lines, cuts) + [line + if cut then "\r" else ""]
  {
  }

  lemma SameChar(r: string, n: string, cuts: seq<bool>, c: char)
    requires SameLines(r, n, cuts)
    ensures SameLines(r + [c], n + [c], cuts + if c == '\n' then [false] else [])
  {
    CharAppended(r, c);
    CharAppended(n, c);
    if c == '\n' {
      PaddedMore(Completed(n), cuts, LastLine(n), false);
      assert LastLine(n) + "" == LastLine(n);
    } else {
      assert cuts + [] == cuts;
    }
  }

  lemma {:induction false} SameText(r: string, n: string, cuts: seq<bool>, t: string)
    requires SameLines(r, n, cuts)
    ensures SameLines(r + t, n + t, cuts + CutFlags(false, t))
    decreases |t|
  {
    if t == "" {
      assert r + t == r && n + t == n && cuts + [] == cuts;
    } else {
      var c, rest := t[0], t[1..];
      var flag := if c == '\n' then [false] else [];
      SameChar(r, n, cuts, c);
      SameText(r + [c], n + [c], cuts + flag, rest);
      assert t == [c] + rest;
      Regroup(r, [c], rest);
      Regroup(n, [c], rest);
      Regroup(cuts, flag, CutFlags(false, rest));
    }
  }

  lemma {:induction false} FlagsOfNormalised(chunk: string)
    ensures CutFlags(false, Normalise(chunk)) == CutFlags(false, chunk)
    decreases |chunk|
  {
    if chunk != "" {
      var rest := chunk[1..];
      FlagsOfNormalised(rest);
      if StartsEnding(chunk) {
        assert CutFlags(false, chunk) == [] + CutFlags(false, rest);
        assert Normalise(chunk) == Normalise(rest);
      } else {
        assert Normalise(chunk)[0] == chunk[0] && Normalise(chunk)[1..] == Normalise(rest);
      }
    }
  }

  /** Before a cut the normalised text still ends with the CR that the whole stream loses. */
  lemma NormaliseCut(before: string, chunk: string)
    requires CutsEnding(before, chunk)
    ensures var head := Normalise(before[..|before| - 1]);
      Normalise(before) == head + ['\r'] && Normalise(before + chunk) == head + Normalise(chunk)
  {
    var head := before[..|before| - 1];
    assert before == head + ['\r'] && before + chunk == head + (['\r'] + chunk);
    NormaliseAppend(head, ['\r']);
    NormaliseAppend(head, ['\r'] + chunk);
    assert (['\r'] + chunk)[1..] == chunk && ['\r'][1..] == "";
  }

  /** The chunk begins with the LF of the ending that is cut: the received line keeps the CR. */
  lemma SameCut(r: string, head: string, cuts: seq<bool>)
    requires SameLines(r, head + ['\r'], cuts)
    ensures SameLines(r + ['\n'], head + ['\n'], cuts + [true])
  {
    CharAppended(head, '\r');
    CharAppended(head, '\n');
    CharAppended(r, '\n');
    PaddedMore(Completed(head), cuts, LastLine(head), true);
  }

  lemma SameCutText(r: string, head: string, cuts: seq<bool>, t: string)
    requires SameLines(r, head + ['\r'], cuts)
    ensures SameLines(r + (['\n'] + t), head + (['\n'] + t), cuts + ([true] + CutFlags(false, t)))
  {
    SameCut(r, head, cuts);
    SameText(r + ['\n'], head + ['\n'], cuts + [true], t);
    Regroup(r, ['\n'], t);
    Regroup(head, ['\n'], t);
    Regroup(cuts, [true], CutFlags(false, t));
  }

  lemma SameChunk(r: string, before: string, cuts: seq<bool>, chunk: string)
    requires SameLines(r, Normalise(before), cuts)
    ensures SameLines(
      r + Normalise(chunk), Normalise(before + chunk), cuts + CutFlags(CutsEnding(before, chunk), chunk))
  {
    if CutsEnding(before, chunk) {
      NormaliseCut(before, chunk);
      SameCutText(r, Normalise(before[..|before| - 1]), cuts, Normalise(chunk[1..]));
      FlagsOfNormalised(chunk[1..]);
      assert Normalise(chunk) == ['\n'] + Normalise(chunk[1..]);
    } else {
      NormaliseAppend(before, chunk);
      SameText(r, Normalise(before), cuts, Normalise(chunk));
      FlagsOfNormalised(chunk);
    }
  }

  lemma {:induction false} SameChunks(r: string, before: string, cuts: seq<bool>, chunks: seq<string>)
    requires SameLines(r, Normalise(before), cuts)
    ensures SameLines(r + Received(chunks), Normalise(before + Concat(chunks)), cuts + Cuts(before, chunks))
    decreases |chunks|
  {
    if chunks == [] {
      assert r + Received(chunks) == r && before + Concat(chunks) == before && cuts + Cuts(before, chunks) == cuts;
    } else {
      var c, rest := chunks[0], chunks[1..];
      var flags := CutFlags(CutsEnding(before, c), c);
      SameChunk(r, before, cuts, c);
      SameChunks(r + Normalise(c), before + c, cuts + flags, rest);
      Regroup(r, Normalise(c), Received(rest));
      Regroup(before, c, Concat(rest));
      Regroup(cuts, flags, Cuts(before + c, rest));
    }
  }

  /** The lines received are those of the stream, with a CR at the end of each whose CRLF was cut. */
  lemma ReceivedLines(chunks: seq<string>)
    ensures SameLines(Received(chunks), Normalise(Concat(chunks)), Cuts("", chunks))
  {
    SameChunks("", "", [], chunks);
    assert "" + Received(chunks) == Received(chunks) && "" + Concat(chunks) == Concat(chunks);
    assert [] + Cuts("", chunks) == Cuts("", chunks);
  }

  // -------- a CR at the end of a line --------

  lemma {:induction false} TrimCR(x: string)
    ensures JsTrim(x + "\r") == JsTrim(x)
    decreases |x|
  {
    var s := x + "\r";
    if x == "" {
      assert s == "\r" && s[1..] == "";
    } else if IsJsSpace(x[0]) {
      assert s[1..] == x[1..] + "\r";
      TrimCR(x[1..]);
    } else {
      assert s[..|s| - 1] == x;
    }
  }

  lemma PrefixCR(line: string, p: string)
    requires '\r' !in p
    ensures HasPrefix(line + "\r", p) <==> HasPrefix(line, p)
    ensures HasPrefix(line, p) ==> (line + "\r")[|p|..] == line[|p|..] + "\r"
  {
    var s := line + "\r";
    if |p| <= |line| {
      assert s[..|p|] == line[..|p|];
    } else if |p| == |s| {
      assert s[..|p|][|line|] == '\r';
    }
  }

  /** It says nothing to the parser. */
  lemma ParseCR(acc: Dispatch, line: string)
    ensures ParseLine(acc, line + "\r") == ParseLine(acc, line)
  {
    PrefixCR(line, "event:");
    PrefixCR(line, "data:");
    if HasPrefix(line, "event:") {
      TrimCR(line[6..]);
    }
    if HasPrefix(line, "data:") {
      TrimCR(line[5..]);
    }
  }

  lemma ParseEmpty(acc: Dispatch)
    ensures ParseLine(acc, "") == acc
  {
  }

  // -------- when the events stay the same --------

  /**
   * Where the empty line between blocks is cut, the blocks run together. It does no harm if of the blocks that do
   * at most one carries data, the event they name last is that block's, and none carries data where the stream ends.
   * `held` is the event of the one with data so far, `n` the present block, and `last` the event named last.
   */
  predicate Harmless(lines: seq<string>, cuts: seq<bool>, held: Option<string>, n: Dispatch, last: string)
    requires |lines| == |cuts|
    decreases |lines|
  {
    if lines == [] then held.None?
    else if lines[0] != "" then
      Harmless(lines[1..], cuts[1..], held, ParseLine(n, lines[0]), ParseLine(Dispatch(last, ""), lines[0]).event)
    else
      && (n.data != "" ==> held.None?)
      && if cuts[0] then Harmless(lines[1..], cuts[1..], Holding(held, n), START, last)
         else
           && (Holding(held, n).Some? ==> Holding(held, n).value == last)
           && Harmless(lines[1..], cuts[1..], None, START, "")
  }

  function Holding(held: Option<string>, n: Dispatch): Option<string> {
    if n.data != "" then Some(n.event) else held
  }

  lemma PaddedTail(lines: seq<string>, cuts: seq<bool>)
    requires |lines| == |cuts| && lines != []
    ensures Padded(lines, cuts)[1..] == Padded(lines[1..], cuts[1..])
    ensures Padded(lines, cuts)[0] == "" <==> lines[0] == "" && !cuts[0]
  {
  }

  /** A line with its padding, as the parser sees it. */
  lemma PaddedLine(lines: seq<string>, cuts: seq<bool>, acc: Dispatch)
    requires |lines| == |cuts| && lines != []
    ensures ParseLine(acc, Padded(lines, cuts)[0]) == ParseLine(acc, lines[0])
  {
    if cuts[0] {
      ParseCR(acc, lines[0]);
    } else {
      assert lines[0] + "" == lines[0];
    }
  }

  /** What the stream has dispatched, and the received text has not, since it began to gather `r`: at most one block. */
  ghost predicate Owed(owed: seq<Dispatch>, held: Option<string>, n: Dispatch, r: Dispatch, last: string) {
    && r.event == last
    && if held.None? then owed == [] && r.data == n.data
       else |owed| == 1 && owed[0].event == held.value && owed[0].data != "" && r.data == owed[0].data + n.data
  }

  function EmitAll(owed: seq<Dispatch>, handlers: set<string>): seq<Dispatch> {
    if owed == [] then [] else Emit(owed[0], handlers) + EmitAll(owed[1..], handlers)
  }

  lemma OwedLine(owed: seq<Dispatch>, held: Option<string>, n: Dispatch, r: Dispatch, last: string, line: string)
    requires Owed(owed, held, n, r, last)
    ensures Owed(owed, held, ParseLine(n, line), ParseLine(r, line), ParseLine(Dispatch(last, ""), line).event)
  {
    if held.Some? {
      Regroup(owed[0].data, n.data, JsTrim(if HasPrefix(line, "data:") then line[5..] else ""));
    }
  }

  /** The end of a block. */
  lemma OwedEnd(
    owed: seq<Dispatch>, held: Option<string>, n: Dispatch, r: Dispatch, last: string, handlers: set<string>)
    returns (next: seq<Dispatch>)
    requires Owed(owed, held, n, r, last) && (n.data != "" ==> held.None?)
    ensures Owed(next, Holding(held, n), START, r, last)
    ensures EmitAll(next, handlers) == EmitAll(owed, handlers) + Emit(n, handlers)
  {
    if n.data != "" {
      next := [n];
      assert n.data + "" == n.data;
      EmitOwed(next, handlers);
    } else {
      next := owed;
    }
  }

  /** An empty line that came through whole dispatches what is owed if the names agree, and only then. */
  lemma OwedSettled(owed: seq<Dispatch>, held: Option<string>, r: Dispatch, last: string, handlers: set<string>)
    requires Owed(owed, held, START, r, last)
    ensures (held.Some? ==> held.value == last) ==> EmitAll(owed, handlers) == Emit(r, handlers)
    ensures r.event in handlers && (held.Some? ==> held.value in handlers) ==>
      && |EmitAll(owed, handlers)| == |Emit(r, handlers)|
      && (EmitAll(owed, handlers) == Emit(r, handlers) ==> held.Some? ==> held.value == last)
  {
    if held.Some? {
      EmitOwed(owed, handlers);
      assert owed[0].data + "" == owed[0].data;
      if held.value in handlers && r.event in handlers {
        assert Emit(owed[0], handlers) == [owed[0]] && Emit(r, handlers) == [r];
        assert [owed[0]] == [r] ==> owed[0] == r by {
          assert [r][0] == r && [owed[0]][0] == owed[0];
        }
      }
    }
  }

  lemma EmitOwed(owed: seq<Dispatch>, handlers: set<string>)
    requires |owed| == 1
    ensures EmitAll(owed, handlers) == Emit(owed[0], handlers)
  {
    assert EmitAll(owed[1..], handlers) == [];
  }

  lemma {:induction false} HarmlessSame(
    lines: seq<string>, cuts: seq<bool>, owed: seq<Dispatch>, held: Option<string>, n: Dispatch,
    r: Dispatch, last: string, handlers: set<string>)
    requires |lines| == |cuts| && Owed(owed, held, n, r, last) && Harmless(lines, cuts, held, n, last)
    ensures ByLine(Padded(lines, cuts), r, handlers) == EmitAll(owed, handlers) + ByLine(lines, n, handlers)
    decreases |lines|
  {
    if lines != [] {
      var rest, flags := lines[1..], cuts[1..];
      PaddedTail(lines, cuts);
      PaddedLine(lines, cuts, r);
      ParseEmpty(r);
      if lines[0] != "" {
        OwedLine(owed, held, n, r, last, lines[0]);
        HarmlessSame(
          rest, flags, owed, held, ParseLine(n, lines[0]), ParseLine(r, lines[0]),
          ParseLine(Dispatch(last, ""), lines[0]).event, handlers);
      } else {
        var next := OwedEnd(owed, held, n, r, last, handlers);
        Regroup(EmitAll(owed, handlers), Emit(n, handlers), ByLine(rest, START, handlers));
        if cuts[0] {
          HarmlessSame(rest, flags, next, Holding(held, n), START, r, last, handlers);
        } else {
          OwedSettled(next, Holding(held, n), r, last, handlers);
          HarmlessSame(rest, flags, [], None, START, START, "", handlers);
        }
      }
    }
  }

  // -------- when they do not --------

  /** Handlers for every event that the lines can name. */
  ghost predicate Handled(lines: seq<string>, handlers: set<string>) {
    "" in handlers && forall l | l in lines && HasPrefix(l, "event:") :: JsTrim(l[6..]) in handlers
  }

  function EventsOf(lines: seq<string>): (events: set<string>)
    ensures Handled(lines, events)
  {
    {""} + set l | l in lines && HasPrefix(l, "event:") :: JsTrim(l[6..])
  }

  lemma ParseHandled(lines: seq<string>, acc: Dispatch, handlers: set<string>)
    requires lines != [] && Handled(lines, handlers) && acc.event in handlers
    ensures ParseLine(acc, lines[0]).event in handlers && Handled(lines[1..], handlers)
    ensures acc.data != "" ==> ParseLine(acc, lines[0]).data != ""
  {
    assert lines[0] in lines && forall l | l in lines[1..] :: l in lines;
  }

  /** Of the blocks that run together at most one is dispatched: `k` with data have ended so far. */
  lemma {:induction false} Fewer(
    lines: seq<string>, cuts: seq<bool>, k: nat, n: Dispatch, r: Dispatch, handlers: set<string>)
    requires |lines| == |cuts| && (r.data != "" <==> k > 0 || n.data != "")
    requires Handled(lines, handlers) && n.event in handlers && r.event in handlers
    ensures var got, sent := |ByLine(Padded(lines, cuts), r, handlers)|, k + |ByLine(lines, n, handlers)|;
      got <= sent && (k > 1 ==> got < sent)
    decreases |lines|
  {
    if lines != [] {
      var rest, flags := lines[1..], cuts[1..];
      PaddedTail(lines, cuts);
      PaddedLine(lines, cuts, r);
      ParseEmpty(r);
      ParseHandled(lines, n, handlers);
      ParseHandled(lines, r, handlers);
      if lines[0] != "" {
        SaysSomething(n, lines[0]);
        SaysSomething(r, lines[0]);
        Fewer(rest, flags, k, ParseLine(n, lines[0]), ParseLine(r, lines[0]), handlers);
      } else if cuts[0] {
        Fewer(rest, flags, if n.data != "" then k + 1 else k, START, r, handlers);
      } else {
        Fewer(rest, flags, 0, START, START, handlers);
      }
    }
  }

  lemma SaysSomething(acc: Dispatch, line: string)
    ensures ParseLine(acc, line).data != "" <==> acc.data != "" || ParseLine(START, line).data != ""
  {
  }

  lemma {:induction false} SameHarmless(
    lines: seq<string>, cuts: seq<bool>, owed: seq<Dispatch>, held: Option<string>, n: Dispatch,
    r: Dispatch, last: string, handlers: set<string>)
    requires |lines| == |cuts| && Owed(owed, held, n, r, last)
    requires Handled(lines, handlers) && n.event in handlers && r.event in handlers
    requires held.Some? ==> held.value in handlers
    requires ByLine(Padded(lines, cuts), r, handlers) == EmitAll(owed, handlers) + ByLine(lines, n, handlers)
    ensures Harmless(lines, cuts, held, n, last)
    decreases |lines|
  {
    if lines != [] {
      var rest, flags := lines[1..], cuts[1..];
      PaddedTail(lines, cuts);
      PaddedLine(lines, cuts, r);
      ParseEmpty(r);
      ParseHandled(lines, n, handlers);
      ParseHandled(lines, r, handlers);
      if lines[0] != "" {
        OwedLine(owed, held, n, r, last, lines[0]);
        SameHarmless(
          rest, flags, owed, held, ParseLine(n, lines[0]), ParseLine(r, lines[0]),
          ParseLine(Dispatch(last, ""), lines[0]).event, handlers);
      } else {
        TwoAreTooMany(lines, cuts, owed, held, n, r, last, handlers);
        var next := OwedEnd(owed, held, n, r, last, handlers);
        Regroup(EmitAll(owed, handlers), Emit(n, handlers), ByLine(rest, START, handlers));
        if cuts[0] {
          SameHarmless(rest, flags, next, Holding(held, n), START, r, last, handlers);
        } else {
          OwedSettled(next, Holding(held, n), r, last, handlers);
          Halves(
            Emit(r, handlers), ByLine(Padded(rest, flags), START, handlers), EmitAll(next, handlers),
            ByLine(rest, START, handlers));
          SameHarmless(rest, flags, [], None, START, START, "", handlers);
        }
      }
    } else if |owed| == 1 {
      EmitOwed(owed, handlers);
    }
  }

  lemma Halves(a: seq<Dispatch>, b: seq<Dispatch>, c: seq<Dispatch>, d: seq<Dispatch>)
    requires a + b == c + d && |a| == |c|
    ensures a == c && b == d
  {
    assert a == (a + b)[..|a|] && c == (c + d)[..|c|];
    assert b == (a + b)[|a|..] && d == (c + d)[|c|..];
  }

  /** A second block with data loses an event. */
  lemma TwoAreTooMany(
    lines: seq<string>, cuts: seq<bool>, owed: seq<Dispatch>, held: Option<string>, n: Dispatch,
    r: Dispatch, last: string, handlers: set<string>)
    requires |lines| == |cuts| && lines != [] && lines[0] == "" && Owed(owed, held, n, r, last)
    requires Handled(lines, handlers) && n.event in handlers && r.event in handlers
    requires held.Some? ==> held.value in handlers
    requires |ByLine(Padded(lines, cuts), r, handlers)| == |EmitAll(owed, handlers)| + |ByLine(lines, n, handlers)|
    ensures n.data != "" ==> held.None?
  {
    if n.data != "" && held.Some? {
      EmitOwed(owed, handlers);
      PaddedTail(lines, cuts);
      PaddedLine(lines, cuts, r);
      ParseEmpty(r);
      ParseHandled(lines, r, handlers);
      Fewer(lines[1..], cuts[1..], if cuts[0] then 2 else 0, START, if cuts[0] then r else START, handlers);
    }
  }

  // -------- the whole stream --------

  /** The handlers see the same, however the stream was cut. */
  ghost predicate SameEvents(chunks: seq<string>, handlers: set<string>) {
    DeliverAll(Blocks(Received(chunks)), handlers) == DeliverAll(Blocks(Normalise(Concat(chunks))), handlers)
  }

  lemma EventsByLine(chunks: seq<string>, handlers: set<string>)
    ensures var lines, cuts := Completed(Normalise(Concat(chunks))), Cuts("", chunks);
      |lines| == |cuts| &&
      (SameEvents(chunks, handlers) <==> ByLine(Padded(lines, cuts), START, handlers) == ByLine(lines, START, handlers))
  {
    ReceivedLines(chunks);
    BlocksByLine(Received(chunks), handlers);
    BlocksByLine(Normalise(Concat(chunks)), handlers);
  }

  /** All handlers see what the uncut stream would show them if and only if the cuts are harmless. */
  lemma SameEventsExactly(chunks: seq<string>)
    ensures var lines, cuts := Completed(Normalise(Concat(chunks))), Cuts("", chunks);
      |lines| == |cuts| && ((forall handlers :: SameEvents(chunks, handlers)) <==>
        Harmless(lines, cuts, None, START, ""))
  {
    var lines, cuts := Completed(Normalise(Concat(chunks))), Cuts("", chunks);
    ReceivedLines(chunks);
    if Harmless(lines, cuts, None, START, "") {
      forall handlers ensures SameEvents(chunks, handlers) {
        EventsByLine(chunks, handlers);
        HarmlessSame(lines, cuts, [], None, START, START, "", handlers);
      }
    }
    var handlers := EventsOf(lines);
    EventsByLine(chunks, handlers);
    if SameEvents(chunks, handlers) {
      SameHarmless(lines, cuts, [], None, START, START, "", handlers);
    }
  }

  // -------- streams of data blocks, and cuts that never matter --------

  /** Every block that is completed and says anything carries data. */
  predicate CarriesData(lines: seq<string>, acc: Dispatch, content: bool)
    decreases |lines|
  {
    if lines == [] then true
    else if lines[0] == "" then (content ==> acc.data != "") && CarriesData(lines[1..], START, false)
    else CarriesData(lines[1..], ParseLine(acc, lines[0]), true)
  }

  /** What has come since the last empty line received as one: nothing, content, or content whose end was lost. */
  datatype Phase = Clean | Content | Lost

  /**
   * Every run of empty lines after content keeps an uncut one before more content comes or the stream
   * ends: the end of a block may be lost only if it is made up for at once.
   */
  predicate Separated(lines: seq<string>, cuts: seq<bool>, phase: Phase)
    requires |lines| == |cuts|
    decreases |lines|
  {
    if lines == [] then phase != Lost
    else if lines[0] != "" then phase != Lost && Separated(lines[1..], cuts[1..], Content)
    else if cuts[0] then Separated(lines[1..], cuts[1..], if phase == Clean then Clean else Lost)
    else Separated(lines[1..], cuts[1..], Clean)
  }

  ghost predicate InPhase(phase: Phase, held: Option<string>, n: Dispatch, last: string) {
    match phase
    case Clean => held.None? && n == START && last == ""
    case Content => held.None? && last == n.event
    case Lost => n == START && (held.Some? ==> held.value == last)
  }

  lemma {:induction false} DataSeparated(
    lines: seq<string>, cuts: seq<bool>, phase: Phase, held: Option<string>, n: Dispatch, last: string)
    requires |lines| == |cuts| && InPhase(phase, held, n, last)
    ensures Separated(lines, cuts, phase) ==> Harmless(lines, cuts, held, n, last)
    ensures CarriesData(lines, n, phase == Content) && (phase == Lost ==> held.Some?)
      && Harmless(lines, cuts, held, n, last)
      ==> Separated(lines, cuts, phase)
    decreases |lines|
  {
    if lines != [] {
      var rest, flags := lines[1..], cuts[1..];
      if lines[0] != "" {
        var more, name := ParseLine(n, lines[0]), ParseLine(Dispatch(last, ""), lines[0]).event;
        if phase != Lost {
          DataSeparated(rest, flags, Content, held, more, name);
        } else if CarriesData(rest, more, true) && held.Some? && Harmless(rest, flags, held, more, name) {
          HeldStops(rest, flags, held, more, name);
        }
      } else if cuts[0] {
        DataSeparated(rest, flags, if phase == Clean then Clean else Lost, Holding(held, n), START, last);
      } else {
        DataSeparated(rest, flags, Clean, None, START, "");
      }
    }
  }

  /** More content with data after a block with data whose end was lost does harm. */
  lemma {:induction false} HeldStops(
    lines: seq<string>, cuts: seq<bool>, held: Option<string>, n: Dispatch, last: string)
    requires |lines| == |cuts| && held.Some? && CarriesData(lines, n, true)
    ensures !Harmless(lines, cuts, held, n, last)
    decreases |lines|
  {
    if lines != [] && lines[0] != "" {
      HeldStops(lines[1..], cuts[1..], held, ParseLine(n, lines[0]), ParseLine(Dispatch(last, ""), lines[0]).event);
    }
  }

  /** Where every block carries data, the events stay the same if and only if every lost end is made up for. */
  lemma DataStreamsExactly(chunks: seq<string>)
    ensures var lines, cuts := Completed(Normalise(Concat(chunks))), Cuts("", chunks);
      |lines| == |cuts| && (CarriesData(lines, START, false) ==>
        ((forall handlers :: SameEvents(chunks, handlers)) <==> Separated(lines, cuts, Clean)))
  {
    SameEventsExactly(chunks);
    DataSeparated(Completed(Normalise(Concat(chunks))), Cuts("", chunks), Clean, None, START, "");
  }

  /** No cut separates a CRLF that directly follows another line ending. */
  predicate NoEmptyLineCut(lines: seq<string>, cuts: seq<bool>)
    requires |lines| == |cuts|
  {
    forall i | 1 <= i < |lines| && cuts[i] :: lines[i] != ""
  }

  lemma {:induction false} NothingLost(lines: seq<string>, cuts: seq<bool>, phase: Phase)
    requires |lines| == |cuts| && NoEmptyLineCut(lines, cuts) && phase != Lost
    requires lines != [] && lines[0] == "" && cuts[0] ==> phase == Clean
    ensures Separated(lines, cuts, phase)
    decreases |lines|
  {
    if lines != [] {
      var rest, flags := lines[1..], cuts[1..];
      assert forall i | 0 <= i < |rest| :: rest[i] == lines[i + 1] && flags[i] == cuts[i + 1];
      NothingLost(rest, flags, if lines[0] == "" then Clean else Content);
    }
  }

  /** Cuts inside the line endings of lines that are not empty change nothing. */
  lemma OnlyEmptyLinesMatter(chunks: seq<string>, handlers: set<string>)
    ensures var lines, cuts := Completed(Normalise(Concat(chunks))), Cuts("", chunks);
      |lines| == |cuts| && (NoEmptyLineCut(lines, cuts) ==> SameEvents(chunks, handlers))
  {
    var lines, cuts := Completed(Normalise(Concat(chunks))), Cuts("", chunks);
    SameEventsExactly(chunks);
    if NoEmptyLineCut(lines, cuts) {
      NothingLost(lines, cuts, Clean);
      DataSeparated(lines, cuts, Clean, None, START, "");
    }
  }
}

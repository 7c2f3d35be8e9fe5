/** Transcript export (src/acp/conversation.rs): a loop over the session's events that gathers stream
  * chunks into assistant turns, then a truncation that keeps the text valid UTF-8. */
module Conversation {
  import opened Sequences
  import opened Options
  import opened Decimals
  import opened Events
  import opened EventStore
  import opened Utf8

  const EXPORT_EVENT_LIMIT := 10_000

  // ----- Text helpers -----

  /** The Unicode White_Space property. */
  predicate IsWhitespace(c: char) {
    var n := c as int;
    9 <= n <= 13 || n == 0x20 || n == 0x85 || n == 0xA0 || n == 0x1680 || 0x2000 <= n <= 0x200A
    || n == 0x2028 || n == 0x2029 || n == 0x202F || n == 0x205F || n == 0x3000
  }

  function TrimStart(s: string): string {
    if s != [] && IsWhitespace(s[0]) then TrimStart(s[1..]) else s
  }

  function TrimEnd(s: string): string {
    if s != [] && IsWhitespace(s[|s| - 1]) then TrimEnd(s[..|s| - 1]) else s
  }

  function Trim(s: string): string {
    TrimEnd(TrimStart(s))
  }

  function Join(parts: seq<string>, sep: string): string {
    if parts == [] then "" else if |parts| == 1 then parts[0] else parts[0] + sep + Join(parts[1..], sep)
  }

  // ----- The transcript a reader expects -----

  predicate IsChunk(e: Event) {
    e.eventType.StreamUpdate? && !e.thought && e.content != ""
  }

  predicate IsVisible(e: Event) {
    e.eventType.PromptSubmitted? || e.eventType.ToolStarted? || IsChunk(e)
  }

  function VisibleEvents(es: seq<Event>): seq<Event> {
    if es == [] then [] else (if IsVisible(es[0]) then [es[0]] else []) + VisibleEvents(es[1..])
  }

  function UserBlock(e: Event): string {
    "**User:** " + Trim(e.content)
  }

  function ToolBlock(e: Event): string {
    var name := if e.tool == "" then e.toolKind else e.tool;
    "[Tool: " + (if name == "" then "tool" else name) + "]"
  }

  function BlockOf(e: Event): string {
    if e.eventType.PromptSubmitted? then UserBlock(e) else ToolBlock(e)
  }

  function TrimmedContents(es: seq<Event>): seq<string> {
    seq(|es|, i requires 0 <= i < |es| => Trim(es[i].content))
  }

  /** The block of a run of chunks: their contents separated by spaces; none if that is blank. */
  function AssistantBlocks(chunks: seq<Event>): seq<string> {
    var text := Trim(Join(TrimmedContents(chunks), " "));
    if text == "" then [] else ["**Assistant:** " + text]
  }

  /** How many events at the front are chunks. */
  function RunLength(es: seq<Event>): (n: nat)
    ensures n <= |es|
    ensures forall i :: 0 <= i < n ==> IsChunk(es[i])
    ensures n < |es| ==> !IsChunk(es[n])
  {
    if es == [] || !IsChunk(es[0]) then 0 else 1 + RunLength(es[1..])
  }

  /** Prompts, tools and maximal runs of chunks, one block each. */
  function Blocks(es: seq<Event>): seq<string>
    decreases |es|
  {
    if es == [] then []
    else if IsChunk(es[0]) then AssistantBlocks(es[..RunLength(es)]) + Blocks(es[RunLength(es)..])
    else [BlockOf(es[0])] + Blocks(es[1..])
  }

  /** The blocks of the visible events, separated by blank lines. */
  function Transcript(es: seq<Event>): string {
    Join(Blocks(VisibleEvents(es)), "\n\n")
  }

  // ----- The loop -----

  function AppendBlock(output: string, block: string): string {
    if output == "" then block else output + "\n\n" + block
  }

  function AddChunk(assistant: string, content: string): string {
    (if assistant == "" then "" else assistant + " ") + Trim(content)
  }

  /** What `assistant` holds after a run of chunks. */
  function Gathered(chunks: seq<Event>): string {
    if chunks == [] then "" else AddChunk(Gathered(chunks[..|chunks| - 1]), chunks[|chunks| - 1].content)
  }

  method FlushAssistant(output: string, assistant: string) returns (r: string)
    ensures r == if Trim(assistant) == "" then output else AppendBlock(output, "**Assistant:** " + Trim(assistant))
  {
    r := output;
    var text := Trim(assistant);
    if text != "" {
      r := AppendBlock(r, "**Assistant:** " + text);
    }
  }

  /** The visible events so far: some whose blocks are all in `output`, and a run of chunks held in
    * `assistant`. */
  ghost predicate Rendered(
    seen: seq<Event>, closed: seq<Event>, chunks: seq<Event>, output: string, assistant: string)
  {
    && VisibleEvents(seen) == closed + chunks
    && (forall j :: 0 <= j < |chunks| ==> IsChunk(chunks[j]))
    && (closed == [] || !IsChunk(closed[|closed| - 1]))
    && (forall j :: 0 <= j < |closed| ==> IsVisible(closed[j]))
    && output == Join(Blocks(closed), "\n\n")
    && assistant == Gathered(chunks)
  }

  /** The loop of `export_conversation`; `events` is the result of its query. */
  method RenderEvents(events: seq<Event>) returns (output: string)
    ensures output == Transcript(events)
  {
    output := "";
    var assistant := "";
    ghost var closed: seq<Event> := [];
    ghost var chunks: seq<Event> := [];
    assert Rendered(events[..0], closed, chunks, output, assistant);
    hide Rendered, VisibleEvents, Transcript, Trim;
    for i := 0 to |events|
      invariant Rendered(events[..i], closed, chunks, output, assistant)
    {
      var event := events[i];
      assert events[..i + 1] == events[..i] + [event];
      if event.eventType.PromptSubmitted? {
        BlockRendered(events[..i], closed, chunks, output, assistant, event);
        output := FlushAssistant(output, assistant);
        assistant := "";
        output := AppendBlock(output, "**User:** " + Trim(event.content));
        closed, chunks := closed + chunks + [event], [];
      } else if event.eventType.StreamUpdate? && !event.thought && event.content != "" {
        ChunkRendered(events[..i], closed, chunks, output, assistant, event);
        if assistant != "" {
          assistant := assistant + " ";
        }
        assistant := assistant + Trim(event.content);
        chunks := chunks + [event];
      } else if event.eventType.ToolStarted? {
        BlockRendered(events[..i], closed, chunks, output, assistant, event);
        output := FlushAssistant(output, assistant);
        assistant := "";
        var name := if event.tool == "" then event.toolKind else event.tool;
        output := AppendBlock(output, "[Tool: " + (if name == "" then "tool" else name) + "]");
        closed, chunks := closed + chunks + [event], [];
      } else {
        IgnoredRendered(events[..i], closed, chunks, output, assistant, event);
      }
    }
    assert events[..|events|] == events;
    RenderedAtEnd(events, closed, chunks, output, assistant);
    output := FlushAssistant(output, assistant);
  }

  // ----- Lemmas -----

  lemma {:induction false} VisibleAppend(a: seq<Event>, b: seq<Event>)
    ensures VisibleEvents(a + b) == VisibleEvents(a) + VisibleEvents(b)
  {
    if a == [] {
      assert a + b == b;
    } else {
      VisibleAppend(a[1..], b);
      assert (a + b)[0] == a[0] && (a + b)[1..] == a[1..] + b;
      Regroup(if IsVisible(a[0]) then [a[0]] else [], VisibleEvents(a[1..]), VisibleEvents(b));
    }
  }

  lemma {:induction false} RunLengthAppend(a: seq<Event>, b: seq<Event>)
    requires RunLength(a) < |a| || b == [] || !IsChunk(b[0])
    ensures RunLength(a + b) == RunLength(a)
  {
    if a == [] {
      assert a + b == b;
    } else {
      assert (a + b)[1..] == a[1..] + b;
      if IsChunk(a[0]) {
        RunLengthAppend(a[1..], b);
      }
    }
  }

  lemma BlocksOfRun(a: seq<Event>, n: nat, rest: seq<string>)
    requires a != [] && IsChunk(a[0]) && n == RunLength(a)
    requires Blocks(a[n..]) == rest
    ensures Blocks(a) == AssistantBlocks(a[..n]) + rest
  {
    hide AssistantBlocks, BlockOf, IsChunk;
  }

  lemma BlocksOfOther(a: seq<Event>, rest: seq<string>)
    requires a != [] && !IsChunk(a[0])
    requires Blocks(a[1..]) == rest
    ensures Blocks(a) == [BlockOf(a[0])] + rest
  {
    hide AssistantBlocks, BlockOf, IsChunk;
  }

  /** A run of chunks never spans the border, so the blocks of the parts are the blocks of the whole. */
  lemma {:induction false} BlocksAppend(a: seq<Event>, b: seq<Event>)
    requires a == [] || !IsChunk(a[|a| - 1]) || b == [] || !IsChunk(b[0])
    ensures Blocks(a + b) == Blocks(a) + Blocks(b)
    decreases |a|
  {
    hide AssistantBlocks, BlockOf, IsChunk, Join;
    if a == [] {
      assert a + b == b;
    } else if IsChunk(a[0]) {
      var n := RunLength(a);
      RunLengthAppend(a, b);
      assert (a + b)[0] == a[0] && (a + b)[..n] == a[..n] && (a + b)[n..] == a[n..] + b;
      BlocksAppend(a[n..], b);
      BlocksOfRun(a, n, Blocks(a[n..]));
      BlocksOfRun(a + b, n, Blocks(a[n..]) + Blocks(b));
      Regroup(AssistantBlocks(a[..n]), Blocks(a[n..]), Blocks(b));
    } else {
      assert (a + b)[0] == a[0] && (a + b)[1..] == a[1..] + b;
      BlocksAppend(a[1..], b);
      BlocksOfOther(a, Blocks(a[1..]));
      BlocksOfOther(a + b, Blocks(a[1..]) + Blocks(b));
      Regroup([BlockOf(a[0])], Blocks(a[1..]), Blocks(b));
    }
  }

  lemma {:induction false} BlocksAreNotEmpty(es: seq<Event>)
    requires forall i :: 0 <= i < |es| ==> IsVisible(es[i])
    ensures forall i :: 0 <= i < |Blocks(es)| ==> Blocks(es)[i] != ""
    decreases |es|
  {
    if es == [] {
    } else {
      BlocksAreNotEmpty(if IsChunk(es[0]) then es[RunLength(es)..] else es[1..]);
    }
  }

  lemma {:induction false} JoinAppend(bs: seq<string>, block: string)
    requires forall i :: 0 <= i < |bs| ==> bs[i] != ""
    ensures Join(bs + [block], "\n\n") == AppendBlock(Join(bs, "\n\n"), block)
    ensures bs != [] ==> Join(bs, "\n\n") != ""
  {
    if bs == [] {
      assert bs + [block] == [block];
    } else {
      JoinAppend(bs[1..], block);
      assert (bs + [block])[1..] == bs[1..] + [block];
      if |bs| > 1 {
        assert bs[0] + "\n\n" + (Join(bs[1..], "\n\n") + "\n\n" + block)
            == (bs[0] + "\n\n" + Join(bs[1..], "\n\n")) + "\n\n" + block;
      }
    }
  }

  ghost function Spaces(n: nat): string {
    if n == 0 then "" else " " + Spaces(n - 1)
  }

  lemma {:induction false} SpacesAtEnd(n: nat)
    ensures Spaces(n) + " " == Spaces(n + 1)
  {
    if n == 0 {
    } else {
      SpacesAtEnd(n - 1);
    }
  }

  lemma {:induction false} JoinOneMore(parts: seq<string>, last: string)
    requires parts != []
    ensures Join(parts + [last], " ") == Join(parts, " ") + " " + last
  {
    if |parts| <= 1 {
    } else {
      JoinOneMore(parts[1..], last);
      assert (parts + [last])[1..] == parts[1..] + [last];
    }
  }

  lemma SeparatorMoves(k: nat, gathered: string, last: string) returns (n: nat)
    ensures Spaces(k) + gathered + " " + last == Spaces(n) + ((if gathered == "" then "" else gathered + " ") + last)
  {
    if gathered == "" {
      n := k + 1;
      SpacesAtEnd(k);
      assert Spaces(k) + "" + " " == Spaces(n) && "" + last == last;
    } else {
      n := k;
      hide Spaces;
      assert Spaces(k) + gathered + " " + last == Spaces(n) + (gathered + " " + last);
    }
  }

  /** The loop drops the separators in front of the first chunk that is not blank, and nothing else. */
  lemma {:induction false} GatheredIsJoin(chunks: seq<Event>) returns (k: nat)
    ensures Join(TrimmedContents(chunks), " ") == Spaces(k) + Gathered(chunks)
    decreases |chunks|
  {
    if chunks == [] {
      k := 0;
    } else {
      hide Trim, IsWhitespace;
      var front, last := chunks[..|chunks| - 1], Trim(chunks[|chunks| - 1].content);
      k := GatheredIsJoin(front);
      assert TrimmedContents(chunks) == TrimmedContents(front) + [last];
      assert Gathered(chunks) == AddChunk(Gathered(front), chunks[|chunks| - 1].content);
      if front == [] {
        k := 0;
        assert TrimmedContents(chunks) == [last];
      } else {
        JoinOneMore(TrimmedContents(front), last);
        k := SeparatorMoves(k, Gathered(front), last);
      }
    }
  }

  lemma {:induction false} LeadingSpacesAreTrimmed(k: nat, s: string)
    ensures Trim(Spaces(k) + s) == Trim(s)
  {
    if k == 0 {
      assert Spaces(0) + s == s;
    } else {
      LeadingSpacesAreTrimmed(k - 1, s);
      assert (Spaces(k) + s)[1..] == Spaces(k - 1) + s;
    }
  }

  lemma GatheredText(chunks: seq<Event>)
    ensures Trim(Gathered(chunks)) == Trim(Join(TrimmedContents(chunks), " "))
  {
    var k := GatheredIsJoin(chunks);
    LeadingSpacesAreTrimmed(k, Gathered(chunks));
  }

  lemma {:induction false} AllChunksAreOneRun(chunks: seq<Event>)
    requires forall j :: 0 <= j < |chunks| ==> IsChunk(chunks[j])
    ensures RunLength(chunks) == |chunks|
    ensures Blocks(chunks) == AssistantBlocks(chunks)
  {
    if chunks == [] {
    } else {
      AllChunksAreOneRun(chunks[1..]);
      assert chunks[..|chunks|] == chunks && chunks[|chunks|..] == [];
    }
  }

  lemma VisibleOne(e: Event)
    requires IsVisible(e)
    ensures VisibleEvents([e]) == [e]
  {
  }

  lemma GatheredOneMore(chunks: seq<Event>, e: Event)
    ensures Gathered(chunks + [e]) == AddChunk(Gathered(chunks), e.content)
  {
    hide AddChunk;
    assert (chunks + [e])[..|chunks|] == chunks;
  }

  lemma ChunkRendered(seen: seq<Event>, closed: seq<Event>, chunks: seq<Event>,
                      output: string, assistant: string, e: Event)
    requires Rendered(seen, closed, chunks, output, assistant) && IsChunk(e)
    ensures Rendered(seen + [e], closed, chunks + [e], output, AddChunk(assistant, e.content))
  {
    hide Join, Blocks, IsChunk, Trim, IsWhitespace;
    VisibleAppend(seen, [e]);
    VisibleOne(e);
    assert closed + chunks + [e] == closed + (chunks + [e]);
    GatheredOneMore(chunks, e);
  }

  lemma ClosedGrows(closed: seq<Event>, chunks: seq<Event>, e: Event)
    requires forall j :: 0 <= j < |chunks| ==> IsChunk(chunks[j])
    requires forall j :: 0 <= j < |closed| ==> IsVisible(closed[j])
    requires IsVisible(e) && !IsChunk(e)
    ensures var grown := closed + chunks + [e];
            (forall j :: 0 <= j < |grown| ==> IsVisible(grown[j])) && !IsChunk(grown[|grown| - 1])
  {
  }

  lemma NothingGathered()
    ensures Gathered([]) == ""
  {
  }

  lemma BlockRendered(seen: seq<Event>, closed: seq<Event>, chunks: seq<Event>,
                      output: string, assistant: string, e: Event)
    requires Rendered(seen, closed, chunks, output, assistant) && IsVisible(e) && !IsChunk(e)
    ensures var text := Trim(assistant);
            var flushed := if text == "" then output else AppendBlock(output, "**Assistant:** " + text);
            Rendered(seen + [e], closed + chunks + [e], [], AppendBlock(flushed, BlockOf(e)), "")
  {
    NothingGathered();
    hide Join, Blocks, IsChunk, IsVisible, Trim, VisibleEvents, AppendBlock, BlockOf, Gathered;
    VisibleAppend(seen, [e]);
    VisibleOne(e);
    FlushedAndOneMore(closed, chunks, e);
    ClosedGrows(closed, chunks, e);
    assert closed + chunks + [e] + [] == closed + chunks + [e];
  }

  /** The output after a flush is the transcript of everything seen. */
  lemma Flushed(closed: seq<Event>, chunks: seq<Event>)
    requires forall j :: 0 <= j < |chunks| ==> IsChunk(chunks[j])
    requires closed == [] || !IsChunk(closed[|closed| - 1])
    requires forall j :: 0 <= j < |closed| ==> IsVisible(closed[j])
    ensures var before, text := Join(Blocks(closed), "\n\n"), Trim(Gathered(chunks));
            Join(Blocks(closed + chunks), "\n\n")
            == if text == "" then before else AppendBlock(before, "**Assistant:** " + text)
    ensures Blocks(closed + chunks) == Blocks(closed) + AssistantBlocks(chunks)
  {
    BlocksAppend(closed, chunks);
    AllChunksAreOneRun(chunks);
    GatheredText(chunks);
    BlocksAreNotEmpty(closed);
    var text := Trim(Gathered(chunks));
    if text == "" {
      assert Blocks(closed) + [] == Blocks(closed);
    } else {
      JoinAppend(Blocks(closed), "**Assistant:** " + text);
    }
  }

  lemma IgnoredRendered(seen: seq<Event>, closed: seq<Event>, chunks: seq<Event>,
                      output: string, assistant: string, e: Event)
    requires Rendered(seen, closed, chunks, output, assistant) && !IsVisible(e)
    ensures Rendered(seen + [e], closed, chunks, output, assistant)
  {
    VisibleAppend(seen, [e]);
    assert VisibleEvents([e]) == [];
  }

  lemma RenderedAtEnd(events: seq<Event>, closed: seq<Event>, chunks: seq<Event>, output: string, assistant: string)
    requires Rendered(events, closed, chunks, output, assistant)
    ensures var text := Trim(assistant);
            Transcript(events) == if text == "" then output else AppendBlock(output, "**Assistant:** " + text)
  {
    Flushed(closed, chunks);
  }

  lemma FlushedAndOneMore(closed: seq<Event>, chunks: seq<Event>, e: Event)
    requires forall j :: 0 <= j < |chunks| ==> IsChunk(chunks[j])
    requires closed == [] || !IsChunk(closed[|closed| - 1])
    requires forall j :: 0 <= j < |closed| ==> IsVisible(closed[j])
    requires IsVisible(e) && !IsChunk(e)
    ensures Join(Blocks(closed + chunks + [e]), "\n\n")
            == AppendBlock(Join(Blocks(closed + chunks), "\n\n"), BlockOf(e))
    ensures var before, text := Join(Blocks(closed), "\n\n"), Trim(Gathered(chunks));
            Join(Blocks(closed + chunks), "\n\n")
            == if text == "" then before else AppendBlock(before, "**Assistant:** " + text)
  {
    Flushed(closed, chunks);
    BlocksAppend(closed + chunks, [e]);
    BlocksAreNotEmpty(closed + chunks);
    assert Blocks([e]) == [BlockOf(e)];
    JoinAppend(Blocks(closed + chunks), BlockOf(e));
  }

  // ----- What the export guarantees -----

  /** Thoughts, empty chunks and events of other types leave no trace, not even a break in an assistant turn. */
  lemma IgnoredEventsLeaveNoTrace(xs: seq<Event>, e: Event, ys: seq<Event>)
    requires e.eventType.OtherType? || (e.eventType.StreamUpdate? && (e.thought || e.content == ""))
    ensures Transcript(xs + [e] + ys) == Transcript(xs + ys)
  {
    VisibleAppend(xs + [e], ys);
    VisibleAppend(xs, [e]);
    VisibleAppend(xs, ys);
    assert VisibleEvents([e]) == [];
    assert VisibleEvents(xs) + [] == VisibleEvents(xs);
  }

  /** Two texts as separate paragraphs, if both say anything. */
  function Paragraphs(a: string, b: string): string {
    if a == "" then b else if b == "" then a else a + "\n\n" + b
  }

  lemma JoinedParagraphs(a: seq<string>, b: seq<string>)
    requires (forall i :: 0 <= i < |a| ==> a[i] != "") && forall i :: 0 <= i < |b| ==> b[i] != ""
    ensures Join(a + b, "\n\n") == Paragraphs(Join(a, "\n\n"), Join(b, "\n\n"))
  {
    JoinSplits(a, b);
    JoinAppend(a, "");
    JoinAppend(b, "");
  }

  lemma {:induction false} VisibleAreVisible(es: seq<Event>)
    ensures forall i :: 0 <= i < |VisibleEvents(es)| ==> IsVisible(VisibleEvents(es)[i])
  {
    if es == [] {
    } else {
      VisibleAreVisible(es[1..]);
    }
  }

  lemma BlockStandsAlone(xs: seq<Event>, e: Event, ys: seq<Event>)
    requires IsVisible(e) && !IsChunk(e)
    ensures Transcript(xs + [e] + ys) == Paragraphs(Paragraphs(Transcript(xs), BlockOf(e)), Transcript(ys))
  {
    var a, b := VisibleEvents(xs), VisibleEvents(ys);
    VisibleAppend(xs + [e], ys);
    VisibleAppend(xs, [e]);
    VisibleOne(e);
    VisibleAreVisible(xs);
    VisibleAreVisible(ys);
    BlocksAreNotEmpty(a);
    BlocksAreNotEmpty(b);
    BlocksAppend(a + [e], b);
    BlocksAppend(a, [e]);
    assert Blocks([e]) == [BlockOf(e)] && BlockOf(e) != "";
    hide Blocks, BlockOf, IsVisible, IsChunk, VisibleEvents, Join, Paragraphs;
    JoinedParagraphs(Blocks(a) + [BlockOf(e)], Blocks(b));
    JoinedParagraphs(Blocks(a), [BlockOf(e)]);
    JoinOfOne(BlockOf(e));
  }

  lemma JoinOfOne(block: string)
    ensures Join([block], "\n\n") == block
  {
  }

  /** A prompt is a paragraph of its own between the exports of what is before and behind it. */
  lemma PromptParagraph(xs: seq<Event>, e: Event, ys: seq<Event>)
    requires e.eventType.PromptSubmitted?
    ensures Transcript(xs + [e] + ys)
         == Paragraphs(Paragraphs(Transcript(xs), "**User:** " + Trim(e.content)), Transcript(ys))
  {
    BlockStandsAlone(xs, e, ys);
  }

  /** So is a tool, named by its name, or else by its kind, or else as a tool. */
  lemma ToolParagraph(xs: seq<Event>, e: Event, ys: seq<Event>)
    requires e.eventType.ToolStarted?
    ensures var name := if e.tool != "" then e.tool else if e.toolKind != "" then e.toolKind else "tool";
            Transcript(xs + [e] + ys)
            == Paragraphs(Paragraphs(Transcript(xs), "[Tool: " + name + "]"), Transcript(ys))
  {
    BlockStandsAlone(xs, e, ys);
  }

  /** What is said aloud. */
  function Spoken(es: seq<Event>): seq<string> {
    if es == [] then []
    else
      (if es[0].eventType.StreamUpdate? && !es[0].thought && es[0].content != "" then [Trim(es[0].content)] else [])
      + Spoken(es[1..])
  }

  lemma ContentsOneMore(e: Event, es: seq<Event>)
    ensures TrimmedContents([e] + es) == [Trim(e.content)] + TrimmedContents(es)
  {
    hide Trim;
  }

  lemma {:induction false} SpokenAreChunks(es: seq<Event>)
    requires forall i :: 0 <= i < |es| ==> es[i].eventType.StreamUpdate? || es[i].eventType.OtherType?
    ensures forall i :: 0 <= i < |VisibleEvents(es)| ==> IsChunk(VisibleEvents(es)[i])
    ensures TrimmedContents(VisibleEvents(es)) == Spoken(es)
  {
    hide Trim;
    if es == [] {
    } else {
      SpokenAreChunks(es[1..]);
      ContentsOneMore(es[0], VisibleEvents(es[1..]));
      hide TrimmedContents;
      assert VisibleEvents(es) == (if IsChunk(es[0]) then [es[0]] else []) + VisibleEvents(es[1..]);
    }
  }

  /** Between prompts and tools there is one paragraph: what is said aloud, trimmed and separated by spaces, if
    * it is not blank. */
  lemma AssistantParagraph(es: seq<Event>)
    requires forall i :: 0 <= i < |es| ==> es[i].eventType.StreamUpdate? || es[i].eventType.OtherType?
    ensures var text := Trim(Join(Spoken(es), " "));
            Transcript(es) == if text == "" then "" else "**Assistant:** " + text
  {
    SpokenAreChunks(es);
    AllChunksAreOneRun(VisibleEvents(es));
  }

  /** The code points with the property White_Space. */
  ghost const WHITE_SPACE: set<int> :=
    {0x09, 0x0A, 0x0B, 0x0C, 0x0D, 0x20, 0x85, 0xA0, 0x1680,
     0x2000, 0x2001, 0x2002, 0x2003, 0x2004, 0x2005, 0x2006, 0x2007, 0x2008, 0x2009, 0x200A,
     0x2028, 0x2029, 0x202F, 0x205F, 0x3000}

  ghost predicate IsBlank(s: string) {
    forall c :: c in s ==> c as int in WHITE_SPACE
  }

  lemma {:induction false} TrimStartLaw(s: string) returns (lead: string)
    ensures s == lead + TrimStart(s) && IsBlank(lead)
    ensures TrimStart(s) != "" ==> TrimStart(s)[0] as int !in WHITE_SPACE
  {
    if s != [] && IsWhitespace(s[0]) {
      lead := TrimStartLaw(s[1..]);
      lead := [s[0]] + lead;
    } else {
      lead := "";
    }
  }

  lemma {:induction false} TrimEndLaw(s: string) returns (trail: string)
    ensures s == TrimEnd(s) + trail && IsBlank(trail)
    ensures TrimEnd(s) != "" ==> TrimEnd(s)[0] == s[0] && TrimEnd(s)[|TrimEnd(s)| - 1] as int !in WHITE_SPACE
  {
    if s != [] && IsWhitespace(s[|s| - 1]) {
      trail := TrimEndLaw(s[..|s| - 1]);
      trail := trail + [s[|s| - 1]];
    } else {
      trail := "";
    }
  }

  /** Trimming takes off white space at both ends and all of it. */
  lemma TrimLaw(s: string) returns (lead: string, trail: string)
    ensures s == lead + Trim(s) + trail && IsBlank(lead) && IsBlank(trail)
    ensures Trim(s) != "" ==> Trim(s)[0] as int !in WHITE_SPACE && Trim(s)[|Trim(s)| - 1] as int !in WHITE_SPACE
  {
    lead := TrimStartLaw(s);
    trail := TrimEndLaw(TrimStart(s));
    hide TrimStart, TrimEnd, IsWhitespace;
    Regroup(lead, Trim(s), trail);
  }

  lemma {:induction false} JoinSplits(a: seq<string>, b: seq<string>)
    ensures Join(a + b, "\n\n") == if a == [] then Join(b, "\n\n") else if b == [] then Join(a, "\n\n")
                                   else Join(a, "\n\n") + "\n\n" + Join(b, "\n\n")
  {
    if a == [] {
      assert a + b == b;
    } else {
      JoinSplits(a[1..], b);
      assert (a + b)[1..] == a[1..] + b;
    }
  }

  /** A prompt always starts a new block: the export of a history that is continued by a prompt is the
    * two exports joined. */
  lemma {:induction false} PromptSplitsTranscript(xs: seq<Event>, prompt: Event, ys: seq<Event>)
    requires prompt.eventType.PromptSubmitted?
    ensures Transcript(xs + [prompt] + ys)
         == (if Blocks(VisibleEvents(xs)) == [] then "" else Transcript(xs) + "\n\n") + Transcript([prompt] + ys)
  {
    var a, b := VisibleEvents(xs), VisibleEvents([prompt] + ys);
    assert xs + [prompt] + ys == xs + ([prompt] + ys);
    VisibleAppend(xs, [prompt] + ys);
    assert b[0] == prompt;
    BlocksAppend(a, b);
    JoinSplits(Blocks(a), Blocks(b));
  }

  // ----- Truncation -----

  function NoteText(total: nat): string {
    "\n\n[... conversation truncated, " + Decimal(total) + " bytes total ...]"
  }

  function Note(total: nat): seq<Byte> {
    Encode(NoteText(total))
  }

  function TruncatedExport(output: seq<Byte>, maxBytes: int): seq<Byte> {
    if maxBytes <= 0 || |output| <= maxBytes then output
    else if |Note(|output|)| >= maxBytes then Truncated(Note(|output|), maxBytes)
    else Truncated(output, maxBytes - |Note(|output|)|) + Note(|output|)
  }

  method TruncateExport(output: seq<Byte>, maxBytes: int) returns (r: seq<Byte>)
    requires ValidUtf8(output)
    ensures r == TruncatedExport(output, maxBytes)
  {
    hide Note, ValidUtf8, Truncated;
    if maxBytes < 0 {
      return output;
    }
    if maxBytes == 0 || |output| <= maxBytes {
      return output;
    }
    var note := Note(|output|);
    NoteIsValid(|output|);
    if |note| >= maxBytes {
      r := TruncateUtf8(note, maxBytes);
      return;
    }
    var prefix := TruncateUtf8(output, maxBytes - |note|);
    return prefix + note;
  }

  lemma {:induction false} DecimalIsAscii(n: nat)
    ensures forall i :: 0 <= i < |Decimal(n)| ==> Decimal(n)[i] < 128 as char
    ensures Decimal(n) != ""
  {
    if n < 10 {
    } else {
      DecimalIsAscii(n / 10);
    }
  }

  lemma {:induction false} AsciiEncodesBytewise(s: string)
    requires forall i :: 0 <= i < |s| ==> s[i] < 128 as char
    ensures |Encode(s)| == |s| && forall i :: 0 <= i < |s| ==> Encode(s)[i] == s[i] as int
  {
    if s == [] {
    } else {
      AsciiEncodesBytewise(s[1..]);
    }
  }

  lemma {:induction false} AsciiIsCutAnywhere(s: seq<Byte>, n: nat)
    requires (forall i :: 0 <= i < |s| ==> s[i] < 0x80) && n <= |s|
    ensures Truncated(s, n) == s[..n]
  {
  }

  lemma BothAreAscii(a: string, b: string)
    requires forall i :: 0 <= i < |a| ==> a[i] < 128 as char
    requires forall i :: 0 <= i < |b| ==> b[i] < 128 as char
    ensures forall i :: 0 <= i < |a + b| ==> (a + b)[i] < 128 as char
  {
  }

  lemma NoteTextIsAscii(total: nat)
    ensures forall i :: 0 <= i < |NoteText(total)| ==> NoteText(total)[i] < 128 as char
  {
    DecimalIsAscii(total);
    BothAreAscii("\n\n[... conversation truncated, ", Decimal(total));
    BothAreAscii("\n\n[... conversation truncated, " + Decimal(total), " bytes total ...]");
  }

  lemma NoteIsValid(total: nat)
    ensures ValidUtf8(Note(total))
  {
    hide NoteText, ValidUtf8;
    EncodeIsValid(NoteText(total));
  }

  lemma NoteIsAscii(total: nat)
    ensures forall i :: 0 <= i < |Note(total)| ==> Note(total)[i] < 0x80
    ensures ValidUtf8(Note(total))
  {
    hide NoteText;
    NoteTextIsAscii(total);
    AsciiEncodesBytewise(NoteText(total));
    NoteIsValid(total);
  }

  /** The note tells the length of the whole export. */
  lemma NoteTellsTotal(total: nat)
    ensures var digits := Decimal(total);
            var text := "\n\n[... conversation truncated, " + digits + " bytes total ...]";
            && NumberOf(digits) == total
            && |Note(total)| == |text| && forall i :: 0 <= i < |text| ==> Note(total)[i] == text[i] as int
  {
    DecimalIsNumber(total);
    NoteTextIsAscii(total);
    AsciiEncodesBytewise(NoteText(total));
  }

  lemma TruncatedIsTight(output: seq<Byte>, room: nat)
    requires ValidUtf8(output) && room < |output|
    ensures var k := |Truncated(output, room)|;
            k <= |output| && Truncated(output, room) == output[..k] && IsTightCut(output, k, room)
    ensures ValidUtf8(Truncated(output, room)) && |Truncated(output, room)| <= room
  {
    TruncatedIsLongestValidPrefix(output, room);
  }

  /** Without a positive limit the export is the input. Under one it is valid UTF-8 that fits: the input if
    * that fits; else the longest valid prefix that leaves room for the whole note, followed by the note; or, if
    * there is no room for the note, the first bytes of the note, exactly as many as fit. */
  lemma TruncatedExportIsValidAndTight(output: seq<Byte>, maxBytes: int)
    requires ValidUtf8(output)
    ensures var r := TruncatedExport(output, maxBytes);
            if maxBytes <= 0 || |output| <= maxBytes then r == output else ValidUtf8(r) && |r| <= maxBytes
    ensures 0 < maxBytes < |output| && |Note(|output|)| >= maxBytes ==>
              TruncatedExport(output, maxBytes) == Note(|output|)[..maxBytes]
    ensures 0 < maxBytes < |output| && |Note(|output|)| < maxBytes ==>
              exists k :: 0 <= k <= |output| && IsTightCut(output, k, maxBytes - |Note(|output|)|)
                && TruncatedExport(output, maxBytes) == output[..k] + Note(|output|)
  {
    hide ValidUtf8, IsTightCut, Truncated, Note;
    if 0 < maxBytes < |output| {
      var note := Note(|output|);
      NoteIsAscii(|output|);
      if |note| >= maxBytes {
        if maxBytes < |note| {
          TruncatedIsTight(note, maxBytes);
        }
        AsciiIsCutAnywhere(note, maxBytes);
        assert note[..|note|] == note;
      } else {
        TruncatedIsTight(output, maxBytes - |note|);
        ValidConcat(Truncated(output, maxBytes - |note|), note);
      }
    }
  }

  /** A valid prefix of at most `room` bytes, no longer one of which is valid; at most three bytes short. */
  ghost predicate IsTightCut(output: seq<Byte>, k: nat, room: nat)
    requires k <= |output|
  {
    && ValidUtf8(output[..k]) && k <= room <= k + 3
    && forall j :: k < j <= |output| && j <= room ==> !ValidUtf8(output[..j])
  }

  /** `export_conversation` on the rows of the store. */
  method ExportConversation(rows: seq<Event>, sessionId: string, maxBytes: int) returns (r: seq<Byte>)
    ensures r == TruncatedExport(Encode(Transcript(QueryAfter(rows, Some(sessionId), 0, 10_000))), maxBytes)
  {
    var events := QueryAfter(rows, Some(sessionId), 0, EXPORT_EVENT_LIMIT);
    var output := RenderEvents(events);
    EncodeIsValid(output);
    r := TruncateExport(Encode(output), maxBytes);
  }
}

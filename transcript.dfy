/**
 * `create_dnd_transcript`: a four-line header, then one three-line block per
 * recognised segment in input order, joined with newlines.
 */
module Transcript {
  import opened PyStrings
  import opened Timestamp
  import opened LineBlocks

  /** One recognised speech unit; `start` is the floor of its start time in seconds. */
  datatype Segment = Segment(start: nat, text: string)

  const Title: string := "D&D SESSION TRANSCRIPTION"
  const RuleWidth: nat := 50

  /** The four header lines; `instant` is the already formatted generation time. */
  function Header(instant: string): seq<string> {
    [Title, Repeat('=', RuleWidth), "Generated on: " + instant, ""]
  }

  function TimestampLine(start: nat): string {
    "[" + FormatTimestamp(start) + "]"
  }

  /** The three lines one segment contributes. */
  function Block(segment: Segment): (lines: seq<string>)
    ensures |lines| == BlockSize
  {
    [TimestampLine(segment.start), Strip(segment.text), ""]
  }

  /** The blocks of all segments, in order. */
  function Blocks(segments: seq<Segment>): seq<string> {
    RenderAll(segments, Block)
  }

  /** The whole line list, before joining. */
  function TranscriptLines(segments: seq<Segment>, instant: string): seq<string> {
    Header(instant) + Blocks(segments)
  }

  /** Appending one more segment appends exactly its block. */
  lemma TranscriptLinesSnoc(segments: seq<Segment>, instant: string, k: nat)
    requires k < |segments|
    ensures TranscriptLines(segments[..k + 1], instant)
            == TranscriptLines(segments[..k], instant) + Block(segments[k])
  {
    RenderAllSnoc(segments, Block, k);
  }

  /**
   * Builds the line list by appending, as the source does, then joins it.
   * The document is the join of the specified line list.
   */
  method CreateTranscript(segments: seq<Segment>, instant: string) returns (doc: string)
    ensures doc == JoinLines(TranscriptLines(segments, instant))
  {
    var lines: seq<string> := [];
    lines := lines + [Title];
    lines := lines + [Repeat('=', RuleWidth)];
    lines := lines + ["Generated on: " + instant];
    lines := lines + [""];
    for k := 0 to |segments|
      invariant |lines| == 4 + 3 * k
      invariant lines == TranscriptLines(segments[..k], instant)
    {
      var segment := segments[k];
      ghost var before := lines;
      var timestamp := FormatTimestamp(segment.start);
      lines := lines + ["[" + timestamp + "]"];
      var text := Strip(segment.text);
      lines := lines + [text];
      lines := lines + [""];
      assert lines == before + Block(segment);
      TranscriptLinesSnoc(segments, instant, k);
    }
    assert segments[..|segments|] == segments;
    doc := JoinLines(lines);
  }

  /** There are exactly four header lines and three lines per segment. */
  lemma TranscriptLength(segments: seq<Segment>, instant: string)
    ensures |TranscriptLines(segments, instant)| == 4 + 3 * |segments|
  {
    RenderAllLength(segments, Block);
  }

  /** The header comes first: title, a rule of 50 `=`, the generation line, a blank. */
  lemma HeaderLines(segments: seq<Segment>, instant: string)
    ensures var lines := TranscriptLines(segments, instant);
            && lines[0] == "D&D SESSION TRANSCRIPTION"
            && |lines[1]| == 50 && (forall i :: 0 <= i < 50 ==> lines[1][i] == '=')
            && lines[2] == "Generated on: " + instant
            && lines[3] == ""
  {
  }

  /**
   * For the `i`-th segment, line `4 + 3i` is its bracketed timestamp, the
   * next its stripped text, the next blank: segments are neither dropped,
   * merged nor reordered.
   */
  lemma SegmentLinesAt(segments: seq<Segment>, instant: string, i: nat)
    requires i < |segments|
    ensures var lines := TranscriptLines(segments, instant);
            && |lines| == 4 + 3 * |segments|
            && lines[4 + 3 * i] == "[" + FormatTimestamp(segments[i].start) + "]"
            && lines[4 + 3 * i + 1] == Strip(segments[i].text)
            && lines[4 + 3 * i + 2] == ""
  {
    var header, blocks := Header(instant), Blocks(segments);
    BlocksAt(segments, i);
    HeaderThenBlock(header, blocks, 3 * i);
  }

  /** Lines `3i` to `3i + 2` of the blocks are the `i`-th segment's three lines. */
  lemma BlocksAt(segments: seq<Segment>, i: nat)
    requires i < |segments|
    ensures var blocks := Blocks(segments);
            && |blocks| == 3 * |segments|
            && blocks[3 * i] == "[" + FormatTimestamp(segments[i].start) + "]"
            && blocks[3 * i + 1] == Strip(segments[i].text)
            && blocks[3 * i + 2] == ""
  {
    BlockLines(segments[i]);
    RenderAllLine(segments, Block, i, 0);
    RenderAllLine(segments, Block, i, 1);
    RenderAllLine(segments, Block, i, 2);
  }

  lemma BlockLines(segment: Segment)
    ensures Block(segment)[0] == "[" + FormatTimestamp(segment.start) + "]"
    ensures Block(segment)[1] == Strip(segment.text)
    ensures Block(segment)[2] == ""
  {
  }

  lemma HeaderThenBlock(header: seq<string>, blocks: seq<string>, k: nat)
    requires |header| == 4 && k + 3 <= |blocks|
    ensures var lines := header + blocks;
            lines[4 + k] == blocks[k] && lines[4 + k + 1] == blocks[k + 1] && lines[4 + k + 2] == blocks[k + 2]
  {
  }

  /** The blocks of a concatenation of sessions are the blocks of each, in order. */
  lemma BlocksAppend(a: seq<Segment>, b: seq<Segment>)
    ensures Blocks(a + b) == Blocks(a) + Blocks(b)
  {
    RenderAllAppend(a, b, Block);
  }

  /** With no segments the document is the header alone, ending in a newline. */
  lemma EmptyTranscript(instant: string)
    ensures TranscriptLines([], instant) == Header(instant)
    ensures JoinLines(TranscriptLines([], instant))
            == Title + "\n" + Repeat('=', RuleWidth) + "\n" + "Generated on: " + instant + "\n"
  {
    var a, b, c := Title, Repeat('=', RuleWidth), "Generated on: " + instant;
    assert TranscriptLines([], instant) == Header(instant) == [a, b, c] + [""];
    JoinEmptyLast([a, b, c]);
    assert [a, b, c][1..] == [b, c] && [b, c][1..] == [c];
    assert JoinLines([c]) == c;
    assert JoinLines([b, c]) == b + "\n" + c;
    assert JoinLines([a, b, c]) == a + "\n" + (b + "\n" + c);
  }

  /** The document always ends in a newline, because its last line is empty. */
  lemma EndsWithNewline(segments: seq<Segment>, instant: string)
    ensures var doc := JoinLines(TranscriptLines(segments, instant));
            |doc| > 0 && doc[|doc| - 1] == '\n'
  {
    var lines := TranscriptLines(segments, instant);
    var init := lines[..|lines| - 1];
    assert lines == init + [""];
    JoinEmptyLast(init);
  }

  lemma TimestampLineHasNoNewline(start: nat)
    ensures NoNewline(TimestampLine(start))
  {
    var t := FormatTimestamp(start);
    var line := TimestampLine(start);
    FormatTimestampShape(start);
    forall k | 0 <= k < |line|
      ensures line[k] != '\n'
    {
      if 0 < k < |line| - 1 {
        assert line[k] == t[k - 1];
      }
    }
  }

  /**
   * Splitting the document at newlines gives the line list back when neither
   * the instant nor any stripped text holds a newline.
   */
  lemma SplitRecoversLines(segments: seq<Segment>, instant: string)
    requires NoNewline(instant)
    requires forall i :: 0 <= i < |segments| ==> NoNewline(Strip(segments[i].text))
    ensures SplitLines(JoinLines(TranscriptLines(segments, instant))) == TranscriptLines(segments, instant)
  {
    var lines := TranscriptLines(segments, instant);
    TranscriptLength(segments, instant);
    forall k | 0 <= k < |lines|
      ensures NoNewline(lines[k])
    {
      LineHasNoNewline(segments, instant, k);
    }
    SplitJoin(lines);
  }

  lemma LineHasNoNewline(segments: seq<Segment>, instant: string, k: nat)
    requires NoNewline(instant)
    requires forall i :: 0 <= i < |segments| ==> NoNewline(Strip(segments[i].text))
    requires k < 4 + 3 * |segments|
    ensures k < |TranscriptLines(segments, instant)|
    ensures NoNewline(TranscriptLines(segments, instant)[k])
  {
    if k < 4 {
      HeaderHasNoNewline(instant, k);
      TranscriptLength(segments, instant);
    } else {
      var i := (k - 4) / 3;
      SegmentLinesAt(segments, instant, i);
      TimestampLineHasNoNewline(segments[i].start);
    }
  }

  lemma HeaderHasNoNewline(instant: string, k: nat)
    requires NoNewline(instant) && k < 4
    ensures NoNewline(Header(instant)[k])
  {
    if k == 1 {
      assert forall j :: 0 <= j < RuleWidth ==> Header(instant)[1][j] == '=';
    }
  }

  /** Whitespace around a segment's text goes; whitespace inside it stays. */
  lemma StripExamples()
    ensures Strip("  hello world  \n") == "hello world"
    ensures Strip(" a\nb ") == "a\nb"
  {
    StripUnique("  ", "hello world", "  \n");
    assert "  " + "hello world" + "  \n" == "  hello world  \n";
    StripUnique(" ", "a\nb", " ");
    assert " " + "a\nb" + " " == " a\nb ";
  }

  lemma BracketedStamps()
    ensures "[" + "00:00:00" + "]" == "[00:00:00]" && "[" + "00:01:05" + "]" == "[00:01:05]"
  {
  }

  lemma WelcomeStamps()
    ensures "[" + FormatTimestamp(0) + "]" == "[00:00:00]"
    ensures "[" + FormatTimestamp(65) + "]" == "[00:01:05]"
  {
    FormatTimestampExamples();
    BracketedStamps();
  }

  lemma WelcomeTexts()
    ensures Strip("Welcome") == "Welcome" && Strip("Let's begin.") == "Let's begin."
  {
    StripUnique("", "Welcome", "");
    StripUnique("", "Let's begin.", "");
    assert "" + "Welcome" + "" == "Welcome";
    assert "" + "Let's begin." + "" == "Let's begin.";
  }

  /** The block of each segment of a two-segment session. */
  lemma WelcomeSegmentBlocks()
    ensures Block(Segment(0, "Welcome")) == ["[00:00:00]", "Welcome", ""]
    ensures Block(Segment(65, "Let's begin.")) == ["[00:01:05]", "Let's begin.", ""]
  {
    WelcomeStamps();
    WelcomeTexts();
    BlockLines(Segment(0, "Welcome"));
    BlockLines(Segment(65, "Let's begin."));
  }

  /** The blocks of a two-segment session. */
  lemma WelcomeBlocks()
    ensures Blocks([Segment(0, "Welcome"), Segment(65, "Let's begin.")])
            == ["[00:00:00]", "Welcome", "", "[00:01:05]", "Let's begin.", ""]
  {
    var first, second := Segment(0, "Welcome"), Segment(65, "Let's begin.");
    WelcomeSegmentBlocks();
    assert Blocks([first]) == Block(first) by {
      RenderAllSnoc([first], Block, 0);
      assert [first][..1] == [first] && [first][..0] == [];
    }
    assert Blocks([first, second]) == Blocks([first]) + Block(second) by {
      RenderAllSnoc([first, second], Block, 1);
      assert [first, second][..1] == [first];
      assert [first, second][..2] == [first, second];
    }
  }

  lemma WelcomeHeader()
    ensures Header("2024-01-01 12:00:00")
            == ["D&D SESSION TRANSCRIPTION", Repeat('=', 50), "Generated on: 2024-01-01 12:00:00", ""]
  {
    assert "Generated on: " + "2024-01-01 12:00:00" == "Generated on: 2024-01-01 12:00:00";
  }

  /** A two-segment session at a fixed instant, rendered line by line. */
  lemma WelcomeExample()
    ensures TranscriptLines([Segment(0, "Welcome"), Segment(65, "Let's begin.")], "2024-01-01 12:00:00")
            == ["D&D SESSION TRANSCRIPTION", Repeat('=', 50), "Generated on: 2024-01-01 12:00:00", "",
                "[00:00:00]", "Welcome", "",
                "[00:01:05]", "Let's begin.", ""]
  {
    WelcomeBlocks();
    WelcomeHeader();
  }
}

/** What the reader makes of the text the printer writes for one row. */
module MarkdownSteps {
  import opened Wrappers
  import opened Text
  import opened Json
  import opened MarkdownLines
  import opened MarkdownBlocks
  import opened MarkdownParser

  /** What the printer's guards grant about a readable block. */
  predicate IsReadableBlock(b: Block) {
    match b
    case Paragraph(text) => IsReadableParagraphText(text)
    case HeadingBlock(level, text) => 2 <= level <= 6 && !HasLineBreak(text)
    case QuoteBlock(text, attribution, citeUrl) => IsReadableQuoteContent(text, attribution, citeUrl)
    case ListBlock(_, items) => items != [] && forall text | text in items :: !HasLineBreak(text)
    case CodeBlock(language, code, caption) => IsReadableCodeContent(language, code, caption)
    case ImageBlock(src, alt, caption) => IsReadableImageContent(src, alt, caption)
  }

  predicate DotsIfAny(s: Option<string>) {
    s.None? || Dots(s.value)
  }

  /** Where the guards are as strict as the reader's patterns. */
  predicate AgreesWithPatterns(b: Block) {
    match b
    case Paragraph(_) => true
    case HeadingBlock(_, text) => Dots(text)
    case QuoteBlock(text, attribution, citeUrl) =>
      && Dots(text) && DotsIfAny(attribution) && DotsIfAny(citeUrl)
      && (attribution.Some? && citeUrl.None? ==> BareCitation(attribution.value).None?)
    case ListBlock(_, items) => forall text | text in items :: Dots(text)
    case CodeBlock(language, _, caption) =>
      && Dots(language) && DotsIfAny(caption)
      && (language == "" || (!IsBacktick(language[0]) && !IsBlankChar(language[0])))
    case ImageBlock(src, _, _) => src != ""
  }

  function BlockLines(b: Block): seq<string> {
    Split(BlockText(b), '\n')
  }

  /** A block ends at the end of the document or at an empty line. */
  predicate Follows(rest: seq<string>) {
    rest == [] || rest[0] == ""
  }

  // ---------- lines that fail a pattern by their first character ----------

  lemma {:induction false} FirstChar(line: string)
    requires line != ""
    ensures !IsBlankChar(line[0]) ==> !IsBlank(line)
    ensures line[0] != ':' ==> !IsProtectedOpening(line)
    ensures line[0] != '`' ==> !IsFencedOpening(line)
    ensures line[0] != '!' ==> ImageLine(line).None?
    ensures line[0] != '#' ==> HeadingLine(line).None?
    ensures line[0] != '>' ==> QuoteLine(line).None?
    ensures line[0] != '-' && line[0] != '*' && !IsDigit(line[0]) ==> ListItem(line).None?
  {
    hide Run, ImageAlt;
    assert IsBlank(line) ==> IsBlankChar(line[0]);
    assert StartsWith(line, "![") ==> line[0] == "!["[0];
    assert StartsWith(line, FENCE) ==> line[0] == FENCE[0];
    assert StartsWith(line, PROTECTED_BLOCK_OPENING) ==> line[0] == PROTECTED_BLOCK_OPENING[0];
    if line[0] != '#' {
      RunIs(line, IsHash, 0);
    }
    if !IsDigit(line[0]) {
      RunIs(line, IsDigit, 0);
    }
  }

  lemma {:induction false} OneLine(line: string)
    requires '\n' !in line
    ensures Split(line, '\n') == [line]
  {
    SplitNone(line, '\n');
  }

  // ---------- paragraphs ----------

  lemma {:induction false} ParagraphStep(text: string, rest: seq<string>)
    requires IsReadableParagraphText(text) && Follows(rest)
    ensures Step(Split(text, '\n') + rest)
         == Segment(Some(BlockRow(Paragraph(text))), |Split(text, '\n')|)
  {
    hide Split, IsBlockStart, Join;
    var lines := Split(text, '\n');
    JoinSplit(text, '\n');
    assert lines[0] in lines;
    forall i | 1 <= i < |lines| ensures !IsBlank((lines + rest)[i]) {
      assert lines[i] in lines;
    }
    FirstFromIs(lines + rest, 1, IsBlank, |lines|);
    assert (lines + rest)[..|lines|] == lines;
    PlainParagraph(lines + rest);
  }

  /** A line that starts no block begins a paragraph. */
  lemma {:induction false} PlainParagraph(lines: seq<string>)
    requires lines != [] && !IsBlank(lines[0]) && !IsBlockStart(lines[0])
    ensures
      var k := FirstFrom(lines, 1, IsBlank);
      Step(lines) == Segment(Some(BlockRow(Paragraph(Join(lines[..k], '\n')))), k)
  {
  }

  // ---------- headings ----------

  lemma {:induction false} HeadingStep(level: nat, text: string, rest: seq<string>)
    requires 2 <= level <= 6 && !HasLineBreak(text)
    ensures
      var b := HeadingBlock(level, text);
      && |BlockLines(b)| == 1
      && Step(BlockLines(b) + rest) ==
         if Dots(text) then Segment(Some(BlockRow(b)), 1)
         else Step(BlockLines(b) + rest).(taken := FirstFrom(BlockLines(b) + rest, 1, IsBlank))
    ensures !Dots(text) ==>
      var lines := BlockLines(HeadingBlock(level, text)) + rest;
      Step(lines).row == Some(BlockRow(Paragraph(Join(lines[..Step(lines).taken], '\n'))))
  {
    var line := Repeat('#', level) + [' '] + text;
    RunStops(Repeat('#', level), [' '] + text, IsHash);
    assert line == Repeat('#', level) + ([' '] + text);
    assert Run(line, IsHash) == level && line[level + 1..] == text && line[0] == '#';
    hide Run, Join, Split, FirstFrom, BlockRow, Repeat;
    FirstChar(line);
    OneLine(line);
    if !Dots(text) {
      PlainParagraph([line] + rest);
    }
  }

  // ---------- quotes ----------

  lemma {:induction false} QuoteLineOf(text: string)
    ensures QuoteLine(['>', ' '] + text) == if Dots(text) then Some(text) else None
  {
    assert (['>', ' '] + text)[2..] == text;
  }

  lemma {:induction false} QuoteStep(lines: seq<string>)
    requires lines != [] && QuoteLine(lines[0]).Some?
    ensures Step(lines) == Segment(Some(BlockRow(QuoteOf(QuoteLines(lines)))), |QuoteLines(lines)|)
  {
    FirstChar(lines[0]);
  }

  lemma {:induction false} QuoteLinesEnd(rest: seq<string>)
    requires Follows(rest)
    ensures QuoteLines(rest) == []
  {
  }

  lemma {:induction false} AfterLastAngleIs(s: string, n: nat)
    requires 0 < n <= |s| && !NotAngle(s[n - 1]) && NoAngles(s[n..])
    ensures AfterLastAngle(s) == n
  {
    var m := AfterLastAngle(s);
    assert forall k :: m <= k < |s| ==> s[k] == s[m..][k - m] && NotAngle(s[k]);
    assert forall k :: n <= k < |s| ==> s[k] == s[n..][k - n] && NotAngle(s[k]);
  }

  lemma {:induction false} NamedCitationOf(name: string, url: string)
    requires NoAngles(url) && Dots(name)
    ensures NamedCitation(name + [' ', '<'] + url + ['>']) == Some(Citation(name, url))
    ensures BareCitation(name + [' ', '<'] + url + ['>']) == None
  {
    var s := name + [' ', '<'] + url + ['>'];
    var body := name + [' ', '<'] + url;
    assert s[..|s| - 1] == body;
    assert body[|name| + 2..] == url && body[..|name|] == name;
    AfterLastAngleIs(body, |name| + 2);
    if s[0] == '<' {
      assert s[1..|s| - 1][|name|] == '<';
    }
  }

  lemma {:induction false} BareCitationOf(url: string)
    requires NoAngles(url)
    ensures BareCitation(['<'] + url + ['>']) == Some(url)
  {
    var s := ['<'] + url + ['>'];
    assert s[1..|s| - 1] == url;
  }

  function Metadata(attribution: Option<string>, citeUrl: Option<string>): string {
    match citeUrl
    case None => if attribution.Some? then attribution.value else ""
    case Some(url) =>
      match attribution
      case None => ['<'] + url + ['>']
      case Some(name) => name + [' ', '<'] + url + ['>']
  }

  lemma {:induction false} AttributionLineOf(attribution: Option<string>, citeUrl: Option<string>)
    ensures QuoteAttributionLine(attribution, citeUrl) == ['>', ' '] + (DASH + Metadata(attribution, citeUrl))
  {
  }

  /** What the reader makes of a quote's text and attribution lines. */
  lemma {:induction false} QuoteOfLines(text: string, attribution: Option<string>, citeUrl: Option<string>)
    requires attribution.Some? || citeUrl.Some?
    requires IsReadableQuoteContent(text, attribution, citeUrl)
    requires DotsIfAny(attribution)
    ensures QuoteOf([text, DASH + Metadata(attribution, citeUrl)]) ==
      if attribution.Some? && citeUrl.None? && BareCitation(attribution.value).Some?
      then QuoteBlock(text, None, BareCitation(attribution.value))
      else QuoteBlock(text, attribution, citeUrl)
  {
    var metadata := Metadata(attribution, citeUrl);
    var quoted := [text, DASH + metadata];
    assert quoted[1][..2] == DASH && quoted[1][2..] == metadata;
    assert quoted[..1] == [text];
    if citeUrl.Some? {
      if attribution.Some? {
        NamedCitationOf(attribution.value, citeUrl.value);
      } else {
        BareCitationOf(citeUrl.value);
      }
    }
  }

  lemma {:induction false} QuoteTextLines(text: string, attribution: Option<string>, citeUrl: Option<string>)
    requires IsReadableQuoteContent(text, attribution, citeUrl)
    ensures
      var b := QuoteBlock(text, attribution, citeUrl);
      BlockLines(b) ==
        if attribution.None? && citeUrl.None? then [['>', ' '] + text]
        else [['>', ' '] + text, ['>', ' '] + (DASH + Metadata(attribution, citeUrl))]
  {
    if attribution.None? && citeUrl.None? {
      OneLine(['>', ' '] + text);
    } else {
      AttributionLineOf(attribution, citeUrl);
      SplitJoin([['>', ' '] + text, ['>', ' '] + (DASH + Metadata(attribution, citeUrl))], '\n');
    }
  }

  lemma {:induction false} QuoteReads(text: string, attribution: Option<string>, citeUrl: Option<string>, rest: seq<string>)
    requires IsReadableQuoteContent(text, attribution, citeUrl) && Follows(rest)
    requires AgreesWithPatterns(QuoteBlock(text, attribution, citeUrl))
    ensures
      var b := QuoteBlock(text, attribution, citeUrl);
      Step(BlockLines(b) + rest) == Segment(Some(BlockRow(b)), |BlockLines(b)|)
  {
    hide BlockLines, Step, QuoteLine, QuoteOf, Metadata;
    var b := QuoteBlock(text, attribution, citeUrl);
    var lines := BlockLines(b) + rest;
    QuoteTextLines(text, attribution, citeUrl);
    QuoteLineOf(text);
    QuoteLinesEnd(rest);
    if attribution.None? && citeUrl.None? {
      assert lines[1..] == rest;
      assert QuoteLines(lines) == [text];
      PlainQuote(text);
    } else {
      var second := DASH + Metadata(attribution, citeUrl);
      MetadataDots(attribution, citeUrl);
      QuoteLineOf(second);
      assert lines[1..] == [['>', ' '] + second] + rest;
      assert lines[1..][1..] == rest;
      assert QuoteLines(lines[1..]) == [second];
      assert QuoteLines(lines) == [text, second];
      QuoteOfLines(text, attribution, citeUrl);
    }
    QuoteStep(lines);
  }

  lemma {:induction false} PlainQuote(text: string)
    requires !StartsWith(text, DASH)
    ensures QuoteOf([text]) == QuoteBlock(text, None, None)
  {
  }

  lemma {:induction false} MetadataDots(attribution: Option<string>, citeUrl: Option<string>)
    ensures DotsIfAny(attribution) && DotsIfAny(citeUrl) <==> Dots(DASH + Metadata(attribution, citeUrl))
  {
    var m := Metadata(attribution, citeUrl);
    if Dots(DASH + m) {
      assert forall i :: 0 <= i < |m| ==> m[i] == (DASH + m)[i + 2];
      if attribution.Some? {
        assert forall i :: 0 <= i < |attribution.value| ==> attribution.value[i] == m[i];
      }
      if citeUrl.Some? {
        var k := if attribution.Some? then |attribution.value| + 2 else 1;
        assert forall i :: 0 <= i < |citeUrl.value| ==> citeUrl.value[i] == m[k + i];
      }
    }
  }

  // ---------- lists ----------

  lemma {:induction false} ListItemOf(ordered: bool, index: nat, text: string)
    ensures
      var line := ItemLine(ordered, index, text);
      && line != "" && (line[0] == '-' || IsDigit(line[0]))
      && ListItem(line) == if Dots(text) then Some(Item(ordered, text)) else None
  {
    var line := ItemLine(ordered, index, text);
    if ordered {
      var digits := NatText(index + 1);
      RunStops(digits, ['.', ' '] + text, IsDigit);
      assert line == digits + (['.', ' '] + text);
      assert line[|digits| + 2..] == text && IsDigit(digits[0]);
    } else {
      assert line[2..] == text && !IsDigit(line[0]);
      RunIs(line, IsDigit, 0);
    }
  }

  /** Printed item lines that `.` accepts are all read back. */
  lemma {:induction false} ItemsRead(ordered: bool, items: seq<string>, index: nat, rest: seq<string>)
    requires Follows(rest) && forall text | text in items :: Dots(text)
    ensures ListItems(ItemLines(ordered, items, index) + rest, ordered) == items
  {
    hide ItemLine, ListItem;
    var lines := ItemLines(ordered, items, index) + rest;
    if items == [] {
      assert lines == rest;
      EmptyIsNoItem();
    } else {
      assert items == [items[0]] + items[1..];
      assert items[0] in items;
      ListItemOf(ordered, index, items[0]);
      ItemsRead(ordered, items[1..], index + 1, rest);
      assert lines[1..] == ItemLines(ordered, items[1..], index + 1) + rest;
    }
  }

  lemma {:induction false} EmptyIsNoItem()
    ensures ListItem("") == None
  {
  }

  /** Reading stops at the first item line that `.` rejects. */
  lemma {:induction false} ItemsStop(ordered: bool, items: seq<string>, index: nat, rest: seq<string>)
    requires exists text | text in items :: !Dots(text)
    ensures |ListItems(ItemLines(ordered, items, index) + rest, ordered)| < |items|
  {
    hide ItemLine, ListItem, Dots;
    var lines := ItemLines(ordered, items, index) + rest;
    assert items == [items[0]] + items[1..];
    ListItemOf(ordered, index, items[0]);
    assert lines[0] == ItemLine(ordered, index, items[0]);
    if Dots(items[0]) {
      ItemsStop(ordered, items[1..], index + 1, rest);
      assert lines[1..] == ItemLines(ordered, items[1..], index + 1) + rest;
    }
  }

  lemma {:induction false} ListLines(ordered: bool, items: seq<string>)
    requires items != [] && forall text | text in items :: !HasLineBreak(text)
    ensures BlockLines(ListBlock(ordered, items)) == ItemLines(ordered, items, 0)
  {
    var lines := ItemLines(ordered, items, 0);
    forall line | line in lines ensures '\n' !in line {
      var i :| 0 <= i < |lines| && lines[i] == line;
      assert line == ItemLine(ordered, i, items[i]);
      assert items[i] in items;
      assert All(NatText(i + 1), IsDigit);
    }
    SplitJoin(lines, '\n');
  }

  lemma {:induction false} ListStep(lines: seq<string>)
    requires lines != [] && ListItem(lines[0]).Some? && lines[0] != "" && (lines[0][0] == '-' || IsDigit(lines[0][0]))
    ensures
      var ordered := ListItem(lines[0]).value.ordered;
      var items := ListItems(lines, ordered);
      Step(lines) == Segment(Some(BlockRow(ListBlock(ordered, items))), |items|)
  {
    FirstChar(lines[0]);
  }

  lemma {:induction false} ListReads(ordered: bool, items: seq<string>, rest: seq<string>)
    requires items != [] && (forall text | text in items :: !HasLineBreak(text)) && Follows(rest)
    requires forall text | text in items :: Dots(text)
    ensures
      var b := ListBlock(ordered, items);
      Step(BlockLines(b) + rest) == Segment(Some(BlockRow(b)), |BlockLines(b)|)
  {
    hide BlockLines, Step, ListItem, BlockRow;
    ListLines(ordered, items);
    ItemsRead(ordered, items, 0, rest);
    ListItemOf(ordered, 0, items[0]);
    assert items[0] in items;
    ListStep(BlockLines(ListBlock(ordered, items)) + rest);
  }

  // ---------- code ----------

  /** A whole line is a stretch of the text. */
  lemma {:induction false} SplitStretch(s: string, sep: char, part: string) returns (i: nat)
    requires part in Split(s, sep)
    ensures i + |part| <= |s| && s[i..i + |part|] == part
  {
    if s == "" {
      i := 0;
    } else {
      var rest := Split(s[1..], sep);
      if s[0] == sep {
        if part == "" {
          i := 0;
        } else {
          var j := SplitStretch(s[1..], sep, part);
          i := j + 1;
          SliceOfTail(s, j, |part|);
        }
      } else if part == [s[0]] + rest[0] {
        FirstPartIsPrefix(s[1..], sep);
        i := 0;
        assert s[..|part|] == [s[0]] + s[1..][..|rest[0]|];
      } else {
        var j := SplitStretch(s[1..], sep, part);
        i := j + 1;
        SliceOfTail(s, j, |part|);
      }
    }
  }

  lemma SliceOfTail(s: string, j: nat, n: nat)
    requires s != "" && j + n <= |s[1..]|
    ensures s[j + 1..j + 1 + n] == s[1..][j..j + n]
  {
  }

  lemma {:induction false} FirstPartIsPrefix(s: string, sep: char)
    ensures StartsWith(s, Split(s, sep)[0])
  {
    if s != "" && s[0] != sep {
      FirstPartIsPrefix(s[1..], sep);
      var first := Split(s[1..], sep)[0];
      assert s[..1 + |first|] == [s[0]] + s[1..][..|first|];
    }
  }

  lemma {:induction false} LongestCons(run: nat, runs: seq<nat>)
    ensures Longest([run] + runs) == Max(run, Longest(runs))
  {
    var all := [run] + runs;
    if runs == [] {
      assert all[..0] == [];
    } else {
      LongestCons(run, runs[..|runs| - 1]);
      assert all[..|all| - 1] == [run] + runs[..|runs| - 1];
    }
  }

  /** No stretch of backticks is longer than the longest run. */
  lemma {:induction false} StretchBound(code: string, i: nat, j: nat)
    requires i <= j <= |code| && All(code[i..j], IsBacktick)
    ensures j - i <= Longest(TickRuns(code))
    decreases |code|
  {
    if i < j {
      var run := Ticks(code);
      assert forall k :: i <= k < j ==> code[k] == code[i..j][k - i];
      if run == 0 {
        assert code[1..][i - 1..j - 1] == code[i..j];
        StretchBound(code[1..], i - 1, j - 1);
      } else {
        LongestCons(run, TickRuns(code[run..]));
        if i >= run {
          assert code[run..][i - run..j - run] == code[i..j];
          StretchBound(code[run..], i - run, j - run);
        } else {
          assert run < |code| ==> !IsBacktick(code[run]);
        }
      }
    }
  }

  /** The printed fence is longer than any stretch of backticks in the code. */
  lemma FenceIsLonger(code: string, i: nat, j: nat)
    requires i <= j <= |code| && All(code[i..j], IsBacktick)
    ensures j - i < FenceTicksFor(code) && FenceTicksFor(code) >= 3
  {
    StretchBound(code, i, j);
  }

  /** So no line of the code can close the fence. */
  lemma {:induction false} CodeLineStays(code: string, line: string)
    requires line in Split(code, '\n')
    ensures !IsFenceClosing(line, FenceTicksFor(code))
  {
    var i := SplitStretch(code, '\n', line);
    var n := Ticks(line);
    assert code[i..i + n] == line[..n];
    FenceIsLonger(code, i, i + n);
  }

  lemma {:induction false} JoinNested(before: string, inner: seq<string>, after: seq<string>)
    requires inner != [] && after != []
    ensures Join([before, Join(inner, '\n')] + after, '\n') == Join([before] + inner + after, '\n')
  {
    var joined := Join(inner, '\n');
    var nested := [before, joined] + after;
    JoinConcat([before, joined], after, '\n');
    JoinConcat([before] + inner, after, '\n');
    JoinConcat([before], inner, '\n');
    JoinConcat([before], [joined], '\n');
    assert [before] + [joined] == [before, joined];
  }

  function CaptionLines(caption: Option<string>): seq<string> {
    if caption.None? then [] else [['*'] + caption.value + ['*']]
  }

  lemma {:induction false} CodeLines(language: string, code: string, caption: Option<string>)
    requires IsReadableCodeContent(language, code, caption)
    ensures
      var fence := Repeat('`', FenceTicksFor(code));
      BlockLines(CodeBlock(language, code, caption))
        == [fence + language] + Split(code, '\n') + ([fence] + CaptionLines(caption))
  {
    hide FenceTicksFor;
    var fence := Repeat('`', FenceTicksFor(code));
    var lines := [fence + language] + Split(code, '\n') + ([fence] + CaptionLines(caption));
    JoinSplit(code, '\n');
    JoinNested(fence + language, Split(code, '\n'), [fence] + CaptionLines(caption));
    assert [fence + language, code] + ([fence] + CaptionLines(caption))
        == [fence + language, code, fence] + CaptionLines(caption);
    SplitFree(code, '\n');
    SplitJoin(lines, '\n');
  }

  lemma {:induction false} FenceOpeningOf(ticks: nat, language: string)
    requires ticks >= 3 && Dots(language)
    ensures
      var opening := FenceOpening(Repeat('`', ticks) + language);
      && opening.Some?
      && (language == "" || (!IsBacktick(language[0]) && !IsBlankChar(language[0]))
          ==> opening.value == Fence(ticks, language))
      && (language != "" && (IsBacktick(language[0]) || IsBlankChar(language[0]))
          ==> |opening.value.language| < |language|)
  {
    var line := Repeat('`', ticks) + language;
    var n := Ticks(line);
    if language == "" || !IsBacktick(language[0]) {
      RunStops(Repeat('`', ticks), language, IsBacktick);
      assert line[ticks..] == language;
      if language == "" || !IsBlankChar(language[0]) {
        RunIs(language, IsBlankChar, 0);
      }
    } else {
      assert forall k :: 0 <= k <= ticks ==> IsBacktick(line[k]);
      assert n > ticks;
    }
    assert forall k :: 0 <= k < |line[n..]| ==> line[n..][k] == line[n + k];
  }

  lemma {:induction false} CaptionOf(caption: string)
    ensures CodeCaption(['*'] + caption + ['*']) == if Dots(caption) then Some(caption) else None
  {
    var line := ['*'] + caption + ['*'];
    assert line[1..|line| - 1] == caption;
  }

  lemma {:induction false} FenceStep(lines: seq<string>)
    requires lines != [] && IsFencedOpening(lines[0])
    ensures Step(lines) == FencedSegment(lines)
  {
    assert lines[0][0] == FENCE[0];
    FirstChar(lines[0]);
  }

  /** Where the reader finds the closing fence of printed code. */
  lemma {:induction false} ClosingFound(open: string, code: string, after: seq<string>)
    ensures
      var fence := Repeat('`', FenceTicksFor(code));
      var lines := [open] + Split(code, '\n') + ([fence] + after);
      FirstFrom(lines, 1, line => IsFenceClosing(line, FenceTicksFor(code))) == 1 + |Split(code, '\n')|
  {
    var inner, ticks := Split(code, '\n'), FenceTicksFor(code);
    var fence := Repeat('`', ticks);
    var lines := [open] + inner + ([fence] + after);
    forall i | 1 <= i < 1 + |inner| ensures !IsFenceClosing(lines[i], ticks) {
      assert lines[i] == inner[i - 1];
      CodeLineStays(code, lines[i]);
    }
    RunIs(fence, IsBacktick, ticks);
    assert lines[1 + |inner|] == fence;
    FirstFromIs(lines, 1, line => IsFenceClosing(line, ticks), 1 + |inner|);
  }

  /** A fence whose language agrees with the pattern: the caption is the only thing that can go. */
  lemma {:induction false} CodeReads(language: string, code: string, caption: Option<string>, rest: seq<string>)
    requires IsReadableCodeContent(language, code, caption) && Follows(rest)
    requires Dots(language) && (language == "" || (!IsBacktick(language[0]) && !IsBlankChar(language[0])))
    ensures
      var lines := BlockLines(CodeBlock(language, code, caption));
      Step(lines + rest) ==
        if DotsIfAny(caption) then Segment(Some(BlockRow(CodeBlock(language, code, caption))), |lines|)
        else Segment(Some(BlockRow(CodeBlock(language, code, None))), |lines| - 1)
  {
    hide BlockLines, Step, FenceTicksFor, FenceOpening, IsFenceClosing, CodeCaption, Split, Join, Dots, BlockRow;
    var ticks, inner := FenceTicksFor(code), Split(code, '\n');
    var fence := Repeat('`', ticks);
    var after := CaptionLines(caption) + rest;
    var all := BlockLines(CodeBlock(language, code, caption)) + rest;
    FenceIsLonger(code, 0, 0);
    CodeLines(language, code, caption);
    assert all == [fence + language] + inner + ([fence] + after);
    FenceOpeningOf(ticks, language);
    assert all[0][..3] == FENCE;
    FenceStep(all);
    ClosingFound(fence + language, code, after);
    var k := 1 + |inner|;
    assert all[1..k] == inner;
    JoinSplit(code, '\n');
    EmptyCaption();
    if caption.Some? {
      CaptionOf(caption.value);
      assert all[k + 1] == ['*'] + caption.value + ['*'];
    } else {
      assert k + 1 < |all| ==> all[k + 1] == rest[0];
    }
  }

  lemma {:induction false} EmptyCaption()
    ensures CodeCaption("") == None
  {
  }

  // ---------- images ----------

  lemma {:induction false} ImageTailOf(caption: Option<string>)
    requires caption.Some? ==> '\"' !in caption.value
    ensures
      ImageTail(if caption.None? then [')'] else [' ', '\"'] + caption.value + ['\"', ')']) == Some(caption)
  {
    if caption.Some? {
      var text := caption.value + ['\"', ')'];
      assert ([' ', '\"'] + caption.value + ['\"', ')'])[2..] == text;
      RunStops(caption.value, ['\"', ')'], IsCaptionChar);
      assert text[..|caption.value|] == caption.value && text[|caption.value|..] == "\")";
    }
  }

  /** A printed image is read back exactly when it has a source. */
  lemma {:induction false} ImageLineOf(src: string, alt: string, caption: Option<string>)
    requires IsReadableImageContent(src, alt, caption)
    ensures ImageLine(ImageText(src, alt, caption)) ==
      if src == "" then None else Some(Image(alt, src, caption))
  {
    hide Run, ImageTail, ImageSource;
    var tail := if caption.None? then [')'] else [' ', '\"'] + caption.value + ['\"', ')'];
    var line := ImageText(src, alt, caption);
    var source := src + tail;
    var afterBang := alt + ([']', '('] + source);
    assert line == ['!', '['] + afterBang;
    assert line[..2] == "![" && line[2..] == afterBang;
    RunStops(alt, [']', '('] + source, IsAltChar);
    assert afterBang[|alt|..] == [']', '('] + source;
    assert afterBang[|alt|..][..2] == "](";
    assert afterBang[|alt| + 2..] == source && afterBang[..|alt|] == alt;
    ImageSourceOf(src, tail, caption);
  }

  lemma {:induction false} ImageSourceOf(src: string, tail: string, caption: Option<string>)
    requires NoSpace(src) && '(' !in src && ')' !in src
    requires caption.Some? ==> '\"' !in caption.value
    requires tail == if caption.None? then [')'] else [' ', '\"'] + caption.value + ['\"', ')']
    ensures ImageSource(src + tail) == if src == "" then None else Some((src, caption))
  {
    hide Run, ImageTail;
    var source := src + tail;
    RunStops(src, tail, IsSrcChar);
    assert source[..|src|] == src && source[|src|..] == tail;
    ImageTailOf(caption);
  }

  lemma {:induction false} ImageLines(src: string, alt: string, caption: Option<string>)
    requires IsReadableImageContent(src, alt, caption)
    ensures BlockLines(ImageBlock(src, alt, caption)) == [ImageText(src, alt, caption)]
    ensures ImageText(src, alt, caption) != "" && ImageText(src, alt, caption)[0] == '!'
  {
    assert IsSpaceChar('\n');
    assert '\n' !in src;
    OneLine(ImageText(src, alt, caption));
  }

  lemma {:induction false} ImageReads(src: string, alt: string, caption: Option<string>, rest: seq<string>)
    requires IsReadableImageContent(src, alt, caption) && src != ""
    ensures
      var b := ImageBlock(src, alt, caption);
      Step(BlockLines(b) + rest) == Segment(Some(BlockRow(b)), |BlockLines(b)|)
  {
    hide ImageLine, ImageText, BlockLines;
    ImageLines(src, alt, caption);
    ImageLineOf(src, alt, caption);
    FirstChar(ImageText(src, alt, caption));
  }

  // ---------- every readable block ----------

  /** A readable block that agrees with the patterns is read back whole. */
  lemma {:induction false} BlockReads(b: Block, rest: seq<string>)
    requires IsReadableBlock(b) && AgreesWithPatterns(b) && Follows(rest)
    ensures Step(BlockLines(b) + rest) == Segment(Some(BlockRow(b)), |BlockLines(b)|)
  {
    match b
    case Paragraph(text) => ParagraphStep(text, rest);
    case HeadingBlock(level, text) => HeadingStep(level, text, rest);
    case QuoteBlock(text, attribution, citeUrl) => QuoteReads(text, attribution, citeUrl, rest);
    case ListBlock(ordered, items) => ListReads(ordered, items, rest);
    case CodeBlock(language, code, caption) => CodeReads(language, code, caption, rest);
    case ImageBlock(src, alt, caption) => ImageReads(src, alt, caption, rest);
  }

  // ---------- protected blocks ----------

  lemma {:induction false} ProtectedLines(row: seq<Entry>)
    ensures
      var lines := [PROTECTED_BLOCK_OPENING, Stringify(Obj(row)), PROTECTED_BLOCK_CLOSING];
      Split(ProtectedText(Obj(row)), '\n') == lines
  {
    hide Stringify;
    var json := Stringify(Obj(row));
    StringifyPrintable(Obj(row));
    assert !IsPrintable('\n');
    assert '\n' !in json;
    SplitJoin([PROTECTED_BLOCK_OPENING, json, PROTECTED_BLOCK_CLOSING], '\n');
  }

  lemma {:induction false} EnvelopeShape(row: seq<Entry>)
    ensures
      var json := Stringify(Obj(row));
      && json != "" && json[0] == '{' && !IsProtectedClosing(json)
      && IsProtectedClosing(PROTECTED_BLOCK_CLOSING)
      && IsProtectedOpening(PROTECTED_BLOCK_OPENING) && !IsBlank(PROTECTED_BLOCK_OPENING)
  {
    var json := Stringify(Obj(row));
    if |json| >= 3 {
      assert json[..3][0] == json[0];
    }
    assert PROTECTED_BLOCK_OPENING[0] == ':' && PROTECTED_BLOCK_CLOSING[0] == ':';
  }

  /** A protected row comes back exactly. */
  lemma {:induction false} ProtectedReads(row: seq<Entry>, rest: seq<string>)
    requires IsJson(Obj(row))
    ensures
      var lines := Split(ProtectedText(Obj(row)), '\n');
      Step(lines + rest) == Segment(Some(Obj(row)), |lines|)
  {
    hide Stringify, ProtectedText, IsProtectedClosing, IsProtectedOpening, Parse;
    var json := Stringify(Obj(row));
    ProtectedLines(row);
    EnvelopeShape(row);
    var all := Split(ProtectedText(Obj(row)), '\n') + rest;
    FirstFromIs(all, 1, IsProtectedClosing, 2);
    assert all[1..2] == [json];
    ParseStringify(Obj(row));
    assert Step(all) == ProtectedSegment(all);
  }
}

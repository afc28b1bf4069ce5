/**
 The line patterns, each said as the texts it matches: a pattern matches with some captures exactly
 when the line is put together from them as the pattern says. And the line breaks of a document.
 */
module MarkdownPatterns {
  import opened Wrappers
  import opened Text
  import opened MarkdownLines

  // ---------- characters ----------

  /** Text without the line terminators of section 12.3 of ECMA-262, which `.` does not match. */
  ghost predicate OneLineText(s: string) {
    forall c :: c in s ==> c != '\n' && c != '\r' && c != '\U{2028}' && c != '\U{2029}'
  }

  predicate IsTabOrSpace(c: char) {
    c == '\t' || c == ' '
  }

  ghost predicate TabsAndSpaces(s: string) {
    forall c :: c in s ==> IsTabOrSpace(c)
  }

  /** The white space of section 12.2 of ECMA-262 and its line terminators. */
  const WHITE_SPACE: seq<int> := [
    9, 10, 11, 12, 13, 32, 160, 5760, 8192, 8193, 8194, 8195, 8196, 8197, 8198, 8199, 8200, 8201, 8202,
    8232, 8233, 8239, 8287, 12288, 65279]

  lemma SpaceExact(c: char)
    ensures IsSpaceChar(c) <==> c as int in WHITE_SPACE
  {
    assert WHITE_SPACE[0] == 9 && WHITE_SPACE[1] == 10 && WHITE_SPACE[2] == 11 && WHITE_SPACE[3] == 12 && WHITE_SPACE[4] == 13;
    assert WHITE_SPACE[5] == 32 && WHITE_SPACE[6] == 160 && WHITE_SPACE[7] == 5760;
    assert forall i :: 8 <= i < 19 ==> WHITE_SPACE[i] == 8184 + i;
    assert WHITE_SPACE[19] == 8232 && WHITE_SPACE[20] == 8233 && WHITE_SPACE[21] == 8239 && WHITE_SPACE[22] == 8287;
    assert WHITE_SPACE[23] == 12288 && WHITE_SPACE[24] == 65279;
    if IsSpaceChar(c) && 8192 <= c as int <= 8202 {
      assert WHITE_SPACE[c as int - 8184] == c as int;
    }
  }

  lemma AllIn(s: string, p: char -> bool)
    ensures All(s, p) <==> forall c :: c in s ==> p(c)
  {
    if forall c :: c in s ==> p(c) {
      assert forall i :: 0 <= i < |s| ==> s[i] in s;
    }
  }

  lemma DotsExact(s: string)
    ensures Dots(s) <==> OneLineText(s)
  {
    assert forall c :: IsDot(c) <==> c != '\n' && c != '\r' && c != '\U{2028}' && c != '\U{2029}';
    AllIn(s, IsDot);
  }

  lemma BlankExact(line: string)
    ensures IsBlank(line) <==> TabsAndSpaces(line)
  {
    AllIn(line, IsBlankChar);
  }

  // ---------- protected blocks: ^:::gf-block[\t ]*$ and ^:::[\t ]*$ ----------

  ghost predicate OpensProtected(line: string) {
    exists blanks :: TabsAndSpaces(blanks) && line == ":::gf-block" + blanks
  }

  ghost predicate ClosesProtected(line: string) {
    exists blanks :: TabsAndSpaces(blanks) && line == ":::" + blanks
  }

  lemma OpeningExact(line: string)
    ensures IsProtectedOpening(line) <==> OpensProtected(line)
  {
    hide IsBlank;
    assert |PROTECTED_BLOCK_OPENING| == 11 && PROTECTED_BLOCK_OPENING == ":::gf-block";
    if IsProtectedOpening(line) {
      BlankExact(line[11..]);
      assert line == ":::gf-block" + line[11..];
    }
    if blanks :| TabsAndSpaces(blanks) && line == ":::gf-block" + blanks {
      assert line[..11] == ":::gf-block" && line[11..] == blanks;
      BlankExact(blanks);
    }
  }

  lemma ClosingExact(line: string)
    ensures IsProtectedClosing(line) <==> ClosesProtected(line)
  {
    hide IsBlank;
    if IsProtectedClosing(line) {
      BlankExact(line[3..]);
      assert line == ":::" + line[3..];
    }
    if blanks :| TabsAndSpaces(blanks) && line == ":::" + blanks {
      assert line[..3] == ":::" && line[3..] == blanks;
      BlankExact(blanks);
    }
  }

  // ---------- fences: startsWith ```, ^(`{3,})[ \t]*(.*)$ and ^`{n,}[\t ]*$ ----------

  ghost predicate OpensFenced(line: string) {
    exists rest :: line == "```" + rest
  }

  ghost predicate ClosesFence(line: string, ticks: nat) {
    exists n: nat, blanks :: n >= ticks && TabsAndSpaces(blanks) && line == Repeat('`', n) + blanks
  }

  ghost predicate OpensFence(line: string, ticks: nat, language: string) {
    exists blanks :: IsFenceLine(line, ticks, blanks, language)
  }

  lemma FencedExact(line: string)
    ensures IsFencedOpening(line) <==> OpensFenced(line)
  {
    if IsFencedOpening(line) {
      assert line == "```" + line[3..];
    }
    if rest :| line == "```" + rest {
      assert line[..3] == "```";
    }
  }

  lemma {:induction false} TicksExact(n: nat, rest: string)
    requires rest == "" || rest[0] != '`'
    ensures Ticks(Repeat('`', n) + rest) == n
    ensures (Repeat('`', n) + rest)[n..] == rest
  {
    RunIs(Repeat('`', n) + rest, IsBacktick, n);
  }

  lemma TicksSplit(line: string)
    ensures line == Repeat('`', Ticks(line)) + line[Ticks(line)..]
    ensures Ticks(line) < |line| ==> line[Ticks(line)] != '`'
  {
    var n := Ticks(line);
    assert line[..n] == Repeat('`', n);
  }

  lemma {:induction false} FenceClosingExact(line: string, ticks: nat)
    ensures IsFenceClosing(line, ticks) <==> ClosesFence(line, ticks)
  {
    hide IsBlank;
    if IsFenceClosing(line, ticks) {
      TicksSplit(line);
      BlankExact(line[Ticks(line)..]);
    }
    if n: nat, blanks :| n >= ticks && TabsAndSpaces(blanks) && line == Repeat('`', n) + blanks {
      assert blanks != "" ==> blanks[0] in blanks;
      TicksExact(n, blanks);
      BlankExact(blanks);
    }
  }

  /** The fence, its language, and the blanks between them. */
  ghost predicate IsFenceLine(line: string, ticks: nat, blanks: string, language: string) {
    && ticks >= 3 && OneLineText(language) && TabsAndSpaces(blanks)
    && (language != "" ==> !IsTabOrSpace(language[0]))
    && (blanks == "" && language != "" ==> language[0] != '`')
    && line == Repeat('`', ticks) + (blanks + language)
  }

  /** The language is what follows the blanks after all the backticks. */
  lemma {:induction false} FenceOpeningExact(line: string, ticks: nat, language: string)
    ensures FenceOpening(line) == Some(Fence(ticks, language)) <==> OpensFence(line, ticks, language)
  {
    hide FenceOpening, IsFenceLine;
    if FenceOpening(line) == Some(Fence(ticks, language)) {
      OpenedIsFence(line, ticks, language);
    }
    if blanks :| IsFenceLine(line, ticks, blanks, language) {
      FenceIsOpened(line, ticks, blanks, language);
    }
  }

  lemma {:induction false} OpenedIsFence(line: string, ticks: nat, language: string)
    requires FenceOpening(line) == Some(Fence(ticks, language))
    ensures exists blanks :: IsFenceLine(line, ticks, blanks, language)
  {
    hide Dots, Run, OneLineText;
    TicksSplit(line);
    var rest := line[ticks..];
    var blanks := rest[..Run(rest, IsBlankChar)];
    RunFacts(rest);
    DotsExact(rest);
    assert rest == blanks + language;
    PartOneLine(blanks, language);
    AllIn(blanks, IsBlankChar);
    assert IsFenceLine(line, ticks, blanks, language);
  }

  lemma PartOneLine(a: string, b: string)
    ensures OneLineText(a + b) <==> OneLineText(a) && OneLineText(b)
  {
    assert forall c :: c in a + b <==> c in a || c in b;
  }

  lemma {:induction false} FenceIsOpened(line: string, ticks: nat, blanks: string, language: string)
    requires IsFenceLine(line, ticks, blanks, language)
    ensures FenceOpening(line) == Some(Fence(ticks, language))
  {
    hide Dots, Run, OneLineText;
    assert blanks != "" ==> blanks[0] in blanks;
    TicksExact(ticks, blanks + language);
    AllIn(blanks, IsBlankChar);
    RunStops(blanks, language, IsBlankChar);
    PartOneLine(blanks, language);
    assert OneLineText(blanks) by { BlanksOneLine(blanks); }
    DotsExact(blanks + language);
    assert (blanks + language)[|blanks|..] == language;
  }

  lemma BlanksOneLine(blanks: string)
    requires TabsAndSpaces(blanks)
    ensures OneLineText(blanks)
  {
  }

  lemma RunFacts(s: string)
    ensures var k := Run(s, IsBlankChar);
      k <= |s| && (forall i :: 0 <= i < k ==> IsBlankChar(s[i])) && (k < |s| ==> !IsBlankChar(s[k]))
  {
  }

  /** ^\*(.*)\*$ */
  ghost predicate IsCaptionLine(line: string, caption: string) {
    OneLineText(caption) && line == "*" + caption + "*"
  }

  lemma CaptionExact(line: string, caption: string)
    ensures CodeCaption(line) == Some(caption) <==> IsCaptionLine(line, caption)
  {
    hide Dots;
    DotsExact(caption);
    if line == "*" + caption + "*" {
      assert line[1..|line| - 1] == caption;
    }
    if CodeCaption(line) == Some(caption) {
      assert line == [line[0]] + caption + [line[|line| - 1]];
    }
  }

  // ---------- headings, quotes and list items ----------

  /** ^(#{2,6})[\t ](.*)$ */
  ghost predicate IsHeadingLine(line: string, level: nat, text: string) {
    && 2 <= level <= 6 && OneLineText(text)
    && (line == Repeat('#', level) + "\t" + text || line == Repeat('#', level) + " " + text)
  }

  lemma {:induction false} HeadingRun(line: string, level: nat, blank: char, text: string)
    requires IsTabOrSpace(blank) && line == Repeat('#', level) + [blank] + text
    ensures Run(line, IsHash) == level && level < |line| && line[level] == blank && line[level + 1..] == text
  {
    hide Run;
    assert line == Repeat('#', level) + ([blank] + text);
    RunStops(Repeat('#', level), [blank] + text, IsHash);
  }

  lemma {:induction false} HeadingSplit(line: string)
    ensures var level := Run(line, IsHash);
      level < |line| ==> line == Repeat('#', level) + [line[level]] + line[level + 1..]
  {
    var level := Run(line, IsHash);
    assert line[..level] == Repeat('#', level);
  }

  lemma {:induction false} HeadingExact(line: string, level: nat, text: string)
    ensures HeadingLine(line) == Some(Heading(level, text)) <==> IsHeadingLine(line, level, text)
  {
    hide Dots, Run, Repeat, OneLineText;
    DotsExact(text);
    if IsHeadingLine(line, level, text) {
      HeadingRun(line, level, if line == Repeat('#', level) + "\t" + text then '\t' else ' ', text);
    }
    if HeadingLine(line) == Some(Heading(level, text)) {
      HeadingSplit(line);
    }
  }

  /** ^>[\t ]?(.*)$ */
  ghost predicate IsQuoteLine(line: string, text: string) {
    && OneLineText(text)
    && (|| line == ">\t" + text || line == "> " + text
        || (line == ">" + text && (text != "" ==> !IsTabOrSpace(text[0]))))
  }

  lemma QuoteExact(line: string, text: string)
    ensures QuoteLine(line) == Some(text) <==> IsQuoteLine(line, text)
  {
    hide Dots;
    DotsExact(text);
    assert line == ">\t" + text ==> |line| > 1 && line[1] == '\t' && line[2..] == text;
    assert line == "> " + text ==> |line| > 1 && line[1] == ' ' && line[2..] == text;
    assert line == ">" + text ==> line[1..] == text && (text != "" ==> line[1] == text[0]);
    if QuoteLine(line) == Some(text) {
      if |line| > 1 && IsBlankChar(line[1]) {
        assert line == [line[0], line[1]] + text;
      } else {
        assert line == [line[0]] + text;
      }
    }
  }

  /** ^(?:-|\*)[\t ](.*)$ and ^\d+\.[\t ](.*)$ */
  ghost predicate IsItemLine(line: string, ordered: bool, text: string) {
    && OneLineText(text)
    && if ordered then exists digits, blank :: IsNumeral(digits) && blank in ['\t', ' '] && line == digits + ['.', blank] + text
       else exists mark, blank :: mark in ['-', '*'] && blank in ['\t', ' '] && line == [mark, blank] + text
  }

  lemma ItemExact(line: string, ordered: bool, text: string)
    ensures ListItem(line) == Some(Item(ordered, text)) <==> IsItemLine(line, ordered, text)
  {
    BulletExact(line, text);
    NumberedExact(line, text);
  }

  lemma BulletExact(line: string, text: string)
    ensures ListItem(line) == Some(Item(false, text)) <==> IsItemLine(line, false, text)
  {
    hide Dots, Run;
    DotsExact(text);
    if ListItem(line) == Some(Item(false, text)) {
      assert line == [line[0], line[1]] + text;
    }
    if mark, blank :| mark in ['-', '*'] && blank in ['\t', ' '] && line == [mark, blank] + text {
      assert line[2..] == text;
    }
  }

  lemma {:induction false} NumberedRun(line: string, digits: string, blank: char, text: string)
    requires IsNumeral(digits) && line == digits + ['.', blank] + text
    ensures var d := Run(line, IsDigit);
      && d == |digits| && d > 0 && d + 1 < |line| && line[d] == '.' && line[d + 1] == blank && line[d + 2..] == text
      && IsDigit(line[0])
  {
    hide Run;
    assert line == digits + (['.', blank] + text);
    RunStops(digits, ['.', blank] + text, IsDigit);
    assert line[0] == digits[0];
  }

  lemma {:induction false} NumberedSplit(line: string)
    ensures var d := Run(line, IsDigit);
      d > 0 && d + 1 < |line| && line[d] == '.' ==> IsNumeral(line[..d]) && line == line[..d] + ['.', line[d + 1]] + line[d + 2..]
  {
  }

  lemma {:induction false} NumberedExact(line: string, text: string)
    ensures ListItem(line) == Some(Item(true, text)) <==> IsItemLine(line, true, text)
  {
    hide Dots, Run, OneLineText, IsNumeral;
    DotsExact(text);
    if ListItem(line) == Some(Item(true, text)) {
      NumberedSplit(line);
    }
    if IsItemLine(line, true, text) {
      var digits, blank :| IsNumeral(digits) && blank in ['\t', ' '] && line == digits + ['.', blank] + text;
      NumberedRun(line, digits, blank, text);
    }
  }

  predicate IsNumeral(s: string) {
    s != "" && forall i :: 0 <= i < |s| ==> '0' <= s[i] <= '9'
  }

  // ---------- quote attributions ----------

  /** ^<[^<>]*>$ */
  ghost predicate IsBare(s: string, url: string) {
    '<' !in url && '>' !in url && s == "<" + url + ">"
  }

  lemma BareExact(s: string, url: string)
    ensures BareCitation(s) == Some(url) <==> IsBare(s, url)
  {
    if s == "<" + url + ">" {
      assert s[1..|s| - 1] == url;
    }
    if BareCitation(s) == Some(url) {
      assert s == [s[0]] + url + [s[|s| - 1]];
    }
  }

  /** ^(.*) <([^<>]*)>$ */
  ghost predicate IsNamed(s: string, name: string, url: string) {
    OneLineText(name) && '<' !in url && '>' !in url && s == name + " <" + url + ">"
  }

  lemma {:induction false} NamedGiven(s: string, name: string, url: string)
    requires IsNamed(s, name, url)
    ensures NamedCitation(s) == Some(Citation(name, url))
  {
    hide Dots, AfterLastAngle, OneLineText;
    DotsExact(name);
    var body := s[..|s| - 1];
    assert body == name + " <" + url;
    assert body[|name| + 2..] == url && body[..|name|] == name;
    LastAngle(body, |name| + 2);
  }

  lemma {:induction false} NamedRead(s: string, name: string, url: string)
    requires NamedCitation(s) == Some(Citation(name, url))
    ensures IsNamed(s, name, url)
  {
    hide Dots, AfterLastAngle, OneLineText;
    DotsExact(name);
    var body := s[..|s| - 1];
    AngleFacts(body);
    var n := AfterLastAngle(body);
    assert body == body[..n - 2] + [body[n - 2], body[n - 1]] + body[n..];
    assert s == body + [s[|s| - 1]];
  }

  lemma {:induction false} NamedExact(s: string, name: string, url: string)
    ensures NamedCitation(s) == Some(Citation(name, url)) <==> IsNamed(s, name, url)
  {
    hide NamedCitation, IsNamed;
    if IsNamed(s, name, url) {
      NamedGiven(s, name, url);
    }
    if NamedCitation(s) == Some(Citation(name, url)) {
      NamedRead(s, name, url);
    }
  }

  lemma AngleFacts(s: string)
    ensures AfterLastAngle(s) <= |s| && NoAngles(s[AfterLastAngle(s)..])
  {
  }

  lemma {:induction false} LastAngle(s: string, n: nat)
    requires 0 < n <= |s| && (s[n - 1] == '<' || s[n - 1] == '>') && '<' !in s[n..] && '>' !in s[n..]
    ensures AfterLastAngle(s) == n
  {
    var m := AfterLastAngle(s);
    assert forall k :: m <= k < |s| ==> s[m..][k - m] == s[k];
    assert forall k :: n <= k < |s| ==> s[n..][k - n] == s[k];
  }

  // ---------- images: ^!\[([^\][]*)\]\(([^()\s]+)(?: "([^"]*)")?\)$ ----------

  /** What stands between the parts of an image line. */
  ghost predicate IsImageLine(line: string, alt: string, src: string, caption: Option<string>) {
    && '[' !in alt && ']' !in alt
    && src != "" && (forall c :: c in src ==> c != '(' && c != ')' && c as int !in WHITE_SPACE)
    && (caption.Some? ==> '\"' !in caption.value)
    && line == "![" + alt + "](" + src + (if caption.None? then ")" else " \"" + caption.value + "\")")
  }

  lemma {:induction false} TailIs(tail: string, caption: Option<string>)
    ensures ImageTail(tail) == Some(caption) <==>
      (caption.Some? ==> '\"' !in caption.value) && tail == if caption.None? then ")" else " \"" + caption.value + "\")"
  {
    if ImageTail(tail) == Some(caption) && caption.Some? {
      assert tail == tail[..2] + tail[2..];
      assert tail[..2] == " \"";
      var text := tail[2..];
      var c := Run(text, IsCaptionChar);
      assert text == caption.value + "\")";
      AllIn(caption.value, IsCaptionChar);
    }
    if caption.Some? && '\"' !in caption.value && tail == " \"" + caption.value + "\")" {
      assert tail[..2] == " \"" && tail[2..] == caption.value + "\")";
      AllIn(caption.value, IsCaptionChar);
      RunStops(caption.value, "\")", IsCaptionChar);
      assert (caption.value + "\")")[..|caption.value|] == caption.value;
      assert (caption.value + "\")")[|caption.value|..] == "\")";
    }
  }

  lemma SourceChars(src: string)
    ensures All(src, IsSrcChar) <==> forall c :: c in src ==> c != '(' && c != ')' && c as int !in WHITE_SPACE
  {
    hide WHITE_SPACE, IsSpaceChar;
    AllIn(src, IsSrcChar);
    forall c: char ensures IsSrcChar(c) <==> c != '(' && c != ')' && c as int !in WHITE_SPACE {
      SpaceExact(c);
    }
  }

  lemma {:induction false} SourceIs(s: string, src: string, caption: Option<string>)
    ensures ImageSource(s) == Some((src, caption)) <==>
      && src != "" && All(src, IsSrcChar) && (caption.Some? ==> '\"' !in caption.value)
      && s == src + (if caption.None? then ")" else " \"" + caption.value + "\")")
  {
    hide ImageTail, IsSpaceChar;
    var tail := if caption.None? then ")" else " \"" + caption.value + "\")";
    TailIs(tail, caption);
    assert !IsSrcChar(')') && !IsSrcChar(' ') by { SpaceIsSpace(); }
    if src != "" && All(src, IsSrcChar) && s == src + tail {
      RunStops(src, tail, IsSrcChar);
      assert s[..|src|] == src && s[|src|..] == tail;
    }
    if ImageSource(s) == Some((src, caption)) {
      var n := Run(s, IsSrcChar);
      TailIs(s[n..], caption);
      assert s == s[..n] + s[n..];
    }
  }

  lemma SpaceIsSpace()
    ensures IsSpaceChar(' ')
  {
  }

  lemma {:induction false} ImageExact(line: string, alt: string, src: string, caption: Option<string>)
    ensures ImageLine(line) == Some(Image(alt, src, caption)) <==> IsImageLine(line, alt, src, caption)
  {
    hide ImageAlt, IsImageLine;
    if IsImageLine(line, alt, src, caption) {
      ImageIsRead(line, alt, src, caption);
    }
    if ImageLine(line) == Some(Image(alt, src, caption)) {
      assert line == "![" + line[2..];
      ReadIsImage(line[2..], alt, src, caption);
    }
  }

  lemma {:induction false} ImageIsRead(line: string, alt: string, src: string, caption: Option<string>)
    requires IsImageLine(line, alt, src, caption)
    ensures ImageLine(line) == Some(Image(alt, src, caption))
  {
    hide ImageSource, WHITE_SPACE, All, Run;
    SourceChars(src);
    var after := src + (if caption.None? then ")" else " \"" + caption.value + "\")");
    SourceIs(after, src, caption);
    assert line == "![" + (alt + ("](" + after));
    assert line[..2] == "![" && line[2..] == alt + ("](" + after);
    AltIs(line[2..], alt, after);
  }

  lemma {:induction false} ReadIsImage(s: string, alt: string, src: string, caption: Option<string>)
    requires ImageAlt(s) == Some(Image(alt, src, caption))
    ensures IsImageLine("![" + s, alt, src, caption)
  {
    hide ImageSource, ImageAlt, WHITE_SPACE, All;
    AltParts(s, alt, src, caption);
    var after := s[|alt| + 2..];
    SourceIs(after, src, caption);
    SourceChars(src);
    var tail := if caption.None? then ")" else " \"" + caption.value + "\")";
    assert after == src + tail;
    assert "![" + s == "![" + alt + "](" + src + tail;
  }

  lemma {:induction false} AltParts(s: string, alt: string, src: string, caption: Option<string>)
    requires ImageAlt(s) == Some(Image(alt, src, caption))
    ensures |alt| + 2 <= |s| && ImageSource(s[|alt| + 2..]) == Some((src, caption))
    ensures '[' !in alt && ']' !in alt && s == alt + ("](" + s[|alt| + 2..])
  {
    hide ImageSource;
    var a := Run(s, IsAltChar);
    assert StartsWith(s[a..], "](");
    AltSplit(s);
    var parts := ImageSource(s[a + 2..]);
    assert parts.Some?;
    assert alt == s[..a];
    assert parts.value == (src, caption);
    assert parts == Some((src, caption));
  }

  lemma {:induction false} AltIs(s: string, alt: string, after: string)
    requires '[' !in alt && ']' !in alt && s == alt + ("](" + after)
    ensures Run(s, IsAltChar) == |alt| && s[..|alt|] == alt && StartsWith(s[|alt|..], "](") && s[|alt| + 2..] == after
  {
    AllIn(alt, IsAltChar);
    RunStops(alt, "](" + after, IsAltChar);
    assert s[|alt|..] == "](" + after;
    assert s[|alt|..][..2] == "](";
  }

  lemma {:induction false} AltSplit(s: string)
    requires StartsWith(s[Run(s, IsAltChar)..], "](")
    ensures var a := Run(s, IsAltChar);
      '[' !in s[..a] && ']' !in s[..a] && s == s[..a] + ("](" + s[a + 2..])
  {
    var a := Run(s, IsAltChar);
    AllIn(s[..a], IsAltChar);
    var t := s[a..];
    assert t == t[..2] + t[2..] && t[2..] == s[a + 2..];
  }

  /** A line that starts any block but a paragraph. */
  ghost predicate StartsBlock(line: string) {
    || OpensProtected(line) || OpensFenced(line)
    || (exists level: nat, text :: IsHeadingLine(line, level, text))
    || (exists text :: IsQuoteLine(line, text))
    || (exists ordered, text :: IsItemLine(line, ordered, text))
    || (exists alt, src, caption :: IsImageLine(line, alt, src, caption))
  }

  lemma {:induction false} StartExact(line: string)
    ensures IsBlockStart(line) <==> StartsBlock(line)
    ensures HeadingLine(line).Some? <==> exists level: nat, text :: IsHeadingLine(line, level, text)
    ensures QuoteLine(line).Some? <==> exists text :: IsQuoteLine(line, text)
    ensures ListItem(line).Some? <==> exists ordered, text :: IsItemLine(line, ordered, text)
    ensures ImageLine(line).Some? <==> exists alt, src, caption :: IsImageLine(line, alt, src, caption)
  {
    hide IsProtectedOpening, IsFencedOpening, HeadingLine, QuoteLine, ListItem, ImageLine;
    hide OpensProtected, OpensFenced, IsHeadingLine, IsQuoteLine, IsItemLine, IsImageLine;
    OpeningExact(line);
    FencedExact(line);
    forall level: nat, text ensures HeadingLine(line) == Some(Heading(level, text)) <==> IsHeadingLine(line, level, text) {
      HeadingExact(line, level, text);
    }
    forall text ensures QuoteLine(line) == Some(text) <==> IsQuoteLine(line, text) {
      QuoteExact(line, text);
    }
    forall ordered, text ensures ListItem(line) == Some(Item(ordered, text)) <==> IsItemLine(line, ordered, text) {
      ItemExact(line, ordered, text);
    }
    forall alt, src, caption ensures ImageLine(line) == Some(Image(alt, src, caption)) <==> IsImageLine(line, alt, src, caption) {
      ImageExact(line, alt, src, caption);
    }
    if HeadingLine(line).Some? {
      var h := HeadingLine(line).value;
      assert HeadingLine(line) == Some(Heading(h.level, h.text));
    }
    if ListItem(line).Some? {
      var item := ListItem(line).value;
      assert ListItem(line) == Some(Item(item.ordered, item.text));
    }
    if ImageLine(line).Some? {
      var image := ImageLine(line).value;
      assert ImageLine(line) == Some(Image(image.alt, image.src, image.caption));
    }
  }
}

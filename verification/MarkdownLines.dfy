/** The line patterns of the block editor's Markdown, each as the function its pattern computes. */
module MarkdownLines {
  import opened Wrappers
  import opened Text

  // ---------- characters ----------

  predicate IsBlankChar(c: char) {
    c == '\t' || c == ' '
  }

  /** What `.` matches: everything but the four line terminators of ECMAScript. */
  predicate IsDot(c: char) {
    c != '\n' && c != '\r' && c as int != 0x2028 && c as int != 0x2029
  }

  /** What `\s` matches. */
  predicate IsSpaceChar(c: char) {
    var n := c as int;
    9 <= n <= 13 || n == 0x20 || n == 0xA0 || n == 0x1680 || 0x2000 <= n <= 0x200A ||
    n == 0x2028 || n == 0x2029 || n == 0x202F || n == 0x205F || n == 0x3000 || n == 0xFEFF
  }

  predicate IsBacktick(c: char) {
    c == '`'
  }

  predicate IsHash(c: char) {
    c == '#'
  }

  predicate IsAltChar(c: char) {
    c != '[' && c != ']'
  }

  predicate IsSrcChar(c: char) {
    c != '(' && c != ')' && !IsSpaceChar(c)
  }

  predicate IsCaptionChar(c: char) {
    c != '\"'
  }

  predicate IsBlank(line: string) {
    All(line, IsBlankChar)
  }

  predicate Dots(s: string) {
    All(s, IsDot)
  }

  predicate HasLineBreak(s: string) {
    '\r' in s || '\n' in s
  }

  // ---------- protected blocks ----------

  const PROTECTED_BLOCK_OPENING := ":::gf-block"
  const PROTECTED_BLOCK_CLOSING := ":::"

  predicate IsProtectedOpening(line: string) {
    StartsWith(line, PROTECTED_BLOCK_OPENING) && IsBlank(line[|PROTECTED_BLOCK_OPENING|..])
  }

  predicate IsProtectedClosing(line: string) {
    StartsWith(line, PROTECTED_BLOCK_CLOSING) && IsBlank(line[|PROTECTED_BLOCK_CLOSING|..])
  }

  // ---------- fences ----------

  const FENCE := "```"

  predicate IsFencedOpening(line: string) {
    StartsWith(line, FENCE)
  }

  function Ticks(line: string): nat {
    Run(line, IsBacktick)
  }

  /** At least `ticks` backticks, then only blanks. */
  predicate IsFenceClosing(line: string, ticks: nat) {
    Ticks(line) >= ticks && IsBlank(line[Ticks(line)..])
  }

  datatype Fence = Fence(ticks: nat, language: string)

  function FenceOpening(line: string): Option<Fence> {
    var ticks := Ticks(line);
    if ticks < 3 || !Dots(line[ticks..]) then None
    else
      var rest := line[ticks..];
      Some(Fence(ticks, rest[Run(rest, IsBlankChar)..]))
  }

  /** The caption line after a closing fence: `*caption*`. */
  function CodeCaption(line: string): Option<string> {
    if |line| >= 2 && line[0] == '*' && line[|line| - 1] == '*' && Dots(line[1..|line| - 1])
    then Some(line[1..|line| - 1])
    else None
  }

  // ---------- headings, quotes, list items ----------

  datatype Heading = Heading(level: nat, text: string)

  function HeadingLine(line: string): (r: Option<Heading>)
    ensures r.Some? ==> 2 <= r.value.level <= 6
  {
    var h := Run(line, IsHash);
    if 2 <= h <= 6 && h < |line| && IsBlankChar(line[h]) && Dots(line[h + 1..])
    then Some(Heading(h, line[h + 1..]))
    else None
  }

  function QuoteLine(line: string): Option<string> {
    if line == "" || line[0] != '>' then None
    else
      var rest := if |line| > 1 && IsBlankChar(line[1]) then line[2..] else line[1..];
      if Dots(rest) then Some(rest) else None
  }

  datatype Item = Item(ordered: bool, text: string)

  function ListItem(line: string): Option<Item> {
    if |line| >= 2 && (line[0] == '-' || line[0] == '*') && IsBlankChar(line[1]) && Dots(line[2..])
    then Some(Item(false, line[2..]))
    else
      var d := Run(line, IsDigit);
      if d > 0 && d + 1 < |line| && line[d] == '.' && IsBlankChar(line[d + 1]) && Dots(line[d + 2..])
      then Some(Item(true, line[d + 2..]))
      else None
  }

  // ---------- images ----------

  datatype Image = Image(alt: string, src: string, caption: Option<string>)

  /** `![alt](src)` or `![alt](src "caption")`. */
  function ImageLine(line: string): Option<Image> {
    if StartsWith(line, "![") then ImageAlt(line[2..]) else None
  }

  function ImageAlt(s: string): Option<Image> {
    var a := Run(s, IsAltChar);
    if !StartsWith(s[a..], "](") then None
    else
      var (src, caption) :- ImageSource(s[a + 2..]);
      Some(Image(s[..a], src, caption))
  }

  function ImageSource(s: string): Option<(string, Option<string>)> {
    var n := Run(s, IsSrcChar);
    if n == 0 then None
    else
      var caption :- ImageTail(s[n..]);
      Some((s[..n], caption))
  }

  /** What follows the source: `)`, or a quoted caption and `)`. */
  function ImageTail(tail: string): Option<Option<string>> {
    if tail == ")" then Some(None)
    else if !StartsWith(tail, " \"") then None
    else
      var text := tail[2..];
      var c := Run(text, IsCaptionChar);
      if text[c..] == "\")" then Some(Some(text[..c])) else None
  }

  predicate IsBlockStart(line: string) {
    IsProtectedOpening(line) ||
    IsFencedOpening(line) ||
    HeadingLine(line).Some? ||
    QuoteLine(line).Some? ||
    ListItem(line).Some? ||
    ImageLine(line).Some?
  }

  // ---------- quote attributions ----------

  predicate NoAngles(s: string) {
    '<' !in s && '>' !in s
  }

  predicate NotAngle(c: char) {
    c != '<' && c != '>'
  }

  /** One past the last `<` or `>`, 0 when there is none. */
  function AfterLastAngle(s: string): (n: nat)
    ensures n <= |s|
    ensures NoAngles(s[n..])
    ensures n > 0 ==> !NotAngle(s[n - 1])
  {
    if s == "" then 0
    else if !NotAngle(s[|s| - 1]) then |s|
    else
      var n := AfterLastAngle(s[..|s| - 1]);
      assert s[n..] == s[..|s| - 1][n..] + [s[|s| - 1]];
      n
  }

  /** `<url>` alone. */
  function BareCitation(s: string): Option<string> {
    if |s| >= 2 && s[0] == '<' && s[|s| - 1] == '>' && NoAngles(s[1..|s| - 1])
    then Some(s[1..|s| - 1])
    else None
  }

  datatype Citation = Citation(attribution: string, url: string)

  /** `attribution <url>`. */
  function NamedCitation(s: string): Option<Citation> {
    if s == "" || s[|s| - 1] != '>' then None
    else
      var body := s[..|s| - 1];
      var n := AfterLastAngle(body);
      if n >= 2 && body[n - 1] == '<' && body[n - 2] == ' ' && Dots(body[..n - 2])
      then Some(Citation(body[..n - 2], body[n..]))
      else None
  }

  // ---------- normalising line breaks ----------

  /** Every CR LF and every lone CR becomes LF. */
  function NormalizeBreaks(s: string): string {
    if s == "" then ""
    else if s[0] == '\r' then
      ['\n'] + NormalizeBreaks(if |s| > 1 && s[1] == '\n' then s[2..] else s[1..])
    else [s[0]] + NormalizeBreaks(s[1..])
  }

  lemma {:induction false} NormalizedFree(s: string)
    ensures '\r' !in NormalizeBreaks(s)
  {
    if s != "" {
      if s[0] == '\r' {
        NormalizedFree(if |s| > 1 && s[1] == '\n' then s[2..] else s[1..]);
      } else {
        NormalizedFree(s[1..]);
      }
    }
  }

  lemma {:induction false} NormalizeNone(s: string)
    requires '\r' !in s
    ensures NormalizeBreaks(s) == s
  {
    if s != "" {
      NormalizeNone(s[1..]);
      assert s == [s[0]] + s[1..];
    }
  }
}

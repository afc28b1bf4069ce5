/**
 The stored rows of the block editor, which of them Markdown can show readably, and the printer.
 A row that it cannot show goes into a protected block holding its JSON text.
 */
module MarkdownBlocks {
  import opened Wrappers
  import opened Text
  import opened Json
  import opened MarkdownLines

  /** The content of a row that Markdown shows readably. */
  datatype Block =
    | Paragraph(text: string)
    | HeadingBlock(level: nat, text: string)
    | QuoteBlock(text: string, attribution: Option<string>, citeUrl: Option<string>)
    | ListBlock(ordered: bool, items: seq<string>)
    | CodeBlock(language: string, code: string, caption: Option<string>)
    | ImageBlock(src: string, alt: string, caption: Option<string>)

  // ---------- reading a row ----------

  /** Row ids and unset helper fields are put there by storage. */
  predicate IsStorageNoise(row: seq<Entry>, key: string) {
    key == "id" ||
    ((key == "blockName" || key == "extensions") &&
     (match Get(row, key)
      case None => true
      case Some(v) => v == Null || v == Undefined))
  }

  predicate HasOnlyKeys(row: seq<Entry>, allowed: seq<string>) {
    forall e | e in row :: e.key in allowed || IsStorageNoise(row, e.key)
  }

  /** Unset, null, or a string. */
  predicate HasOptionalString(row: seq<Entry>, key: string) {
    match Get(row, key)
    case None => true
    case Some(v) => v == Null || v.Str?
  }

  function StringOf(row: seq<Entry>, key: string): Option<string> {
    match Get(row, key)
    case Some(Str(s)) => Some(s)
    case _ => None
  }

  predicate HasType(row: seq<Entry>, blockType: string) {
    Get(row, "blockType") == Some(Str(blockType))
  }

  // ---------- the readability guards ----------

  predicate IsReadableParagraphText(text: string) {
    && text != ""
    && '\r' !in text
    && forall line | line in Split(text, '\n') :: !IsBlank(line) && !IsBlockStart(line)
  }

  function ReadableParagraph(row: seq<Entry>): Option<Block> {
    if !HasType(row, "paragraph") || !HasOnlyKeys(row, ["blockType", "text"]) then None
    else
      var text :- StringOf(row, "text");
      if IsReadableParagraphText(text) then Some(Paragraph(text)) else None
  }

  function HeadingLevel(level: string): Option<nat> {
    if level == "2" then Some(2)
    else if level == "3" then Some(3)
    else if level == "4" then Some(4)
    else if level == "5" then Some(5)
    else if level == "6" then Some(6)
    else None
  }

  function ReadableHeading(row: seq<Entry>): Option<Block> {
    if !HasType(row, "heading") || !HasOnlyKeys(row, ["blockType", "level", "text"]) then None
    else
      var levelText :- StringOf(row, "level");
      var level :- HeadingLevel(levelText);
      var text :- StringOf(row, "text");
      if HasLineBreak(text) then None else Some(HeadingBlock(level, text))
  }

  const EM_DASH: char := '\U{2014}'

  /** The start of an attribution line inside a quote. */
  const DASH: string := [EM_DASH, ' ']

  predicate IsReadableQuoteContent(text: string, attribution: Option<string>, citeUrl: Option<string>) {
    && !HasLineBreak(text)
    && (attribution.Some? ==> !HasLineBreak(attribution.value))
    && (citeUrl.Some? ==> !HasLineBreak(citeUrl.value) && NoAngles(citeUrl.value))
    && (attribution.None? && citeUrl.None? ==> !StartsWith(text, DASH))
    && (attribution.Some? && citeUrl.None? ==> NamedCitation(attribution.value).None?)
  }

  function ReadableQuote(row: seq<Entry>): Option<Block> {
    if !HasType(row, "quote") || !HasOnlyKeys(row, ["blockType", "text", "attribution", "citeUrl"]) ||
       !HasOptionalString(row, "attribution") || !HasOptionalString(row, "citeUrl")
    then None
    else
      var text :- StringOf(row, "text");
      var attribution, citeUrl := StringOf(row, "attribution"), StringOf(row, "citeUrl");
      if IsReadableQuoteContent(text, attribution, citeUrl)
      then Some(QuoteBlock(text, attribution, citeUrl))
      else None
  }

  function ReadableListItem(v: Value): Option<string> {
    match v
    case Obj(item) =>
      if !HasOnlyKeys(item, ["text"]) then None
      else
        var text :- StringOf(item, "text");
        if HasLineBreak(text) then None else Some(text)
    case _ => None
  }

  function ReadableListItems(items: seq<Value>): (r: Option<seq<string>>)
    ensures r.Some? ==> |r.value| == |items|
    ensures r.Some? ==> forall i :: 0 <= i < |items| ==> ReadableListItem(items[i]) == Some(r.value[i])
  {
    if items == [] then Some([])
    else
      var text :- ReadableListItem(items[0]);
      var more :- ReadableListItems(items[1..]);
      Some([text] + more)
  }

  function ReadableList(row: seq<Entry>): Option<Block> {
    if !HasType(row, "list") || !HasOnlyKeys(row, ["blockType", "style", "items"]) then None
    else
      var style :- StringOf(row, "style");
      if style != "ordered" && style != "unordered" then None
      else
        match Get(row, "items")
        case Some(Arr(items)) =>
          if items == [] then None
          else
            var texts :- ReadableListItems(items);
            Some(ListBlock(style == "ordered", texts))
        case _ => None
  }

  predicate NoSpace(s: string) {
    forall c | c in s :: !IsSpaceChar(c)
  }

  predicate IsReadableImageContent(src: string, alt: string, caption: Option<string>) {
    && NoSpace(src)
    && '(' !in src && ')' !in src
    && !HasLineBreak(alt)
    && '[' !in alt && ']' !in alt
    && (caption.Some? ==> !HasLineBreak(caption.value) && '\"' !in caption.value)
  }

  predicate IsNumber(v: Option<Value>) {
    v.Some? && v.value.Num?
  }

  function ReadableImage(row: seq<Entry>): Option<Block> {
    if !HasType(row, "image") || IsNumber(Get(row, "width")) || IsNumber(Get(row, "height")) then None
    else
      var rest := RemoveKey(RemoveKey(row, "height"), "width");
      if !HasOnlyKeys(rest, ["blockType", "src", "alt", "caption"]) then None
      else
        var src :- StringOf(rest, "src");
        var alt :- StringOf(rest, "alt");
        var caption := StringOf(rest, "caption");
        if IsReadableImageContent(src, alt, caption) then Some(ImageBlock(src, alt, caption)) else None
  }

  predicate IsReadableCodeContent(language: string, code: string, caption: Option<string>) {
    && !HasLineBreak(language)
    && '\r' !in code
    && (caption.Some? ==> !HasLineBreak(caption.value))
  }

  function ReadableCode(row: seq<Entry>): Option<Block> {
    if !HasType(row, "code") || !HasOnlyKeys(row, ["blockType", "language", "code", "caption"]) ||
       !HasOptionalString(row, "caption")
    then None
    else
      var language :- StringOf(row, "language");
      var code :- StringOf(row, "code");
      var caption := StringOf(row, "caption");
      if IsReadableCodeContent(language, code, caption)
      then Some(CodeBlock(language, code, caption))
      else None
  }

  function OrElse<T>(first: Option<T>, second: Option<T>): Option<T> {
    if first.Some? then first else second
  }

  /** The readable content of a row; None sends the row into a protected block. */
  function ReadableOf(row: seq<Entry>): Option<Block> {
    OrElse(ReadableParagraph(row),
    OrElse(ReadableHeading(row),
    OrElse(ReadableQuote(row),
    OrElse(ReadableList(row),
    OrElse(ReadableCode(row), ReadableImage(row))))))
  }

  // ---------- the printer ----------

  /** The lengths of the maximal backtick runs of `code`. */
  function TickRuns(code: string): (runs: seq<nat>)
    decreases |code|
  {
    if code == "" then []
    else
      var run := Ticks(code);
      if run == 0 then TickRuns(code[1..]) else [run] + TickRuns(code[run..])
  }

  function Max(a: nat, b: nat): nat {
    if a > b then a else b
  }

  function Longest(runs: seq<nat>): nat {
    if runs == [] then 0 else Max(Longest(runs[..|runs| - 1]), runs[|runs| - 1])
  }

  function FenceTicksFor(code: string): nat {
    Max(3, Longest(TickRuns(code)) + 1)
  }

  /** fenceTicksFor as the loop over the backtick runs that it is. */
  method FenceTicksOf(code: string) returns (ticks: nat)
    ensures ticks == FenceTicksFor(code)
  {
    var runs := TickRuns(code);
    var longest: nat := 0;
    for i := 0 to |runs|
      invariant longest == Longest(runs[..i])
    {
      assert runs[..i + 1][..i] == runs[..i];
      longest := Max(longest, runs[i]);
    }
    assert runs[..|runs|] == runs;
    ticks := Max(3, longest + 1);
  }

  function QuoteAttributionLine(attribution: Option<string>, citeUrl: Option<string>): string {
    match citeUrl
    case None => ['>', ' '] + DASH + (if attribution.Some? then attribution.value else "")
    case Some(url) =>
      match attribution
      case None => ['>', ' '] + DASH + ['<'] + url + ['>']
      case Some(name) => ['>', ' '] + DASH + name + [' ', '<'] + url + ['>']
  }

  function ItemLine(ordered: bool, index: nat, text: string): string {
    (if ordered then NatText(index + 1) + ['.', ' '] else ['-', ' ']) + text
  }

  /** The lines of list items numbered from `index`. */
  function ItemLines(ordered: bool, items: seq<string>, index: nat): (lines: seq<string>)
    ensures |lines| == |items|
    ensures forall i :: 0 <= i < |items| ==> lines[i] == ItemLine(ordered, index + i, items[i])
  {
    if items == [] then []
    else [ItemLine(ordered, index, items[0])] + ItemLines(ordered, items[1..], index + 1)
  }

  function ImageText(src: string, alt: string, caption: Option<string>): string {
    ['!', '['] + alt + [']', '('] + src +
    (if caption.None? then [')'] else [' ', '\"'] + caption.value + ['\"', ')'])
  }

  /** readableMarkdownOf, on the content of a readable row. */
  function BlockText(b: Block): string {
    match b
    case Paragraph(text) => text
    case HeadingBlock(level, text) => Repeat('#', level) + [' '] + text
    case QuoteBlock(text, attribution, citeUrl) =>
      if attribution.None? && citeUrl.None? then ['>', ' '] + text
      else Join([['>', ' '] + text, QuoteAttributionLine(attribution, citeUrl)], '\n')
    case ListBlock(ordered, items) => Join(ItemLines(ordered, items, 0), '\n')
    case CodeBlock(language, code, caption) =>
      var fence := Repeat('`', FenceTicksFor(code));
      Join([fence + language, code, fence] +
           (if caption.None? then [] else [['*'] + caption.value + ['*']]), '\n')
    case ImageBlock(src, alt, caption) => ImageText(src, alt, caption)
  }

  function ProtectedText(row: Value): string {
    Join([PROTECTED_BLOCK_OPENING, Stringify(row), PROTECTED_BLOCK_CLOSING], '\n')
  }

  /** The text of one value; what is not a row is dropped. */
  function RowText(v: Value): Option<string> {
    match v
    case Obj(row) =>
      (match ReadableOf(row)
       case Some(b) => Some(BlockText(b))
       case None => Some(ProtectedText(v)))
    case _ => None
  }

  function RowTexts(values: seq<Value>): seq<string> {
    if values == [] then []
    else
      match RowText(values[0])
      case None => RowTexts(values[1..])
      case Some(text) => [text] + RowTexts(values[1..])
  }

  function JoinBlocks(texts: seq<string>): string {
    if |texts| == 0 then ""
    else if |texts| == 1 then texts[0]
    else texts[0] + ['\n', '\n'] + JoinBlocks(texts[1..])
  }

  function BlocksToMarkdown(values: seq<Value>): string {
    JoinBlocks(RowTexts(values))
  }
}

/**
 What the printer writes, said of the rows' entries and of the characters written: which rows
 Markdown shows readably, the text of every kind, and the protected block of any other row.
 */
module MarkdownTexts {
  import opened Wrappers
  import opened Text
  import opened Json
  import opened MarkdownLines
  import opened MarkdownBlocks
  import opened MarkdownPatterns

  // ---------- the readable rows ----------

  ghost predicate IsText(row: seq<Entry>, key: string, text: string) {
    Get(row, key) == Some(Str(text))
  }

  ghost predicate IsUnset(row: seq<Entry>, key: string) {
    Get(row, key) in [None, Some(Null), Some(Undefined)]
  }

  /** Nothing but these keys, the row id, and two fields that storage leaves unset. */
  ghost predicate Only(row: seq<Entry>, keys: seq<string>) {
    forall e :: e in row ==>
      || e.key in keys || e.key == "id"
      || (e.key in ["blockName", "extensions"] && IsUnset(row, e.key))
  }

  /** An optional text: absent, null, or a string. */
  ghost predicate MayHaveText(row: seq<Entry>, key: string, text: Option<string>) {
    match text
    case Some(t) => IsText(row, key, t)
    case None => Get(row, key) in [None, Some(Null)]
  }

  ghost predicate OneLine(s: string) {
    '\n' !in s && '\r' !in s
  }

  ghost predicate ShowsParagraph(row: seq<Entry>, text: string) {
    && IsText(row, "blockType", "paragraph") && IsText(row, "text", text) && Only(row, ["blockType", "text"])
    && text != "" && '\r' !in text
    && forall line :: line in Split(text, '\n') ==> !TabsAndSpaces(line) && !StartsBlock(line)
  }

  ghost predicate ShowsHeading(row: seq<Entry>, level: nat, text: string) {
    && IsText(row, "blockType", "heading") && IsText(row, "text", text) && Only(row, ["blockType", "level", "text"])
    && 2 <= level <= 6 && IsText(row, "level", ["??23456"[level]])
    && OneLine(text)
  }

  ghost predicate ShowsQuote(row: seq<Entry>, text: string, attribution: Option<string>, citeUrl: Option<string>) {
    && IsText(row, "blockType", "quote") && IsText(row, "text", text)
    && Only(row, ["blockType", "text", "attribution", "citeUrl"])
    && MayHaveText(row, "attribution", attribution) && MayHaveText(row, "citeUrl", citeUrl)
    && OneLine(text)
    && (attribution.Some? ==> OneLine(attribution.value))
    && (citeUrl.Some? ==> OneLine(citeUrl.value) && '<' !in citeUrl.value && '>' !in citeUrl.value)
    && (attribution.None? && citeUrl.None? ==> !(|text| >= 2 && text[..2] == "\U{2014} "))
    && (attribution.Some? && citeUrl.None? ==> forall name, url :: !IsNamed(attribution.value, name, url))
  }

  ghost predicate ShowsItem(v: Value, text: string) {
    v.Obj? && IsText(v.entries, "text", text) && Only(v.entries, ["text"]) && OneLine(text)
  }

  ghost predicate ShowsList(row: seq<Entry>, ordered: bool, items: seq<string>) {
    && IsText(row, "blockType", "list") && Only(row, ["blockType", "style", "items"])
    && IsText(row, "style", if ordered then "ordered" else "unordered")
    && Get(row, "items").Some? && Get(row, "items").value.Arr?
    && var values := Get(row, "items").value.items;
       items != [] && |items| == |values| && forall i :: 0 <= i < |items| ==> ShowsItem(values[i], items[i])
  }

  ghost predicate ShowsCode(row: seq<Entry>, language: string, code: string, caption: Option<string>) {
    && IsText(row, "blockType", "code") && IsText(row, "language", language) && IsText(row, "code", code)
    && Only(row, ["blockType", "language", "code", "caption"]) && MayHaveText(row, "caption", caption)
    && OneLine(language) && '\r' !in code && (caption.Some? ==> OneLine(caption.value))
  }

  /** The size fields may hold anything but a number; a caption that is no string is not shown. */
  ghost predicate ShowsImage(row: seq<Entry>, src: string, alt: string, caption: Option<string>) {
    && IsText(row, "blockType", "image") && IsText(row, "src", src) && IsText(row, "alt", alt)
    && Only(row, ["blockType", "src", "alt", "caption", "width", "height"])
    && (forall key :: key in ["width", "height"] && Get(row, key).Some? ==> !Get(row, key).value.Num?)
    && (match caption
        case Some(text) => IsText(row, "caption", text) && OneLine(text) && '\"' !in text
        case None => forall text :: !IsText(row, "caption", text))
    && (forall c :: c in src ==> c != '(' && c != ')' && c as int !in WHITE_SPACE)
    && OneLine(alt) && '[' !in alt && ']' !in alt
  }

  ghost predicate Shows(row: seq<Entry>, b: Block) {
    match b
    case Paragraph(text) => ShowsParagraph(row, text)
    case HeadingBlock(level, text) => ShowsHeading(row, level, text)
    case QuoteBlock(text, attribution, citeUrl) => ShowsQuote(row, text, attribution, citeUrl)
    case ListBlock(ordered, items) => ShowsList(row, ordered, items)
    case CodeBlock(language, code, caption) => ShowsCode(row, language, code, caption)
    case ImageBlock(src, alt, caption) => ShowsImage(row, src, alt, caption)
  }

  // ---------- the guards ----------

  lemma OnlyExact(row: seq<Entry>, keys: seq<string>)
    ensures HasOnlyKeys(row, keys) <==> Only(row, keys)
  {
  }

  lemma OptionalExact(row: seq<Entry>, key: string)
    ensures HasOptionalString(row, key) ==> MayHaveText(row, key, StringOf(row, key))
    ensures forall text :: MayHaveText(row, key, text) ==> HasOptionalString(row, key) && StringOf(row, key) == text
  {
  }

  lemma StringIs(row: seq<Entry>, key: string)
    ensures forall text :: IsText(row, key, text) <==> StringOf(row, key) == Some(text)
    ensures StringOf(row, key).Some? ==> IsText(row, key, StringOf(row, key).value)
  {
  }

  lemma {:induction false} ParagraphGuard(row: seq<Entry>, text: string)
    ensures ReadableParagraph(row) == Some(Paragraph(text)) <==> ShowsParagraph(row, text)
  {
    hide IsBlank, IsBlockStart, TabsAndSpaces, StartsBlock, HasOnlyKeys, Only;
    OnlyExact(row, ["blockType", "text"]);
    forall line ensures IsBlank(line) <==> TabsAndSpaces(line) {
      BlankExact(line);
    }
    forall line ensures IsBlockStart(line) <==> StartsBlock(line) {
      StartExact(line);
    }
  }

  lemma {:induction false} HeadingGuard(row: seq<Entry>, level: nat, text: string)
    ensures ReadableHeading(row) == Some(HeadingBlock(level, text)) <==> ShowsHeading(row, level, text)
  {
    hide HasOnlyKeys, Only;
    OnlyExact(row, ["blockType", "level", "text"]);
  }

  lemma {:induction false} QuoteGuard(row: seq<Entry>, text: string, attribution: Option<string>, citeUrl: Option<string>)
    ensures ReadableQuote(row) == Some(QuoteBlock(text, attribution, citeUrl)) <==> ShowsQuote(row, text, attribution, citeUrl)
  {
    hide HasOnlyKeys, Only, NamedCitation, IsNamed, HasOptionalString, MayHaveText;
    OnlyExact(row, ["blockType", "text", "attribution", "citeUrl"]);
    OptionalExact(row, "attribution");
    OptionalExact(row, "citeUrl");
    if attribution.Some? {
      forall name, url ensures NamedCitation(attribution.value) == Some(Citation(name, url)) <==> IsNamed(attribution.value, name, url) {
        NamedExact(attribution.value, name, url);
      }
      if NamedCitation(attribution.value).Some? {
        var found := NamedCitation(attribution.value).value;
        assert NamedCitation(attribution.value) == Some(Citation(found.attribution, found.url));
      }
    }
  }

  lemma {:induction false} ItemsGuard(values: seq<Value>, items: seq<string>)
    ensures ReadableListItems(values) == Some(items) <==>
      |items| == |values| && forall i :: 0 <= i < |items| ==> ShowsItem(values[i], items[i])
  {
    hide HasOnlyKeys, Only;
    forall v, text ensures ReadableListItem(v) == Some(text) <==> ShowsItem(v, text) {
      if v.Obj? {
        OnlyExact(v.entries, ["text"]);
      }
    }
    if values != [] && items != [] {
      ItemsGuard(values[1..], items[1..]);
      assert items == [items[0]] + items[1..];
      if |items| == |values| && forall i :: 0 <= i < |items| ==> ShowsItem(values[i], items[i]) {
        forall i | 0 <= i < |items| - 1 ensures ShowsItem(values[1..][i], items[1..][i]) {
          assert ShowsItem(values[i + 1], items[i + 1]);
        }
      }
    }
  }

  lemma {:induction false} ListGuard(row: seq<Entry>, ordered: bool, items: seq<string>)
    ensures ReadableList(row) == Some(ListBlock(ordered, items)) <==> ShowsList(row, ordered, items)
  {
    hide HasOnlyKeys, Only, ShowsItem, ReadableListItems;
    OnlyExact(row, ["blockType", "style", "items"]);
    if Get(row, "items").Some? && Get(row, "items").value.Arr? {
      ItemsGuard(Get(row, "items").value.items, items);
    }
  }

  lemma {:induction false} CodeGuard(row: seq<Entry>, language: string, code: string, caption: Option<string>)
    ensures ReadableCode(row) == Some(CodeBlock(language, code, caption)) <==> ShowsCode(row, language, code, caption)
  {
    hide HasOnlyKeys, Only, HasOptionalString, MayHaveText;
    OnlyExact(row, ["blockType", "language", "code", "caption"]);
    OptionalExact(row, "caption");
  }

  lemma {:induction false} Removed(row: seq<Entry>, key: string)
    ensures forall e :: e in RemoveKey(row, key) <==> e in row && e.key != key
    ensures forall other :: other != key ==> Get(RemoveKey(row, key), other) == Get(row, other)
  {
    if row != [] {
      Removed(row[1..], key);
      assert row == [row[0]] + row[1..];
    }
  }

  lemma {:induction false} ImageKeys(row: seq<Entry>, rest: seq<Entry>)
    requires forall e :: e in rest <==> e in row && e.key != "height" && e.key != "width"
    requires forall key :: key != "height" && key != "width" ==> Get(rest, key) == Get(row, key)
    ensures HasOnlyKeys(rest, ["blockType", "src", "alt", "caption"]) <==>
      Only(row, ["blockType", "src", "alt", "caption", "width", "height"])
  {
    if HasOnlyKeys(rest, ["blockType", "src", "alt", "caption"]) {
      forall e | e in row
        ensures || e.key in ["blockType", "src", "alt", "caption", "width", "height"] || e.key == "id"
                || (e.key in ["blockName", "extensions"] && IsUnset(row, e.key))
      {
        assert e.key != "height" && e.key != "width" ==> e in rest;
      }
    }
  }

  lemma SourceSpaces(src: string)
    ensures NoSpace(src) && '(' !in src && ')' !in src <==> forall c :: c in src ==> c != '(' && c != ')' && c as int !in WHITE_SPACE
  {
    hide WHITE_SPACE, IsSpaceChar;
    forall c: char ensures IsSpaceChar(c) <==> c as int in WHITE_SPACE {
      SpaceExact(c);
    }
  }

  lemma {:induction false} ImageRest(row: seq<Entry>, rest: seq<Entry>)
    requires rest == RemoveKey(RemoveKey(row, "height"), "width")
    ensures HasOnlyKeys(rest, ["blockType", "src", "alt", "caption"]) <==>
      Only(row, ["blockType", "src", "alt", "caption", "width", "height"])
    ensures forall key :: key in ["src", "alt", "caption"] ==> StringOf(rest, key) == StringOf(row, key)
  {
    hide HasOnlyKeys, Only, RemoveKey, Get;
    Removed(row, "height");
    Removed(RemoveKey(row, "height"), "width");
    ImageKeys(row, rest);
    forall key | key in ["src", "alt", "caption"] ensures StringOf(rest, key) == StringOf(row, key) {
      assert key != "height" && key != "width";
    }
  }

  lemma ImageFields(row: seq<Entry>, caption: Option<string>)
    ensures StringOf(row, "caption") == caption <==>
      if caption.Some? then IsText(row, "caption", caption.value) else forall text :: !IsText(row, "caption", text)
    ensures (forall key :: key in ["width", "height"] && Get(row, key).Some? ==> !Get(row, key).value.Num?)
      <==> !IsNumber(Get(row, "width")) && !IsNumber(Get(row, "height"))
  {
    hide Get;
    StringIs(row, "caption");
    assert "width" in ["width", "height"] && "height" in ["width", "height"];
  }

  lemma {:induction false} ImageGuard(row: seq<Entry>, src: string, alt: string, caption: Option<string>)
    ensures ReadableImage(row) == Some(ImageBlock(src, alt, caption)) <==> ShowsImage(row, src, alt, caption)
  {
    hide HasOnlyKeys, Only, NoSpace, WHITE_SPACE, RemoveKey, Get;
    var rest := RemoveKey(RemoveKey(row, "height"), "width");
    ImageRest(row, rest);
    ImageFields(row, caption);
    SourceSpaces(src);
    assert StringOf(rest, "src") == StringOf(row, "src") && StringOf(rest, "alt") == StringOf(row, "alt")
      && StringOf(rest, "caption") == StringOf(row, "caption");
    StringIs(row, "src");
    StringIs(row, "alt");
  }

  /** A row is shown readably exactly when it is one of the six kinds, and then with this content. */
  lemma {:induction false} ReadableExact(row: seq<Entry>, b: Block)
    ensures ReadableOf(row) == Some(b) <==> Shows(row, b)
  {
    hide ReadableParagraph, ReadableHeading, ReadableQuote, ReadableList, ReadableCode, ReadableImage;
    hide ShowsParagraph, ShowsHeading, ShowsQuote, ShowsList, ShowsCode, ShowsImage;
    Kinds(row);
    match b
    case Paragraph(text) => ParagraphGuard(row, text);
    case HeadingBlock(level, text) => HeadingGuard(row, level, text);
    case QuoteBlock(text, attribution, citeUrl) => QuoteGuard(row, text, attribution, citeUrl);
    case ListBlock(ordered, items) => ListGuard(row, ordered, items);
    case CodeBlock(language, code, caption) => CodeGuard(row, language, code, caption);
    case ImageBlock(src, alt, caption) => ImageGuard(row, src, alt, caption);
  }

  /** The block type decides which guard can hold. */
  lemma {:induction false} Kinds(row: seq<Entry>)
    ensures var all := [ReadableParagraph(row), ReadableHeading(row), ReadableQuote(row), ReadableList(row), ReadableCode(row), ReadableImage(row)];
      && (all[0].Some? ==> all[0].value.Paragraph?) && (all[1].Some? ==> all[1].value.HeadingBlock?)
      && (all[2].Some? ==> all[2].value.QuoteBlock?) && (all[3].Some? ==> all[3].value.ListBlock?)
      && (all[4].Some? ==> all[4].value.CodeBlock?) && (all[5].Some? ==> all[5].value.ImageBlock?)
      && forall i, j :: 0 <= i < j < 6 && all[i].Some? ==> all[j].None?
  {
    hide HasOnlyKeys, IsReadableParagraphText, HasLineBreak, IsReadableQuoteContent, ReadableListItems, RemoveKey, IsReadableCodeContent, IsReadableImageContent, HasOptionalString, HeadingLevel;
    assert "paragraph" != "heading" && "paragraph" != "quote" && "paragraph" != "list" && "paragraph" != "code" && "paragraph" != "image";
    assert "heading" != "quote" && "heading" != "list" && "heading" != "code" && "heading" != "image";
    assert "quote" != "list" && "quote" != "code" && "quote" != "image" && "list" != "code" && "list" != "image" && "code" != "image";
  }

  // ---------- the texts ----------

  ghost predicate TicksAt(code: string, i: nat, n: nat) {
    i + n <= |code| && forall j :: i <= j < i + n ==> code[j] == '`'
  }

  ghost predicate HasTicks(code: string, n: nat) {
    exists i: nat :: TicksAt(code, i, n)
  }

  /** At least three, and just long enough that no run of backticks in the code is as long. */
  ghost predicate IsFenceLength(code: string, n: nat) {
    n >= 3 && !HasTicks(code, n) && (n > 3 ==> HasTicks(code, n - 1))
  }

  ghost predicate IsTextOf(b: Block, s: string) {
    match b
    case Paragraph(text) => s == text
    case HeadingBlock(level, text) => s == Repeat('#', level) + " " + text
    case QuoteBlock(text, attribution, citeUrl) =>
      if attribution.None? && citeUrl.None? then s == "> " + text
      else if citeUrl.None? then s == "> " + text + "\n> \U{2014} " + attribution.value
      else if attribution.None? then s == "> " + text + "\n> \U{2014} <" + citeUrl.value + ">"
      else s == "> " + text + "\n> \U{2014} " + attribution.value + " <" + citeUrl.value + ">"
    case ListBlock(ordered, items) =>
      exists lines: seq<string> ::
        && |lines| == |items| && s == Join(lines, '\n')
        && forall i :: 0 <= i < |items| ==> lines[i] == (if ordered then NatText(i + 1) + ". " else "- ") + items[i]
    case CodeBlock(language, code, caption) =>
      exists n: nat :: IsFenceLength(code, n) &&
        s == Repeat('`', n) + language + "\n" + code + "\n" + Repeat('`', n)
             + (if caption.Some? then "\n*" + caption.value + "*" else "")
    case ImageBlock(src, alt, caption) =>
      s == "![" + alt + "](" + src + (if caption.Some? then " \"" + caption.value + "\")" else ")")
  }

  lemma {:induction false} TicksAfter(code: string, front: nat, n: nat)
    requires front <= |code|
    ensures forall i: nat :: TicksAt(code[front..], i, n) <==> TicksAt(code, i + front, n)
  {
    forall i: nat ensures TicksAt(code[front..], i, n) <==> TicksAt(code, i + front, n) {
      if TicksAt(code[front..], i, n) {
        assert forall j :: i + front <= j < i + front + n ==> code[j] == code[front..][j - front];
      }
    }
  }

  lemma {:induction false} TicksWithin(code: string, n: nat)
    requires n > 0
    ensures HasTicks(code, n) <==> Longest(TickRuns(code)) >= n
    decreases |code|
  {
    hide Longest, TicksAt;
    LongestSplits(code);
    if code == "" {
      NoTicks(n);
    } else {
      var front := if Ticks(code) == 0 then 1 else Ticks(code);
      TicksWithin(code[front..], n);
      TicksAfter(code, front, n);
      TicksInFront(code, front, n);
      if HasTicks(code[front..], n) {
        var i: nat :| TicksAt(code[front..], i, n);
        assert TicksAt(code, i + front, n);
      }
      if HasTicks(code, n) {
        var i: nat :| TicksAt(code, i, n);
        assert i >= front ==> TicksAt(code[front..], i - front, n);
      }
    }
  }

  lemma NoTicks(n: nat)
    requires n > 0
    ensures !HasTicks("", n)
  {
  }

  /** A run of backticks that starts before `front` is in the first run. */
  lemma {:induction false} TicksInFront(code: string, front: nat, n: nat)
    requires code != "" && n > 0 && front == if Ticks(code) == 0 then 1 else Ticks(code)
    ensures forall i: nat :: i < front && TicksAt(code, i, n) ==> n <= Ticks(code)
    ensures n <= Ticks(code) ==> TicksAt(code, 0, n)
  {
    forall i: nat | i < front && TicksAt(code, i, n) ensures n <= Ticks(code) {
      assert Ticks(code) < |code| ==> code[Ticks(code)] != '`';
    }
  }

  lemma {:induction false} LongestHead(n: nat, runs: seq<nat>)
    ensures Longest([n] + runs) == Max(n, Longest(runs))
  {
    if runs != [] {
      LongestHead(n, runs[..|runs| - 1]);
      assert ([n] + runs)[..|runs|] == [n] + runs[..|runs| - 1];
    } else {
      assert ([n] + runs)[..0] == [];
    }
  }

  lemma {:induction false} LongestSplits(code: string)
    ensures code == "" ==> Longest(TickRuns(code)) == 0
    ensures code != "" && Ticks(code) == 0 ==> Longest(TickRuns(code)) == Longest(TickRuns(code[1..]))
    ensures Ticks(code) > 0 ==> Longest(TickRuns(code)) == Max(Ticks(code), Longest(TickRuns(code[Ticks(code)..])))
  {
    if Ticks(code) > 0 {
      LongestHead(Ticks(code), TickRuns(code[Ticks(code)..]));
    }
  }

  lemma {:induction false} FenceLength(code: string)
    ensures IsFenceLength(code, FenceTicksFor(code))
  {
    hide HasTicks, Longest;
    var n := FenceTicksFor(code);
    TicksWithin(code, n);
    TicksWithin(code, n - 1);
  }

  /** The text of a block, character by character. */
  lemma {:induction false} TextExact(b: Block)
    ensures IsTextOf(b, BlockText(b))
  {
    hide FenceTicksFor, IsFenceLength, NatText;
    assert DASH == "\U{2014} ";
    match b
    case QuoteBlock(text, attribution, citeUrl) => QuoteText(text, attribution, citeUrl);
    case ListBlock(ordered, items) =>
      var lines := ItemLines(ordered, items, 0);
      assert |lines| == |items|;
    case CodeBlock(language, code, caption) =>
      FenceLength(code);
      CodeText(language, code, caption);
    case _ =>
  }

  lemma {:induction false} QuoteText(text: string, attribution: Option<string>, citeUrl: Option<string>)
    ensures IsTextOf(QuoteBlock(text, attribution, citeUrl), BlockText(QuoteBlock(text, attribution, citeUrl)))
  {
    if attribution.Some? || citeUrl.Some? {
      var line := QuoteAttributionLine(attribution, citeUrl);
      JoinTwo("> " + text, line);
      AttributionText(attribution, citeUrl);
    }
  }

  lemma JoinTwo(a: string, b: string)
    ensures Join([a, b], '\n') == a + "\n" + b
  {
    assert [a, b][1..] == [b];
  }

  lemma {:induction false} AttributionText(attribution: Option<string>, citeUrl: Option<string>)
    requires attribution.Some? || citeUrl.Some?
    ensures forall first: string ::
      first + "\n" + QuoteAttributionLine(attribution, citeUrl) ==
        if citeUrl.None? then first + "\n> \U{2014} " + attribution.value
        else if attribution.None? then first + "\n> \U{2014} <" + citeUrl.value + ">"
        else first + "\n> \U{2014} " + attribution.value + " <" + citeUrl.value + ">"
  {
    var line := QuoteAttributionLine(attribution, citeUrl);
    forall first: string
      ensures first + "\n" + line ==
        if citeUrl.None? then first + "\n> \U{2014} " + attribution.value
        else if attribution.None? then first + "\n> \U{2014} <" + citeUrl.value + ">"
        else first + "\n> \U{2014} " + attribution.value + " <" + citeUrl.value + ">"
    {
      assert DASH == "\U{2014} ";
      if citeUrl.None? {
        assert line == "> \U{2014} " + attribution.value;
      } else if attribution.None? {
        assert line == "> \U{2014} <" + citeUrl.value + ">";
      } else {
        assert line == "> \U{2014} " + attribution.value + " <" + citeUrl.value + ">";
      }
      assert first + "\n> \U{2014} " == first + "\n" + "> \U{2014} ";
      assert first + "\n> \U{2014} <" == first + "\n" + "> \U{2014} <";
    }
  }

  lemma {:induction false} CodeText(language: string, code: string, caption: Option<string>)
    ensures var fence := Repeat('`', FenceTicksFor(code));
      BlockText(CodeBlock(language, code, caption)) ==
        fence + language + "\n" + code + "\n" + fence + (if caption.Some? then "\n*" + caption.value + "*" else "")
  {
    hide FenceTicksFor, Repeat;
    var fence := Repeat('`', FenceTicksFor(code));
    JoinThree(fence + language, code, fence);
    var front := [fence + language, code, fence];
    if caption.Some? {
      var last := ['*'] + caption.value + ['*'];
      JoinConcat(front, [last], '\n');
      JoinLast(Join(front, '\n'), caption.value);
    } else {
      assert front + [] == front;
    }
  }

  lemma JoinThree(a: string, b: string, c: string)
    ensures Join([a, b, c], '\n') == a + "\n" + b + "\n" + c
  {
    JoinTwo(b, c);
    assert [a, b, c][1..] == [b, c];
  }

  lemma JoinLast(front: string, caption: string)
    ensures front + ['\n'] + Join([['*'] + caption + ['*']], '\n') == front + ("\n*" + caption + "*")
  {
  }

  lemma EnvelopeText(json: string)
    ensures Join([PROTECTED_BLOCK_OPENING, json, PROTECTED_BLOCK_CLOSING], '\n') == ":::gf-block\n" + json + "\n:::"
  {
    JoinTwo(json, ":::");
    assert [PROTECTED_BLOCK_OPENING, json, PROTECTED_BLOCK_CLOSING][1..] == [json, ":::"];
    assert ":::gf-block\n" == ":::gf-block" + ['\n'];
    assert "\n:::" == "\n" + ":::";
  }

  /** What is printed for one value: nothing, the readable text, or the JSON text of the row in its envelope. */
  lemma {:induction false} RowTextExact(v: Value)
    ensures
      if !v.Obj? then RowText(v) == None
      else if exists b :: Shows(v.entries, b) then
        exists b :: Shows(v.entries, b) && RowText(v).Some? && IsTextOf(b, RowText(v).value)
      else RowText(v) == Some(":::gf-block\n" + Stringify(v) + "\n:::")
  {
    hide ReadableOf, Shows, BlockText, IsTextOf, Stringify;
    if v.Obj? {
      var found := ReadableOf(v.entries);
      forall b ensures found == Some(b) <==> Shows(v.entries, b) {
        ReadableExact(v.entries, b);
      }
      if found.Some? {
        TextExact(found.value);
      } else {
        EnvelopeText(Stringify(v));
      }
    }
  }

  // ---------- documents ----------

  lemma {:induction false} TextsAdd(values: seq<Value>, v: Value)
    ensures RowTexts(values + [v]) == RowTexts(values) + if RowText(v).Some? then [RowText(v).value] else []
  {
    hide RowText;
    if values != [] {
      assert (values + [v])[1..] == values[1..] + [v];
      TextsAdd(values[1..], v);
    } else {
      assert (values + [v])[1..] == [];
    }
  }

  lemma {:induction false} BlocksAdd(texts: seq<string>, text: string)
    ensures JoinBlocks(texts + [text]) == if texts == [] then text else JoinBlocks(texts) + "\n\n" + text
  {
    if |texts| > 0 {
      assert (texts + [text])[1..] == texts[1..] + [text];
      BlocksAdd(texts[1..], text);
    }
  }

  lemma NoTexts()
    ensures RowTexts([]) == [] && JoinBlocks([]) == ""
  {
  }

  /** One value more adds its text after an empty line, or nothing. */
  lemma {:induction false} DocumentAdd(values: seq<Value>, v: Value)
    ensures BlocksToMarkdown([]) == ""
    ensures BlocksToMarkdown(values + [v]) ==
      if RowText(v).None? then BlocksToMarkdown(values)
      else if RowTexts(values) == [] then RowText(v).value
      else BlocksToMarkdown(values) + "\n\n" + RowText(v).value
  {
    hide RowText, JoinBlocks, RowTexts;
    TextsAdd(values, v);
    NoTexts();
    if RowText(v).Some? {
      BlocksAdd(RowTexts(values), RowText(v).value);
    } else {
      assert RowTexts(values) + [] == RowTexts(values);
    }
  }
}

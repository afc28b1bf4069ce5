/** Rows printed to Markdown and read back: what survives, and exactly when it does. */
module MarkdownRoundTrip {
  import opened Wrappers
  import opened Text
  import opened Json
  import opened MarkdownLines
  import opened MarkdownBlocks
  import opened MarkdownParser
  import opened MarkdownSteps

  // ---------- what a row should come back as ----------

  const OPTIONAL_FIELDS := ["attribution", "citeUrl", "caption", "width", "height"]

  function WithoutNoise(entries: seq<Entry>, row: seq<Entry>): seq<Entry> {
    if entries == [] then []
    else if IsStorageNoise(row, entries[0].key) then WithoutNoise(entries[1..], row)
    else [entries[0]] + WithoutNoise(entries[1..], row)
  }

  function CleanItem(item: Value): Value {
    match item
    case Obj(entries) => Obj(WithoutNoise(entries, entries))
    case _ => item
  }

  function CleanItems(items: seq<Value>): (r: seq<Value>)
    ensures |r| == |items| && forall i :: 0 <= i < |items| ==> r[i] == CleanItem(items[i])
  {
    if items == [] then [] else [CleanItem(items[0])] + CleanItems(items[1..])
  }

  /** The value a readable row must keep under `key`: all but storage noise and unset fields. */
  function Kept(row: seq<Entry>, key: string): Option<Value> {
    if IsStorageNoise(row, key) then None
    else
      match Get(row, key)
      case Some(Null) => if key in OPTIONAL_FIELDS then None else Some(Null)
      case Some(Arr(items)) => if key == "items" then Some(Arr(CleanItems(items))) else Some(Arr(items))
      case other => other
  }

  /** A readable row keeps its content; any other row comes back exactly. */
  ghost predicate Preserved(row: Value, out: Value) {
    && row.Obj? && out.Obj?
    && (if ReadableOf(row.entries).Some?
        then forall key :: Get(out.entries, key) == Kept(row.entries, key)
        else out == row)
  }

  ghost predicate AllPreserved(rows: seq<Value>, out: seq<Value>) {
    |out| == |rows| && forall i :: 0 <= i < |rows| ==> Preserved(rows[i], out[i])
  }

  // ---------- when it does ----------

  predicate IsUnset(row: seq<Entry>, key: string) {
    Get(row, key) == None || Get(row, key) == Some(Null)
  }

  /** An image row can be readable although a field of an unexpected type is dropped. */
  predicate NothingDropped(row: seq<Entry>, b: Block) {
    b.ImageBlock? ==> HasOptionalString(row, "caption") && IsUnset(row, "width") && IsUnset(row, "height")
  }

  /** A row that the printer's guards and the reader's patterns agree about. */
  predicate IsFaithful(row: Value) {
    match row
    case Obj(entries) =>
      (match ReadableOf(entries)
       case Some(b) => AgreesWithPatterns(b) && NothingDropped(entries, b)
       case None => true)
    case _ => false
  }

  predicate AreRows(values: seq<Value>) {
    forall v | v in values :: v.Obj? && IsJson(v)
  }

  // ---------- fields of the rows the reader pushes ----------

  lemma {:induction false} GetConcat(a: seq<Entry>, b: seq<Entry>, key: string)
    ensures Get(a + b, key) == if Get(a, key).Some? then Get(a, key) else Get(b, key)
  {
    if a == [] {
      assert a + b == b;
    } else {
      assert (a + b)[1..] == a[1..] + b;
      GetConcat(a[1..], b, key);
    }
  }

  function OptionalValue(s: Option<string>): Option<Value> {
    match s
    case None => None
    case Some(text) => Some(Str(text))
  }

  function TypeName(b: Block): string {
    match b
    case Paragraph(_) => "paragraph"
    case HeadingBlock(_, _) => "heading"
    case QuoteBlock(_, _, _) => "quote"
    case ListBlock(_, _) => "list"
    case CodeBlock(_, _, _) => "code"
    case ImageBlock(_, _, _) => "image"
  }

  /** The value a reader's row holds under each key. */
  function FieldOf(b: Block, key: string): Option<Value> {
    if key == "blockType" then Some(Str(TypeName(b)))
    else
      match b
      case Paragraph(text) => if key == "text" then Some(Str(text)) else None
      case HeadingBlock(level, text) =>
        if key == "level" then Some(Str(NatText(level)))
        else if key == "text" then Some(Str(text)) else None
      case QuoteBlock(text, attribution, citeUrl) =>
        if key == "text" then Some(Str(text))
        else if key == "attribution" then OptionalValue(attribution)
        else if key == "citeUrl" then OptionalValue(citeUrl) else None
      case ListBlock(ordered, items) =>
        if key == "items" then Some(Arr(ItemRows(items)))
        else if key == "style" then Some(Str(StyleText(ordered))) else None
      case CodeBlock(language, code, caption) =>
        if key == "language" then Some(Str(language))
        else if key == "code" then Some(Str(code))
        else if key == "caption" then OptionalValue(caption) else None
      case ImageBlock(src, alt, caption) =>
        if key == "src" then Some(Str(src))
        else if key == "alt" then Some(Str(alt))
        else if key == "caption" then OptionalValue(caption) else None
  }

  lemma {:induction false} GetOptional(field: string, s: Option<string>, key: string)
    ensures Get(OptionalEntry(field, s), key) == if key == field then OptionalValue(s) else None
  {
  }

  lemma {:induction false} GetOne(e: Entry, key: string)
    ensures Get([e], key) == if key == e.key then Some(e.value) else None
  {
  }

  lemma {:induction false} GetField(b: Block, key: string)
    ensures Get(BlockEntries(b), key) == FieldOf(b, key)
  {
    hide Get;
    match b
    case Paragraph(text) =>
      GetConcat([TypeEntry("paragraph")], [Entry("text", Str(text))], key);
      GetOne(TypeEntry("paragraph"), key);
      GetOne(Entry("text", Str(text)), key);
      assert BlockEntries(b) == [TypeEntry("paragraph")] + [Entry("text", Str(text))];
    case HeadingBlock(level, text) =>
      var l, t := Entry("level", Str(NatText(level))), Entry("text", Str(text));
      assert BlockEntries(b) == [TypeEntry("heading")] + ([l] + [t]);
      GetConcat([TypeEntry("heading")], [l] + [t], key);
      GetConcat([l], [t], key);
      GetOne(TypeEntry("heading"), key);
      GetOne(l, key);
      GetOne(t, key);
    case QuoteBlock(text, attribution, citeUrl) =>
      var a, c, t := OptionalEntry("attribution", attribution), OptionalEntry("citeUrl", citeUrl), [Entry("text", Str(text))];
      GetConcat(a + [TypeEntry("quote")] + c, t, key);
      GetConcat(a + [TypeEntry("quote")], c, key);
      GetConcat(a, [TypeEntry("quote")], key);
      GetOptional("attribution", attribution, key);
      GetOptional("citeUrl", citeUrl, key);
      GetOne(TypeEntry("quote"), key);
      GetOne(t[0], key);
    case ListBlock(ordered, items) =>
      var i, s := Entry("items", Arr(ItemRows(items))), Entry("style", Str(StyleText(ordered)));
      assert BlockEntries(b) == [TypeEntry("list")] + ([i] + [s]);
      GetConcat([TypeEntry("list")], [i] + [s], key);
      GetConcat([i], [s], key);
      GetOne(TypeEntry("list"), key);
      GetOne(i, key);
      GetOne(s, key);
    case CodeBlock(language, code, caption) =>
      var c, l := Entry("code", Str(code)), Entry("language", Str(language));
      assert [TypeEntry("code"), c, l] == [TypeEntry("code")] + ([c] + [l]);
      GetConcat([TypeEntry("code"), c, l], OptionalEntry("caption", caption), key);
      GetConcat([TypeEntry("code")], [c] + [l], key);
      GetConcat([c], [l], key);
      GetOptional("caption", caption, key);
      GetOne(TypeEntry("code"), key);
      GetOne(c, key);
      GetOne(l, key);
    case ImageBlock(src, alt, caption) =>
      var a, s := Entry("alt", Str(alt)), Entry("src", Str(src));
      assert [a, TypeEntry("image"), s] == [a] + ([TypeEntry("image")] + [s]);
      GetConcat([a, TypeEntry("image"), s], OptionalEntry("caption", caption), key);
      GetConcat([a], [TypeEntry("image")] + [s], key);
      GetConcat([TypeEntry("image")], [s], key);
      GetOptional("caption", caption, key);
      GetOne(TypeEntry("image"), key);
      GetOne(a, key);
      GetOne(s, key);
  }

  // ---------- a readable row and its content ----------

  lemma {:induction false} OnlyKeys(row: seq<Entry>, allowed: seq<string>, key: string)
    requires HasOnlyKeys(row, allowed) && key !in allowed
    ensures Get(row, key) == None || IsStorageNoise(row, key)
  {
    if Get(row, key).Some? {
      var i := GetSome(row, key);
      assert row[i] in row;
    }
  }

  lemma {:induction false} NoiseFree(entries: seq<Entry>, row: seq<Entry>)
    requires DistinctKeys(entries)
    requires forall e | e in entries :: e.key == "text" || IsStorageNoise(row, e.key)
    ensures WithoutNoise(entries, row) ==
      match Get(entries, "text")
      case None => []
      case Some(v) => [Entry("text", v)]
  {
    if entries != [] {
      assert entries[0] in entries;
      NoiseFree(entries[1..], row);
      if entries[0].key == "text" {
        GetAbsent(entries[1..], "text");
      }
    }
  }

  lemma {:induction false} CleanReadableItem(item: Value)
    requires IsJson(item) && ReadableListItem(item).Some?
    ensures CleanItem(item) == ItemRow(ReadableListItem(item).value)
  {
    NoiseFree(item.entries, item.entries);
  }

  lemma {:induction false} CleanReadableItems(items: seq<Value>)
    requires (forall x | x in items :: IsJson(x)) && ReadableListItems(items).Some?
    ensures CleanItems(items) == ItemRows(ReadableListItems(items).value)
  {
    forall i | 0 <= i < |items| ensures CleanItems(items)[i] == ItemRows(ReadableListItems(items).value)[i] {
      assert items[i] in items;
      CleanReadableItem(items[i]);
    }
  }

  lemma {:induction false} JsonField(row: seq<Entry>, key: string)
    requires IsJson(Obj(row)) && Get(row, key).Some?
    ensures IsJson(Get(row, key).value)
  {
    var i := GetSome(row, key);
    assert row[i] in row;
  }

  lemma {:induction false} RemovedKey(row: seq<Entry>, removed: string, key: string)
    ensures Get(RemoveKey(row, removed), key) == if key == removed then None else Get(row, key)
  {
    if row != [] {
      RemovedKey(row[1..], removed, key);
    }
  }

  lemma {:induction false} RemovedOnly(row: seq<Entry>, removed: string, e: Entry)
    requires e in row && e.key != removed
    ensures e in RemoveKey(row, removed)
  {
    if row[0] != e {
      assert e in row[1..];
      RemovedOnly(row[1..], removed, e);
    }
  }

  /** Which guard accepted the row. */
  lemma {:induction false} ReadableKind(row: seq<Entry>, b: Block)
    requires ReadableOf(row) == Some(b)
    ensures IsReadableBlock(b)
    ensures Get(row, "blockType") == Some(Str(TypeName(b)))
    ensures b.Paragraph? ==> ReadableParagraph(row) == Some(b)
    ensures b.HeadingBlock? ==> ReadableHeading(row) == Some(b)
    ensures b.QuoteBlock? ==> ReadableQuote(row) == Some(b)
    ensures b.ListBlock? ==> ReadableList(row) == Some(b)
    ensures b.CodeBlock? ==> ReadableCode(row) == Some(b)
    ensures b.ImageBlock? ==> ReadableImage(row) == Some(b)
  {
    hide IsReadableParagraphText, IsReadableQuoteContent, IsReadableImageContent, IsReadableCodeContent, Get, HasOnlyKeys;
    if ReadableList(row) == Some(b) {
      var items := Get(row, "items").value.items;
      forall text | text in b.items ensures !HasLineBreak(text) {
        var i :| 0 <= i < |items| && b.items[i] == text;
        assert ReadableListItem(items[i]) == Some(text);
      }
    }
  }

  /** Keys that Markdown can show, per kind of row; the rest is storage noise. */
  lemma {:induction false} KeptElsewhere(row: seq<Entry>, b: Block, key: string)
    requires ReadableOf(row) == Some(b) && FieldOf(b, key).None?
    requires key !in OPTIONAL_FIELDS
    ensures Kept(row, key) == None
  {
    hide Get, HasOptionalString, StringOf, IsReadableParagraphText;
    ReadableKind(row, b);
    match b
    case Paragraph(_) => OnlyKeys(row, ["blockType", "text"], key);
    case HeadingBlock(_, _) => OnlyKeys(row, ["blockType", "level", "text"], key);
    case QuoteBlock(_, _, _) => OnlyKeys(row, ["blockType", "text", "attribution", "citeUrl"], key);
    case ListBlock(_, _) => OnlyKeys(row, ["blockType", "style", "items"], key);
    case CodeBlock(_, _, _) => OnlyKeys(row, ["blockType", "language", "code", "caption"], key);
    case ImageBlock(_, _, _) => ImageElsewhere(row, key);
  }

  lemma {:induction false} ImageElsewhere(row: seq<Entry>, key: string)
    requires ReadableImage(row).Some? && key !in ["blockType", "src", "alt", "caption", "width", "height"]
    ensures Get(row, key) == None || IsStorageNoise(row, key)
  {
    hide Get, StringOf;
    var rest := RemoveKey(RemoveKey(row, "height"), "width");
    OnlyKeys(rest, ["blockType", "src", "alt", "caption"], key);
    RemovedKey(row, "height", key);
    RemovedKey(RemoveKey(row, "height"), "width", key);
  }

  /** An unset optional field of a row other than an image. */
  lemma {:induction false} KeptUnset(row: seq<Entry>, b: Block, key: string)
    requires ReadableOf(row) == Some(b) && FieldOf(b, key).None? && !b.ImageBlock?
    requires key in OPTIONAL_FIELDS && IsJson(Obj(row))
    ensures Kept(row, key) == None
  {
    hide Get, IsReadableParagraphText, IsReadableQuoteContent, IsReadableCodeContent, Dots;
    ReadableKind(row, b);
    match b
    case Paragraph(_) => OnlyKeys(row, ["blockType", "text"], key);
    case HeadingBlock(_, _) => OnlyKeys(row, ["blockType", "level", "text"], key);
    case QuoteBlock(_, _, _) =>
      if key != "attribution" && key != "citeUrl" {
        OnlyKeys(row, ["blockType", "text", "attribution", "citeUrl"], key);
      }
    case ListBlock(_, _) => OnlyKeys(row, ["blockType", "style", "items"], key);
    case CodeBlock(_, _, _) =>
      if key != "caption" {
        OnlyKeys(row, ["blockType", "language", "code", "caption"], key);
      }
  }

  lemma {:induction false} LevelText(text: string, level: nat)
    requires HeadingLevel(text) == Some(level)
    ensures NatText(level) == text
  {
  }

  lemma {:induction false} ListItemsKept(row: seq<Entry>, b: Block)
    requires ReadableList(row) == Some(b) && IsJson(Obj(row))
    ensures Kept(row, "items") == FieldOf(b, "items")
  {
    JsonField(row, "items");
    CleanReadableItems(Get(row, "items").value.items);
  }

  /** A field that Markdown shows is kept as it is shown. */
  lemma {:induction false} KeptShown(row: seq<Entry>, b: Block, key: string)
    requires ReadableOf(row) == Some(b) && FieldOf(b, key).Some? && IsJson(Obj(row))
    ensures Kept(row, key) == FieldOf(b, key)
  {
    hide Get, IsReadableParagraphText, IsReadableQuoteContent, IsReadableCodeContent, IsReadableImageContent;
    hide HasOnlyKeys, HeadingLevel, NatText;
    ReadableKind(row, b);
    if b.HeadingBlock? {
      LevelText(StringOf(row, "level").value, b.level);
    } else if b.ListBlock? {
      ListItemsKept(row, b);
    } else if b.ImageBlock? {
      RemovedKey(row, "height", key);
      RemovedKey(RemoveKey(row, "height"), "width", key);
    }
  }

  lemma {:induction false} ImageUnset(row: seq<Entry>, b: Block, key: string)
    requires ReadableOf(row) == Some(b) && FieldOf(b, key).None? && b.ImageBlock?
    requires key in OPTIONAL_FIELDS && NothingDropped(row, b)
    ensures Kept(row, key) == None
  {
    hide Get, IsReadableImageContent;
    ReadableKind(row, b);
    if key == "attribution" || key == "citeUrl" {
      ImageElsewhere(row, key);
    } else {
      RemovedKey(row, "height", key);
      RemovedKey(RemoveKey(row, "height"), "width", key);
    }
  }

  /** The content of a readable row, key by key. */
  lemma {:induction false} KeptIsField(row: seq<Entry>, b: Block, key: string)
    requires ReadableOf(row) == Some(b) && IsJson(Obj(row)) && NothingDropped(row, b)
    ensures Kept(row, key) == FieldOf(b, key)
  {
    if FieldOf(b, key).Some? {
      KeptShown(row, b, key);
    } else if key !in OPTIONAL_FIELDS {
      KeptElsewhere(row, b, key);
    } else if b.ImageBlock? {
      ImageUnset(row, b, key);
    } else {
      KeptUnset(row, b, key);
    }
  }

  /** A field of an image row that is not carried over. */
  lemma {:induction false} DroppedField(row: seq<Entry>, b: Block) returns (key: string)
    requires ReadableOf(row) == Some(b) && IsJson(Obj(row)) && !NothingDropped(row, b)
    ensures Kept(row, key) != FieldOf(b, key)
  {
    hide Get;
    ReadableKind(row, b);
    RemovedKey(row, "height", "caption");
    RemovedKey(RemoveKey(row, "height"), "width", "caption");
    key := if !IsUnset(row, "width") then "width"
           else if !IsUnset(row, "height") then "height"
           else "caption";
  }

  lemma {:induction false} FaithfulPreserved(row: seq<Entry>, b: Block)
    requires ReadableOf(row) == Some(b) && IsJson(Obj(row)) && NothingDropped(row, b)
    ensures Preserved(Obj(row), BlockRow(b))
  {
    forall key ensures Get(BlockEntries(b), key) == Kept(row, key) {
      GetField(b, key);
      KeptIsField(row, b, key);
    }
  }

  /** A reader's row that differs in one field does not preserve the stored row. */
  lemma {:induction false} FieldDiffers(row: seq<Entry>, b: Block, out: Block, key: string)
    requires ReadableOf(row) == Some(b) && IsJson(Obj(row))
    requires Kept(row, key) != FieldOf(out, key)
    ensures !Preserved(Obj(row), BlockRow(out))
  {
    GetField(out, key);
  }

  lemma {:induction false} ShownFieldDiffers(row: seq<Entry>, b: Block, out: Block, key: string)
    requires ReadableOf(row) == Some(b) && IsJson(Obj(row))
    requires FieldOf(b, key).Some? && FieldOf(b, key) != FieldOf(out, key)
    ensures !Preserved(Obj(row), BlockRow(out))
  {
    KeptShown(row, b, key);
    FieldDiffers(row, b, out, key);
  }

  // ---------- unfaithful rows ----------

  /** The first thing read where a readable block disagrees with the patterns. */
  lemma {:induction false} DisagreementReads(b: Block, rest: seq<string>) returns (out: Block, key: string)
    requires IsReadableBlock(b) && !AgreesWithPatterns(b) && Follows(rest)
    ensures Step(BlockLines(b) + rest).row == Some(BlockRow(out))
    ensures
      || (FieldOf(b, key).Some? && FieldOf(b, key) != FieldOf(out, key))
      || (b.QuoteBlock? && key == "citeUrl" && b.citeUrl.None? && out.QuoteBlock? && out.citeUrl.Some?)
  {
    match b
    case HeadingBlock(level, text) =>
      HeadingStep(level, text, rest);
      var lines := BlockLines(b) + rest;
      out, key := Paragraph(Join(lines[..Step(lines).taken], '\n')), "blockType";
    case QuoteBlock(text, attribution, citeUrl) => out, key := QuoteDisagrees(text, attribution, citeUrl, rest);
    case ListBlock(ordered, items) => out, key := ListDisagrees(ordered, items, rest);
    case CodeBlock(language, code, caption) => out, key := CodeDisagrees(language, code, caption, rest);
    case ImageBlock(src, alt, caption) =>
      ImageLines(src, alt, caption);
      ImageLineOf(src, alt, caption);
      var line := ImageText(src, alt, caption);
      FirstChar(line);
      PlainParagraph([line] + rest);
      out := Paragraph(Join(([line] + rest)[..FirstFrom([line] + rest, 1, IsBlank)], '\n'));
      key := "blockType";
  }

  lemma {:induction false} QuoteDisagrees(text: string, attribution: Option<string>, citeUrl: Option<string>, rest: seq<string>)
    returns (out: Block, key: string)
    requires IsReadableQuoteContent(text, attribution, citeUrl) && Follows(rest)
    requires !AgreesWithPatterns(QuoteBlock(text, attribution, citeUrl))
    ensures
      var b := QuoteBlock(text, attribution, citeUrl);
      && Step(BlockLines(b) + rest).row == Some(BlockRow(out))
      && ((FieldOf(b, key).Some? && FieldOf(b, key) != FieldOf(out, key))
          || (key == "citeUrl" && citeUrl.None? && out.QuoteBlock? && out.citeUrl.Some?))
  {
    hide BlockLines, Step, QuoteLine, QuoteLines, QuoteOf, Metadata, NamedCitation, BareCitation, BlockRow, Dots;
    var b := QuoteBlock(text, attribution, citeUrl);
    var lines := BlockLines(b) + rest;
    QuoteTextLines(text, attribution, citeUrl);
    if !Dots(text) {
      QuoteLineOf(text);
      FirstChar(lines[0]);
      PlainParagraph(lines);
      out, key := Paragraph(Join(lines[..FirstFrom(lines, 1, IsBlank)], '\n')), "blockType";
    } else {
      var second := DASH + Metadata(attribution, citeUrl);
      MetadataDots(attribution, citeUrl);
      TwoQuoteLines(text, second, rest);
      QuoteLineOf(text);
      assert lines == [['>', ' '] + text, ['>', ' '] + second] + rest;
      QuoteStep(lines);
      if DotsIfAny(attribution) && DotsIfAny(citeUrl) {
        QuoteOfLines(text, attribution, citeUrl);
        out, key := QuoteOf(QuoteLines(lines)), "citeUrl";
      } else {
        out := QuoteOf([text]);
        OneQuoteLine(text);
        key := if StartsWith(text, DASH) then "text" else if attribution.Some? then "attribution" else "citeUrl";
      }
    }
  }

  /** The quoted lines of a printed quote with an attribution, when the text can be matched. */
  lemma {:induction false} TwoQuoteLines(text: string, second: string, rest: seq<string>)
    requires Dots(text) && Follows(rest)
    ensures QuoteLines([['>', ' '] + text, ['>', ' '] + second] + rest) == if Dots(second) then [text, second] else [text]
  {
    hide QuoteLine, Dots;
    var lines := [['>', ' '] + text, ['>', ' '] + second] + rest;
    QuoteLineOf(text);
    QuoteLineOf(second);
    assert lines[1..] == [['>', ' '] + second] + rest && lines[1..][1..] == rest;
    QuoteLinesEnd(rest);
    assert QuoteLines(lines[1..]) == if Dots(second) then [second] else [];
  }

  lemma {:induction false} OneQuoteLine(text: string)
    ensures
      var b := QuoteOf([text]);
      && b.QuoteBlock?
      && (if StartsWith(text, DASH) then b.text == "" else b == QuoteBlock(text, None, None))
  {
    assert [text][..0] == [];
  }

  lemma {:induction false} ListDisagrees(ordered: bool, items: seq<string>, rest: seq<string>) returns (out: Block, key: string)
    requires items != [] && (forall text | text in items :: !HasLineBreak(text)) && Follows(rest)
    requires exists text | text in items :: !Dots(text)
    ensures
      var b := ListBlock(ordered, items);
      && Step(BlockLines(b) + rest).row == Some(BlockRow(out))
      && FieldOf(b, key).Some? && FieldOf(b, key) != FieldOf(out, key)
  {
    hide BlockLines, Step, ListItem, BlockRow, ItemLine;
    ListLines(ordered, items);
    ListItemOf(ordered, 0, items[0]);
    var lines := ItemLines(ordered, items, 0) + rest;
    assert lines[0] == ItemLine(ordered, 0, items[0]);
    if Dots(items[0]) {
      ItemsStop(ordered, items, 0, rest);
      ListStep(lines);
      out, key := ListBlock(ordered, ListItems(lines, ordered)), "items";
    } else {
      FirstChar(lines[0]);
      PlainParagraph(lines);
      out, key := Paragraph(Join(lines[..FirstFrom(lines, 1, IsBlank)], '\n')), "blockType";
    }
  }

  lemma {:induction false} CodeDisagrees(language: string, code: string, caption: Option<string>, rest: seq<string>)
    returns (out: Block, key: string)
    requires IsReadableCodeContent(language, code, caption) && Follows(rest)
    requires !AgreesWithPatterns(CodeBlock(language, code, caption))
    ensures
      var b := CodeBlock(language, code, caption);
      && Step(BlockLines(b) + rest).row == Some(BlockRow(out))
      && FieldOf(b, key).Some? && FieldOf(b, key) != FieldOf(out, key)
  {
    if Dots(language) && (language == "" || (!IsBacktick(language[0]) && !IsBlankChar(language[0]))) {
      CodeReads(language, code, caption, rest);
      out, key := CodeBlock(language, code, None), "caption";
    } else {
      out, key := FenceDisagrees(language, code, caption, rest);
    }
  }

  lemma {:induction false} FenceOpeningDots(ticks: nat, language: string)
    requires !Dots(language)
    ensures FenceOpening(Repeat('`', ticks) + language) == None
  {
    var line := Repeat('`', ticks) + language;
    var i :| 0 <= i < |language| && !IsDot(language[i]);
    assert line[ticks + i] == language[i];
    var n := Ticks(line);
    assert forall k :: 0 <= k < n ==> IsDot(line[k]);
    assert n <= ticks + i;
    assert line[n..][ticks + i - n] == language[i];
  }

  /** The printed language is read differently, or the fence opens nothing at all. */
  lemma {:induction false} FenceDisagrees(language: string, code: string, caption: Option<string>, rest: seq<string>)
    returns (out: Block, key: string)
    requires IsReadableCodeContent(language, code, caption)
    requires !Dots(language) || (language != "" && (IsBacktick(language[0]) || IsBlankChar(language[0])))
    ensures
      var b := CodeBlock(language, code, caption);
      && Step(BlockLines(b) + rest).row == Some(BlockRow(out))
      && FieldOf(b, key).Some? && FieldOf(b, key) != FieldOf(out, key)
  {
    hide BlockLines, Step, FenceTicksFor, FenceOpening, IsFenceClosing, CodeCaption, BlockRow;
    var ticks := FenceTicksFor(code);
    var fence := Repeat('`', ticks);
    var all := BlockLines(CodeBlock(language, code, caption)) + rest;
    FenceIsLonger(code, 0, 0);
    CodeLines(language, code, caption);
    assert all[0] == fence + language;
    assert all[0][..3] == FENCE;
    FenceStep(all);
    if Dots(language) {
      FenceOpeningOf(ticks, language);
      var opening := FenceOpening(all[0]).value;
      var k := FirstFrom(all, 1, line => IsFenceClosing(line, opening.ticks));
      if k == |all| {
        out, key := Paragraph(Join(all, '\n')), "blockType";
      } else {
        var read := if k + 1 < |all| then CodeCaption(all[k + 1]) else None;
        out, key := CodeBlock(opening.language, Join(all[1..k], '\n'), read), "language";
      }
    } else {
      FenceOpeningDots(ticks, language);
      out, key := Paragraph(Join(all, '\n')), "blockType";
    }
  }

  /** What stands first where an unfaithful row was printed is not that row. */
  lemma {:induction false} UnfaithfulReads(row: seq<Entry>, rest: seq<string>)
    requires IsJson(Obj(row)) && !IsFaithful(Obj(row)) && Follows(rest)
    ensures
      var read := Step(Split(RowText(Obj(row)).value, '\n') + rest).row;
      read.Some? && !Preserved(Obj(row), read.value)
  {
    hide Step, BlockRow, AgreesWithPatterns, IsReadableBlock, Preserved, Kept;
    var b := ReadableOf(row).value;
    ReadableKind(row, b);
    if AgreesWithPatterns(b) {
      BlockReads(b, rest);
      var key := DroppedField(row, b);
      FieldDiffers(row, b, b, key);
    } else {
      var out, key := DisagreementReads(b, rest);
      if FieldOf(b, key).Some? {
        ShownFieldDiffers(row, b, out, key);
      } else {
        CiteUrlInvented(row, b, out);
      }
    }
  }

  lemma {:induction false} CiteUrlInvented(row: seq<Entry>, b: Block, out: Block)
    requires ReadableOf(row) == Some(b) && IsJson(Obj(row))
    requires b.QuoteBlock? && b.citeUrl.None? && out.QuoteBlock? && out.citeUrl.Some?
    ensures !Preserved(Obj(row), BlockRow(out))
  {
    KeptUnset(row, b, "citeUrl");
    FieldDiffers(row, b, out, "citeUrl");
  }

  lemma {:induction false} FaithfulReads(row: seq<Entry>, rest: seq<string>)
    requires IsJson(Obj(row)) && IsFaithful(Obj(row)) && Follows(rest)
    ensures
      var lines := Split(RowText(Obj(row)).value, '\n');
      && Step(lines + rest) == Segment(Some(ReadAs(Obj(row))), |lines|)
      && Preserved(Obj(row), ReadAs(Obj(row)))
  {
    hide Step, BlockRow, AgreesWithPatterns, IsReadableBlock;
    match ReadableOf(row)
    case Some(b) =>
      ReadableKind(row, b);
      BlockReads(b, rest);
      FaithfulPreserved(row, b);
    case None => ProtectedReads(row, rest);
  }

  /** The row that comes back for a faithful row. */
  function ReadAs(row: Value): Value {
    match row
    case Obj(entries) =>
      (match ReadableOf(entries)
       case Some(b) => BlockRow(b)
       case None => row)
    case _ => row
  }
}

/** Every text, with protected blocks too: what reading, printing and reading it again keeps. */
module MarkdownEnvelopes {
  import opened Wrappers
  import opened Text
  import opened Json
  import opened MarkdownLines
  import opened MarkdownBlocks
  import opened MarkdownParser
  import opened MarkdownSteps
  import opened MarkdownRoundTrip
  import opened MarkdownDocuments
  import opened MarkdownNormalisation

  // ---------- what JSON.parse gives ----------

  lemma {:induction false} RemovedDistinct(entries: seq<Entry>, key: string)
    requires DistinctKeys(entries)
    ensures DistinctKeys(RemoveKey(entries, key))
    ensures forall e :: e in RemoveKey(entries, key) <==> e in entries && e.key != key
  {
    if entries != [] {
      RemovedDistinct(entries[1..], key);
      assert entries == [entries[0]] + entries[1..];
      var rest := RemoveKey(entries[1..], key);
      forall e | e in rest ensures e.key != entries[0].key {
        var i :| 0 <= i < |entries| - 1 && entries[1..][i] == e;
        assert entries[i + 1] == e;
      }
      forall i, j | 0 <= i < j < |rest| + 1 ensures ([entries[0]] + rest)[i].key != ([entries[0]] + rest)[j].key {
        assert rest[j - 1] in rest;
      }
    }
  }

  lemma {:induction false} PutIsJson(key: string, v: Value, later: seq<Entry>)
    requires IsJson(v) && IsJson(Obj(later))
    ensures IsJson(Obj(PutFirst(key, v, later)))
  {
    match Get(later, key)
    case None =>
      GetNone(later, key);
      var r := [Entry(key, v)] + later;
      forall i, j | 0 <= i < j < |r| ensures r[i].key != r[j].key {
        assert r[j] in later;
      }
    case Some(last) =>
      var k := GetSome(later, key);
      assert later[k] in later;
      RemovedDistinct(later, key);
      var rest := RemoveKey(later, key);
      var r := [Entry(key, last)] + rest;
      forall i, j | 0 <= i < j < |r| ensures r[i].key != r[j].key {
        assert r[j] in rest;
      }
      forall e | e in r ensures IsJson(e.value) {
        assert e in rest || e == Entry(key, last);
      }
  }

  lemma {:induction false} ParsedIsJson(s: string)
    ensures ParseValue(s).Some? ==> IsJson(ParseValue(s).value.0)
    decreases |s|, 0
  {
    var t := SkipWhitespace(s);
    if t != "" && t[0] == '[' {
      ParsedItemsAreJson(t[1..]);
    } else if t != "" && t[0] == '{' {
      ParsedMembersAreJson(t[1..]);
    }
  }

  lemma {:induction false} ParsedItemsAreJson(s: string)
    ensures ParseItems(s).Some? ==> IsJson(Arr(ParseItems(s).value.0))
    decreases |s|, 1
  {
    hide ParseValue, SkipWhitespace;
    ParsedIsJson(s);
    if ParseValue(s).Some? {
      var t := SkipWhitespace(ParseValue(s).value.1);
      if t != "" && t[0] == ',' {
        ParsedItemsAreJson(t[1..]);
      }
    }
  }

  lemma {:induction false} ParsedMembersAreJson(s: string)
    ensures ParseMembers(s).Some? ==> IsJson(Obj(ParseMembers(s).value.0))
    decreases |s|, 1
  {
    hide ParseValue, SkipWhitespace, ParseChars, PutFirst;
    var t := SkipWhitespace(s);
    if t != "" && t[0] == '\"' && ParseChars(t[1..]).Some? {
      var u := SkipWhitespace(ParseChars(t[1..]).value.1);
      if u != "" && u[0] == ':' {
        ParsedIsJson(u[1..]);
        if ParseValue(u[1..]).Some? {
          var w := SkipWhitespace(ParseValue(u[1..]).value.1);
          if w != "" && w[0] == ',' {
            ParsedMembersAreJson(w[1..]);
            if ParseMembers(w[1..]).Some? {
              PutIsJson(ParseChars(t[1..]).value.0, ParseValue(u[1..]).value.0, ParseMembers(w[1..]).value.0);
            }
          }
        }
      }
    }
  }

  // ---------- the rows of any text ----------

  lemma {:induction false} BlockIsRow(b: Block)
    ensures BlockRow(b).Obj? && IsJson(BlockRow(b))
  {
    ReaderRowIsJson(b);
  }

  lemma {:induction false} StepIsRow(lines: seq<string>)
    requires lines != []
    ensures Step(lines).row.Some? ==> Step(lines).row.value.Obj? && IsJson(Step(lines).row.value)
  {
    hide BlockRow, IsJson, ParseValue, Join, ImageLine, HeadingLine, QuoteLine, ListItem, FenceOpening, QuoteOf, ListItems, FirstFrom,
      IsBlank, IsProtectedOpening, IsFencedOpening, CodeCaption;
    forall b ensures BlockRow(b).Obj? && IsJson(BlockRow(b)) {
      BlockIsRow(b);
    }
    forall s ensures ParseValue(s).Some? ==> IsJson(ParseValue(s).value.0) {
      ParsedIsJson(s);
    }
  }

  lemma {:induction false} RowsAreRows(lines: seq<string>)
    ensures AreRows(RowsOf(lines))
    decreases |lines|
  {
    hide Step, IsJson;
    if lines != [] {
      StepIsRow(lines);
      RowsAreRows(lines[Step(lines).taken..]);
    }
  }

  // ---------- what is read back reads the same ----------

  lemma {:induction false} ReadAsSettles(v: Value)
    requires v.Obj? && IsJson(v) && IsFaithful(v)
    ensures ReadAs(v).Obj? && IsJson(ReadAs(v)) && IsFaithful(ReadAs(v)) && ReadAs(ReadAs(v)) == ReadAs(v)
  {
    hide BlockEntries, IsJson, ReadableOf, AgreesWithPatterns;
    match ReadableOf(v.entries)
    case None =>
    case Some(b) =>
      ReadableKind(v.entries, b);
      assert IsReaderShape(b);
      BlockIsRow(b);
      ReaderRowFaithful(b);
  }

  /**
   Any text at all: reading, printing and reading it keeps every row, up to storage noise in rows of
   protected blocks that have a readable form, exactly when all its rows are ones that guards and
   patterns agree about; and then a second round changes nothing.
   */
  lemma {:induction false} AnyTextNormalisation(markdown: string)
    ensures var rows := Rows(markdown);
      var again := Rows(BlocksToMarkdown(rows));
      && (AllPreserved(rows, again) <==> AllFaithful(rows))
      && (AllFaithful(rows) ==> again == AllReadAs(rows) && Rows(BlocksToMarkdown(again)) == again)
  {
    hide Rows, BlocksToMarkdown, AllPreserved, IsJson, IsFaithful, ReadAs;
    var rows := Rows(markdown);
    assert AreRows(rows) by { RowsAreRows(LinesOf(markdown)); assert Rows(markdown) == RowsOf(LinesOf(markdown)) by { RowsAre(markdown); } }
    RowRoundTrip(rows);
    if AllFaithful(rows) {
      var again := AllReadAs(rows);
      forall v | v in again ensures v.Obj? && IsJson(v) && IsFaithful(v) && ReadAs(v) == v {
        var i :| 0 <= i < |again| && again[i] == v;
        assert rows[i] in rows;
        ReadAsSettles(rows[i]);
      }
      RowRoundTrip(again);
      assert AllReadAs(again) == again;
    }
  }

  lemma RowsAre(markdown: string)
    ensures Rows(markdown) == RowsOf(LinesOf(markdown))
  {
  }
}

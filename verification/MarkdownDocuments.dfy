/** Whole documents: the round trip of row lists, and the normalisation of Markdown text. */
module MarkdownDocuments {
  import opened Wrappers
  import opened Text
  import opened Json
  import opened MarkdownLines
  import opened MarkdownBlocks
  import opened MarkdownParser
  import opened MarkdownSteps
  import opened MarkdownRoundTrip

  // ---------- a printed document as lines ----------

  /** The lines of the printed texts, one empty line between two of them. */
  function DocumentLines(texts: seq<string>): (lines: seq<string>)
    ensures lines != []
  {
    if |texts| == 0 then [""]
    else if |texts| == 1 then Split(texts[0], '\n')
    else Split(texts[0], '\n') + [""] + DocumentLines(texts[1..])
  }

  lemma {:induction false} JoinBlocksLines(texts: seq<string>)
    ensures Split(JoinBlocks(texts), '\n') == DocumentLines(texts)
  {
    if |texts| > 1 {
      var more := JoinBlocks(texts[1..]);
      JoinBlocksLines(texts[1..]);
      assert JoinBlocks(texts) == texts[0] + ['\n'] + (['\n'] + more);
      SplitConcat(texts[0], ['\n'] + more, '\n');
      assert (['\n'] + more)[1..] == more;
    }
  }

  lemma {:induction false} JoinBlocksFree(texts: seq<string>)
    requires NoneHas(texts, '\r')
    ensures '\r' !in JoinBlocks(texts)
  {
    if |texts| > 0 {
      assert texts[0] in texts;
      JoinBlocksFree(texts[1..]);
    }
  }

  lemma {:induction false} BlockTextFree(b: Block)
    requires IsReadableBlock(b)
    ensures '\r' !in BlockText(b)
  {
    hide Join, Split, IsBlockStart, FenceTicksFor, NatText, NamedCitation, IsSpaceChar;
    match b
    case QuoteBlock(text, attribution, citeUrl) =>
      if attribution.Some? || citeUrl.Some? {
        JoinFree([['>', ' '] + text, QuoteAttributionLine(attribution, citeUrl)], '\n', '\r');
      }
    case ListBlock(ordered, items) =>
      var lines := ItemLines(ordered, items, 0);
      forall line | line in lines ensures '\r' !in line {
        var i :| 0 <= i < |lines| && lines[i] == line;
        assert items[i] in items;
        assert All(NatText(i + 1), IsDigit);
        assert line == ItemLine(ordered, i, items[i]);
      }
      JoinFree(lines, '\n', '\r');
    case CodeBlock(language, code, caption) =>
      var fence := Repeat('`', FenceTicksFor(code));
      JoinFree([fence + language, code, fence] +
               (if caption.None? then [] else [['*'] + caption.value + ['*']]), '\n', '\r');
    case ImageBlock(src, alt, caption) =>
      CarriageReturnIsSpace();
    case _ =>
  }

  lemma {:induction false} CarriageReturnIsSpace()
    ensures IsSpaceChar('\r')
  {
  }

  lemma {:induction false} RowTextFree(v: Value)
    requires RowText(v).Some?
    ensures '\r' !in RowText(v).value
  {
    hide BlockText, ReadableOf, Stringify, IsReadableBlock;
    match ReadableOf(v.entries)
    case Some(b) =>
      ReadableKind(v.entries, b);
      BlockTextFree(b);
    case None =>
      StringifyPrintable(v);
      assert !IsPrintable('\r');
      JoinFree([PROTECTED_BLOCK_OPENING, Stringify(v), PROTECTED_BLOCK_CLOSING], '\n', '\r');
  }

  lemma {:induction false} RowTextsFree(values: seq<Value>)
    ensures NoneHas(RowTexts(values), '\r')
  {
    if values != [] {
      RowTextsFree(values[1..]);
      if RowText(values[0]).Some? {
        RowTextFree(values[0]);
      }
    }
  }

  /** Reading a printed document is reading the lines of its rows. */
  lemma {:induction false} PrintedRows(values: seq<Value>)
    ensures Rows(BlocksToMarkdown(values)) == RowsOf(DocumentLines(RowTexts(values)))
  {
    RowTextsFree(values);
    JoinBlocksFree(RowTexts(values));
    NormalizeNone(BlocksToMarkdown(values));
    JoinBlocksLines(RowTexts(values));
  }

  // ---------- the round trip of rows ----------

  lemma {:induction false} RowsFirst(lines: seq<string>)
    requires lines != [] && Step(lines).row.Some?
    ensures RowsOf(lines) == [Step(lines).row.value] + RowsOf(lines[Step(lines).taken..])
  {
  }

  lemma {:induction false} RowsSkip(lines: seq<string>)
    ensures RowsOf([""] + lines) == RowsOf(lines)
  {
    assert ([""] + lines)[1..] == lines;
  }

  function AllReadAs(values: seq<Value>): (r: seq<Value>)
    ensures |r| == |values| && forall i :: 0 <= i < |r| ==> r[i] == ReadAs(values[i])
  {
    if values == [] then [] else [ReadAs(values[0])] + AllReadAs(values[1..])
  }

  predicate AllFaithful(values: seq<Value>) {
    forall v | v in values :: IsFaithful(v)
  }

  lemma {:induction false} PreservedHead(values: seq<Value>, first: Value, more: seq<Value>)
    requires values != []
    ensures AllPreserved(values, [first] + more)
       <==> Preserved(values[0], first) && AllPreserved(values[1..], more)
  {
    hide Preserved;
    var out := [first] + more;
    if AllPreserved(values, out) {
      assert Preserved(values[0], out[0]);
      forall i | 0 <= i < |values| - 1 ensures Preserved(values[1..][i], more[i]) {
        assert Preserved(values[i + 1], out[i + 1]);
      }
    }
    if Preserved(values[0], first) && AllPreserved(values[1..], more) {
      forall i | 0 <= i < |values| ensures Preserved(values[i], out[i]) {
        if i > 0 {
          assert Preserved(values[1..][i - 1], more[i - 1]);
        }
      }
    }
  }

  lemma {:induction false} RoundTripLines(values: seq<Value>)
    requires AreRows(values)
    ensures AllPreserved(values, RowsOf(DocumentLines(RowTexts(values)))) <==> AllFaithful(values)
    ensures AllFaithful(values) ==> RowsOf(DocumentLines(RowTexts(values))) == AllReadAs(values)
  {
    hide Step, Preserved, IsFaithful, RowText, ReadAs;
    if values == [] {
      RowsSkip([]);
      assert [""] + [] == [""];
    } else {
      assert values == [values[0]] + values[1..];
      assert values[0] in values;
      TextPresent(values[0]);
      var lines := Split(RowText(values[0]).value, '\n');
      var texts := RowTexts(values[1..]);
      assert RowTexts(values) == [RowText(values[0]).value] + texts;
      var rest := if texts == [] then [] else [""] + DocumentLines(texts);
      assert ([RowText(values[0]).value] + texts)[1..] == texts;
      assert DocumentLines(RowTexts(values)) == lines + rest;
      RestRows(texts);
      RoundTripLines(values[1..]);
      RowsFirstOf(values, lines, rest);
    }
  }

  lemma {:induction false} TextPresent(v: Value)
    requires v.Obj?
    ensures RowText(v).Some?
  {
  }

  lemma {:induction false} RestRows(texts: seq<string>)
    ensures RowsOf(if texts == [] then [] else [""] + DocumentLines(texts)) == RowsOf(DocumentLines(texts))
  {
    hide Step;
    if texts == [] {
      RowsSkip([]);
      assert [""] + [] == [""];
    } else {
      RowsSkip(DocumentLines(texts));
    }
  }

  /** The first row decides, or leaves the decision to the rest. */
  lemma {:induction false} RowsFirstOf(values: seq<Value>, lines: seq<string>, rest: seq<string>)
    requires AreRows(values) && values != [] && Follows(rest)
    requires RowText(values[0]).Some? && lines == Split(RowText(values[0]).value, '\n')
    requires AllPreserved(values[1..], RowsOf(rest)) <==> AllFaithful(values[1..])
    requires AllFaithful(values[1..]) ==> RowsOf(rest) == AllReadAs(values[1..])
    ensures AllPreserved(values, RowsOf(lines + rest)) <==> AllFaithful(values)
    ensures AllFaithful(values) ==> RowsOf(lines + rest) == AllReadAs(values)
  {
    hide Step, Preserved, IsFaithful, RowText, ReadAs, Split, RowsOf;
    var first := values[0];
    assert first in values && values == [first] + values[1..];
    assert AllFaithful(values) <==> IsFaithful(first) && AllFaithful(values[1..]);
    if IsFaithful(first) {
      FaithfulReads(first.entries, rest);
      RowsFirst(lines + rest);
      assert (lines + rest)[|lines|..] == rest;
      PreservedHead(values, ReadAs(first), RowsOf(rest));
    } else {
      UnfaithfulReads(first.entries, rest);
      RowsFirst(lines + rest);
      var s := Step(lines + rest);
      PreservedHead(values, s.row.value, RowsOf((lines + rest)[s.taken..]));
    }
  }

  /**
   Row round trip: a list of rows printed and read back keeps the content of every readable row
   and every protected row exactly, in order, if and only if every row is faithful.
   */
  lemma RowRoundTrip(rows: seq<Value>)
    requires AreRows(rows)
    ensures AllPreserved(rows, Rows(BlocksToMarkdown(rows))) <==> AllFaithful(rows)
    ensures AllFaithful(rows) ==> Rows(BlocksToMarkdown(rows)) == AllReadAs(rows)
  {
    PrintedRows(rows);
    RoundTripLines(rows);
  }
}

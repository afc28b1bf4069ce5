/** A document is its lines with a line break between any two of them: LF, CR or CR LF. */
module LineBreaks {
  import opened Text
  import opened MarkdownLines

  datatype LineBreak = LF | CR | CRLF {
    function Characters(): string {
      match this
      case LF => "\n"
      case CR => "\r"
      case CRLF => "\r\n"
    }
  }

  function Broken(lines: seq<string>, breaks: seq<LineBreak>): string
    requires |lines| == |breaks| + 1
  {
    if breaks == [] then lines[0] else lines[0] + breaks[0].Characters() + Broken(lines[1..], breaks[1..])
  }

  /** A CR, an empty line and an LF would be one CR LF. */
  ghost predicate NoneMerges(lines: seq<string>, breaks: seq<LineBreak>)
    requires |lines| == |breaks| + 1
  {
    forall i :: 0 < i < |breaks| && breaks[i - 1] == CR && lines[i] == "" ==> breaks[i] != LF
  }

  ghost predicate IsDocument(text: string, lines: seq<string>, breaks: seq<LineBreak>) {
    && |lines| == |breaks| + 1
    && (forall line :: line in lines ==> '\n' !in line && '\r' !in line)
    && NoneMerges(lines, breaks)
    && text == Broken(lines, breaks)
  }

  lemma {:induction false} NormalizeFront(front: string, rest: string)
    requires '\r' !in front
    ensures NormalizeBreaks(front + rest) == front + NormalizeBreaks(rest)
  {
    if front == "" {
      assert front + rest == rest;
    } else {
      assert front[0] in front && (front + rest)[0] == front[0] && (front + rest)[1..] == front[1..] + rest;
      NormalizeFront(front[1..], rest);
      assert front == [front[0]] + front[1..];
    }
  }

  lemma {:induction false} NormalizeBreak(mark: LineBreak, rest: string)
    requires mark == CR ==> rest == "" || rest[0] != '\n'
    ensures NormalizeBreaks(mark.Characters() + rest) == ['\n'] + NormalizeBreaks(rest)
  {
    var s := mark.Characters() + rest;
    assert s[|mark.Characters()|..] == rest;
    assert mark == CR && rest != "" ==> s[1] == rest[0];
  }

  lemma DocumentParts(text: string, lines: seq<string>, breaks: seq<LineBreak>)
    requires IsDocument(text, lines, breaks)
    ensures |lines| == |breaks| + 1 && '\r' !in lines[0] && text == Broken(lines, breaks)
  {
    assert lines[0] in lines;
  }

  lemma {:induction false} NormalizeDocument(text: string, lines: seq<string>, breaks: seq<LineBreak>)
    requires IsDocument(text, lines, breaks)
    ensures NormalizeBreaks(text) == Join(lines, '\n')
    decreases |breaks|
  {
    hide IsDocument, NormalizeBreaks;
    DocumentParts(text, lines, breaks);
    if breaks == [] {
      NormalizeNone(lines[0]);
    } else {
      var rest := Broken(lines[1..], breaks[1..]);
      RestIsDocument(text, lines, breaks);
      NormalizeDocument(rest, lines[1..], breaks[1..]);
      assert text == lines[0] + (breaks[0].Characters() + rest);
      NormalizeFront(lines[0], breaks[0].Characters() + rest);
      NormalizeBreak(breaks[0], rest);
    }
  }

  lemma {:induction false} RestIsDocument(text: string, lines: seq<string>, breaks: seq<LineBreak>)
    requires IsDocument(text, lines, breaks) && breaks != []
    ensures IsDocument(Broken(lines[1..], breaks[1..]), lines[1..], breaks[1..])
    ensures
      var rest := Broken(lines[1..], breaks[1..]);
      breaks[0] == CR ==> rest == "" || rest[0] != '\n'
  {
    var after, tail := lines[1..], breaks[1..];
    assert forall i :: 0 < i < |tail| ==> tail[i - 1] == breaks[i] && after[i] == lines[i + 1] && tail[i] == breaks[i + 1];
    FirstCharacter(Broken(after, tail), after, tail);
    assert tail != [] ==> after[0] == lines[1] && tail[0] == breaks[1];
  }

  lemma {:induction false} FirstCharacter(text: string, lines: seq<string>, breaks: seq<LineBreak>)
    requires IsDocument(text, lines, breaks)
    ensures text != "" && text[0] == '\n' <==> lines[0] == "" && breaks != [] && breaks[0] == LF
  {
    assert lines[0] in lines;
    assert lines[0] != "" ==> lines[0][0] in lines[0] && text[0] == lines[0][0];
    assert lines[0] == "" && breaks != [] ==> text[0] == breaks[0].Characters()[0];
  }

  lemma {:induction false} AddLine(mark: LineBreak, rest: string, lines: seq<string>, breaks: seq<LineBreak>)
    requires IsDocument(rest, lines, breaks)
    requires mark == CR ==> rest == "" || rest[0] != '\n'
    ensures IsDocument(mark.Characters() + rest, [""] + lines, [mark] + breaks)
  {
    FirstCharacter(rest, lines, breaks);
    var after, tail := [""] + lines, [mark] + breaks;
    assert after[1..] == lines && tail[1..] == breaks;
    assert forall i :: 1 <= i < |tail| ==> after[i] == lines[i - 1] && tail[i] == breaks[i - 1];
  }

  lemma {:induction false} AddCharacter(c: char, rest: string, lines: seq<string>, breaks: seq<LineBreak>)
    requires IsDocument(rest, lines, breaks) && c != '\n' && c != '\r'
    ensures IsDocument([c] + rest, [[c] + lines[0]] + lines[1..], breaks)
  {
    var after := [[c] + lines[0]] + lines[1..];
    assert lines[0] in lines && after[1..] == lines[1..];
    assert forall i :: 0 < i < |after| ==> after[i] == lines[i];
    assert breaks != [] ==> [c] + rest == [c] + lines[0] + breaks[0].Characters() + Broken(lines[1..], breaks[1..]);
  }

  /** Every text is a document. */
  lemma {:induction false} DocumentOf(text: string) returns (lines: seq<string>, breaks: seq<LineBreak>)
    ensures IsDocument(text, lines, breaks)
  {
    if text == "" {
      lines, breaks := [""], [];
      return;
    }
    hide IsDocument;
    if text[0] != '\n' && text[0] != '\r' {
      lines, breaks := DocumentOf(text[1..]);
      DocumentParts(text[1..], lines, breaks);
      AddCharacter(text[0], text[1..], lines, breaks);
      lines := [[text[0]] + lines[0]] + lines[1..];
      assert text == [text[0]] + text[1..];
    } else {
      var mark := if text[0] == '\n' then LF else if |text| > 1 && text[1] == '\n' then CRLF else CR;
      var rest := text[|mark.Characters()|..];
      lines, breaks := DocumentOf(rest);
      AddLine(mark, rest, lines, breaks);
      lines, breaks := [""] + lines, [mark] + breaks;
      assert text == mark.Characters() + rest;
    }
  }

  /** The lines that the reader splits a text into are the lines it is a document of. */
  lemma {:induction false} LinesExact(text: string, lines: seq<string>)
    ensures Split(NormalizeBreaks(text), '\n') == lines <==> exists breaks :: IsDocument(text, lines, breaks)
  {
    hide IsDocument;
    var parts, marks := DocumentOf(text);
    DocumentLines(text, parts, marks);
    forall breaks | IsDocument(text, lines, breaks) ensures Split(NormalizeBreaks(text), '\n') == lines {
      DocumentLines(text, lines, breaks);
    }
  }

  lemma {:induction false} DocumentLines(text: string, lines: seq<string>, breaks: seq<LineBreak>)
    requires IsDocument(text, lines, breaks)
    ensures Split(NormalizeBreaks(text), '\n') == lines
  {
    NormalizeDocument(text, lines, breaks);
    SplitJoin(lines, '\n');
  }
}

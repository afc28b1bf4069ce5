/** Normalising pathnames: composed, decoded, re-encoded segments without empty or dot segments. */
module PathNormalization {
  import opened Wrappers
  import opened PercentCoding
  import opened Text
  import Breadcrumbs

  datatype PathError = InvalidPathname | QueryOrFragment | EncodedSeparatorAmbiguous

  /** What is used of Unicode normalisation form C. */
  ghost predicate IsNfc(nfc: string -> string) {
    && (forall s :: nfc(nfc(s)) == nfc(s))
    && (forall s :: (forall i :: 0 <= i < |s| ==> s[i] < 128 as char) ==> nfc(s) == s)
    && (forall s :: s != "" ==> nfc(s) != "")
  }

  /** After a percent sign: any number of 25, then 2f or 5c, in either case. */
  predicate SeparatorTail(s: string) {
    |s| >= 2 &&
    (|| (s[0] == '2' && (s[1] == 'f' || s[1] == 'F'))
     || (s[0] == '5' && (s[1] == 'c' || s[1] == 'C'))
     || (s[0] == '2' && s[1] == '5' && SeparatorTail(s[2..])))
  }

  predicate HasEncodedSeparator(s: string) {
    s != "" && ((s[0] == '%' && SeparatorTail(s[1..])) || HasEncodedSeparator(s[1..]))
  }

  // ---------- normalising ----------

  function DecodedSegment(nfc: string -> string, segment: string): Option<string> {
    match Decode(segment)
    case None => None
    case Some(text) =>
      var decoded := nfc(text);
      if decoded == "." || decoded == ".." then None else Some(decoded)
  }

  /** The decoded non-empty segments; None when one is malformed or a dot segment. */
  function DecodedSegments(nfc: string -> string, segments: seq<string>): Option<seq<string>> {
    if segments == [] then Some([])
    else if segments[0] == "" then DecodedSegments(nfc, segments[1..])
    else
      match DecodedSegment(nfc, segments[0])
      case None => None
      case Some(decoded) =>
        match DecodedSegments(nfc, segments[1..])
        case None => None
        case Some(rest) => Some([decoded] + rest)
  }

  function EncodeSegments(decoded: seq<string>): (r: seq<string>)
    ensures |r| == |decoded|
    ensures forall i :: 0 <= i < |r| ==> r[i] == Encode(decoded[i])
  {
    if decoded == [] then [] else [Encode(decoded[0])] + EncodeSegments(decoded[1..])
  }

  /** The path of decoded segments. */
  function PathOf(decoded: seq<string>): string {
    "/" + Join(EncodeSegments(decoded), '/')
  }

  /** What an input means: its decoded non-empty segments. */
  function Meaning(nfc: string -> string, received: string): Option<seq<string>> {
    DecodedSegments(nfc, Split(nfc(received), '/'))
  }

  function Refusal(received: string): Option<PathError> {
    if !StartsWith(received, "/") || '\\' in received then Some(InvalidPathname)
    else if '?' in received || '#' in received then Some(QueryOrFragment)
    else if HasEncodedSeparator(received) then Some(EncodedSeparatorAmbiguous)
    else None
  }

  function Normalized(nfc: string -> string, received: string): Result<string, PathError> {
    match Refusal(received)
    case Some(error) => Err(error)
    case None =>
      match Meaning(nfc, received)
      case None => Err(InvalidPathname)
      case Some(decoded) => Ok(PathOf(decoded))
  }

  lemma {:induction false} SegmentStep(segments: seq<string>, i: nat)
    requires i < |segments|
    ensures segments[i..] != [] && segments[i..][0] == segments[i] && segments[i..][1..] == segments[i + 1..]
  {
  }

  /** Decodes and re-encodes the non-empty segments after those in `encoded`. */
  function EncodeFrom(nfc: string -> string, encoded: seq<string>, segments: seq<string>): Option<seq<string>>
    decreases |segments|
  {
    if segments == [] then Some(encoded)
    else if segments[0] == "" then EncodeFrom(nfc, encoded, segments[1..])
    else
      match DecodedSegment(nfc, segments[0])
      case None => None
      case Some(decoded) => EncodeFrom(nfc, encoded + [Encode(decoded)], segments[1..])
  }

  lemma Regroup(a: seq<string>, b: seq<string>, c: seq<string>)
    ensures (a + b) + c == a + (b + c) && [] + a == a && a + [] == a
  {
  }

  lemma {:induction false} EncodeFromIs(nfc: string -> string, encoded: seq<string>, segments: seq<string>)
    ensures EncodeFrom(nfc, encoded, segments)
         == match DecodedSegments(nfc, segments) case None => None case Some(decoded) => Some(encoded + EncodeSegments(decoded))
    decreases |segments|
  {
    hide Encode, DecodedSegment, EncodeSegments;
    if segments == [] {
      EncodeNone();
      Regroup(encoded, [], []);
    } else if segments[0] == "" {
      EncodeFromIs(nfc, encoded, segments[1..]);
    } else {
      var head := DecodedSegment(nfc, segments[0]);
      if head.Some? {
        EncodeFromIs(nfc, encoded + [Encode(head.value)], segments[1..]);
        var rest := DecodedSegments(nfc, segments[1..]);
        if rest.Some? {
          EncodeFirst(head.value, rest.value);
          Regroup(encoded, [Encode(head.value)], EncodeSegments(rest.value));
        }
      }
    }
  }

  lemma EncodeNone()
    ensures EncodeSegments([]) == []
  {
  }

  /** The loop computes the encodings of the decoded segments. */
  lemma {:induction false} EncodeFromNone(nfc: string -> string, segments: seq<string>)
    ensures EncodeFrom(nfc, [], segments)
         == match DecodedSegments(nfc, segments) case None => None case Some(decoded) => Some(EncodeSegments(decoded))
  {
    hide EncodeFrom, DecodedSegments, EncodeSegments;
    EncodeFromIs(nfc, [], segments);
    if DecodedSegments(nfc, segments).Some? {
      Regroup(EncodeSegments(DecodedSegments(nfc, segments).value), [], []);
    }
  }

  lemma EncodeFirst(head: string, rest: seq<string>)
    ensures EncodeSegments([head] + rest) == [Encode(head)] + EncodeSegments(rest)
  {
    hide Encode;
    assert ([head] + rest)[1..] == rest;
  }

  method EncodeDecoded(nfc: string -> string, segments: seq<string>) returns (result: Option<seq<string>>)
    ensures result == EncodeFrom(nfc, [], segments)
  {
    hide Encode, Decode;
    var encoded: seq<string> := [];
    var i := 0;
    assert segments[0..] == segments;
    while i < |segments|
      invariant 0 <= i <= |segments|
      invariant EncodeFrom(nfc, [], segments) == EncodeFrom(nfc, encoded, segments[i..])
    {
      SegmentStep(segments, i);
      if segments[i] != "" {
        var text := Decode(segments[i]);
        if text.None? {
          return None;
        }
        var segment := nfc(text.value);
        if segment == "." || segment == ".." {
          return None;
        }
        encoded := encoded + [Encode(segment)];
      }
      i := i + 1;
    }
    return Some(encoded);
  }

  method NormalizePathname(nfc: string -> string, received: string) returns (result: Result<string, PathError>)
    ensures result == Normalized(nfc, received)
  {
    hide Encode, Split, DecodedSegments, EncodeFrom, EncodeSegments;
    if !StartsWith(received, "/") || '\\' in received {
      return Err(InvalidPathname);
    }
    if '?' in received || '#' in received {
      return Err(QueryOrFragment);
    }
    if HasEncodedSeparator(received) {
      return Err(EncodedSeparatorAmbiguous);
    }
    var encoded := EncodeDecoded(nfc, Split(nfc(received), '/'));
    EncodeFromNone(nfc, Split(nfc(received), '/'));
    if encoded.None? {
      return Err(InvalidPathname);
    }
    EmptyPath();
    return Ok(if encoded.value == [] then "/" else "/" + Join(encoded.value, '/'));
  }

  lemma EmptyPath()
    ensures "/" + Join([], '/') == "/"
  {
  }

  // ---------- what a meaning is ----------

  /** Segments that a normalised path stands for. */
  ghost predicate IsMeaning(nfc: string -> string, decoded: seq<string>) {
    forall i :: 0 <= i < |decoded| ==>
      decoded[i] != "" && nfc(decoded[i]) == decoded[i] && decoded[i] != "." && decoded[i] != ".."
  }

  lemma {:induction false} SegmentsMean(nfc: string -> string, segments: seq<string>)
    requires IsNfc(nfc)
    ensures DecodedSegments(nfc, segments).Some? ==> IsMeaning(nfc, DecodedSegments(nfc, segments).value)
  {
    hide Decode;
    if segments != [] {
      SegmentsMean(nfc, segments[1..]);
      if segments[0] != "" {
        DecodeNonEmpty(segments[0]);
      }
    }
  }

  lemma {:induction false} DecodeNonEmpty(s: string)
    requires s != ""
    ensures Decode(s) != Some("")
  {
  }

  // ---------- reading a path back ----------

  predicate IsPathPart(s: string) {
    s != "" && forall i :: 0 <= i < |s| ==> IsEncodedChar(s[i])
  }

  lemma {:induction false} EncodedParts(decoded: seq<string>)
    requires forall i :: 0 <= i < |decoded| ==> decoded[i] != ""
    ensures forall i :: 0 <= i < |decoded| ==> IsPathPart(EncodeSegments(decoded)[i])
  {
    hide Encode;
    forall i | 0 <= i < |decoded| ensures IsPathPart(EncodeSegments(decoded)[i]) {
      EncodeMade(decoded[i]);
    }
  }

  lemma {:induction false} SplitPath(parts: seq<string>)
    requires forall i :: 0 <= i < |parts| ==> IsPathPart(parts[i])
    ensures Split("/" + Join(parts, '/'), '/') == [""] + if parts == [] then [""] else parts
  {
    hide Split;
    var joined := Join(parts, '/');
    assert "/" + joined == "" + ['/'] + joined;
    SplitConcat("", joined, '/');
    EmptySplit();
    if parts != [] {
      assert NoneHas(parts, '/') by {
        forall part | part in parts ensures '/' !in part {
          var i :| 0 <= i < |parts| && parts[i] == part;
        }
      }
      SplitJoin(parts, '/');
    }
  }

  lemma EmptySplit()
    ensures Split("", '/') == [""]
  {
  }

  lemma {:induction false} DecodedFirst(nfc: string -> string, segment: string, rest: seq<string>)
    requires segment != ""
    ensures DecodedSegments(nfc, [segment] + rest)
         == match DecodedSegment(nfc, segment)
            case None => None
            case Some(decoded) =>
              match DecodedSegments(nfc, rest) case None => None case Some(more) => Some([decoded] + more)
  {
    hide DecodedSegment;
    assert ([segment] + rest)[1..] == rest;
  }

  lemma {:induction false} ReadSegments(nfc: string -> string, decoded: seq<string>)
    requires IsMeaning(nfc, decoded)
    ensures DecodedSegments(nfc, EncodeSegments(decoded)) == Some(decoded)
  {
    hide Encode, Decode, EncodeSegments, DecodedSegments;
    if decoded == [] {
      EncodeNone();
      DecodedNone(nfc);
    } else {
      var head, rest := decoded[0], decoded[1..];
      assert decoded == [head] + rest;
      DecodeEncode(head);
      EncodeMade(head);
      EncodeFirst(head, rest);
      DecodedFirst(nfc, Encode(head), EncodeSegments(rest));
      ReadSegments(nfc, rest);
    }
  }

  lemma DecodedNone(nfc: string -> string)
    ensures DecodedSegments(nfc, []) == Some([])
  {
  }

  predicate IsPathText(s: string) {
    forall i :: 0 <= i < |s| ==> IsEncodedChar(s[i]) || s[i] == '/'
  }

  lemma {:induction false} JoinMade(parts: seq<string>)
    requires forall i :: 0 <= i < |parts| ==> IsPathPart(parts[i])
    ensures IsPathText(Join(parts, '/'))
  {
    if |parts| > 1 {
      JoinMade(parts[1..]);
    }
  }

  lemma AsciiIsComposed(nfc: string -> string, s: string)
    requires IsNfc(nfc) && IsPathText(s)
    ensures nfc(s) == s
  {
    assert forall i :: 0 <= i < |s| ==> s[i] < 128 as char;
  }

  /** A path is plain ASCII without reserved characters, and its meaning is what it was made from. */
  lemma {:induction false} PathReadsBack(nfc: string -> string, decoded: seq<string>)
    requires IsNfc(nfc) && IsMeaning(nfc, decoded)
    ensures Meaning(nfc, PathOf(decoded)) == Some(decoded)
    ensures PathOf(decoded)[0] == '/' && IsPathText(PathOf(decoded))
  {
    var parts, path := EncodeSegments(decoded), PathOf(decoded);
    assert forall i :: 0 <= i < |decoded| ==> decoded[i] != "";
    hide Split, Join, Encode, Decode, IsNfc, IsMeaning, IsPathPart, DecodedSegments;
    EncodedParts(decoded);
    JoinMade(parts);
    assert IsPathText(path);
    AsciiIsComposed(nfc, path);
    SplitPath(parts);
    ReadSegments(nfc, decoded);
    BlankSegments(nfc, parts);
  }

  lemma {:induction false} PathNotRefused(path: string)
    requires path != "" && path[0] == '/' && IsPathText(path)
    ensures Refusal(path) == if HasEncodedSeparator(path) then Some(EncodedSeparatorAmbiguous) else None
  {
    hide HasEncodedSeparator;
    assert path[..1] == "/";
  }

  lemma BlankSegments(nfc: string -> string, parts: seq<string>)
    ensures DecodedSegments(nfc, [""] + parts) == DecodedSegments(nfc, parts)
    ensures DecodedSegments(nfc, [""] + [""]) == DecodedSegments(nfc, [])
  {
    assert ([""] + parts)[1..] == parts;
    assert ([""] + [""])[1..] == [""] && [""][1..] == [];
  }

  /**
   Normalising again: the output comes back unchanged, or is refused because it holds an encoded
   separator, and that happens exactly when it does.
   */
  lemma {:induction false} NormalizationIsStable(nfc: string -> string, received: string)
    requires IsNfc(nfc) && Normalized(nfc, received).Ok?
    ensures var path := Normalized(nfc, received).value;
      Normalized(nfc, path) == if HasEncodedSeparator(path) then Err(EncodedSeparatorAmbiguous) else Ok(path)
  {
    hide Split, PathOf, Refusal, DecodedSegments, IsNfc, IsMeaning, IsPathText;
    SegmentsMean(nfc, Split(nfc(received), '/'));
    var decoded := Meaning(nfc, received).value;
    PathReadsBack(nfc, decoded);
    PathNotEmpty(decoded);
    PathNotRefused(PathOf(decoded));
  }

  lemma PathNotEmpty(decoded: seq<string>)
    ensures PathOf(decoded) != ""
  {
  }

  // ---------- which inputs are unstable ----------

  /** A decoded segment that holds a separator, or text that reads as an encoded one. */
  predicate HasSeparatorText(decoded: string) {
    '/' in decoded || '\\' in decoded || HasEncodedSeparator(decoded)
  }

  lemma {:induction false} TailOfEncoded(s: string)
    ensures SeparatorTail(Encode(s)) == SeparatorTail(s)
  {
    hide PercentAll, Bytes;
    if s == "" {
    } else if !Unreserved(s[0]) {
      EscapeStarts(s[0]);
      assert Encode(s)[0] == '%';
    } else {
      assert Encode(s)[0] == s[0] && Encode(s)[1..] == Encode(s[1..]);
      if |s| > 1 {
        if Unreserved(s[1]) {
          assert s[1..][1..] == s[2..];
          assert Encode(s[1..])[0] == s[1] && Encode(s[1..])[1..] == Encode(s[2..]);
          assert Encode(s)[2..] == Encode(s)[1..][1..];
          TailOfEncoded(s[2..]);
        } else {
          EscapeStarts(s[1]);
          assert Encode(s[1..])[0] == '%' && Encode(s)[1] == '%';
        }
      }
    }
  }

  /** An escaped character other than a separator or a percent sign is no encoded separator. */
  lemma {:induction false} EscapeTail(c: char, rest: string)
    requires !Unreserved(c)
    ensures var s := EncodeChar(c) + rest;
      HasEncodedSeparator(s)
      <==> c == '/' || c == '\\' || (c == '%' && SeparatorTail(rest)) || HasEncodedSeparator(rest)
  {
    var bytes := Bytes(c);
    EscapesApart(bytes, rest);
    if c as nat < 0x80 {
      assert bytes[1..] == [] && PercentAll([]) + rest == rest;
      assert !EscapesMatch([], rest);
    } else {
      HighBytes(bytes, rest);
    }
    hide HasEncodedSeparator, PercentAll, SeparatorTail;
  }

  lemma {:induction false} HighBytes(bytes: seq<nat>, rest: string)
    requires forall i :: 0 <= i < |bytes| ==> 0x80 <= bytes[i] < 256
    ensures !EscapesMatch(bytes, rest)
  {
    if bytes != [] {
      HighBytes(bytes[1..], rest);
    }
  }

  /** The separators that a run of escapes makes with what follows it. */
  predicate EscapesMatch(bytes: seq<nat>, rest: string)
    requires forall i :: 0 <= i < |bytes| ==> bytes[i] < 256
  {
    bytes != [] &&
    (bytes[0] == 0x2F || bytes[0] == 0x5C || (bytes[0] == 0x25 && SeparatorTail(PercentAll(bytes[1..]) + rest))
     || EscapesMatch(bytes[1..], rest))
  }

  lemma {:induction false} EscapesApart(bytes: seq<nat>, rest: string)
    requires forall i :: 0 <= i < |bytes| ==> bytes[i] < 256
    ensures HasEncodedSeparator(PercentAll(bytes) + rest) <==> EscapesMatch(bytes, rest) || HasEncodedSeparator(rest)
  {
    if bytes == [] {
      assert "" + rest == rest;
    } else {
      var more := PercentAll(bytes[1..]) + rest;
      assert PercentAll(bytes) + rest == Percent(bytes[0]) + more;
      OneEscape(bytes[0], more);
      EscapesApart(bytes[1..], rest);
    }
  }

  lemma {:induction false} OneEscape(byte: nat, rest: string)
    requires byte < 256
    ensures HasEncodedSeparator(Percent(byte) + rest)
       <==> byte == 0x2F || byte == 0x5C || (byte == 0x25 && SeparatorTail(rest)) || HasEncodedSeparator(rest)
  {
    var s := Percent(byte) + rest;
    var high, low := HexDigit(byte / 16), HexDigit(byte % 16);
    HexChars(byte);
    assert s[1..] == [high, low] + rest && s[1..][2..] == rest && s[1..][1..] == [low] + rest && ([low] + rest)[1..] == rest;
    assert SeparatorTail(s[1..]) <==> byte == 0x2F || byte == 0x5C || (byte == 0x25 && SeparatorTail(rest));
    hide SeparatorTail;
    SkipPlain(s[1..]);
    SkipPlain([low] + rest);
  }

  lemma HexChars(byte: nat)
    requires byte < 256
    ensures var high, low := HexDigit(byte / 16), HexDigit(byte % 16);
      && high != '%' && low != '%'
      && (high == '2' <==> byte / 16 == 2) && (high == '5' <==> byte / 16 == 5)
      && (low == 'F' <==> byte % 16 == 15) && (low == 'C' <==> byte % 16 == 12) && (low == '5' <==> byte % 16 == 5)
      && low != 'f' && low != 'c'
  {
  }

  lemma {:induction false} SeparatorInEncoded(decoded: string)
    ensures HasEncodedSeparator(Encode(decoded)) <==> HasSeparatorText(decoded)
  {
    hide EncodeChar, SeparatorTail;
    if decoded != "" {
      var c, rest := decoded[0], Encode(decoded[1..]);
      SeparatorInEncoded(decoded[1..]);
      TailOfEncoded(decoded[1..]);
      assert decoded == [c] + decoded[1..];
      if Unreserved(c) {
        PlainChar(c, rest);
      } else {
        EscapeTail(c, rest);
      }
    }
  }

  lemma PlainChar(c: char, rest: string)
    requires Unreserved(c)
    ensures HasEncodedSeparator(EncodeChar(c) + rest) == HasEncodedSeparator(rest)
  {
    assert ([c] + rest)[1..] == rest;
    SkipPlain([c] + rest);
  }

  lemma {:induction false} TailBeforeSlash(a: string, b: string)
    ensures SeparatorTail(a + "/" + b) == SeparatorTail(a)
  {
    var s := a + "/" + b;
    if |a| >= 2 {
      TailBeforeSlash(a[2..], b);
      assert s[2..] == a[2..] + "/" + b && s[0] == a[0] && s[1] == a[1];
    } else if |a| == 1 {
      assert s[1] == '/';
    }
  }

  /** No encoded separator reaches across a slash. */
  lemma {:induction false} SeparatorsApart(a: string, b: string)
    ensures HasEncodedSeparator(a + "/" + b) <==> HasEncodedSeparator(a) || HasEncodedSeparator(b)
  {
    hide SeparatorTail;
    var s := a + "/" + b;
    if a == "" {
      assert s == ['/'] + b && s[1..] == b;
      SkipPlain(s);
    } else {
      assert s[1..] == a[1..] + "/" + b && s[0] == a[0];
      TailBeforeSlash(a[1..], b);
      SeparatorsApart(a[1..], b);
    }
  }

  lemma {:induction false} SeparatorInJoin(decoded: seq<string>)
    ensures HasEncodedSeparator(Join(EncodeSegments(decoded), '/'))
       <==> exists i :: 0 <= i < |decoded| && HasSeparatorText(decoded[i])
  {
    hide Encode, HasEncodedSeparator, HasSeparatorText;
    var parts := EncodeSegments(decoded);
    if decoded == [] {
      NoPercent("");
    } else {
      SeparatorInEncoded(decoded[0]);
      if |decoded| > 1 {
        SeparatorInJoin(decoded[1..]);
        assert parts[1..] == EncodeSegments(decoded[1..]);
        SeparatorsApart(parts[0], Join(parts[1..], '/'));
        assert Join(parts, '/') == parts[0] + "/" + Join(parts[1..], '/');
        assert decoded == [decoded[0]] + decoded[1..];
      } else {
        assert Join(parts, '/') == parts[0];
      }
    }
  }

  /** Normalisation is stable exactly for the inputs none of whose decoded segments holds or spells a separator. */
  lemma {:induction false} StableExact(nfc: string -> string, received: string)
    requires IsNfc(nfc) && Normalized(nfc, received).Ok?
    ensures var path := Normalized(nfc, received).value;
      Normalized(nfc, path) == Ok(path)
      <==> forall i :: 0 <= i < |Meaning(nfc, received).value| ==> !HasSeparatorText(Meaning(nfc, received).value[i])
  {
    hide Split, Refusal, DecodedSegments, IsNfc, HasSeparatorText, HasEncodedSeparator, Join;
    NormalizationIsStable(nfc, received);
    var decoded := Meaning(nfc, received).value;
    SeparatorInJoin(decoded);
    SlashFirst(Join(EncodeSegments(decoded), '/'));
  }

  lemma SlashFirst(s: string)
    ensures HasEncodedSeparator("/" + s) == HasEncodedSeparator(s)
  {
    assert ("/" + s)[1..] == s;
    SkipPlain("/" + s);
  }

  /** Two accepted inputs are normalised to one path exactly when their decoded non-empty segments agree. */
  lemma {:induction false} EqualPathsEqualMeanings(nfc: string -> string, a: string, b: string)
    requires IsNfc(nfc) && Normalized(nfc, a).Ok? && Normalized(nfc, b).Ok?
    ensures Normalized(nfc, a).value == Normalized(nfc, b).value <==> Meaning(nfc, a) == Meaning(nfc, b)
  {
    hide Split, PathOf, HasEncodedSeparator;
    SegmentsMean(nfc, Split(nfc(a), '/'));
    SegmentsMean(nfc, Split(nfc(b), '/'));
    PathReadsBack(nfc, Meaning(nfc, a).value);
    PathReadsBack(nfc, Meaning(nfc, b).value);
  }

  /** A percent sign that decoding produces can form an encoded separator: /%25%32f becomes /%252f. */
  lemma {:induction false} UnstablePath(nfc: string -> string)
    requires IsNfc(nfc)
    ensures Normalized(nfc, "/%25%32f") == Ok("/%252f")
    ensures Normalized(nfc, "/%252f") == Err(EncodedSeparatorAmbiguous)
  {
    hide Split, PathOf, Refusal, DecodedSegments, Decode, Join, IsNfc;
    AcceptedInput();
    RefusedOutput();
    var received, segment := "/%25%32f", "%25%32f";
    assert IsPathText(received) && IsPathText("%2f");
    AsciiIsComposed(nfc, received);
    AsciiIsComposed(nfc, "%2f");
    assert received == "" + ['/'] + segment;
    SplitConcat("", segment, '/');
    SplitNone(segment, '/');
    EmptySplit();
    BlankSegments(nfc, [segment]);
    OneSegment(nfc, segment, "%2f") by { UnstableDecode(); }
    UnstableEncode();
  }

  lemma {:induction false} OneSegment(nfc: string -> string, segment: string, decoded: string)
    requires segment != "" && DecodedSegment(nfc, segment) == Some(decoded)
    ensures DecodedSegments(nfc, [segment]) == Some([decoded])
  {
    hide DecodedSegment, DecodedSegments;
    DecodedFirst(nfc, segment, []);
    DecodedNone(nfc);
    Regroup([segment], [], []);
    Regroup([decoded], [], []);
  }

  lemma {:induction false} SkipPlain(s: string)
    requires s != "" && s[0] != '%'
    ensures HasEncodedSeparator(s) == HasEncodedSeparator(s[1..])
  {
    hide SeparatorTail;
  }

  lemma {:induction false} NoPercent(s: string)
    requires '%' !in s
    ensures !HasEncodedSeparator(s)
  {
    hide SeparatorTail;
    if s != "" {
      NoPercent(s[1..]);
    }
  }

  lemma AcceptedInput()
    ensures Refusal("/%25%32f") == None
  {
    hide HasEncodedSeparator;
    var a, b, c := "%32f", "%25%32f", "/%25%32f";
    NoPercent("32f");
    assert a[1..] == "32f" && !HasEncodedSeparator(a) by { LastPercent(a); }
    assert !HasEncodedSeparator("25%32f") by {
      assert "25%32f"[1..] == "5%32f" && "5%32f"[1..] == a;
      SkipPlain("25%32f");
      SkipPlain("5%32f");
    }
    assert b[1..] == "25%32f" && "25%32f"[2..] == a && !SeparatorTail(a);
    HeadPercent(b);
    assert c[1..] == b && c[..1] == "/";
    SkipPlain(c);
  }

  lemma HeadPercent(s: string)
    requires s != "" && s[0] == '%' && !SeparatorTail(s[1..])
    ensures HasEncodedSeparator(s) == HasEncodedSeparator(s[1..])
  {
    hide SeparatorTail;
  }

  lemma LastPercent(s: string)
    requires s == "%32f" && !HasEncodedSeparator("32f")
    ensures !HasEncodedSeparator(s)
  {
    assert s[1..] == "32f";
    HeadPercent(s);
  }

  lemma RefusedOutput()
    ensures Refusal("/%252f") == Some(EncodedSeparatorAmbiguous)
  {
    hide HasEncodedSeparator;
    var b, c := "%252f", "/%252f";
    assert b[1..] == "252f" && "252f"[2..] == "2f" && SeparatorTail("2f") && SeparatorTail("252f");
    assert HasEncodedSeparator(b) by { TailFound(b); }
    assert c[1..] == b && c[..1] == "/";
    SkipPlain(c);
  }

  lemma TailFound(s: string)
    requires s != "" && s[0] == '%' && SeparatorTail(s[1..])
    ensures HasEncodedSeparator(s)
  {
  }

  lemma UnstableDecode()
    ensures Decode("%25%32f") == Some("%2f")
  {
    assert "f"[1..] == "" && ['f'] + "" == "f";
    assert Decode("f") == Some("f");
    var t := "%32f";
    assert EscapedChar(t) == Some(('2', 3)) && t[3..] == "f" && ['2'] + "f" == "2f";
    assert Decode(t) == Some("2f");
    var s := "%25%32f";
    assert EscapedChar(s) == Some(('%', 3)) && s[3..] == t && ['%'] + "2f" == "%2f";
  }

  lemma UnstableEncode()
    ensures PathOf(["%2f"]) == "/%252f"
  {
    assert "%2f"[1..] == "2f" && "2f"[1..] == "f" && "f"[1..] == "";
    assert Bytes('%') == [37] && PercentAll([37]) == "%25" by { assert [37][1..] == []; }
    assert Encode("f") == "f" && Encode("2f") == "2f" && Encode("%2f") == "%252f";
    assert EncodeSegments(["%2f"]) == ["%252f"];
  }

  /** A normalised path has no empty segment and no trailing slash: it is normal for breadcrumbs. */
  lemma {:induction false} NormalizedIsNormal(nfc: string -> string, received: string)
    requires IsNfc(nfc) && Normalized(nfc, received).Ok?
    ensures Breadcrumbs.IsNormal(Normalized(nfc, received).value)
  {
    hide Split, Encode, Decode, Breadcrumbs.NonEmpty;
    SegmentsMean(nfc, Split(nfc(received), '/'));
    var decoded := Meaning(nfc, received).value;
    EncodedParts(decoded);
    var parts := EncodeSegments(decoded);
    SplitPath(parts);
    PartsStay(parts);
  }

  lemma {:induction false} PartsStay(parts: seq<string>)
    requires forall i :: 0 <= i < |parts| ==> parts[i] != ""
    ensures Breadcrumbs.NonEmpty([""] + parts) == parts && Breadcrumbs.NonEmpty([""] + [""]) == []
  {
    assert ([""] + parts)[1..] == parts && ([""] + [""])[1..] == [""] && [""][1..] == [];
    AllStay(parts);
  }

  lemma {:induction false} AllStay(parts: seq<string>)
    requires forall i :: 0 <= i < |parts| ==> parts[i] != ""
    ensures Breadcrumbs.NonEmpty(parts) == parts
  {
    if parts != [] {
      AllStay(parts[1..]);
    }
  }
}

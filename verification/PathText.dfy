/**
 The text of normalised pathnames, character by character: what stays as it is, what is escaped and
 how, which escapes are read, and which inputs are refused.
 */
module PathText {
  import opened Wrappers
  import opened PercentCoding
  import opened PathNormalization
  import opened Text

  // ---------- what stays as it is ----------

  /** Letters, digits, dash, underscore, dot and tilde (section 2.3 of RFC 3986). */
  predicate IsPlain(c: char) {
    'a' <= c <= 'z' || 'A' <= c <= 'Z' || '0' <= c <= '9' || c in ['-', '_', '.', '~']
  }

  predicate ArePlain(s: string) {
    forall i :: 0 <= i < |s| ==> IsPlain(s[i])
  }

  lemma PlainIsUnreserved()
    ensures forall c :: IsPlain(c) <==> Unreserved(c)
  {
  }

  lemma {:induction false} PlainEncodes(s: string)
    requires ArePlain(s)
    ensures Encode(s) == s
  {
    if s != "" {
      PlainIsUnreserved();
      PlainEncodes(s[1..]);
      assert s == [s[0]] + s[1..];
    }
  }

  /** A path of plain segments, none of them a dot segment, is its own normal form. */
  lemma {:induction false} PlainPathIsKept(nfc: string -> string, segments: seq<string>)
    requires IsNfc(nfc)
    requires forall i :: 0 <= i < |segments| ==>
      segments[i] != "" && segments[i] != "." && segments[i] != ".." && ArePlain(segments[i])
    ensures Normalized(nfc, "/" + Join(segments, '/')) == Ok("/" + Join(segments, '/'))
  {
    hide Encode, Decode, Join, Split, HasEncodedSeparator, Meaning;
    forall i | 0 <= i < |segments| ensures EncodeSegments(segments)[i] == segments[i] && nfc(segments[i]) == segments[i] {
      PlainEncodes(segments[i]);
      assert forall j :: 0 <= j < |segments[i]| ==> IsPlain(segments[i][j]) && segments[i][j] < 128 as char;
    }
    assert EncodeSegments(segments) == segments;
    var path := "/" + Join(segments, '/');
    assert path == PathOf(segments);
    PathReadsBack(nfc, segments);
    PathNotRefused(path);
    PlainIsUnreserved();
    PlainHasNoPercent(segments);
    assert '%' !in path;
    NoPercent(path);
  }

  lemma {:induction false} PlainHasNoPercent(segments: seq<string>)
    requires forall i :: 0 <= i < |segments| ==> ArePlain(segments[i])
    ensures '%' !in Join(segments, '/')
  {
    forall part | part in segments ensures '%' !in part {
      var i :| 0 <= i < |segments| && segments[i] == part;
      assert ArePlain(part);
    }
    JoinFree(segments, '/', '%');
  }

  // ---------- what is escaped, and how ----------

  predicate IsUpperHex(c: char) {
    '0' <= c <= '9' || 'A' <= c <= 'F'
  }

  function UpperHexValue(c: char): int
    requires IsUpperHex(c)
  {
    if c <= '9' then c as int - '0' as int else c as int - 'A' as int + 10
  }

  /** Plain characters, slashes, and escapes in upper case of bytes that are no plain character. */
  predicate IsEncodedText(s: string) {
    s == ""
    || ((IsPlain(s[0]) || s[0] == '/') && IsEncodedText(s[1..]))
    || (&& |s| >= 3 && s[0] == '%' && IsUpperHex(s[1]) && IsUpperHex(s[2])
        && !IsPlain((UpperHexValue(s[1]) * 16 + UpperHexValue(s[2])) as char) && IsEncodedText(s[3..]))
  }

  lemma HexIsUpper(n: nat)
    requires n < 16
    ensures IsUpperHex(HexDigit(n)) && UpperHexValue(HexDigit(n)) == n
  {
  }

  lemma {:induction false} PercentIsText(byte: nat, rest: string)
    requires byte < 256 && !IsPlain(byte as char) && IsEncodedText(rest)
    ensures IsEncodedText(Percent(byte) + rest)
  {
    HexIsUpper(byte / 16);
    HexIsUpper(byte % 16);
    var s := Percent(byte) + rest;
    assert s[0] == '%' && s[1] == HexDigit(byte / 16) && s[2] == HexDigit(byte % 16) && s[3..] == rest;
    assert byte / 16 * 16 + byte % 16 == byte;
  }

  lemma {:induction false} PercentAllIsText(bytes: seq<nat>, rest: string)
    requires forall i :: 0 <= i < |bytes| ==> bytes[i] < 256 && !IsPlain(bytes[i] as char)
    requires IsEncodedText(rest)
    ensures IsEncodedText(PercentAll(bytes) + rest)
  {
    hide Percent, IsEncodedText;
    if bytes == [] {
      assert PercentAll(bytes) + rest == rest;
    } else {
      PercentAllIsText(bytes[1..], rest);
      PercentIsText(bytes[0], PercentAll(bytes[1..]) + rest);
      assert PercentAll(bytes) + rest == Percent(bytes[0]) + (PercentAll(bytes[1..]) + rest);
    }
  }

  lemma {:induction false} BytesAreNotPlain(c: char)
    requires !IsPlain(c)
    ensures forall i :: 0 <= i < |Bytes(c)| ==> !IsPlain(Bytes(c)[i] as char)
  {
    assert forall i :: 0 <= i < |Bytes(c)| ==> Bytes(c)[i] >= 0x80 || Bytes(c)[i] == c as int;
  }

  lemma {:induction false} EncodeIsText(s: string, rest: string)
    requires IsEncodedText(rest)
    ensures IsEncodedText(Encode(s) + rest)
  {
    hide PercentAll, Bytes, IsPlain;
    if s == "" {
      assert Encode(s) + rest == rest;
    } else {
      EncodeIsText(s[1..], rest);
      PlainIsUnreserved();
      var more := Encode(s[1..]) + rest;
      assert Encode(s) + rest == EncodeChar(s[0]) + more;
      if IsPlain(s[0]) {
        assert ([s[0]] + more)[0] == s[0] && ([s[0]] + more)[1..] == more;
      } else {
        BytesAreNotPlain(s[0]);
        PercentAllIsText(Bytes(s[0]), more);
      }
    }
  }

  lemma {:induction false} PathIsText(decoded: seq<string>)
    ensures IsEncodedText(Join(EncodeSegments(decoded), '/'))
  {
    hide Encode, IsPlain;
    if |decoded| == 1 {
      EncodeIsText(decoded[0], "");
      assert Encode(decoded[0]) + "" == Encode(decoded[0]);
    } else if |decoded| > 1 {
      PathIsText(decoded[1..]);
      var more := Join(EncodeSegments(decoded[1..]), '/');
      var slash := ['/'] + more;
      assert slash[0] == '/' && slash[1..] == more;
      EncodeIsText(decoded[0], slash);
      assert EncodeSegments(decoded)[1..] == EncodeSegments(decoded[1..]);
      assert Join(EncodeSegments(decoded), '/') == Encode(decoded[0]) + slash;
    }
  }

  /** Every output: plain characters, slashes and upper-case escapes of everything else, the first a slash. */
  lemma {:induction false} OutputForm(nfc: string -> string, received: string)
    requires Normalized(nfc, received).Ok?
    ensures var path := Normalized(nfc, received).value; StartsWith(path, "/") && IsEncodedText(path)
  {
    hide Join, EncodeSegments, Refusal;
    var decoded := Meaning(nfc, received).value;
    PathIsText(decoded);
    var rest := Join(EncodeSegments(decoded), '/');
    assert ("/" + rest)[0] == '/' && ("/" + rest)[1..] == rest;
  }

  // ---------- which escapes are read ----------

  function HexDigitValue(c: char): int {
    if '0' <= c <= '9' then c as int - '0' as int
    else if 'a' <= c <= 'f' then c as int - 'a' as int + 10
    else if 'A' <= c <= 'F' then c as int - 'A' as int + 10
    else -1
  }

  /** An escape of this byte, its digits in either case. */
  predicate IsEscape(s: string, byte: int) {
    && |s| == 3 && s[0] == '%' && HexDigitValue(s[1]) >= 0 && HexDigitValue(s[2]) >= 0
    && HexDigitValue(s[1]) * 16 + HexDigitValue(s[2]) == byte
  }

  /** A continuation byte carrying six bits. */
  predicate IsContinuation(s: string, bits: int) {
    0 <= bits < 64 && IsEscape(s, 0x80 + bits)
  }

  /** The escaped UTF-8 form of a character, of the length its code asks for (section 3 of RFC 3629). */
  ghost predicate Escapes(s: string, c: char) {
    var n := c as int;
    if n < 0x80 then IsEscape(s, n)
    else if n < 0x800 then
      |s| == 6 && IsEscape(s[..3], 0xC0 + n / 64) && IsContinuation(s[3..], n % 64)
    else if n < 0x10000 then
      |s| == 9 && IsEscape(s[..3], 0xE0 + n / 4096) && IsContinuation(s[3..6], n / 64 % 64) && IsContinuation(s[6..], n % 64)
    else
      && |s| == 12 && IsEscape(s[..3], 0xF0 + n / 262144) && IsContinuation(s[3..6], n / 4096 % 64)
      && IsContinuation(s[6..9], n / 64 % 64) && IsContinuation(s[9..], n % 64)
  }

  /** `s` writes `t`: each character as itself, if it is no percent sign, or escaped. */
  ghost predicate Spells(s: string, t: string)
    decreases |t|
  {
    if t == "" then s == ""
    else
      || (s != "" && s[0] != '%' && s[0] == t[0] && Spells(s[1..], t[1..]))
      || exists k :: 0 <= k <= |s| && Escapes(s[..k], t[0]) && Spells(s[k..], t[1..])
  }

  lemma ByteAtExact(s: string, byte: nat)
    ensures ByteAt(s) == Some(byte) <==> |s| >= 3 && IsEscape(s[..3], byte)
  {
    if |s| >= 3 {
      assert s[..3][0] == s[0] && s[..3][1] == s[1] && s[..3][2] == s[2];
    }
  }

  lemma {:induction false} ContinuationExact(s: string, bits: nat)
    ensures Continuation(s) == Some(bits) <==> |s| >= 3 && IsContinuation(s[..3], bits)
  {
    hide ByteAt, IsEscape;
    ByteAtExact(s, 0x80 + bits);
    if ByteAt(s).Some? {
      ByteAtExact(s, ByteAt(s).value);
    }
  }

  lemma Digits(n: nat)
    ensures n / 4096 == n / 64 / 64 && n / 262144 == n / 64 / 64 / 64
    ensures n == n / 64 * 64 + n % 64
    ensures n / 64 == n / 64 / 64 * 64 + n / 64 % 64
    ensures n / 64 / 64 == n / 64 / 64 / 64 * 64 + n / 64 / 64 % 64
  {
  }

  lemma Parts(a: nat, b: nat)
    requires b < 64
    ensures (a * 64 + b) / 64 == a && (a * 64 + b) % 64 == b
  {
  }

  /** Of one escaped character: what is read is what was written. */
  lemma {:induction false} WrittenIsRead(s: string, k: nat, c: char)
    requires k <= |s| && Escapes(s[..k], c)
    ensures EscapedChar(s) == Some((c, k))
  {
    hide IsEscape, ByteAt, Continuation;
    var n := c as int;
    var e := s[..k];
    Digits(n);
    if n < 0x80 {
      assert k == 3 by { EscapeLength(e, n); }
      ByteAtExact(s, n);
    } else {
      assert e[..3] == s[..3];
      if n < 0x800 {
        assert e[3..] == s[3..][..3];
        ByteAtExact(s, 0xC0 + n / 64);
        ContinuationExact(s[3..], n % 64);
      } else if n < 0x10000 {
        assert e[3..6] == s[3..][..3] && e[6..] == s[6..][..3];
        ByteAtExact(s, 0xE0 + n / 4096);
        ContinuationExact(s[3..], n / 64 % 64);
        ContinuationExact(s[6..], n % 64);
      } else {
        assert e[3..6] == s[3..][..3] && e[6..9] == s[6..][..3] && e[9..] == s[9..][..3];
        ByteAtExact(s, 0xF0 + n / 262144);
        ContinuationExact(s[3..], n / 4096 % 64);
        ContinuationExact(s[6..], n / 64 % 64);
        ContinuationExact(s[9..], n % 64);
      }
    }
  }

  lemma EscapeLength(s: string, byte: int)
    requires IsEscape(s, byte)
    ensures |s| == 3
  {
  }

  lemma {:induction false} ReadIsWritten(s: string)
    requires EscapedChar(s).Some?
    ensures var (c, k) := EscapedChar(s).value; k <= |s| && Escapes(s[..k], c)
  {
    hide IsEscape, ByteAt, Continuation;
    var (c, k) := EscapedChar(s).value;
    var byte := ByteAt(s).value;
    var e := s[..k];
    ByteAtExact(s, byte);
    if byte >= 0x80 {
      assert e[..3] == s[..3];
      var b := Continuation(s[3..]).value;
      ContinuationExact(s[3..], b);
      assert e[3..][..3] == s[3..][..3];
      if byte < 0xE0 {
        Parts(byte - 0xC0, b);
        assert e[3..] == s[3..][..3];
      } else {
        var d := Continuation(s[6..]).value;
        ContinuationExact(s[6..], d);
        if byte < 0xF0 {
          Parts(byte - 0xE0, b);
          Parts((byte - 0xE0) * 64 + b, d);
          Digits(c as int);
          assert e[3..6] == s[3..][..3] && e[6..] == s[6..][..3];
        } else {
          var f := Continuation(s[9..]).value;
          ContinuationExact(s[9..], f);
          Parts(byte - 0xF0, b);
          Parts((byte - 0xF0) * 64 + b, d);
          Parts(((byte - 0xF0) * 64 + b) * 64 + d, f);
          Digits(c as int);
          assert e[3..6] == s[3..][..3] && e[6..9] == s[6..][..3] && e[9..] == s[9..][..3];
        }
      }
    }
  }

  lemma {:induction false} SpelledIsDecoded(s: string, t: string)
    requires Spells(s, t)
    ensures Decode(s) == Some(t)
    decreases |t|
  {
    hide Escapes, EscapedChar;
    if t != "" {
      assert t == [t[0]] + t[1..];
      if s != "" && s[0] != '%' && s[0] == t[0] && Spells(s[1..], t[1..]) {
        SpelledIsDecoded(s[1..], t[1..]);
      } else {
        var k :| 0 <= k <= |s| && Escapes(s[..k], t[0]) && Spells(s[k..], t[1..]);
        WrittenIsRead(s, k, t[0]);
        EscapeStartsWithPercent(s, k, t[0]);
        SpelledIsDecoded(s[k..], t[1..]);
      }
    }
  }

  lemma EscapeStartsWithPercent(s: string, k: nat, c: char)
    requires k <= |s| && Escapes(s[..k], c)
    ensures s != "" && s[0] == '%'
  {
    var e := s[..k];
    assert e != "" && e[0] == s[0];
    assert |e| > 3 ==> e[..3][0] == e[0];
  }

  lemma {:induction false} DecodedIsSpelled(s: string)
    requires Decode(s).Some?
    ensures Spells(s, Decode(s).value)
    decreases |s|
  {
    hide Escapes, EscapedChar;
    if s != "" {
      var t := Decode(s).value;
      if s[0] != '%' {
        DecodedIsSpelled(s[1..]);
        assert t[1..] == Decode(s[1..]).value;
      } else {
        var (c, k) := EscapedChar(s).value;
        ReadIsWritten(s);
        DecodedIsSpelled(s[k..]);
        assert t[0] == c && t[1..] == Decode(s[k..]).value;
      }
    }
  }

  /** What decoding reads is exactly what can be written with escapes of well-formed UTF-8. */
  lemma {:induction false} DecodeExact(s: string, t: string)
    ensures Decode(s) == Some(t) <==> Spells(s, t)
  {
    hide Decode, Spells;
    if Spells(s, t) {
      SpelledIsDecoded(s, t);
    }
    if Decode(s) == Some(t) {
      DecodedIsSpelled(s);
    }
  }

  // ---------- which inputs are refused ----------

  /** `%`, any number of `25`, then `2f` or `5c` in either case. */
  ghost predicate SeparatorAt(s: string, i: nat) {
    i < |s| && s[i] == '%' && IsTail(s[i + 1..])
  }

  ghost predicate IsTail(s: string) {
    exists n: nat :: TailOf(s, n)
  }

  predicate TailOf(s: string, n: nat) {
    && |s| >= 2 * n + 2
    && (forall j :: 0 <= j < n ==> s[2 * j] == '2' && s[2 * j + 1] == '5')
    && s[2 * n..2 * n + 2] in ["2f", "2F", "5c", "5C"]
  }

  lemma {:induction false} TailExact(s: string)
    ensures SeparatorTail(s) <==> IsTail(s)
    decreases |s|
  {
    if |s| >= 2 {
      assert s[..2] == [s[0], s[1]];
      if s[0] == '2' && s[1] == '5' {
        TailExact(s[2..]);
        if n: nat :| TailOf(s[2..], n) {
          assert s[2..][2 * n..2 * n + 2] == s[2 * (n + 1)..2 * (n + 1) + 2];
          forall j | 0 <= j < n + 1 ensures s[2 * j] == '2' && s[2 * j + 1] == '5' {
            assert j > 0 ==> s[2 * j] == s[2..][2 * (j - 1)] && s[2 * j + 1] == s[2..][2 * (j - 1) + 1];
          }
          assert TailOf(s, n + 1);
        }
        if n: nat :| TailOf(s, n) {
          assert n > 0;
          assert s[2..][2 * (n - 1)..2 * (n - 1) + 2] == s[2 * n..2 * n + 2];
          forall j | 0 <= j < n - 1 ensures s[2..][2 * j] == '2' && s[2..][2 * j + 1] == '5' {
            assert s[2..][2 * j] == s[2 * (j + 1)] && s[2..][2 * j + 1] == s[2 * (j + 1) + 1];
          }
          assert TailOf(s[2..], n - 1);
        }
      } else {
        assert SeparatorTail(s) ==> TailOf(s, 0);
        assert s[0] == s[2 * 0] && s[1] == s[2 * 0 + 1];
      }
    }
  }

  lemma {:induction false} SeparatorExact(s: string)
    ensures HasEncodedSeparator(s) <==> exists i: nat :: SeparatorAt(s, i)
  {
    if s != "" {
      SeparatorExact(s[1..]);
      TailExact(s[1..]);
      if i: nat :| SeparatorAt(s[1..], i) {
        assert s[1..][i + 1..] == s[i + 2..];
        assert SeparatorAt(s, i + 1);
      }
      if i: nat :| SeparatorAt(s, i) {
        if i > 0 {
          assert s[1..][i - 1 + 1..] == s[i + 1..];
          assert SeparatorAt(s[1..], i - 1);
        }
      }
      if s[0] == '%' && SeparatorTail(s[1..]) {
        assert SeparatorAt(s, 0);
      }
    }
  }

  /** A segment that can be read, and is not a dot segment once it is. */
  ghost predicate IsSegment(nfc: string -> string, s: string) {
    exists t :: Spells(s, t) && nfc(t) != "." && nfc(t) != ".."
  }

  lemma {:induction false} SegmentExact(nfc: string -> string, s: string)
    ensures DecodedSegment(nfc, s).Some? <==> IsSegment(nfc, s)
  {
    hide Decode, Spells;
    if IsSegment(nfc, s) {
      var t :| Spells(s, t) && nfc(t) != "." && nfc(t) != "..";
      DecodeExact(s, t);
    }
    if Decode(s).Some? {
      DecodeExact(s, Decode(s).value);
    }
  }

  lemma {:induction false} SegmentsExact(nfc: string -> string, segments: seq<string>)
    ensures DecodedSegments(nfc, segments).Some?
       <==> forall i :: 0 <= i < |segments| && segments[i] != "" ==> IsSegment(nfc, segments[i])
  {
    hide DecodedSegment, IsSegment;
    if segments != [] {
      SegmentsExact(nfc, segments[1..]);
      SegmentExact(nfc, segments[0]);
      assert forall i :: 0 < i < |segments| ==> segments[i] == segments[1..][i - 1];
    }
  }

  /** Exactly which inputs are normalised, and with which error each other one is refused. */
  lemma {:induction false} RefusedExactly(nfc: string -> string, received: string)
    ensures var result := Normalized(nfc, received);
      if received == "" || received[0] != '/' || '\\' in received then result == Err(InvalidPathname)
      else if '?' in received || '#' in received then result == Err(QueryOrFragment)
      else if exists i: nat :: SeparatorAt(received, i) then result == Err(EncodedSeparatorAmbiguous)
      else if exists s :: s in Split(nfc(received), '/') && s != "" && !IsSegment(nfc, s) then result == Err(InvalidPathname)
      else result.Ok?
  {
    hide HasEncodedSeparator, DecodedSegments, PathOf, Split, IsSegment, SeparatorAt;
    SeparatorExact(received);
    var segments := Split(nfc(received), '/');
    SegmentsExact(nfc, segments);
    assert received != "" ==> (StartsWith(received, "/") <==> received[0] == '/');
  }
}

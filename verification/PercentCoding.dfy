/** Percent-encoding of the UTF-8 bytes of a string (sections 2.1 and 2.3 of RFC 3986), and its inverse. */
module PercentCoding {
  import opened Wrappers

  predicate Unreserved(c: char) {
    'a' <= c <= 'z' || 'A' <= c <= 'Z' || '0' <= c <= '9' || c == '-' || c == '_' || c == '.' || c == '~'
  }

  // ---------- hexadecimal ----------

  function HexDigit(n: nat): (c: char)
    requires n < 16
    ensures '0' <= c <= '9' || 'A' <= c <= 'F'
    ensures HexValue(c) == Some(n)
  {
    if n < 10 then ('0' as int + n) as char else ('A' as int + n - 10) as char
  }

  function HexValue(c: char): (r: Option<nat>)
    ensures r.Some? ==> r.value < 16
  {
    if '0' <= c <= '9' then Some((c as int - '0' as int) as nat)
    else if 'A' <= c <= 'F' then Some((c as int - 'A' as int + 10) as nat)
    else if 'a' <= c <= 'f' then Some((c as int - 'a' as int + 10) as nat)
    else None
  }

  function Percent(byte: nat): (s: string)
    requires byte < 256
    ensures |s| == 3
  {
    ['%', HexDigit(byte / 16), HexDigit(byte % 16)]
  }

  /** The byte of an escape at the head of the string. */
  function ByteAt(s: string): (r: Option<nat>)
    ensures r.Some? ==> r.value < 256 && |s| >= 3
  {
    if |s| < 3 || s[0] != '%' then None
    else match (HexValue(s[1]), HexValue(s[2]))
      case (Some(high), Some(low)) => Some(high * 16 + low)
      case _ => None
  }

  lemma ByteRead(byte: nat, rest: string)
    requires byte < 256
    ensures ByteAt(Percent(byte) + rest) == Some(byte)
    ensures (Percent(byte) + rest)[3..] == rest
  {
    var s := Percent(byte) + rest;
    assert s[0] == '%' && s[1] == HexDigit(byte / 16) && s[2] == HexDigit(byte % 16);
    assert byte / 16 * 16 + byte % 16 == byte;
  }

  // ---------- UTF-8 ----------

  function Bytes(c: char): (r: seq<nat>)
    ensures forall i :: 0 <= i < |r| ==> r[i] < 256
    ensures 1 <= |r| <= 4
  {
    var n := c as nat;
    if n < 0x80 then [n]
    else if n < 0x800 then [0xC0 + n / 64, 0x80 + n % 64]
    else if n < 0x10000 then [0xE0 + n / 64 / 64, 0x80 + n / 64 % 64, 0x80 + n % 64]
    else [0xF0 + n / 64 / 64 / 64, 0x80 + n / 64 / 64 % 64, 0x80 + n / 64 % 64, 0x80 + n % 64]
  }

  function PercentAll(bytes: seq<nat>): string
    requires forall i :: 0 <= i < |bytes| ==> bytes[i] < 256
  {
    if bytes == [] then "" else Percent(bytes[0]) + PercentAll(bytes[1..])
  }

  function EncodeChar(c: char): (s: string)
    ensures s != ""
  {
    if Unreserved(c) then [c] else PercentAll(Bytes(c))
  }

  /** encodeURIComponent, with ! ' ( ) and * encoded as well. */
  function Encode(s: string): string {
    if s == "" then "" else EncodeChar(s[0]) + Encode(s[1..])
  }

  /** The value of an escaped continuation byte. */
  function Continuation(s: string): (r: Option<nat>)
    ensures r.Some? ==> r.value < 64 && |s| >= 3
  {
    match ByteAt(s)
    case Some(byte) => if 0x80 <= byte < 0xC0 then Some(byte - 0x80) else None
    case None => None
  }

  /** A Unicode scalar value of at least `least`: no overlong form, no surrogate. */
  function Scalar(n: nat, least: nat): Option<char> {
    if least <= n && (n < 0xD800 || 0xE000 <= n < 0x110000) then Some(n as char) else None
  }

  /** The first character of a string that starts with an escape, and how much of the string it takes. */
  function EscapedChar(s: string): (r: Option<(char, nat)>)
    ensures r.Some? ==> 0 < r.value.1 <= |s|
  {
    match ByteAt(s)
    case None => None
    case Some(byte) =>
      if byte < 0x80 then Some((byte as char, 3))
      else if 0xC0 <= byte < 0xE0 then
        (match Continuation(s[3..])
         case None => None
         case Some(b) =>
           match Scalar((byte - 0xC0) * 64 + b, 0x80)
           case None => None
           case Some(c) => Some((c, 6)))
      else if 0xE0 <= byte < 0xF0 then
        (match Continuation(s[3..])
         case None => None
         case Some(a) =>
           match Continuation(s[6..])
           case None => None
           case Some(b) =>
             match Scalar((byte - 0xE0) * 4096 + a * 64 + b, 0x800)
             case None => None
             case Some(c) => Some((c, 9)))
      else if 0xF0 <= byte < 0xF8 then
        (match Continuation(s[3..])
         case None => None
         case Some(a) =>
           match Continuation(s[6..])
           case None => None
           case Some(b) =>
             match Continuation(s[9..])
             case None => None
             case Some(d) =>
               match Scalar((byte - 0xF0) * 262144 + a * 4096 + b * 64 + d, 0x10000)
               case None => None
               case Some(c) => Some((c, 12)))
      else None
  }

  /** decodeURIComponent; None is a URIError. */
  function Decode(s: string): Option<string>
    decreases |s|
  {
    if s == "" then Some("")
    else if s[0] != '%' then
      (match Decode(s[1..])
       case None => None
       case Some(rest) => Some([s[0]] + rest))
    else
      match EscapedChar(s)
      case None => None
      case Some((c, n)) =>
        match Decode(s[n..])
        case None => None
        case Some(rest) => Some([c] + rest)
  }

  // ---------- decoding undoes encoding ----------

  lemma {:induction false} ContinuationRead(b: nat, rest: string)
    requires b < 64
    ensures Continuation(Percent(0x80 + b) + rest) == Some(b)
    ensures (Percent(0x80 + b) + rest)[3..] == rest
  {
    hide Percent, ByteAt;
    ByteRead(0x80 + b, rest);
  }

  lemma ScalarRead(c: char, least: nat)
    requires least <= c as nat
    ensures Scalar(c as nat, least) == Some(c)
  {
  }

  lemma {:induction false} TwoBytes(c: char, rest: string)
    requires 0x80 <= c as nat < 0x800
    ensures EscapedChar(PercentAll(Bytes(c)) + rest) == Some((c, 6)) && (PercentAll(Bytes(c)) + rest)[6..] == rest
  {
    hide Percent, ByteAt, Continuation, Scalar;
    var n := c as nat;
    var last := Percent(0x80 + n % 64) + rest;
    var s := Percent(0xC0 + n / 64) + last;
    BytesText2(c);
    assert PercentAll(Bytes(c)) + rest == s;
    ByteRead(0xC0 + n / 64, last);
    ContinuationRead(n % 64, rest);
    assert s[6..] == s[3..][3..];
    ScalarRead(c, 0x80);
    assert n / 64 * 64 + n % 64 == n;
  }

  lemma BytesText2(c: char)
    requires 0x80 <= c as nat < 0x800
    ensures PercentAll(Bytes(c)) == Percent(0xC0 + c as nat / 64) + Percent(0x80 + c as nat % 64)
  {
    hide Percent;
    var b := Bytes(c);
    assert b[1..][1..] == [] && b[1..][0] == b[1];
    assert PercentAll(b[1..]) == Percent(b[1]) + PercentAll(b[1..][1..]);
  }

  lemma {:induction false} ReadThree(x: nat, a: nat, b: nat, c: char, rest: string)
    requires x < 16 && a < 64 && b < 64 && Scalar(x * 4096 + a * 64 + b, 0x800) == Some(c)
    ensures var s := Percent(0xE0 + x) + (Percent(0x80 + a) + (Percent(0x80 + b) + rest));
      EscapedChar(s) == Some((c, 9)) && s[9..] == rest
  {
    hide Percent, ByteAt, Continuation, Scalar;
    var last := Percent(0x80 + b) + rest;
    var middle := Percent(0x80 + a) + last;
    var s := Percent(0xE0 + x) + middle;
    ByteRead(0xE0 + x, middle);
    ContinuationRead(a, last);
    ContinuationRead(b, rest);
    assert s[6..] == s[3..][3..] && s[9..] == s[6..][3..];
  }

  lemma {:induction false} ThreeBytes(c: char, rest: string)
    requires 0x800 <= c as nat < 0x10000
    ensures EscapedChar(PercentAll(Bytes(c)) + rest) == Some((c, 9)) && (PercentAll(Bytes(c)) + rest)[9..] == rest
  {
    hide Percent, EscapedChar, PercentAll, Bytes, Scalar;
    var n := c as nat;
    var x, a, b := n / 64 / 64, n / 64 % 64, n % 64;
    assert x * 4096 + a * 64 + b == n;
    ScalarRead(c, 0x800);
    ReadThree(x, a, b, c, rest);
    BytesText3(c);
    assert PercentAll(Bytes(c)) + rest == Percent(0xE0 + x) + (Percent(0x80 + a) + (Percent(0x80 + b) + rest));
  }

  lemma BytesText3(c: char)
    requires 0x800 <= c as nat < 0x10000
    ensures PercentAll(Bytes(c))
         == Percent(0xE0 + c as nat / 64 / 64) + (Percent(0x80 + c as nat / 64 % 64) + Percent(0x80 + c as nat % 64))
  {
    hide Percent;
    var b := Bytes(c);
    assert b[1..] == [b[1], b[2]] && b[1..][1..] == [b[2]] && b[1..][1..][1..] == [];
    assert PercentAll([b[2]]) == Percent(b[2]) + PercentAll([]);
    assert PercentAll(b[1..]) == Percent(b[1]) + PercentAll([b[2]]);
  }

  lemma {:induction false} ReadFour(x: nat, a: nat, b: nat, d: nat, c: char, rest: string)
    requires x < 8 && a < 64 && b < 64 && d < 64 && Scalar(x * 262144 + a * 4096 + b * 64 + d, 0x10000) == Some(c)
    ensures var s := Percent(0xF0 + x) + (Percent(0x80 + a) + (Percent(0x80 + b) + (Percent(0x80 + d) + rest)));
      EscapedChar(s) == Some((c, 12)) && s[12..] == rest
  {
    hide Percent, ByteAt, Continuation, Scalar;
    var last := Percent(0x80 + d) + rest;
    var third := Percent(0x80 + b) + last;
    var second := Percent(0x80 + a) + third;
    var s := Percent(0xF0 + x) + second;
    ByteRead(0xF0 + x, second);
    ContinuationRead(a, third);
    ContinuationRead(b, last);
    ContinuationRead(d, rest);
    assert s[6..] == s[3..][3..] && s[9..] == s[6..][3..] && s[12..] == s[9..][3..];
  }

  lemma FourDigits(n: nat)
    ensures n / 64 / 64 / 64 * 262144 + n / 64 / 64 % 64 * 4096 + n / 64 % 64 * 64 + n % 64 == n
  {
    var a := n / 64;
    var b := a / 64;
    assert n == a * 64 + n % 64 && a == b * 64 + a % 64 && b == b / 64 * 64 + b % 64;
  }

  lemma {:induction false} FourBytes(c: char, rest: string)
    requires 0x10000 <= c as nat
    ensures EscapedChar(PercentAll(Bytes(c)) + rest) == Some((c, 12)) && (PercentAll(Bytes(c)) + rest)[12..] == rest
  {
    hide Percent, EscapedChar, PercentAll, Bytes, Scalar;
    var n := c as nat;
    var x, a, b, d := n / 64 / 64 / 64, n / 64 / 64 % 64, n / 64 % 64, n % 64;
    FourDigits(n);
    ScalarRead(c, 0x10000);
    ReadFour(x, a, b, d, c, rest);
    BytesText4(c);
    assert PercentAll(Bytes(c)) + rest
        == Percent(0xF0 + x) + (Percent(0x80 + a) + (Percent(0x80 + b) + (Percent(0x80 + d) + rest)));
  }

  lemma BytesText4(c: char)
    requires 0x10000 <= c as nat
    ensures PercentAll(Bytes(c))
         == Percent(0xF0 + c as nat / 64 / 64 / 64)
            + (Percent(0x80 + c as nat / 64 / 64 % 64) + (Percent(0x80 + c as nat / 64 % 64) + Percent(0x80 + c as nat % 64)))
  {
    hide Percent;
    var b := Bytes(c);
    assert b[1..] == [b[1], b[2], b[3]] && b[1..][1..] == [b[2], b[3]] && b[1..][1..][1..] == [b[3]];
    assert [b[3]][1..] == [];
    assert PercentAll([b[3]]) == Percent(b[3]) + PercentAll([]);
    assert [b[2], b[3]][1..] == [b[3]];
    assert PercentAll([b[2], b[3]]) == Percent(b[2]) + PercentAll([b[3]]);
    assert [b[1], b[2], b[3]][1..] == [b[2], b[3]];
    assert PercentAll(b[1..]) == Percent(b[1]) + PercentAll([b[2], b[3]]);
  }

  lemma {:induction false} OneByte(c: char, rest: string)
    requires c as nat < 0x80
    ensures EscapedChar(PercentAll(Bytes(c)) + rest) == Some((c, 3)) && (PercentAll(Bytes(c)) + rest)[3..] == rest
  {
    hide Percent, ByteAt;
    assert Bytes(c)[1..] == [];
    assert PercentAll(Bytes(c)) == Percent(c as nat);
    ByteRead(c as nat, rest);
  }

  /** Every escaped character starts with a percent sign and reads back. */
  lemma {:induction false} CharReadsBack(c: char, rest: string)
    ensures Decode(EncodeChar(c) + rest) == match Decode(rest) case None => None case Some(more) => Some([c] + more)
  {
    hide EscapedChar, PercentAll, Bytes;
    var s := EncodeChar(c) + rest;
    if Unreserved(c) {
      assert s[0] == c && s[1..] == rest;
    } else {
      EscapeStarts(c);
      assert s[0] == '%';
      var n := c as nat;
      if n < 0x80 {
        OneByte(c, rest);
      } else if n < 0x800 {
        TwoBytes(c, rest);
      } else if n < 0x10000 {
        ThreeBytes(c, rest);
      } else {
        FourBytes(c, rest);
      }
    }
  }

  lemma EscapeStarts(c: char)
    ensures PercentAll(Bytes(c)) != "" && PercentAll(Bytes(c))[0] == '%'
  {
  }

  lemma {:induction false} DecodeEncode(s: string)
    ensures Decode(Encode(s)) == Some(s)
  {
    hide EncodeChar, Decode;
    if s == "" {
      DecodeNothing();
    } else {
      DecodeEncode(s[1..]);
      CharReadsBack(s[0], Encode(s[1..]));
      assert s == [s[0]] + s[1..];
    }
  }

  lemma DecodeNothing()
    ensures Decode("") == Some("")
  {
  }

  /** Different strings have different encodings. */
  lemma {:induction false} EncodeInjective(s: string, t: string)
    requires Encode(s) == Encode(t)
    ensures s == t
  {
    hide Encode, Decode;
    DecodeEncode(s);
    DecodeEncode(t);
  }

  // ---------- what encodings are made of ----------

  predicate IsEncodedChar(c: char) {
    Unreserved(c) || c == '%'
  }

  lemma {:induction false} PercentAllMade(bytes: seq<nat>)
    requires forall i :: 0 <= i < |bytes| ==> bytes[i] < 256
    ensures forall i :: 0 <= i < |PercentAll(bytes)| ==> IsEncodedChar(PercentAll(bytes)[i])
  {
    if bytes != [] {
      PercentAllMade(bytes[1..]);
    }
  }

  lemma {:induction false} EncodeMade(s: string)
    ensures forall i :: 0 <= i < |Encode(s)| ==> IsEncodedChar(Encode(s)[i])
    ensures s != "" ==> Encode(s) != ""
  {
    hide PercentAll, Bytes;
    if s != "" {
      EncodeMade(s[1..]);
      PercentAllMade(Bytes(s[0]));
    }
  }
}

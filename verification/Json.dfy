/**
 JavaScript data values and the two built-ins the repository prints and reads them with:
 JSON.stringify (no indentation) and JSON.parse, on the grammar of RFC 8259 with integer
 numbers. Objects keep the order in which their keys are enumerated.
 */
module Json {
  import opened Wrappers
  import opened Text

  datatype Value =
    | Undefined
    | Null
    | Bool(b: bool)
    | Num(n: int)
    | Str(s: string)
    | Arr(items: seq<Value>)
    | Obj(entries: seq<Entry>)

  datatype Entry = Entry(key: string, value: Value)

  /** `row[key]`: None when the key is not an own property. */
  function Get(entries: seq<Entry>, key: string): Option<Value> {
    if entries == [] then None
    else if entries[0].key == key then Some(entries[0].value)
    else Get(entries[1..], key)
  }

  predicate DistinctKeys(entries: seq<Entry>) {
    forall i, j :: 0 <= i < j < |entries| ==> entries[i].key != entries[j].key
  }

  /** A value that JSON can carry: nothing undefined inside, no key twice in one object. */
  predicate IsJson(v: Value)
    decreases v
  {
    match v
    case Undefined => false
    case Arr(items) => forall x | x in items :: IsJson(x)
    case Obj(entries) => DistinctKeys(entries) && forall e | e in entries :: IsJson(e.value)
    case _ => true
  }

  lemma {:induction false} GetIs(entries: seq<Entry>, i: nat)
    requires DistinctKeys(entries) && i < |entries|
    ensures Get(entries, entries[i].key) == Some(entries[i].value)
  {
    if i > 0 {
      assert entries[0].key != entries[i].key;
      GetIs(entries[1..], i - 1);
    }
  }

  lemma {:induction false} GetSome(entries: seq<Entry>, key: string) returns (i: nat)
    requires Get(entries, key).Some?
    ensures i < |entries| && entries[i] == Entry(key, Get(entries, key).value)
  {
    if entries[0].key == key {
      i := 0;
    } else {
      var j := GetSome(entries[1..], key);
      i := j + 1;
    }
  }

  lemma {:induction false} GetNone(entries: seq<Entry>, key: string)
    requires Get(entries, key).None?
    ensures forall e | e in entries :: e.key != key
  {
    if entries != [] {
      GetNone(entries[1..], key);
      assert entries == [entries[0]] + entries[1..];
    }
  }

  lemma {:induction false} GetAbsent(entries: seq<Entry>, key: string)
    requires forall e | e in entries :: e.key != key
    ensures Get(entries, key).None?
  {
    if entries != [] {
      assert entries[0] in entries;
      GetAbsent(entries[1..], key);
    }
  }

  // ---------- JSON.stringify ----------

  function HexDigit(d: nat): (c: char)
    requires d < 16
  {
    if d < 10 then DigitChar(d) else (d - 10 + 'a' as int) as char
  }

  function Escape(c: char): (t: string)
    ensures t != ""
  {
    if c == '\"' then ['\\', '\"']
    else if c == '\\' then ['\\', '\\']
    else if c == '\n' then ['\\', 'n']
    else if c == '\r' then ['\\', 'r']
    else if c == '\t' then ['\\', 't']
    else if c as int == 8 then ['\\', 'b']
    else if c as int == 12 then ['\\', 'f']
    else if c as int < 0x20 then ['\\', 'u', '0', '0', HexDigit(c as int / 16), HexDigit(c as int % 16)]
    else [c]
  }

  function EscapeAll(s: string): string {
    if s == "" then "" else Escape(s[0]) + EscapeAll(s[1..])
  }

  function Quote(s: string): string {
    ['\"'] + EscapeAll(s) + ['\"']
  }

  function IntText(n: int): (t: string)
    ensures t != ""
  {
    if n < 0 then ['-'] + NatText(-n) else NatText(n)
  }

  /** An undefined array slot prints as `null`; an undefined property is skipped. */
  function Stringify(v: Value): string
    decreases v, 1
  {
    match v
    case Undefined => "null"
    case Null => "null"
    case Bool(b) => if b then "true" else "false"
    case Num(n) => IntText(n)
    case Str(s) => Quote(s)
    case Arr(items) => ['['] + Join(ElementTexts(items), ',') + [']']
    case Obj(entries) => ['{'] + Join(MemberTexts(entries), ',') + ['}']
  }

  function ElementTexts(items: seq<Value>): (texts: seq<string>)
    ensures |texts| == |items|
    decreases items, 0
  {
    if items == [] then [] else [Stringify(items[0])] + ElementTexts(items[1..])
  }

  function MemberTexts(entries: seq<Entry>): (texts: seq<string>)
    ensures |texts| <= |entries|
    decreases entries, 0
  {
    if entries == [] then []
    else if entries[0].value == Undefined then MemberTexts(entries[1..])
    else [Quote(entries[0].key) + [':'] + Stringify(entries[0].value)] + MemberTexts(entries[1..])
  }

  // ---------- JSON.parse ----------

  predicate IsWhitespace(c: char) {
    c == ' ' || c == '\t' || c == '\n' || c == '\r'
  }

  function SkipWhitespace(s: string): (t: string)
    ensures |t| <= |s|
    ensures t != "" ==> !IsWhitespace(t[0])
  {
    s[Run(s, IsWhitespace)..]
  }

  function HexValue(c: char): Option<nat> {
    if IsDigit(c) then Some(DigitValue(c))
    else if 'a' <= c <= 'f' then Some((c as int - 'a' as int + 10) as nat)
    else if 'A' <= c <= 'F' then Some((c as int - 'A' as int + 10) as nat)
    else None
  }

  function Hex4(s: string): (r: Option<nat>)
    ensures r.Some? ==> |s| >= 4 && r.value < 0x10000
  {
    if |s| < 4 then None
    else
      var a :- HexValue(s[0]);
      var b :- HexValue(s[1]);
      var c :- HexValue(s[2]);
      var d :- HexValue(s[3]);
      if a < 16 && b < 16 && c < 16 && d < 16 then Some(((a * 16 + b) * 16 + c) * 16 + d) else None
  }

  /** The character of a `\u` escape (the part after `\u`) and what follows it; a surrogate pair
      is one character. */
  function UnicodeEscape(s: string): (r: Option<(char, string)>)
    ensures r.Some? ==> |r.value.1| < |s|
  {
    var unit :- Hex4(s);
    if unit < 0xD800 || 0xE000 <= unit then Some((unit as char, s[4..]))
    else if unit < 0xDC00 && |s| >= 6 && s[4] == '\\' && s[5] == 'u' then
      var low :- Hex4(s[6..]);
      if 0xDC00 <= low < 0xE000
      then Some(((0x10000 + (unit - 0xD800) * 0x400 + (low - 0xDC00)) as char, s[10..]))
      else None
    else None
  }

  /** The escape after a backslash. */
  function ParseEscape(s: string): (r: Option<(char, string)>)
    ensures r.Some? ==> |r.value.1| < |s|
  {
    if s == "" then None
    else if s[0] == '\"' || s[0] == '\\' || s[0] == '/' then Some((s[0], s[1..]))
    else if s[0] == 'b' then Some((8 as char, s[1..]))
    else if s[0] == 'f' then Some((12 as char, s[1..]))
    else if s[0] == 'n' then Some(('\n', s[1..]))
    else if s[0] == 'r' then Some(('\r', s[1..]))
    else if s[0] == 't' then Some(('\t', s[1..]))
    else if s[0] == 'u' then UnicodeEscape(s[1..])
    else None
  }

  /** The characters of a string literal after its opening quote, and what follows the closing one. */
  function ParseChars(s: string): (r: Option<(string, string)>)
    ensures r.Some? ==> |r.value.1| < |s|
    decreases |s|
  {
    if s == "" then None
    else if s[0] == '\"' then Some(("", s[1..]))
    else if s[0] == '\\' then
      var (c, rest) :- ParseEscape(s[1..]);
      var (more, end) :- ParseChars(rest);
      Some(([c] + more, end))
    else if s[0] as int < 0x20 then None
    else
      var (more, end) :- ParseChars(s[1..]);
      Some(([s[0]] + more, end))
  }

  function ParseNat(s: string): (r: Option<(nat, string)>)
    ensures r.Some? ==> |r.value.1| < |s|
  {
    var k := Run(s, IsDigit);
    if k == 0 || (k > 1 && s[0] == '0') then None
    else if k < |s| && (s[k] == '.' || s[k] == 'e' || s[k] == 'E') then None
    else Some((NatValue(s[..k]), s[k..]))
  }

  function ParseNumber(s: string): (r: Option<(Value, string)>)
    ensures r.Some? ==> |r.value.1| < |s|
  {
    if s != "" && s[0] == '-' then
      var (n, rest) :- ParseNat(s[1..]);
      Some((Num(0 - n), rest))
    else
      var (n, rest) :- ParseNat(s);
      Some((Num(n), rest))
  }

  function ParseLiteral(s: string, word: string, v: Value): (r: Option<(Value, string)>)
    requires word != ""
    ensures r.Some? ==> |r.value.1| < |s|
  {
    if StartsWith(s, word) then Some((v, s[|word|..])) else None
  }

  function RemoveKey(entries: seq<Entry>, key: string): seq<Entry> {
    if entries == [] then []
    else if entries[0].key == key then RemoveKey(entries[1..], key)
    else [entries[0]] + RemoveKey(entries[1..], key)
  }

  /** A repeated key keeps its first position and takes its last value. */
  function PutFirst(key: string, v: Value, later: seq<Entry>): seq<Entry> {
    match Get(later, key)
    case None => [Entry(key, v)] + later
    case Some(last) => [Entry(key, last)] + RemoveKey(later, key)
  }

  function ParseValue(s: string): (r: Option<(Value, string)>)
    ensures r.Some? ==> |r.value.1| < |s|
    decreases |s|, 0
  {
    var t := SkipWhitespace(s);
    if t == "" then None
    else if t[0] == 'n' then ParseLiteral(t, "null", Null)
    else if t[0] == 't' then ParseLiteral(t, "true", Bool(true))
    else if t[0] == 'f' then ParseLiteral(t, "false", Bool(false))
    else if t[0] == '\"' then
      var (str, rest) :- ParseChars(t[1..]);
      Some((Str(str), rest))
    else if t[0] == '[' then
      var u := SkipWhitespace(t[1..]);
      if u != "" && u[0] == ']' then Some((Arr([]), u[1..]))
      else
        var (items, rest) :- ParseItems(t[1..]);
        Some((Arr(items), rest))
    else if t[0] == '{' then
      var u := SkipWhitespace(t[1..]);
      if u != "" && u[0] == '}' then Some((Obj([]), u[1..]))
      else
        var (entries, rest) :- ParseMembers(t[1..]);
        Some((Obj(entries), rest))
    else ParseNumber(t)
  }

  function ParseItems(s: string): (r: Option<(seq<Value>, string)>)
    ensures r.Some? ==> |r.value.1| < |s|
    decreases |s|, 1
  {
    var (v, rest) :- ParseValue(s);
    var t := SkipWhitespace(rest);
    if t == "" then None
    else if t[0] == ']' then Some(([v], t[1..]))
    else if t[0] == ',' then
      var (more, end) :- ParseItems(t[1..]);
      Some(([v] + more, end))
    else None
  }

  function ParseMembers(s: string): (r: Option<(seq<Entry>, string)>)
    ensures r.Some? ==> |r.value.1| < |s|
    decreases |s|, 1
  {
    var t := SkipWhitespace(s);
    if t == "" || t[0] != '\"' then None
    else
      var (key, afterKey) :- ParseChars(t[1..]);
      var u := SkipWhitespace(afterKey);
      if u == "" || u[0] != ':' then None
      else
        var (v, rest) :- ParseValue(u[1..]);
        var w := SkipWhitespace(rest);
        if w == "" then None
        else if w[0] == '}' then Some(([Entry(key, v)], w[1..]))
        else if w[0] == ',' then
          var (more, end) :- ParseMembers(w[1..]);
          Some((PutFirst(key, v, more), end))
        else None
  }

  /** JSON.parse: None is the SyntaxError. */
  function Parse(s: string): Option<Value> {
    var (v, rest) :- ParseValue(s);
    if SkipWhitespace(rest) == "" then Some(v) else None
  }

  // ---------- what is printed is read back ----------

  lemma {:induction false} NoSkip(s: string)
    requires s != "" ==> !IsWhitespace(s[0])
    ensures SkipWhitespace(s) == s
  {
    RunIs(s, IsWhitespace, 0);
  }

  lemma {:induction false} HexDigitValue(d: nat)
    requires d < 16
    ensures HexValue(HexDigit(d)) == Some(d)
  {
  }

  lemma {:induction false} EscapeRead(c: char, rest: string)
    requires Escape(c)[0] == '\\'
    ensures ParseEscape(Escape(c)[1..] + rest) == Some((c, rest))
  {
    var e := Escape(c);
    var t := e[1..] + rest;
    if |e| == 2 {
      assert t[1..] == rest && t[0] == e[1];
    } else {
      HexDigitValue(c as int / 16);
      HexDigitValue(c as int % 16);
      var u := t[1..];
      assert u[0] == '0' && u[1] == '0' && u[2] == e[4] && u[3] == e[5] && u[4..] == rest;
      assert Hex4(u) == Some(c as int);
    }
  }

  lemma {:induction false} CharsRead(s: string, rest: string)
    ensures ParseChars(EscapeAll(s) + ['\"'] + rest) == Some((s, rest))
  {
    hide ParseEscape;
    var t := EscapeAll(s) + ['\"'] + rest;
    if s == "" {
      assert t[0] == '\"' && t[1..] == rest;
    } else {
      var e, more := Escape(s[0]), EscapeAll(s[1..]) + ['\"'] + rest;
      CharsRead(s[1..], rest);
      assert t == e + more;
      if e[0] == '\\' {
        assert t[1..] == e[1..] + more;
        EscapeRead(s[0], more);
      } else {
        assert t[1..] == more && t[0] == s[0];
      }
      assert [s[0]] + s[1..] == s;
    }
  }

  /** What may follow a printed value. */
  predicate Ends(rest: string) {
    rest == "" || rest[0] == ',' || rest[0] == ']' || rest[0] == '}'
  }

  lemma {:induction false} NatRead(n: nat, rest: string)
    requires Ends(rest)
    ensures ParseNat(NatText(n) + rest) == Some((n, rest))
  {
    var t := NatText(n);
    NatTextValue(n);
    RunStops(t, rest, IsDigit);
    assert (t + rest)[..|t|] == t && (t + rest)[|t|..] == rest;
  }

  lemma {:induction false} NegativeRead(n: nat, rest: string)
    requires Ends(rest)
    ensures ParseNumber(['-'] + (NatText(n) + rest)) == Some((Num(0 - n), rest))
  {
    NatRead(n, rest);
    assert (['-'] + (NatText(n) + rest))[1..] == NatText(n) + rest;
  }

  lemma {:induction false} IntRead(n: int, rest: string)
    requires Ends(rest)
    ensures ParseNumber(IntText(n) + rest) == Some((Num(n), rest))
  {
    hide ParseNat, NatText;
    if n < 0 {
      NegativeRead(-n, rest);
      assert IntText(n) + rest == ['-'] + (NatText(-n) + rest);
    } else {
      NatRead(n, rest);
      assert (NatText(n) + rest)[0] == NatText(n)[0];
    }
  }

  /** The first character of a printed value says what kind of value follows. */
  lemma {:induction false} HeadOf(v: Value)
    ensures Stringify(v) != "" && !IsWhitespace(Stringify(v)[0]) && Stringify(v)[0] != ']'
    ensures v.Num? ==> Stringify(v)[0] == '-' || IsDigit(Stringify(v)[0])
  {
    if v.Num? {
      assert IsDigit(NatText(if v.n < 0 then -v.n else v.n)[0]);
    }
  }

  lemma {:induction false} LiteralRead(word: string, v: Value, rest: string)
    requires (word, v) in {("null", Null), ("true", Bool(true)), ("false", Bool(false))}
    ensures ParseValue(word + rest) == Some((v, rest))
  {
    var t := word + rest;
    NoSkip(t);
    assert t[..|word|] == word && t[|word|..] == rest && t[0] == word[0];
  }

  lemma {:induction false} NumberRead(n: int, rest: string)
    requires Ends(rest)
    ensures ParseValue(IntText(n) + rest) == Some((Num(n), rest))
  {
    var t := IntText(n) + rest;
    IntRead(n, rest);
    HeadOf(Num(n));
    assert t[0] == IntText(n)[0];
    NoSkip(t);
  }

  lemma {:induction false} StringRead(s: string, rest: string)
    ensures ParseValue(Quote(s) + rest) == Some((Str(s), rest))
  {
    hide Run, ParseItems, ParseMembers, ParseChars, ParseNumber, SkipWhitespace, EscapeAll;
    var t := Quote(s) + rest;
    NoSkip(t);
    assert t[1..] == EscapeAll(s) + ['\"'] + rest;
    CharsRead(s, rest);
  }

  lemma {:induction false} ArrayRead(inner: string, items: seq<Value>, rest: string)
    requires SkipWhitespace(inner) == inner && inner != "" && inner[0] != ']'
    requires ParseItems(inner) == Some((items, rest))
    ensures ParseValue(['['] + inner) == Some((Arr(items), rest))
  {
    hide Run, ParseItems, ParseMembers, ParseChars, ParseNumber, SkipWhitespace;
    var t := ['['] + inner;
    NoSkip(t);
    assert t[1..] == inner;
  }

  lemma {:induction false} ObjectRead(inner: string, entries: seq<Entry>, rest: string)
    requires SkipWhitespace(inner) == inner && inner != "" && inner[0] != '}'
    requires ParseMembers(inner) == Some((entries, rest))
    ensures ParseValue(['{'] + inner) == Some((Obj(entries), rest))
  {
    hide Run, ParseItems, ParseMembers, ParseChars, ParseNumber, SkipWhitespace;
    var t := ['{'] + inner;
    NoSkip(t);
    assert t[1..] == inner;
  }

  lemma {:induction false} EmptyRead(rest: string)
    ensures ParseValue(['[', ']'] + rest) == Some((Arr([]), rest))
    ensures ParseValue(['{', '}'] + rest) == Some((Obj([]), rest))
  {
    hide Run, ParseItems, ParseMembers, ParseChars, ParseNumber, SkipWhitespace;
    var t, u := ['[', ']'] + rest, ['{', '}'] + rest;
    NoSkip(t);
    NoSkip(u);
    assert t[1..] == [']'] + rest && u[1..] == ['}'] + rest;
    NoSkip([']'] + rest);
    NoSkip(['}'] + rest);
    assert ([']'] + rest)[1..] == rest && (['}'] + rest)[1..] == rest;
  }

  lemma {:induction false} ScalarRead(v: Value, rest: string)
    requires IsJson(v) && Ends(rest) && !v.Arr? && !v.Obj?
    ensures ParseValue(Stringify(v) + rest) == Some((v, rest))
  {
    hide Run, ParseValue, ParseItems, ParseMembers, SkipWhitespace, EscapeAll, IntText;
    match v
    case Null => LiteralRead("null", v, rest);
    case Bool(b) => LiteralRead(if b then "true" else "false", v, rest);
    case Num(n) => NumberRead(n, rest);
    case Str(s) => StringRead(s, rest);
  }

  lemma {:induction false} ArrayReadBack(items: seq<Value>, rest: string)
    requires IsJson(Arr(items)) && Ends(rest)
    ensures ParseValue(Stringify(Arr(items)) + rest) == Some((Arr(items), rest))
    decreases items, 1
  {
    hide Run, ParseValue, ParseItems, ParseMembers, SkipWhitespace, ElementTexts;
    if items == [] {
      EmptyRead(rest);
      ArrayText(items);
    } else {
      var inner := Join(ElementTexts(items), ',') + ([']'] + rest);
      ItemsReadBack(items, rest);
      assert inner == Join(ElementTexts(items), ',') + [']'] + rest;
      ItemsHead(items, [']'] + rest);
      NoSkip(inner);
      ArrayRead(inner, items, rest);
      ArrayText(items);
      assert Stringify(Arr(items)) + rest == ['['] + inner;
    }
  }

  lemma ArrayText(items: seq<Value>)
    ensures Stringify(Arr(items)) == ['['] + Join(ElementTexts(items), ',') + [']']
    ensures items == [] ==> Stringify(Arr(items)) == ['[', ']']
  {
  }

  lemma {:induction false} ObjectReadBack(entries: seq<Entry>, rest: string)
    requires IsJson(Obj(entries)) && Ends(rest)
    ensures ParseValue(Stringify(Obj(entries)) + rest) == Some((Obj(entries), rest))
    decreases entries, 1
  {
    hide Run, ParseValue, ParseItems, ParseMembers, SkipWhitespace, MemberTexts;
    if entries == [] {
      EmptyRead(rest);
      ObjectText(entries);
    } else {
      var inner := Join(MemberTexts(entries), ',') + (['}'] + rest);
      MembersReadBack(entries, rest);
      assert inner == Join(MemberTexts(entries), ',') + ['}'] + rest;
      MembersHead(entries, ['}'] + rest);
      NoSkip(inner);
      ObjectRead(inner, entries, rest);
      ObjectText(entries);
      assert Stringify(Obj(entries)) + rest == ['{'] + inner;
    }
  }

  lemma ObjectText(entries: seq<Entry>)
    ensures Stringify(Obj(entries)) == ['{'] + Join(MemberTexts(entries), ',') + ['}']
    ensures entries == [] ==> Stringify(Obj(entries)) == ['{', '}']
  {
  }

  lemma {:induction false} ReadBack(v: Value, rest: string)
    requires IsJson(v) && Ends(rest)
    ensures ParseValue(Stringify(v) + rest) == Some((v, rest))
    decreases v, 1
  {
    hide ParseValue, Stringify, Ends;
    match v
    case Arr(items) => ArrayReadBack(items, rest);
    case Obj(entries) => ObjectReadBack(entries, rest);
    case _ => ScalarRead(v, rest);
  }

  lemma {:induction false} ItemsHead(items: seq<Value>, rest: string)
    requires items != []
    ensures
      var t := Join(ElementTexts(items), ',') + rest;
      t != "" && !IsWhitespace(t[0]) && t[0] != ']'
  {
    HeadOf(items[0]);
  }

  lemma {:induction false} MembersHead(entries: seq<Entry>, rest: string)
    requires entries != [] && entries[0].value != Undefined
    ensures
      var t := Join(MemberTexts(entries), ',') + rest;
      t != "" && t[0] == '\"'
  {
  }

  lemma {:induction false} ItemsReadBack(items: seq<Value>, rest: string)
    requires items != [] && forall x | x in items :: IsJson(x)
    ensures ParseItems(Join(ElementTexts(items), ',') + [']'] + rest) == Some((items, rest))
    decreases items, 0
  {
    hide Run, ParseValue, Stringify, SkipWhitespace;
    var head, texts := Stringify(items[0]), ElementTexts(items);
    var t := Join(texts, ',') + [']'] + rest;
    if |items| == 1 {
      var after := [']'] + rest;
      assert t == head + after;
      ReadBack(items[0], after);
      NoSkip(after);
      assert after[1..] == rest && items == [items[0]];
    } else {
      var more := Join(ElementTexts(items[1..]), ',') + [']'] + rest;
      var after := [','] + more;
      assert texts[1..] == ElementTexts(items[1..]);
      assert t == head + after;
      ReadBack(items[0], after);
      NoSkip(after);
      assert after[1..] == more && items == [items[0]] + items[1..];
      ItemsReadBack(items[1..], rest);
    }
  }

  lemma {:induction false} MembersReadBack(entries: seq<Entry>, rest: string)
    requires entries != [] && DistinctKeys(entries) && forall e | e in entries :: IsJson(e.value)
    ensures ParseMembers(Join(MemberTexts(entries), ',') + ['}'] + rest) == Some((entries, rest))
    decreases entries, 0
  {
    hide Run, ParseValue, ParseMembers, SkipWhitespace, Quote, Stringify, EscapeAll, Escape;
    var key, v := entries[0].key, entries[0].value;
    var texts := MemberTexts(entries);
    assert entries[0] in entries && v != Undefined;
    assert entries == [entries[0]] + entries[1..];
    if |entries| == 1 {
      var after := ['}'] + rest;
      ReadBack(v, after);
      MemberRead(key, Stringify(v), v, after);
      MemberConcat(Quote(key), Stringify(v), after);
      assert Join(texts, ',') + ['}'] + rest == texts[0] + after;
      assert after[1..] == rest && entries == [Entry(key, v)];
    } else {
      assert entries[1] in entries && entries[1].value != Undefined;
      var after := [','] + (Join(MemberTexts(entries[1..]), ',') + ['}'] + rest);
      ReadBack(v, after);
      MemberRead(key, Stringify(v), v, after);
      MembersReadBack(entries[1..], rest);
      MoreMembers(entries, rest);
    }
  }

  /** A first member in front of members that are read back. */
  lemma {:induction false} MoreMembers(entries: seq<Entry>, rest: string)
    requires |entries| > 1 && DistinctKeys(entries)
    requires entries[0].value != Undefined && entries[1].value != Undefined
    requires
      var more := Join(MemberTexts(entries[1..]), ',') + ['}'] + rest;
      var text := Quote(entries[0].key) + ([':'] + (Stringify(entries[0].value) + ([','] + more)));
      && ParseMembers(more) == Some((entries[1..], rest))
      && ParseMembers(text) == Some((PutFirst(entries[0].key, entries[0].value, entries[1..]), rest))
    ensures ParseMembers(Join(MemberTexts(entries), ',') + ['}'] + rest) == Some((entries, rest))
  {
    hide ParseMembers, Quote, Stringify;
    var key, v := entries[0].key, entries[0].value;
    var texts := MemberTexts(entries);
    var more := Join(MemberTexts(entries[1..]), ',') + ['}'] + rest;
    JoinMore(texts);
    assert texts[1..] == MemberTexts(entries[1..]);
    MemberConcat(Quote(key), Stringify(v), [','] + more);
    assert Join(texts, ',') + ['}'] + rest == texts[0] + ([','] + more);
    GetAbsent(entries[1..], key);
    assert entries == [entries[0]] + entries[1..];
  }

  lemma {:induction false} MemberConcat(key: string, text: string, after: string)
    ensures key + [':'] + text + after == key + ([':'] + (text + after))
  {
  }

  lemma {:induction false} JoinMore(texts: seq<string>)
    requires |texts| > 1
    ensures Join(texts, ',') == texts[0] + [','] + Join(texts[1..], ',')
  {
  }

  /** One `"key":value` member, and the choice made on the character after it. */
  lemma {:induction false} MemberRead(key: string, text: string, v: Value, after: string)
    requires Ends(after) && after != ""
    requires ParseValue(text + after) == Some((v, after))
    ensures
      var t := Quote(key) + ([':'] + (text + after));
      ParseMembers(t) ==
        if after[0] == '}' then Some(([Entry(key, v)], after[1..]))
        else if after[0] == ',' then
          match ParseMembers(after[1..])
          case None => None
          case Some(p) => Some((PutFirst(key, v, p.0), p.1))
        else None
  {
    hide Run, ParseValue, ParseChars, SkipWhitespace, EscapeAll;
    var tail := [':'] + (text + after);
    var t := Quote(key) + tail;
    NoSkip(t);
    assert t[1..] == EscapeAll(key) + ['\"'] + tail;
    CharsRead(key, tail);
    NoSkip(tail);
    assert tail[1..] == text + after;
    NoSkip(after);
  }

  /** JSON.parse undoes JSON.stringify on every JSON value. */
  lemma {:induction false} ParseStringify(v: Value)
    requires IsJson(v)
    ensures Parse(Stringify(v)) == Some(v)
  {
    ReadBack(v, "");
    assert Stringify(v) + "" == Stringify(v);
    NoSkip("");
  }

  // ---------- printed text is one line ----------

  predicate IsPrintable(c: char) {
    c as int >= 0x20
  }

  lemma {:induction false} EscapePrintable(s: string)
    ensures All(EscapeAll(s), IsPrintable)
  {
    if s != "" {
      EscapePrintable(s[1..]);
    }
  }

  lemma {:induction false} JoinPrintable(parts: seq<string>)
    requires forall part | part in parts :: All(part, IsPrintable)
    ensures All(Join(parts, ','), IsPrintable)
  {
    if |parts| > 0 {
      assert parts[0] in parts;
      JoinPrintable(parts[1..]);
    }
  }

  lemma {:induction false} StringifyPrintable(v: Value)
    ensures All(Stringify(v), IsPrintable)
    decreases v, 1
  {
    match v
    case Num(n) => assert forall c :: IsDigit(c) ==> IsPrintable(c);
    case Str(s) => EscapePrintable(s);
    case Arr(items) =>
      ElementsPrintable(items);
      JoinPrintable(ElementTexts(items));
    case Obj(entries) =>
      MembersPrintable(entries);
      JoinPrintable(MemberTexts(entries));
    case _ =>
  }

  lemma {:induction false} ElementsPrintable(items: seq<Value>)
    ensures forall part | part in ElementTexts(items) :: All(part, IsPrintable)
    decreases items, 0
  {
    if items != [] {
      StringifyPrintable(items[0]);
      ElementsPrintable(items[1..]);
    }
  }

  lemma {:induction false} MembersPrintable(entries: seq<Entry>)
    ensures forall part | part in MemberTexts(entries) :: All(part, IsPrintable)
    decreases entries, 0
  {
    if entries != [] {
      StringifyPrintable(entries[0].value);
      EscapePrintable(entries[0].key);
      MembersPrintable(entries[1..]);
    }
  }
}

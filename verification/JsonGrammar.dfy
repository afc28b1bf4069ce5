/**
 JSON.parse reads exactly the texts of the grammar in RFC 8259 (with integer numbers): each text of a
 value is read as that value, and whatever is read has such a text.
 */
module JsonGrammar {
  import opened Wrappers
  import opened Text
  import opened Json

  // ---------- the grammar ----------

  /** Section 2 of RFC 8259. */
  ghost predicate IsSpace(w: string) {
    forall c :: c in w ==> c in " \t\n\r"
  }

  ghost predicate IsHexDigit(c: char, d: nat) {
    d < 16 && (c == "0123456789abcdef"[d] || c == "0123456789ABCDEF"[d])
  }

  ghost predicate IsUnit(h: string, n: int) {
    exists a: nat, b: nat, c: nat, d: nat ::
      && |h| == 4 && IsHexDigit(h[0], a) && IsHexDigit(h[1], b) && IsHexDigit(h[2], c) && IsHexDigit(h[3], d)
      && n == 4096 * a + 256 * b + 16 * c + d
  }

  /** Section 7: what follows the backslash, and the character it stands for. */
  ghost predicate IsEscape(e: string, c: char) {
    || (e in ["\"", "\\", "/"] && c == e[0])
    || (e == "b" && c as int == 8) || (e == "f" && c as int == 12) || (e == "n" && c as int == 10)
    || (e == "r" && c as int == 13) || (e == "t" && c as int == 9)
    || (|e| == 5 && e[0] == 'u' && IsUnit(e[1..], c as int) && !(0xD800 <= c as int < 0xE000))
    || (|e| == 11 && e[0] == 'u' && e[5..7] == "\\u" && IsPair(e[1..5], e[7..], c))
  }

  /** A surrogate pair. */
  ghost predicate IsPair(high: string, low: string, c: char) {
    exists h, l ::
      && IsUnit(high, h) && IsUnit(low, l) && 0xD800 <= h < 0xDC00 && 0xDC00 <= l < 0xE000
      && c as int == 0x10000 + (h - 0xD800) * 0x400 + (l - 0xDC00)
  }

  /** What stands between the quotes of a string. */
  ghost predicate Spells(body: string, s: string)
    decreases |body|
  {
    if body == "" then s == ""
    else
      && s != ""
      && if body[0] == '\\' then
           exists e, rest :: |rest| < |body| && body == "\\" + (e + rest) && IsEscape(e, s[0]) && Spells(rest, s[1..])
         else body[0] != '\"' && body[0] as int >= 0x20 && s[0] == body[0] && Spells(body[1..], s[1..])
  }

  ghost predicate IsInteger(t: string, n: int) {
    var digits := if t != "" && t[0] == '-' then t[1..] else t;
    && digits != "" && All(digits, IsDigit) && (|digits| > 1 ==> digits[0] != '0')
    && n == if digits == t then NatValue(digits) else 0 - NatValue(digits)
  }

  ghost predicate IsValueText(t: string, v: Value)
    decreases |t|, 0
  {
    match v
    case Undefined => false
    case Null => t == "null"
    case Bool(b) => t == if b then "true" else "false"
    case Num(n) => IsInteger(t, n)
    case Str(s) => |t| >= 2 && t == "\"" + t[1..|t| - 1] + "\"" && Spells(t[1..|t| - 1], s)
    case Arr(items) =>
      && |t| >= 2 && t == "[" + t[1..|t| - 1] + "]"
      && if items == [] then IsSpace(t[1..|t| - 1]) else AreItems(t[1..|t| - 1], items)
    case Obj(entries) =>
      && |t| >= 2 && t == "{" + t[1..|t| - 1] + "}"
      && if entries == [] then IsSpace(t[1..|t| - 1]) else AreMembers(t[1..|t| - 1], entries)
  }

  /** An item of an array, with the white space around it. */
  datatype Item = Item(w: string, text: string, x: string) {
    function Text(after: string): string {
      w + (text + (x + after))
    }

    ghost predicate Written() {
      IsSpace(w) && IsSpace(x)
    }
  }

  ghost predicate AreItems(inner: string, items: seq<Value>)
    requires items != []
    decreases |inner|, 1
  {
    exists m: Item, after ::
      && |m.text| <= |inner| && |after| <= |inner| && inner == m.Text(after)
      && m.Written() && IsValueText(m.text, items[0])
      && if |items| == 1 then after == ""
         else after != "" && after[0] == ',' && AreItems(after[1..], items[1..])
  }

  /** A member of an object: its key and value, and the texts that it is written with. */
  datatype Member = Member(key: string, value: Value, w: string, body: string, x: string, y: string, text: string, z: string) {
    function Text(after: string): string {
      w + ("\"" + (body + ("\"" + (x + (":" + (y + (text + (z + after))))))))
    }

    ghost predicate Written() {
      IsSpace(w) && IsSpace(x) && IsSpace(y) && IsSpace(z) && Spells(body, key)
    }
  }

  /** A key that comes again gives its place to the value of the last. */
  ghost predicate AreMembers(inner: string, entries: seq<Entry>)
    requires entries != []
    decreases |inner|, 1
  {
    exists m: Member, after ::
      && |m.text| <= |inner| && |after| <= |inner| && inner == m.Text(after)
      && m.Written() && IsValueText(m.text, m.value)
      && if after == "" then entries == [Entry(m.key, m.value)]
         else after[0] == ',' && exists more ::
                more != [] && AreMembers(after[1..], more) && entries == PutFirst(m.key, m.value, more)
  }

  // ---------- white space, escapes and strings ----------

  lemma SpaceChar(c: char)
    ensures IsWhitespace(c) <==> c in " \t\n\r"
  {
  }

  lemma SpaceRun(w: string)
    ensures IsSpace(w) <==> All(w, IsWhitespace)
  {
    assert forall i :: 0 <= i < |w| ==> w[i] in w;
  }

  lemma {:induction false} Skipped(w: string, rest: string)
    requires IsSpace(w) && (rest != "" ==> !IsWhitespace(rest[0]))
    ensures SkipWhitespace(w + rest) == rest
  {
    SpaceRun(w);
    RunStops(w, rest, IsWhitespace);
  }

  lemma {:induction false} SkipSplits(s: string) returns (w: string)
    ensures IsSpace(w) && s == w + SkipWhitespace(s)
  {
    w := s[..Run(s, IsWhitespace)];
    SpaceRun(w);
  }

  lemma HexExact(c: char, d: nat)
    ensures HexValue(c) == Some(d) <==> IsHexDigit(c, d)
  {
    var lower, upper := "0123456789abcdef", "0123456789ABCDEF";
    assert forall i :: 0 <= i < 10 ==> lower[i] == upper[i] == ('0' as int + i) as char;
    assert forall i :: 10 <= i < 16 ==> lower[i] == ('a' as int + i - 10) as char && upper[i] == ('A' as int + i - 10) as char;
  }

  lemma {:induction false} UnitRead(s: string, n: nat)
    requires Hex4(s) == Some(n)
    ensures |s| >= 4 && IsUnit(s[..4], n)
  {
    hide HexValue, IsHexDigit;
    var h := s[..4];
    HexExact(s[0], HexValue(s[0]).value);
    HexExact(s[1], HexValue(s[1]).value);
    HexExact(s[2], HexValue(s[2]).value);
    HexExact(s[3], HexValue(s[3]).value);
    assert IsHexDigit(h[0], HexValue(s[0]).value) && IsHexDigit(h[1], HexValue(s[1]).value);
    assert IsHexDigit(h[2], HexValue(s[2]).value) && IsHexDigit(h[3], HexValue(s[3]).value);
  }

  lemma {:induction false} UnitGiven(s: string, n: nat)
    requires |s| >= 4 && IsUnit(s[..4], n)
    ensures Hex4(s) == Some(n)
  {
    hide HexValue, IsHexDigit;
    var h := s[..4];
    var a: nat, b: nat, c: nat, d: nat :|
      IsHexDigit(h[0], a) && IsHexDigit(h[1], b) && IsHexDigit(h[2], c) && IsHexDigit(h[3], d) && n == 4096 * a + 256 * b + 16 * c + d;
    HexExact(s[0], a);
    HexExact(s[1], b);
    HexExact(s[2], c);
    HexExact(s[3], d);
    HexBound(h[0], a);
    HexBound(h[1], b);
    HexBound(h[2], c);
    HexBound(h[3], d);
    assert ((a * 16 + b) * 16 + c) * 16 + d == n;
  }

  lemma {:induction false} UnitExact(s: string, n: nat)
    ensures Hex4(s) == Some(n) <==> |s| >= 4 && IsUnit(s[..4], n)
  {
    hide Hex4, IsUnit;
    if Hex4(s) == Some(n) {
      UnitRead(s, n);
    }
    if |s| >= 4 && IsUnit(s[..4], n) {
      UnitGiven(s, n);
    }
  }

  lemma HexBound(c: char, d: nat)
    requires IsHexDigit(c, d)
    ensures d < 16
  {
  }

  lemma {:induction false} EscapeTaken(s: string)
    requires ParseEscape(s).Some?
    ensures var (c, rest) := ParseEscape(s).value;
      |rest| < |s| && s[|s| - |rest|..] == rest && IsEscape(s[..|s| - |rest|], c)
  {
    hide Hex4, IsUnit;
    var (c, rest) := ParseEscape(s).value;
    var e := s[..|s| - |rest|];
    if s[0] == 'u' {
      UnicodeTaken(s[1..]);
      assert e[1..] == s[1..][..|s[1..]| - |rest|];
      if |e| == 11 {
        assert e[1..5] == e[1..][..4] && e[5..7] == e[1..][4..6] && e[7..] == e[1..][6..];
      }
    } else {
      assert e == [s[0]];
    }
  }

  lemma {:induction false} UnicodeTaken(s: string)
    requires UnicodeEscape(s).Some?
    ensures var (c, rest) := UnicodeEscape(s).value;
      var h := s[..|s| - |rest|];
      && |rest| < |s| && s[|s| - |rest|..] == rest
      && (|| (|h| == 4 && IsUnit(h, c as int) && !(0xD800 <= c as int < 0xE000))
          || (|h| == 10 && h[4..6] == "\\u" && IsPair(h[..4], h[6..], c)))
  {
    hide Hex4, IsUnit;
    var unit := Hex4(s).value;
    UnitExact(s, unit);
    var (c, rest) := UnicodeEscape(s).value;
    if unit < 0xD800 || 0xE000 <= unit {
      assert s[..|s| - |rest|] == s[..4];
    } else {
      var low := Hex4(s[6..]).value;
      UnitExact(s[6..], low);
      var h := s[..10];
      assert s[..|s| - |rest|] == h && h[..4] == s[..4] && h[6..] == s[6..][..4] && h[4..6] == [s[4], s[5]];
      assert IsPair(h[..4], h[6..], c);
    }
  }

  lemma {:induction false} EscapeGiven(e: string, c: char, rest: string)
    requires IsEscape(e, c)
    ensures e != "" && ParseEscape(e + rest) == Some((c, rest))
  {
    hide Hex4, IsUnit, IsPair;
    var s := e + rest;
    if |e| == 5 && e[0] == 'u' {
      assert s[1..][..4] == e[1..] && s[1..][4..] == rest;
      UnitExact(s[1..], c as int);
    } else if |e| == 11 && e[0] == 'u' {
      PairGiven(e[1..5], e[7..], c, rest);
      assert s[1..] == e[1..5] + ("\\u" + (e[7..] + rest));
    } else {
      assert s[0] == e[0] && s[1..] == rest;
    }
  }

  lemma {:induction false} PairGiven(high: string, low: string, c: char, rest: string)
    requires IsPair(high, low, c)
    ensures UnicodeEscape(high + ("\\u" + (low + rest))) == Some((c, rest))
  {
    hide Hex4, IsUnit;
    var h, l :| IsUnit(high, h) && IsUnit(low, l) && 0xD800 <= h < 0xDC00 && 0xDC00 <= l < 0xE000
      && c as int == 0x10000 + (h - 0xD800) * 0x400 + (l - 0xDC00);
    UnitLength(high, h);
    UnitLength(low, l);
    var s := high + ("\\u" + (low + rest));
    assert s[..4] == high && s[4] == '\\' && s[5] == 'u' && s[6..] == low + rest && s[6..][..4] == low && s[10..] == rest;
    UnitExact(s, h);
    UnitExact(s[6..], l);
  }

  lemma UnitLength(h: string, n: int)
    requires IsUnit(h, n)
    ensures |h| == 4
  {
  }

  lemma EscapeSpells(e: string, c: char, rest: string, s: string)
    requires IsEscape(e, c) && Spells(rest, s)
    ensures Spells("\\" + (e + rest), [c] + s)
  {
    hide IsEscape;
    var body := "\\" + (e + rest);
    assert ([c] + s)[1..] == s && ([c] + s)[0] == c && |rest| < |body|;
  }

  lemma PlainSpells(c: char, rest: string, s: string)
    requires c != '\"' && c != '\\' && c as int >= 0x20 && Spells(rest, s)
    ensures Spells([c] + rest, [c] + s)
  {
    assert ([c] + rest)[1..] == rest && ([c] + s)[1..] == s;
  }

  /** The characters up to the closing quote. */
  lemma {:induction false} CharsTaken(s: string) returns (body: string)
    requires ParseChars(s).Some?
    ensures Spells(body, ParseChars(s).value.0) && s == body + ("\"" + ParseChars(s).value.1)
    decreases |s|
  {
    hide ParseEscape, IsEscape, Spells;
    if s[0] == '\"' {
      body := "";
      EmptySpells();
    } else if s[0] == '\\' {
      EscapeTaken(s[1..]);
      var (c, rest) := ParseEscape(s[1..]).value;
      var e := s[1..][..|s[1..]| - |rest|];
      var more := CharsTaken(rest);
      body := "\\" + (e + more);
      assert s[1..] == e + rest;
      EscapeSpells(e, c, more, ParseChars(rest).value.0);
    } else {
      var more := CharsTaken(s[1..]);
      body := [s[0]] + more;
      PlainSpells(s[0], more, ParseChars(s[1..]).value.0);
    }
  }

  lemma EmptySpells()
    ensures Spells("", "")
  {
  }

  /** The first character that a body spells, and the rest of it. */
  lemma {:induction false} SpellsFirst(body: string, s: string) returns (e: string, more: string)
    requires Spells(body, s) && body != ""
    ensures |more| < |body| && s != "" && Spells(more, s[1..])
    ensures if body[0] == '\\' then body == "\\" + (e + more) && IsEscape(e, s[0])
      else body == [s[0]] + more && s[0] != '\"' && s[0] as int >= 0x20
  {
    hide IsEscape;
    e := "";
    if body[0] == '\\' {
      var f, rest :| |rest| < |body| && body == "\\" + (f + rest) && IsEscape(f, s[0]) && Spells(rest, s[1..]);
      e, more := f, rest;
    } else {
      more := body[1..];
    }
  }

  lemma {:induction false} CharsGiven(body: string, s: string, rest: string)
    requires Spells(body, s)
    ensures ParseChars(body + ("\"" + rest)) == Some((s, rest))
    decreases |body|
  {
    hide ParseEscape, IsEscape, Spells;
    var text := body + ("\"" + rest);
    if body == "" {
      SpellsNothing(s);
      assert text[1..] == rest;
    } else {
      var e, more := SpellsFirst(body, s);
      var after := more + ("\"" + rest);
      CharsGiven(more, s[1..], rest);
      assert [s[0]] + s[1..] == s;
      if body[0] == '\\' {
        EscapeGiven(e, s[0], after);
        assert text[1..] == e + after;
      } else {
        assert text[1..] == after;
      }
    }
  }

  lemma SpellsNothing(s: string)
    requires Spells("", s)
    ensures s == ""
  {
  }

  // ---------- numbers ----------

  /** What cannot go on a number. */
  predicate Stops(rest: string) {
    rest == "" || (!IsDigit(rest[0]) && rest[0] != '.' && rest[0] != 'e' && rest[0] != 'E')
  }

  lemma {:induction false} NumberTaken(s: string) returns (t: string)
    requires ParseNumber(s).Some?
    ensures var (v, rest) := ParseNumber(s).value;
      s == t + rest && v.Num? && IsInteger(t, v.n)
  {
    hide Run, NatValue;
    var (v, rest) := ParseNumber(s).value;
    t := s[..|s| - |rest|];
    if s[0] == '-' {
      assert t[1..] == s[1..][..|s[1..]| - |rest|];
    }
  }

  lemma {:induction false} NatGiven(digits: string, rest: string)
    requires digits != "" && All(digits, IsDigit) && (|digits| > 1 ==> digits[0] != '0') && Stops(rest)
    ensures ParseNat(digits + rest) == Some((NatValue(digits), rest))
  {
    RunStops(digits, rest, IsDigit);
    assert (digits + rest)[..|digits|] == digits && (digits + rest)[|digits|..] == rest;
  }

  lemma {:induction false} NumberGiven(t: string, n: int, rest: string)
    requires IsInteger(t, n) && Stops(rest)
    ensures ParseNumber(t + rest) == Some((Num(n), rest)) && t != "" && (t[0] == '-' || IsDigit(t[0]))
  {
    hide ParseNat, NatValue, Run;
    if t[0] == '-' {
      NatGiven(t[1..], rest);
      assert (t + rest)[1..] == t[1..] + rest;
      assert t[1..] != t;
    } else {
      NatGiven(t, rest);
    }
  }

  // ---------- what is read has a text ----------

  lemma {:induction false} ValueTaken(s: string) returns (w: string, t: string)
    requires ParseValue(s).Some?
    ensures IsSpace(w) && t != "" && IsValueText(t, ParseValue(s).value.0) && s == w + (t + ParseValue(s).value.1)
    decreases |s|, 2
  {
    hide SkipWhitespace, ParseItems, ParseMembers, ParseChars, ParseNumber, IsSpace, IsValueText;
    w := SkipSplits(s);
    var u := SkipWhitespace(s);
    NoSkip(u);
    assert ParseValue(u) == ParseValue(s);
    t := TextTaken(u);
  }

  lemma {:induction false} TextTaken(u: string) returns (t: string)
    requires ParseValue(u).Some? && u != "" && !IsWhitespace(u[0])
    ensures t != "" && IsValueText(t, ParseValue(u).value.0) && u == t + ParseValue(u).value.1
    decreases |u|, 1
  {
    hide SkipWhitespace, ParseItems, ParseMembers, ParseChars, ParseNumber, AreItems, AreMembers, Spells, IsInteger;
    NoSkip(u);
    if u[0] == '\"' {
      var body := CharsTaken(u[1..]);
      t := "\"" + body + "\"";
      assert t[1..|t| - 1] == body;
    } else if u[0] == '[' {
      t := ArrayTaken(u);
    } else if u[0] == '{' {
      t := ObjectTaken(u);
    } else if u[0] == 'n' {
      t := "null";
    } else if u[0] == 't' {
      t := "true";
    } else if u[0] == 'f' {
      t := "false";
    } else {
      t := NumberTaken(u);
      IntegerSome(t, ParseValue(u).value.0.n);
    }
  }

  lemma IntegerSome(t: string, n: int)
    requires IsInteger(t, n)
    ensures t != ""
  {
  }

  lemma {:induction false} ArrayTaken(u: string) returns (t: string)
    requires u != "" && u[0] == '[' && ParseValue(u).Some?
    ensures t != "" && IsValueText(t, ParseValue(u).value.0) && u == t + ParseValue(u).value.1
    decreases |u|, 0
  {
    hide SkipWhitespace, ParseItems, ParseMembers, ParseChars, ParseNumber, IsSpace, AreItems, AreMembers, Spells;
    NoSkip(u);
    var after := SkipWhitespace(u[1..]);
    if after != "" && after[0] == ']' {
      var w := SkipSplits(u[1..]);
      t := "[" + w + "]";
      assert t[1..|t| - 1] == w && after == "]" + after[1..];
    } else {
      var inner := ItemsTaken(u[1..]);
      t := "[" + inner + "]";
      assert t[1..|t| - 1] == inner;
    }
  }

  lemma {:induction false} ObjectTaken(u: string) returns (t: string)
    requires u != "" && u[0] == '{' && ParseValue(u).Some?
    ensures t != "" && IsValueText(t, ParseValue(u).value.0) && u == t + ParseValue(u).value.1
    decreases |u|, 0
  {
    hide SkipWhitespace, ParseItems, ParseMembers, ParseChars, ParseNumber, IsSpace, AreItems, AreMembers, Spells;
    NoSkip(u);
    var after := SkipWhitespace(u[1..]);
    if after != "" && after[0] == '}' {
      var w := SkipSplits(u[1..]);
      t := "{" + w + "}";
      assert t[1..|t| - 1] == w && after == "}" + after[1..];
    } else {
      var inner := MembersTaken(u[1..]);
      t := "{" + inner + "}";
      assert t[1..|t| - 1] == inner;
    }
  }

  lemma LastItem(m: Item, v: Value)
    requires m.Written() && IsValueText(m.text, v)
    ensures AreItems(m.Text(""), [v])
  {
    hide IsValueText;
    assert |m.text| <= |m.Text("")|;
  }

  lemma OneItemMore(m: Item, v: Value, more: string, items: seq<Value>)
    requires m.Written() && IsValueText(m.text, v) && items != [] && AreItems(more, items)
    ensures AreItems(m.Text("," + more), [v] + items)
  {
    hide IsValueText;
    var all, after := [v] + items, "," + more;
    assert all[1..] == items && after[1..] == more && |m.text| <= |m.Text(after)| && |after| <= |m.Text(after)|;
  }

  lemma ItemJoined(m: Item, after: string, rest: string)
    ensures m.Text(after) + rest == m.Text(after + rest)
  {
  }

  lemma {:induction false} ItemsTaken(s: string) returns (inner: string)
    requires ParseItems(s).Some?
    ensures ParseItems(s).value.0 != [] && AreItems(inner, ParseItems(s).value.0) && s == inner + ("]" + ParseItems(s).value.1)
    decreases |s|, 3
  {
    hide SkipWhitespace, ParseValue, IsSpace, IsValueText, AreItems;
    var (v, rest) := ParseValue(s).value;
    var w, t := ValueTaken(s);
    var x := SkipSplits(rest);
    var u := SkipWhitespace(rest);
    var m := Item(w, t, x);
    if u[0] == ']' {
      LastItem(m, v);
      inner := m.Text("");
      assert u == "" + ("]" + u[1..]);
      ItemJoined(m, "", "]" + u[1..]);
    } else {
      var more := ItemsTaken(u[1..]);
      var (items, end) := ParseItems(u[1..]).value;
      OneItemMore(m, v, more, items);
      inner := m.Text("," + more);
      assert u == "," + more + ("]" + end);
      ItemJoined(m, "," + more, "]" + end);
    }
  }

  lemma LastMember(m: Member)
    requires m.Written() && IsValueText(m.text, m.value)
    ensures AreMembers(m.Text(""), [Entry(m.key, m.value)])
  {
    hide IsValueText;
    assert |m.text| <= |m.Text("")|;
  }

  lemma OneMemberMore(m: Member, more: string, entries: seq<Entry>)
    requires m.Written() && IsValueText(m.text, m.value)
    requires entries != [] && AreMembers(more, entries)
    ensures PutFirst(m.key, m.value, entries) != []
    ensures AreMembers(m.Text("," + more), PutFirst(m.key, m.value, entries))
  {
    hide IsValueText, PutFirst;
    PutSome(m.key, m.value, entries);
    var after := "," + more;
    assert after[1..] == more;
    assert |m.text| <= |m.Text(after)| && |after| <= |m.Text(after)|;
  }

  lemma {:induction false} MembersTaken(s: string) returns (inner: string)
    requires ParseMembers(s).Some?
    ensures ParseMembers(s).value.0 != [] && AreMembers(inner, ParseMembers(s).value.0) && s == inner + ("}" + ParseMembers(s).value.1)
    decreases |s|, 3
  {
    hide SkipWhitespace, ParseValue, IsSpace, IsValueText, ParseChars, Spells, PutFirst, AreMembers;
    var w := SkipSplits(s);
    var t := SkipWhitespace(s);
    var (key, afterKey) := ParseChars(t[1..]).value;
    var body := CharsTaken(t[1..]);
    var x := SkipSplits(afterKey);
    var u := SkipWhitespace(afterKey);
    var (v, rest) := ParseValue(u[1..]).value;
    var y, text := ValueTaken(u[1..]);
    var z := SkipSplits(rest);
    var last := SkipWhitespace(rest);
    var m := Member(key, v, w, body, x, y, text, z);
    assert t == "\"" + t[1..] && u == ":" + u[1..];
    if last[0] == '}' {
      LastMember(m);
      inner := m.Text("");
      assert last == "" + ("}" + last[1..]);
      MemberJoined(m, "", "}" + last[1..]);
    } else {
      var more := MembersTaken(last[1..]);
      var (entries, end) := ParseMembers(last[1..]).value;
      OneMemberMore(m, more, entries);
      inner := m.Text("," + more);
      assert last == "," + more + ("}" + end);
      MemberJoined(m, "," + more, "}" + end);
    }
  }

  lemma PutSome(key: string, v: Value, more: seq<Entry>)
    ensures PutFirst(key, v, more) != []
  {
  }

  lemma MemberJoined(m: Member, after: string, rest: string)
    ensures m.Text(after) + rest == m.Text(after + rest)
  {
  }

  /** What is parsed has a text of the grammar. */
  lemma {:induction false} ParsedHasText(s: string)
    requires Parse(s).Some?
    ensures exists w, t, x :: IsSpace(w) && IsSpace(x) && IsValueText(t, Parse(s).value) && s == w + (t + x)
  {
    hide SkipWhitespace, ParseValue, IsSpace, IsValueText;
    var w, t := ValueTaken(s);
    var rest := ParseValue(s).value.1;
    var x := SkipSplits(rest);
    assert x + "" == x;
  }

  // ---------- every text is read ----------

  lemma {:induction false} TextStarts(t: string, v: Value)
    requires IsValueText(t, v)
    ensures t != "" && !IsWhitespace(t[0]) && t[0] != ']'
  {
    hide AreItems, AreMembers, Spells, NatValue, IsSpace;
    if v.Num? {
      assert t[0] == '-' || IsDigit(t[0]) by { NumberStarts(t, v.n); }
    }
  }

  lemma NumberStarts(t: string, n: int)
    requires IsInteger(t, n)
    ensures t != "" && (t[0] == '-' || IsDigit(t[0]))
  {
  }

  /** What may follow a value inside a text. */
  predicate Closes(rest: string) {
    rest == "" || IsWhitespace(rest[0]) || rest[0] == ',' || rest[0] == ']' || rest[0] == '}'
  }

  lemma {:induction false} ValueGiven(w: string, t: string, v: Value, rest: string)
    requires IsSpace(w) && IsValueText(t, v) && Closes(rest)
    ensures ParseValue(w + (t + rest)) == Some((v, rest))
    decreases |t|, 2
  {
    hide IsSpace, IsValueText, ParseItems, ParseMembers, ParseChars, ParseNumber, SkipWhitespace;
    TextStarts(t, v);
    Skipped(w, t + rest);
    NoSkip(t + rest);
    TextGiven(t, v, rest);
  }

  lemma {:induction false} TextGiven(t: string, v: Value, rest: string)
    requires IsValueText(t, v) && Closes(rest)
    ensures ParseValue(t + rest) == Some((v, rest))
    decreases |t|, 1
  {
    hide ParseItems, ParseMembers, ParseChars, ParseNumber, SkipWhitespace, AreItems, AreMembers, Spells, IsInteger, IsSpace;
    TextStarts(t, v);
    match v
    case Null => LiteralRead("null", v, rest);
    case Bool(b) => LiteralRead(if b then "true" else "false", v, rest);
    case Num(n) =>
      NumberGiven(t, n, rest);
      NoSkip(t + rest);
    case Str(s) =>
      var body := t[1..|t| - 1];
      NoSkip(t + rest);
      CharsGiven(body, s, rest);
      assert (t + rest)[1..] == body + ("\"" + rest);
    case Arr(items) => ArrayGiven(t, items, rest);
    case Obj(entries) => ObjectGiven(t, entries, rest);
  }

  lemma {:induction false} ArrayGiven(t: string, items: seq<Value>, rest: string)
    requires IsValueText(t, Arr(items))
    ensures ParseValue(t + rest) == Some((Arr(items), rest))
    decreases |t|, 0
  {
    hide ParseItems, ParseMembers, ParseChars, ParseNumber, SkipWhitespace, AreItems, AreMembers, Spells, IsInteger, IsSpace;
    var inner := t[1..|t| - 1];
    NoSkip(t + rest);
    assert (t + rest)[1..] == inner + ("]" + rest);
    if items == [] {
      Skipped(inner, "]" + rest);
      assert ("]" + rest)[1..] == rest;
    } else {
      ItemsStart(inner, items, "]" + rest);
      ItemsGiven(inner, items, rest);
    }
  }

  lemma {:induction false} ObjectGiven(t: string, entries: seq<Entry>, rest: string)
    requires IsValueText(t, Obj(entries))
    ensures ParseValue(t + rest) == Some((Obj(entries), rest))
    decreases |t|, 0
  {
    hide ParseItems, ParseMembers, ParseChars, ParseNumber, SkipWhitespace, AreItems, AreMembers, Spells, IsInteger, IsSpace;
    var inner := t[1..|t| - 1];
    NoSkip(t + rest);
    assert (t + rest)[1..] == inner + ("}" + rest);
    if entries == [] {
      Skipped(inner, "}" + rest);
      assert ("}" + rest)[1..] == rest;
    } else {
      MembersStart(inner, entries, "}" + rest);
      MembersGiven(inner, entries, rest);
    }
  }

  lemma {:induction false} FirstItem(inner: string, items: seq<Value>) returns (m: Item, after: string)
    requires items != [] && AreItems(inner, items)
    ensures |m.text| <= |inner| && |after| <= |inner| && inner == m.Text(after)
    ensures m.Written() && IsValueText(m.text, items[0])
    ensures if |items| == 1 then after == "" else after != "" && after[0] == ',' && AreItems(after[1..], items[1..])
  {
    hide IsValueText;
    m, after :|
      && |m.text| <= |inner| && |after| <= |inner| && inner == m.Text(after)
      && m.Written() && IsValueText(m.text, items[0])
      && if |items| == 1 then after == ""
         else after != "" && after[0] == ',' && AreItems(after[1..], items[1..]);
  }

  lemma {:induction false} ItemsStart(inner: string, items: seq<Value>, rest: string)
    requires items != [] && AreItems(inner, items)
    ensures SkipWhitespace(inner + rest) != "" && SkipWhitespace(inner + rest)[0] != ']'
  {
    hide IsSpace, IsValueText, SkipWhitespace, AreItems;
    var m, after := FirstItem(inner, items);
    TextStarts(m.text, items[0]);
    var tail := m.text + (m.x + (after + rest));
    ItemJoined(m, after, rest);
    assert inner + rest == m.w + tail;
    Skipped(m.w, tail);
  }

  lemma {:induction false} MembersStart(inner: string, entries: seq<Entry>, rest: string)
    requires entries != [] && AreMembers(inner, entries)
    ensures SkipWhitespace(inner + rest) != "" && SkipWhitespace(inner + rest)[0] == '\"'
  {
    hide IsSpace, IsValueText, SkipWhitespace;
    var m: Member, after :|
      |m.text| <= |inner| && |after| <= |inner| && inner == m.Text(after) && m.Written() && IsValueText(m.text, m.value);
    var tail := "\"" + (m.body + ("\"" + (m.x + (":" + (m.y + (m.text + (m.z + (after + rest))))))));
    MemberJoined(m, after, rest);
    assert inner + rest == m.w + tail;
    Skipped(m.w, tail);
  }

  lemma SpaceCloses(x: string, rest: string)
    requires IsSpace(x) && Closes(rest)
    ensures Closes(x + rest)
  {
    SpaceRun(x);
    if x != "" {
      assert IsWhitespace(x[0]);
    } else {
      assert x + rest == rest;
    }
  }

  /** One item, and what the character after it decides. */
  lemma {:induction false} ItemGiven(m: Item, v: Value, end: string)
    requires m.Written() && end != "" && (end[0] == ',' || end[0] == ']')
    requires ParseValue(m.Text(end)) == Some((v, m.x + end))
    ensures ParseItems(m.Text(end)) ==
      if end[0] == ']' then Some(([v], end[1..]))
      else match ParseItems(end[1..])
        case None => None
        case Some(p) => Some(([v] + p.0, p.1))
  {
    hide IsSpace, SkipWhitespace, ParseValue;
    Skipped(m.x, end);
  }

  lemma {:induction false} ItemsGiven(inner: string, items: seq<Value>, rest: string)
    requires items != [] && AreItems(inner, items)
    ensures ParseItems(inner + ("]" + rest)) == Some((items, rest))
    decreases |inner|, 3
  {
    hide IsSpace, IsValueText, ParseItems, ParseValue, AreItems;
    var m, after := FirstItem(inner, items);
    var end := after + ("]" + rest);
    SpaceCloses(m.x, end);
    ValueGiven(m.w, m.text, items[0], m.x + end);
    ItemJoined(m, after, "]" + rest);
    ItemGiven(m, items[0], end);
    assert items == [items[0]] + items[1..];
    if |items| == 1 {
      assert items == [items[0]] && end[1..] == rest;
    } else {
      ItemsGiven(after[1..], items[1..], rest);
      assert end[1..] == after[1..] + ("]" + rest);
    }
  }

  /** One member, and what the character after it decides. */
  lemma {:induction false} MemberGiven(m: Member, end: string)
    requires m.Written() && IsValueText(m.text, m.value) && end != "" && (end[0] == ',' || end[0] == '}')
    requires ParseValue(m.y + (m.text + (m.z + end))) == Some((m.value, m.z + end))
    ensures ParseMembers(m.Text(end)) ==
      if end[0] == '}' then Some(([Entry(m.key, m.value)], end[1..]))
      else match ParseMembers(end[1..])
        case None => None
        case Some(p) => Some((PutFirst(m.key, m.value, p.0), p.1))
  {
    hide IsSpace, IsValueText, SkipWhitespace, ParseValue, ParseChars, Spells, PutFirst;
    var afterColon := m.y + (m.text + (m.z + end));
    var afterKey := ":" + afterColon;
    var t := "\"" + (m.body + ("\"" + (m.x + afterKey)));
    Skipped(m.w, t);
    assert t[1..] == m.body + ("\"" + (m.x + afterKey));
    CharsGiven(m.body, m.key, m.x + afterKey);
    Skipped(m.x, afterKey);
    assert afterKey[1..] == afterColon;
    Skipped(m.z, end);
  }

  lemma {:induction false} FirstMember(inner: string, entries: seq<Entry>) returns (m: Member, after: string, more: seq<Entry>)
    requires entries != [] && AreMembers(inner, entries)
    ensures |m.text| <= |inner| && |after| <= |inner| && inner == m.Text(after)
    ensures m.Written() && IsValueText(m.text, m.value)
    ensures if after == "" then entries == [Entry(m.key, m.value)]
      else after[0] == ',' && more != [] && AreMembers(after[1..], more) && entries == PutFirst(m.key, m.value, more)
  {
    hide IsValueText, PutFirst;
    m, after :|
      && |m.text| <= |inner| && |after| <= |inner| && inner == m.Text(after)
      && m.Written() && IsValueText(m.text, m.value)
      && if after == "" then entries == [Entry(m.key, m.value)]
         else after[0] == ',' && exists more ::
                more != [] && AreMembers(after[1..], more) && entries == PutFirst(m.key, m.value, more);
    more := [];
    if after != "" {
      more :| more != [] && AreMembers(after[1..], more) && entries == PutFirst(m.key, m.value, more);
    }
  }

  lemma {:induction false} MembersGiven(inner: string, entries: seq<Entry>, rest: string)
    requires entries != [] && AreMembers(inner, entries)
    ensures ParseMembers(inner + ("}" + rest)) == Some((entries, rest))
    decreases |inner|, 3
  {
    hide IsSpace, IsValueText, ParseMembers, PutFirst, ParseValue, AreMembers;
    var m, after, more := FirstMember(inner, entries);
    var end := after + ("}" + rest);
    SpaceCloses(m.z, end);
    ValueGiven(m.y, m.text, m.value, m.z + end);
    MemberJoined(m, after, "}" + rest);
    MemberGiven(m, end);
    if after == "" {
      assert end[1..] == rest;
    } else {
      MembersGiven(after[1..], more, rest);
      assert end[1..] == after[1..] + ("}" + rest);
    }
  }

  /** A text of the grammar, in white space, is parsed as its value. */
  lemma {:induction false} TextIsParsed(w: string, t: string, v: Value, x: string)
    requires IsSpace(w) && IsSpace(x) && IsValueText(t, v)
    ensures Parse(w + (t + x)) == Some(v)
  {
    hide IsSpace, IsValueText, ParseValue, SkipWhitespace;
    SpaceCloses(x, "");
    assert x + "" == x;
    ValueGiven(w, t, v, x);
    Skipped(x, "");
  }

  /** JSON.parse gives a value exactly for the texts of that value. */
  lemma {:induction false} ParseExact(s: string, v: Value)
    ensures Parse(s) == Some(v) <==> exists w, t, x :: IsSpace(w) && IsSpace(x) && IsValueText(t, v) && s == w + (t + x)
  {
    hide IsSpace, IsValueText, Parse;
    if Parse(s).Some? {
      ParsedHasText(s);
    }
    forall w, t, x | IsSpace(w) && IsSpace(x) && IsValueText(t, v) && s == w + (t + x) ensures Parse(s) == Some(v) {
      TextIsParsed(w, t, v, x);
    }
  }

  // ---------- what is printed ----------

  /** QuoteJSONString (section 25.5.2.4 of ECMA-262), character by character. */
  ghost predicate IsQuoted(t: string, c: char) {
    if c as int in [0x08, 0x09, 0x0A, 0x0C, 0x0D, 0x22, 0x5C] then
      t == "\\" + (if c as int == 0x08 then "b" else if c as int == 0x09 then "t" else if c as int == 0x0A then "n"
                   else if c as int == 0x0C then "f" else if c as int == 0x0D then "r" else [c])
    else if c as int < 0x20 then
      t == "\\u00" + [if c as int < 0x10 then '0' else '1', "0123456789abcdef"[c as int % 16]]
    else t == [c]
  }

  lemma EscapeForm(c: char)
    ensures IsQuoted(Escape(c), c)
  {
    HexDigitForm(c as int % 16);
    if c as int < 0x20 {
      HexDigitForm(c as int / 16);
    }
  }

  lemma HexDigitForm(d: nat)
    requires d < 16
    ensures HexDigit(d) == "0123456789abcdef"[d]
  {
    var digits := "0123456789abcdef";
    assert forall i :: 0 <= i < 10 ==> digits[i] == ('0' as int + i) as char;
    assert forall i :: 10 <= i < 16 ==> digits[i] == ('a' as int + i - 10) as char;
  }

  /** A printed string is its characters, each quoted, between quotes. */
  lemma {:induction false} QuoteForm(s: string, c: char)
    ensures Quote("") == "\"\""
    ensures exists q :: IsQuoted(q, c) && Quote(s + [c]) == Quote(s)[..|Quote(s)| - 1] + q + "\""
  {
    hide IsQuoted, Escape, EscapeAll;
    EscapeForm(c);
    EscapeAdd(s, c);
    EscapeNone();
    assert Quote(s)[..|Quote(s)| - 1] == "\"" + EscapeAll(s);
    assert Quote(s + [c]) == Quote(s)[..|Quote(s)| - 1] + Escape(c) + "\"";
  }

  lemma EscapeNone()
    ensures EscapeAll("") == ""
  {
  }

  lemma {:induction false} EscapeAdd(s: string, c: char)
    ensures EscapeAll(s + [c]) == EscapeAll(s) + Escape(c)
  {
    if s == "" {
      assert s + [c] == [c] && [c][1..] == "";
    } else {
      assert (s + [c])[1..] == s[1..] + [c];
      EscapeAdd(s[1..], c);
    }
  }

  lemma {:induction false} JoinAdd(parts: seq<string>, part: string)
    ensures Join(parts + [part], ',') == if parts == [] then part else Join(parts, ',') + "," + part
  {
    if parts != [] {
      JoinConcat(parts, [part], ',');
    }
  }

  lemma {:induction false} ElementsAdd(items: seq<Value>, v: Value)
    ensures ElementTexts(items + [v]) == ElementTexts(items) + [Stringify(v)]
  {
    if items == [] {
      assert (items + [v])[1..] == [];
    } else {
      assert (items + [v])[1..] == items[1..] + [v];
      ElementsAdd(items[1..], v);
    }
  }

  lemma {:induction false} MembersAdd(entries: seq<Entry>, e: Entry)
    ensures MemberTexts(entries + [e])
         == MemberTexts(entries) + if e.value == Undefined then [] else [Quote(e.key) + ":" + Stringify(e.value)]
  {
    if entries == [] {
      assert (entries + [e])[1..] == [];
    } else {
      assert (entries + [e])[1..] == entries[1..] + [e];
      MembersAdd(entries[1..], e);
    }
  }

  /** A printed array: one item more adds its text after a comma, and an undefined one is null. */
  lemma {:induction false} ArrayAdd(items: seq<Value>, v: Value)
    ensures Stringify(Arr([])) == "[]"
    ensures var front := Stringify(Arr(items));
      Stringify(Arr(items + [v])) ==
        (if items == [] then "[" else front[..|front| - 1] + ",") + (if v == Undefined then "null" else Stringify(v)) + "]"
  {
    hide Stringify, ElementTexts;
    ArrayText([]);
    ArrayText(items);
    ArrayText(items + [v]);
    ElementsAdd(items, v);
    JoinAdd(ElementTexts(items), Stringify(v));
    UndefinedText();
    var inner := Join(ElementTexts(items), ',');
    assert (['['] + inner + [']'])[..|inner| + 1] == "[" + inner;
  }

  lemma UndefinedText()
    ensures Stringify(Undefined) == "null"
  {
  }

  /** A printed object: one property more adds its key and value after a comma, and an undefined one nothing. */
  lemma {:induction false} ObjectAdd(entries: seq<Entry>, e: Entry)
    ensures Stringify(Obj([])) == "{}"
    ensures var front := Stringify(Obj(entries));
      Stringify(Obj(entries + [e])) ==
        if e.value == Undefined then front
        else (if front == "{}" then "{" else front[..|front| - 1] + ",") + Quote(e.key) + ":" + Stringify(e.value) + "}"
  {
    hide Stringify, MemberTexts, Quote;
    ObjectText([]);
    ObjectText(entries);
    ObjectText(entries + [e]);
    MembersAdd(entries, e);
    var texts := MemberTexts(entries);
    var inner := Join(texts, ',');
    if e.value == Undefined {
      assert texts + [] == texts;
    } else {
      var text := Quote(e.key) + ":" + Stringify(e.value);
      JoinAdd(texts, text);
      MembersEmpty(entries);
      assert (['{'] + inner + ['}'])[..|inner| + 1] == "{" + inner;
      assert inner == "" <==> ['{'] + inner + ['}'] == "{}" by {
        assert |['{'] + inner + ['}']| == |inner| + 2;
      }
    }
  }

  lemma {:induction false} MembersEmpty(entries: seq<Entry>)
    ensures MemberTexts(entries) == [] <==> Join(MemberTexts(entries), ',') == ""
  {
    var texts := MemberTexts(entries);
    if texts != [] {
      MemberSome(entries);
      assert |Join(texts, ',')| >= |texts[0]|;
    }
  }

  lemma {:induction false} MemberSome(entries: seq<Entry>)
    requires MemberTexts(entries) != []
    ensures MemberTexts(entries)[0] != ""
  {
    if entries[0].value == Undefined {
      MemberSome(entries[1..]);
    }
  }
}

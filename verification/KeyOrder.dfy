/**
 The order of object keys: strings compare by their UTF-16 code units, the first difference deciding
 and a prefix coming first, and the canonical text of a value has the keys of every object in it.
 */
module KeyOrder {
  import opened Wrappers
  import opened Json
  import opened CanonicalJson
  import opened Sorting

  // ---------- strings as code units ----------

  /** A character of the basic plane is one unit, any other a surrogate pair (section 2.1 of RFC 2781). */
  function UnitsOf(c: char): seq<int> {
    var n := c as int;
    if n < 0x10000 then [n] else [0xD800 + (n - 0x10000) / 0x400, 0xDC00 + (n - 0x10000) % 0x400]
  }

  function Units(s: string): seq<int> {
    if s == "" then [] else UnitsOf(s[0]) + Units(s[1..])
  }

  /** `a` is a proper prefix of `b`, or smaller where they first differ. */
  ghost predicate Before(a: seq<int>, b: seq<int>) {
    exists k :: 0 <= k <= |a| && k < |b| && a[..k] == b[..k] && (k == |a| || a[k] < b[k])
  }

  lemma {:induction false} BeforeAfterPrefix(p: seq<int>, a: seq<int>, b: seq<int>)
    ensures Before(p + a, p + b) <==> Before(a, b)
  {
    var x, y := p + a, p + b;
    assert forall i :: 0 <= i < |p| ==> x[i] == p[i] && y[i] == p[i];
    if Before(a, b) {
      var k :| 0 <= k <= |a| && k < |b| && a[..k] == b[..k] && (k == |a| || a[k] < b[k]);
      assert x[..|p| + k] == p + a[..k] && y[..|p| + k] == p + b[..k];
      assert |p| + k < |x| ==> x[|p| + k] == a[k];
      assert y[|p| + k] == b[k];
    }
    if Before(x, y) {
      var k :| 0 <= k <= |x| && k < |y| && x[..k] == y[..k] && (k == |x| || x[k] < y[k]);
      var j := k - |p|;
      assert a[..j] == x[..k][|p|..] && b[..j] == y[..k][|p|..];
      assert j < |a| ==> a[j] == x[k];
      assert b[j] == y[k];
    }
  }

  lemma {:induction false} BeforeByFirst(a: seq<int>, b: seq<int>)
    requires a != [] && b != [] && a[0] != b[0]
    ensures Before(a, b) <==> a[0] < b[0]
  {
    forall k | 0 < k <= |a| && k <= |b| ensures a[..k] != b[..k] {
      assert a[..k][0] == a[0] && b[..k][0] == b[0];
    }
    if a[0] < b[0] {
      assert a[..0] == b[..0];
    }
  }

  /** Different characters compare by their units alone. */
  lemma {:induction false} CharsCompare(c: char, d: char, a: seq<int>, b: seq<int>)
    requires c != d
    ensures Before(UnitsOf(c) + a, UnitsOf(d) + b) <==> UnitRank(c) < UnitRank(d)
  {
    var x, y := UnitsOf(c) + a, UnitsOf(d) + b;
    if x[0] != y[0] {
      BeforeByFirst(x, y);
    } else {
      var high := [x[0]];
      var u, v := [UnitsOf(c)[1]] + a, [UnitsOf(d)[1]] + b;
      assert x == high + u && y == high + v;
      BeforeAfterPrefix(high, u, v);
      BeforeByFirst(u, v);
    }
  }

  /** The comparison that sorting uses is the comparison of code units. */
  lemma {:induction false} UnitLessExact(a: string, b: string)
    ensures UnitLess(a, b) <==> Before(Units(a), Units(b))
  {
    if a == "" || b == "" {
      if b != "" {
        assert Units(a)[..0] == Units(b)[..0];
      }
    } else if a[0] == b[0] {
      UnitLessExact(a[1..], b[1..]);
      BeforeAfterPrefix(UnitsOf(a[0]), Units(a[1..]), Units(b[1..]));
    } else {
      CharsCompare(a[0], b[0], Units(a[1..]), Units(b[1..]));
    }
  }

  // ---------- the keys of a canonical text ----------

  /** At every depth the keys of an object increase. */
  ghost predicate KeysIncrease(v: Value)
    decreases v
  {
    match v
    case Arr(items) => forall x | x in items :: KeysIncrease(x)
    case Obj(entries) =>
      && (forall i, j :: 0 <= i < j < |entries| ==> Before(Units(entries[i].key), Units(entries[j].key)))
      && (forall e | e in entries :: KeysIncrease(e.value))
    case _ => true
  }

  lemma {:induction false} ArrangedIncreases(v: Value)
    requires IsValue(v)
    ensures KeysIncrease(Arranged(v))
    decreases v
  {
    hide UnitLess, Before;
    match v
    case Arr(items) =>
      forall x | x in Arranged(v).items ensures KeysIncrease(x) {
        var i :| 0 <= i < |items| && x == Arranged(items[i]);
        ArrangedIncreases(items[i]);
      }
    case Obj(entries) =>
      var s, a := Sort(Defined(entries), KeyOf, UnitLess), Arranged(v).entries;
      PropertiesSorted(entries);
      forall i, j | 0 <= i < j < |a| ensures Before(Units(a[i].key), Units(a[j].key)) {
        assert UnitLess(KeyOf(s[i]), KeyOf(s[j]));
        UnitLessExact(s[i].key, s[j].key);
      }
      forall e | e in a ensures KeysIncrease(e.value) {
        var i :| 0 <= i < |s| && e == Entry(s[i].key, Arranged(s[i].value));
        assert s[i] in s;
        ArrangedIncreases(s[i].value);
      }
    case _ =>
  }

  /** Reading canonical text gives the same data, with the keys of every object in increasing order. */
  lemma {:induction false} CanonicalKeysIncrease(v: Value)
    requires IsData(v)
    ensures var read := Parse(CanonicalJson.CanonicalJson(v));
      read.Some? && SameData(v, read.value) && KeysIncrease(read.value)
  {
    hide Parse, CanonicalJson.CanonicalJson, SameData, KeysIncrease;
    DataIsValue(v);
    CanonicalReadBack(v);
    ArrangedIncreases(v);
  }
}

/**
 Canonical JSON of the compiler: objects with their keys in code-unit order. Two values get the
 same text exactly when they are the same data, but for arrays of a single undefined item, which
 print as empty ones.
 */
module CanonicalJson {
  import opened Wrappers
  import opened Text
  import opened Json
  import opened Sorting

  function KeyOf(e: Entry): string {
    e.key
  }

  function Defined(entries: seq<Entry>): (r: seq<Entry>)
    ensures forall e :: e in r <==> e in entries && e.value != Undefined
  {
    if entries == [] then []
    else
      assert entries == [entries[0]] + entries[1..];
      if entries[0].value == Undefined then Defined(entries[1..]) else [entries[0]] + Defined(entries[1..])
  }

  /** The result for undefined is undefined, which join prints as nothing; no other value gives the empty text. */
  function CanonicalJson(v: Value): string
    decreases v
  {
    match v
    case Undefined => ""
    case Arr(items) => ['['] + Join(ItemTexts(items, v), ',') + [']']
    case Obj(entries) =>
      ['{'] + Join(PropertyTexts(Sort(Defined(entries), KeyOf, UnitLess), v), ',') + ['}']
    case _ => Stringify(v)
  }

  /** An undefined item leaves an empty slot. */
  function ItemTexts(items: seq<Value>, parent: Value): (texts: seq<string>)
    requires forall i :: 0 <= i < |items| ==> items[i] < parent
    ensures |texts| == |items|
    decreases parent, |items|
  {
    if items == [] then []
    else
      [CanonicalJson(items[0])] + ItemTexts(items[1..], parent)
  }

  function PropertyTexts(entries: seq<Entry>, parent: Value): (texts: seq<string>)
    requires forall e | e in entries :: e.value < parent
    ensures |texts| == |entries|
    decreases parent, |entries|
  {
    if entries == [] then []
    else
      assert entries == [entries[0]] + entries[1..];
      [Quote(entries[0].key) + [':'] + CanonicalJson(entries[0].value)] + PropertyTexts(entries[1..], parent)
  }

  // ---------- when two values are the same data ----------

  /** A JavaScript value: no object has a key twice. Anything in it may be undefined. */
  predicate IsValue(v: Value)
    decreases v
  {
    match v
    case Arr(items) => forall x | x in items :: IsValue(x)
    case Obj(entries) => DistinctKeys(entries) && forall e | e in entries :: IsValue(e.value)
    case _ => true
  }

  /** A value whose canonical text is JSON: only object properties may be undefined. */
  predicate IsData(v: Value)
    decreases v
  {
    match v
    case Undefined => false
    case Arr(items) => forall x | x in items :: IsData(x)
    case Obj(entries) =>
      DistinctKeys(entries) && forall e | e in entries :: e.value == Undefined || IsData(e.value)
    case _ => true
  }

  function Property(entries: seq<Entry>, key: string): Option<Value> {
    Get(Defined(entries), key)
  }

  /** Equality up to the order of object keys and up to undefined properties. */
  ghost predicate SameData(v: Value, w: Value)
    decreases v
  {
    match v
    case Arr(items) =>
      && w.Arr?
      && |items| == |w.items|
      && forall i :: 0 <= i < |items| ==> SameData(items[i], w.items[i])
    case Obj(entries) =>
      && w.Obj?
      && (forall e | e in entries && e.value != Undefined ::
            && Property(w.entries, e.key).Some?
            && SameData(e.value, Property(w.entries, e.key).value))
      && (forall f | f in w.entries && f.value != Undefined :: Property(entries, f.key).Some?)
    case _ => v == w
  }

  /** The same data with every object in key order and without undefined properties. */
  function Arranged(v: Value): Value
    decreases v
  {
    match v
    case Arr(items) => Arr(ArrangedItems(items, v))
    case Obj(entries) => Obj(ArrangedEntries(Sort(Defined(entries), KeyOf, UnitLess), v))
    case _ => v
  }

  function ArrangedItems(items: seq<Value>, parent: Value): (r: seq<Value>)
    requires forall i :: 0 <= i < |items| ==> items[i] < parent
    ensures |r| == |items|
    ensures forall i :: 0 <= i < |r| ==> r[i] == Arranged(items[i])
    decreases parent, |items|
  {
    if items == [] then []
    else
      [Arranged(items[0])] + ArrangedItems(items[1..], parent)
  }

  function ArrangedEntries(entries: seq<Entry>, parent: Value): (r: seq<Entry>)
    requires forall e | e in entries :: e.value < parent
    ensures |r| == |entries|
    ensures forall i :: 0 <= i < |r| ==> r[i] == Entry(entries[i].key, Arranged(entries[i].value))
    decreases parent, |entries|
  {
    if entries == [] then []
    else
      assert entries == [entries[0]] + entries[1..];
      [Entry(entries[0].key, Arranged(entries[0].value))] + ArrangedEntries(entries[1..], parent)
  }

  lemma {:induction false} DefinedDistinct(entries: seq<Entry>)
    requires DistinctKeys(entries)
    ensures DistinctKeys(Defined(entries))
  {
    if entries != [] {
      DefinedDistinct(entries[1..]);
      var r := Defined(entries[1..]);
      forall e | e in r ensures e.key != entries[0].key {
        var k :| 0 <= k < |entries| - 1 && entries[1..][k] == e;
        assert entries[k + 1] == e;
      }
      if entries[0].value != Undefined {
        forall i, j | 0 <= i < j < |r| + 1
          ensures ([entries[0]] + r)[i].key != ([entries[0]] + r)[j].key
        {
          assert r[j - 1] in r;
        }
      }
    }
  }

  /** What the object case works with: the sorted properties, in increasing key order. */
  lemma {:induction false} PropertiesSorted(entries: seq<Entry>)
    requires DistinctKeys(entries)
    ensures
      var s := Sort(Defined(entries), KeyOf, UnitLess);
      Increasing(s, KeyOf, UnitLess) && DistinctKeys(s)
  {
    UnitLessIsOrder();
    DefinedDistinct(entries);
    SortIncreasing(Defined(entries), KeyOf, UnitLess);
    var s := Sort(Defined(entries), KeyOf, UnitLess);
    forall i, j | 0 <= i < j < |s| ensures s[i].key != s[j].key {
      assert UnitLess(KeyOf(s[i]), KeyOf(s[j]));
      UnitLessAsymmetric(KeyOf(s[i]), KeyOf(s[j]));
    }
  }

  lemma {:induction false} SameKeysIncreasing(s: seq<Entry>, a: seq<Entry>)
    requires |a| == |s| && forall i :: 0 <= i < |s| ==> a[i].key == s[i].key
    requires Increasing(s, KeyOf, UnitLess)
    ensures Increasing(a, KeyOf, UnitLess)
  {
    forall i, j | 0 <= i < j < |a| ensures UnitLess(KeyOf(a[i]), KeyOf(a[j])) {
      assert UnitLess(KeyOf(s[i]), KeyOf(s[j]));
    }
  }

  /** Canonical text is the JSON text of the arranged value. */
  lemma {:induction false} CanonicalIsStringify(v: Value)
    requires IsData(v)
    ensures CanonicalJson(v) == Stringify(Arranged(v))
    decreases v
  {
    match v
    case Arr(items) => ItemsAreTexts(items, v);
    case Obj(entries) =>
      PropertiesSorted(entries);
      PropertiesAreTexts(Sort(Defined(entries), KeyOf, UnitLess), v);
    case _ =>
  }

  lemma {:induction false} ItemsAreTexts(items: seq<Value>, parent: Value)
    requires forall i :: 0 <= i < |items| ==> items[i] < parent && IsData(items[i])
    ensures ItemTexts(items, parent) == ElementTexts(ArrangedItems(items, parent))
    decreases parent, |items|
  {
    if items != [] {
      CanonicalIsStringify(items[0]);
      ItemsAreTexts(items[1..], parent);
    }
  }

  lemma {:induction false} PropertiesAreTexts(entries: seq<Entry>, parent: Value)
    requires forall e | e in entries :: e.value < parent && IsData(e.value)
    ensures PropertyTexts(entries, parent) == MemberTexts(ArrangedEntries(entries, parent))
    decreases parent, |entries|
  {
    if entries != [] {
      assert entries == [entries[0]] + entries[1..];
      assert entries[0] in entries;
      CanonicalIsStringify(entries[0].value);
      PropertiesAreTexts(entries[1..], parent);
      var a := ArrangedEntries(entries, parent);
      assert a[1..] == ArrangedEntries(entries[1..], parent);
      assert a[0].value != Undefined;
    }
  }

  lemma {:induction false} ArrangedIsJson(v: Value)
    requires IsData(v)
    ensures IsJson(Arranged(v))
    decreases v
  {
    match v
    case Arr(items) =>
      forall x | x in Arranged(v).items ensures IsJson(x) {
        var i :| 0 <= i < |items| && x == Arranged(items[i]);
        ArrangedIsJson(items[i]);
      }
    case Obj(entries) =>
      PropertiesSorted(entries);
      var s := Sort(Defined(entries), KeyOf, UnitLess);
      forall e | e in Arranged(v).entries ensures IsJson(e.value) {
        var i :| 0 <= i < |s| && e == Entry(s[i].key, Arranged(s[i].value));
        assert s[i] in s;
        ArrangedIsJson(s[i].value);
      }
    case _ =>
  }

  /** Arranging decides whether two values are the same data. */
  lemma {:induction false} SameIffArranged(v: Value, w: Value)
    requires IsValue(v) && IsValue(w)
    ensures SameData(v, w) <==> Arranged(v) == Arranged(w)
    decreases v
  {
    match v
    case Arr(items) =>
      if w.Arr? && |items| == |w.items| {
        forall i | 0 <= i < |items|
          ensures SameData(items[i], w.items[i]) <==> Arranged(v).items[i] == Arranged(w).items[i]
        {
          assert items[i] in items && w.items[i] in w.items;
          SameIffArranged(items[i], w.items[i]);
        }
      }
    case Obj(entries) =>
      if w.Obj? {
        if SameData(v, w) {
          SameObjects(v, w);
        }
        if Arranged(v) == Arranged(w) {
          ArrangedObjects(v, w);
        }
      }
    case _ =>
  }

  lemma {:induction false} SameObjects(v: Value, w: Value)
    requires v.Obj? && w.Obj? && IsValue(v) && IsValue(w) && SameData(v, w)
    ensures Arranged(v) == Arranged(w)
    decreases v, 0
  {
    hide UnitLess, Sort, SameData, Get, Defined;
    PropertiesSorted(v.entries);
    PropertiesSorted(w.entries);
    DefinedDistinct(w.entries);
    var s, t := Sort(Defined(v.entries), KeyOf, UnitLess), Sort(Defined(w.entries), KeyOf, UnitLess);
    var a, b := Arranged(v).entries, Arranged(w).entries;
    FirstInSecond(v, w);
    SecondInFirst(v, w);
    SameKeysIncreasing(s, a);
    SameKeysIncreasing(t, b);
    UnitLessIsOrder();
    IncreasingUnique(a, b, KeyOf, UnitLess);
  }

  lemma {:induction false} FirstInSecond(v: Value, w: Value)
    requires v.Obj? && w.Obj? && IsValue(v) && IsValue(w) && SameData(v, w)
    ensures forall x :: x in Arranged(v).entries ==> x in Arranged(w).entries
    decreases v, 0, 1
  {
    hide UnitLess, Sort, SameData;
    var s := Sort(Defined(v.entries), KeyOf, UnitLess);
    var a := Arranged(v).entries;
    forall x | x in a ensures x in Arranged(w).entries {
      var i :| 0 <= i < |s| && x == Entry(s[i].key, Arranged(s[i].value));
      assert s[i] in s;
      Matched(v, w, s[i]);
    }
  }

  lemma {:induction false} SecondInFirst(v: Value, w: Value)
    requires v.Obj? && w.Obj? && IsValue(v) && IsValue(w) && SameData(v, w)
    ensures forall y :: y in Arranged(w).entries ==> y in Arranged(v).entries
    decreases v, 0, 1
  {
    hide UnitLess, Sort;
    DefinedDistinct(w.entries);
    var s, t := Sort(Defined(v.entries), KeyOf, UnitLess), Sort(Defined(w.entries), KeyOf, UnitLess);
    var a, b := Arranged(v).entries, Arranged(w).entries;
    forall y | y in b ensures y in a {
      var j :| 0 <= j < |t| && y == Entry(t[j].key, Arranged(t[j].value));
      assert t[j] in t;
      var k := GetSome(Defined(v.entries), t[j].key);
      var e := Defined(v.entries)[k];
      Matched(v, w, e);
      GetOf(Defined(w.entries), t[j]);
      assert e in s;
      var i :| 0 <= i < |s| && s[i] == e;
      assert a[i] == y;
    }
  }

  lemma {:induction false} GetOf(entries: seq<Entry>, e: Entry)
    requires DistinctKeys(entries) && e in entries
    ensures Get(entries, e.key) == Some(e.value)
  {
    var i :| 0 <= i < |entries| && entries[i] == e;
    GetIs(entries, i);
  }

  /** The property of `w` that corresponds to a property of the same data `v`. */
  lemma {:induction false} Matched(v: Value, w: Value, e: Entry)
    requires v.Obj? && w.Obj? && IsValue(v) && IsValue(w) && SameData(v, w)
    requires e in v.entries && e.value != Undefined
    ensures Property(w.entries, e.key).Some?
    ensures Arranged(Property(w.entries, e.key).value) == Arranged(e.value)
    ensures Entry(e.key, Arranged(e.value)) in Arranged(w).entries
    decreases v, 0, 0
  {
    var k := GetSome(Defined(w.entries), e.key);
    var f := Defined(w.entries)[k];
    assert f in Defined(w.entries);
    SameIffArranged(e.value, f.value);
    var t := Sort(Defined(w.entries), KeyOf, UnitLess);
    assert f in t;
    var j :| 0 <= j < |t| && t[j] == f;
    assert Arranged(w).entries[j] == Entry(e.key, Arranged(e.value));
  }

  lemma {:induction false} ArrangedObjects(v: Value, w: Value)
    requires v.Obj? && w.Obj? && IsValue(v) && IsValue(w) && Arranged(v) == Arranged(w)
    ensures SameData(v, w)
    decreases v, 0
  {
    DefinedDistinct(v.entries);
    DefinedDistinct(w.entries);
    forall e | e in v.entries && e.value != Undefined
      ensures Property(w.entries, e.key).Some? && SameData(e.value, Property(w.entries, e.key).value)
    {
      var f := Counterpart(v, w, e);
      GetOf(Defined(w.entries), f);
      SameIffArranged(e.value, f.value);
    }
    forall f | f in w.entries && f.value != Undefined ensures Property(v.entries, f.key).Some? {
      var e := Counterpart(w, v, f);
      GetOf(Defined(v.entries), e);
    }
  }

  lemma {:induction false} Counterpart(v: Value, w: Value, e: Entry) returns (f: Entry)
    requires v.Obj? && w.Obj? && Arranged(v) == Arranged(w)
    requires e in v.entries && e.value != Undefined
    ensures f in w.entries && f.value != Undefined
    ensures f.key == e.key && Arranged(f.value) == Arranged(e.value)
  {
    var s, t := Sort(Defined(v.entries), KeyOf, UnitLess), Sort(Defined(w.entries), KeyOf, UnitLess);
    assert e in s;
    var i :| 0 <= i < |s| && s[i] == e;
    assert Arranged(v).entries[i] == Entry(e.key, Arranged(e.value));
    assert Arranged(w).entries[i] == Entry(t[i].key, Arranged(t[i].value));
    assert t[i] in t;
    f := t[i];
  }

  // ---------- texts with empty slots ----------

  /** The text of an arranged value. */
  function SlotText(v: Value): string
    decreases v, 1
  {
    match v
    case Undefined => ""
    case Arr(items) => ['['] + Join(SlotTexts(items), ',') + [']']
    case Obj(entries) => ['{'] + Join(SlotMembers(entries), ',') + ['}']
    case _ => Stringify(v)
  }

  function SlotTexts(items: seq<Value>): (texts: seq<string>)
    ensures |texts| == |items|
    decreases items, 0
  {
    if items == [] then [] else [SlotText(items[0])] + SlotTexts(items[1..])
  }

  function SlotMembers(entries: seq<Entry>): (texts: seq<string>)
    ensures |texts| == |entries|
    decreases entries, 0
  {
    if entries == [] then []
    else [Quote(entries[0].key) + [':'] + SlotText(entries[0].value)] + SlotMembers(entries[1..])
  }

  lemma {:induction false} CanonicalIsSlots(v: Value)
    requires IsValue(v)
    ensures CanonicalJson(v) == SlotText(Arranged(v))
    decreases v
  {
    match v
    case Arr(items) => ItemsAreSlots(items, v);
    case Obj(entries) => PropertiesAreSlots(Sort(Defined(entries), KeyOf, UnitLess), v);
    case _ =>
  }

  lemma {:induction false} ItemsAreSlots(items: seq<Value>, parent: Value)
    requires forall i :: 0 <= i < |items| ==> items[i] < parent && IsValue(items[i])
    ensures ItemTexts(items, parent) == SlotTexts(ArrangedItems(items, parent))
    decreases parent, |items|
  {
    if items != [] {
      CanonicalIsSlots(items[0]);
      ItemsAreSlots(items[1..], parent);
    }
  }

  lemma {:induction false} PropertiesAreSlots(entries: seq<Entry>, parent: Value)
    requires forall e | e in entries :: e.value < parent && IsValue(e.value)
    ensures PropertyTexts(entries, parent) == SlotMembers(ArrangedEntries(entries, parent))
    decreases parent, |entries|
  {
    if entries != [] {
      assert entries == [entries[0]] + entries[1..];
      assert entries[0] in entries;
      CanonicalIsSlots(entries[0].value);
      PropertiesAreSlots(entries[1..], parent);
      var a := ArrangedEntries(entries, parent);
      assert a[1..] == ArrangedEntries(entries[1..], parent);
    }
  }

  /** No array holds a single undefined item and nothing else. */
  predicate NoLoneHole(v: Value)
    decreases v
  {
    match v
    case Arr(items) => items != [Undefined] && forall x | x in items :: NoLoneHole(x)
    case Obj(entries) => forall e | e in entries :: NoLoneHole(e.value)
    case _ => true
  }

  lemma {:induction false} ArrangedHasNoLoneHole(v: Value)
    requires NoLoneHole(v)
    ensures NoLoneHole(Arranged(v))
    decreases v
  {
    match v
    case Arr(items) =>
      var a := Arranged(v).items;
      forall x | x in a ensures NoLoneHole(x) {
        var i :| 0 <= i < |items| && x == Arranged(items[i]);
        ArrangedHasNoLoneHole(items[i]);
      }
    case Obj(entries) =>
      var s := Sort(Defined(entries), KeyOf, UnitLess);
      forall e | e in Arranged(v).entries ensures NoLoneHole(e.value) {
        var i :| 0 <= i < |s| && e == Entry(s[i].key, Arranged(s[i].value));
        assert s[i] in s;
        ArrangedHasNoLoneHole(s[i].value);
      }
    case _ =>
  }

  // ---------- every text is one value's ----------

  /** The first character of a text says what kind of value follows; an empty slot has none. */
  lemma {:induction false} SlotHead(v: Value)
    requires v != Undefined
    ensures SlotText(v) != ""
    ensures var c := SlotText(v)[0];
      && c != ',' && c != ']' && c != '}'
      && (c == '[' <==> v.Arr?) && (c == '{' <==> v.Obj?)
  {
    if v.Num? {
      assert IsDigit(NatText(if v.n < 0 then -v.n else v.n)[0]);
    }
  }

  /** Texts followed by what may follow a value are the same only for the same value. */
  lemma {:induction false} TextApart(v: Value, w: Value, r: string, q: string)
    requires NoLoneHole(v) && NoLoneHole(w) && Ends(r) && Ends(q)
    requires SlotText(v) + r == SlotText(w) + q
    ensures v == w && r == q
    decreases v, 1
  {
    if v == Undefined || w == Undefined {
      EmptySlot(v, w, r, q);
    } else {
      SlotHead(v);
      SlotHead(w);
      assert (SlotText(v) + r)[0] == SlotText(v)[0] && (SlotText(w) + q)[0] == SlotText(w)[0];
      if v.Arr? {
        ArraysApart(v.items, w.items, r, q);
      } else if v.Obj? {
        ObjectsApart(v.entries, w.entries, r, q);
      } else {
        ScalarRead(v, r);
        ScalarRead(w, q);
      }
    }
  }

  lemma {:induction false} EmptySlot(v: Value, w: Value, r: string, q: string)
    requires (v == Undefined || w == Undefined) && Ends(r) && Ends(q) && SlotText(v) + r == SlotText(w) + q
    ensures v == w && r == q
  {
    if v != Undefined {
      SlotHead(v);
      assert (SlotText(v) + r)[0] == SlotText(v)[0];
    }
    if w != Undefined {
      SlotHead(w);
      assert (SlotText(w) + q)[0] == SlotText(w)[0];
    }
    assert v == w ==> SlotText(v) + r == r && SlotText(w) + q == q;
  }

  lemma {:induction false} ArraysApart(items: seq<Value>, others: seq<Value>, r: string, q: string)
    requires NoLoneHole(Arr(items)) && NoLoneHole(Arr(others))
    requires SlotText(Arr(items)) + r == SlotText(Arr(others)) + q
    ensures items == others && r == q
    decreases items, 1
  {
    var a, b := Join(SlotTexts(items), ',') + [']'] + r, Join(SlotTexts(others), ',') + [']'] + q;
    assert SlotText(Arr(items)) + r == ['['] + a && SlotText(Arr(others)) + q == ['['] + b;
    assert a == (['['] + a)[1..] && b == (['['] + b)[1..];
    if items == [] || others == [] {
      EmptyArrayApart(items, others, r, q);
    } else {
      ItemsApart(items, others, r, q);
    }
  }

  lemma {:induction false} EmptyArrayApart(items: seq<Value>, others: seq<Value>, r: string, q: string)
    requires items == [] || others == []
    requires items != [Undefined] && others != [Undefined]
    requires Join(SlotTexts(items), ',') + [']'] + r == Join(SlotTexts(others), ',') + [']'] + q
    ensures items == others && r == q
  {
    var a, b := Join(SlotTexts(items), ',') + [']'] + r, Join(SlotTexts(others), ',') + [']'] + q;
    FirstSlot(items, r);
    FirstSlot(others, q);
    if items == [] && others == [] {
      assert a[1..] == r && b[1..] == q;
    }
  }

  /** Only the text of an empty array, or of a lone hole, goes on with its closing bracket. */
  lemma {:induction false} FirstSlot(items: seq<Value>, r: string)
    requires items != [Undefined]
    ensures var t := Join(SlotTexts(items), ',') + [']'] + r; t != "" && (t[0] == ']' <==> items == [])
  {
    if items != [] {
      var t := Join(SlotTexts(items), ',') + [']'] + r;
      SlotsSplit(items, r);
      if items[0] == Undefined {
        assert |items| > 1;
        assert t[0] == ',';
      } else {
        SlotHead(items[0]);
        assert t[0] == SlotText(items[0])[0];
      }
    }
  }

  /** What follows the first item. */
  function AfterFirst(items: seq<Value>, r: string): string
    requires items != []
  {
    if |items| == 1 then [']'] + r else [','] + (Join(SlotTexts(items[1..]), ',') + [']'] + r)
  }

  lemma {:induction false} SlotsSplit(items: seq<Value>, r: string)
    requires items != []
    ensures Join(SlotTexts(items), ',') + [']'] + r == SlotText(items[0]) + AfterFirst(items, r)
    ensures Ends(AfterFirst(items, r))
  {
    var texts := SlotTexts(items);
    assert texts[0] == SlotText(items[0]) && texts[1..] == SlotTexts(items[1..]);
  }

  lemma {:induction false} ItemsApart(items: seq<Value>, others: seq<Value>, r: string, q: string)
    requires items != [] && others != []
    requires (forall x | x in items :: NoLoneHole(x)) && forall x | x in others :: NoLoneHole(x)
    requires Join(SlotTexts(items), ',') + [']'] + r == Join(SlotTexts(others), ',') + [']'] + q
    ensures items == others && r == q
    decreases items, 0
  {
    hide SlotText, NoLoneHole;
    SlotsSplit(items, r);
    SlotsSplit(others, q);
    assert items[0] in items && others[0] in others;
    TextApart(items[0], others[0], AfterFirst(items, r), AfterFirst(others, q));
    var a, b := AfterFirst(items, r), AfterFirst(others, q);
    assert a[0] == b[0] && a[1..] == b[1..];
    if |items| == 1 {
      assert items == [items[0]] && others == [others[0]];
    } else {
      ItemsApart(items[1..], others[1..], r, q);
      assert items == [items[0]] + items[1..] && others == [others[0]] + others[1..];
    }
  }

  lemma {:induction false} ObjectsApart(entries: seq<Entry>, others: seq<Entry>, r: string, q: string)
    requires NoLoneHole(Obj(entries)) && NoLoneHole(Obj(others))
    requires SlotText(Obj(entries)) + r == SlotText(Obj(others)) + q
    ensures entries == others && r == q
    decreases entries, 1
  {
    var a, b := Join(SlotMembers(entries), ',') + ['}'] + r, Join(SlotMembers(others), ',') + ['}'] + q;
    assert SlotText(Obj(entries)) + r == ['{'] + a && SlotText(Obj(others)) + q == ['{'] + b;
    assert a == (['{'] + a)[1..] && b == (['{'] + b)[1..];
    if entries == [] || others == [] {
      EmptyObjectApart(entries, others, r, q);
    } else {
      MembersApart(entries, others, r, q);
    }
  }

  lemma {:induction false} EmptyObjectApart(entries: seq<Entry>, others: seq<Entry>, r: string, q: string)
    requires entries == [] || others == []
    requires Join(SlotMembers(entries), ',') + ['}'] + r == Join(SlotMembers(others), ',') + ['}'] + q
    ensures entries == others && r == q
  {
    var a, b := Join(SlotMembers(entries), ',') + ['}'] + r, Join(SlotMembers(others), ',') + ['}'] + q;
    FirstMember(entries, r);
    FirstMember(others, q);
    if entries == [] && others == [] {
      assert a[1..] == r && b[1..] == q;
    }
  }

  lemma {:induction false} FirstMember(entries: seq<Entry>, r: string)
    ensures var t := Join(SlotMembers(entries), ',') + ['}'] + r; t != "" && t[0] == if entries == [] then '}' else '\"'
  {
    if entries != [] {
      MembersSplit(entries, r);
    }
  }

  function AfterMember(entries: seq<Entry>, r: string): string
    requires entries != []
  {
    if |entries| == 1 then ['}'] + r else [','] + (Join(SlotMembers(entries[1..]), ',') + ['}'] + r)
  }

  lemma {:induction false} MembersSplit(entries: seq<Entry>, r: string)
    requires entries != []
    ensures Join(SlotMembers(entries), ',') + ['}'] + r
         == Quote(entries[0].key) + ([':'] + (SlotText(entries[0].value) + AfterMember(entries, r)))
    ensures Ends(AfterMember(entries, r))
  {
    hide Quote, SlotText;
    var texts := SlotMembers(entries);
    var key, text, after := Quote(entries[0].key), SlotText(entries[0].value), AfterMember(entries, r);
    assert texts[0] == key + [':'] + text && texts[1..] == SlotMembers(entries[1..]);
    assert Join(texts, ',') + ['}'] + r == texts[0] + after;
    MemberConcat(key, text, after);
  }

  lemma {:induction false} MembersApart(entries: seq<Entry>, others: seq<Entry>, r: string, q: string)
    requires entries != [] && others != []
    requires (forall e | e in entries :: NoLoneHole(e.value)) && forall e | e in others :: NoLoneHole(e.value)
    requires Join(SlotMembers(entries), ',') + ['}'] + r == Join(SlotMembers(others), ',') + ['}'] + q
    ensures entries == others && r == q
    decreases entries, 0
  {
    hide SlotText, NoLoneHole, Quote;
    MembersSplit(entries, r);
    MembersSplit(others, q);
    assert entries[0] in entries && others[0] in others;
    var a, b := AfterMember(entries, r), AfterMember(others, q);
    KeysApart(entries[0].key, others[0].key, SlotText(entries[0].value) + a, SlotText(others[0].value) + b);
    TextApart(entries[0].value, others[0].value, a, b);
    RestApart(entries, others, r, q);
    assert entries == [entries[0]] + entries[1..] && others == [others[0]] + others[1..];
    if |entries| > 1 {
      MembersApart(entries[1..], others[1..], r, q);
    }
  }

  lemma {:induction false} RestApart(entries: seq<Entry>, others: seq<Entry>, r: string, q: string)
    requires entries != [] && others != [] && AfterMember(entries, r) == AfterMember(others, q)
    ensures |entries| == 1 <==> |others| == 1
    ensures if |entries| == 1 then r == q
            else Join(SlotMembers(entries[1..]), ',') + ['}'] + r == Join(SlotMembers(others[1..]), ',') + ['}'] + q
  {
    hide SlotMembers, Join;
    var a, b := AfterMember(entries, r), AfterMember(others, q);
    assert a[0] == b[0] && a[1..] == b[1..];
  }

  lemma {:induction false} KeysApart(k: string, l: string, x: string, y: string)
    requires Quote(k) + ([':'] + x) == Quote(l) + ([':'] + y)
    ensures k == l && x == y
  {
    hide EscapeAll, ParseChars;
    var s, t := [':'] + x, [':'] + y;
    assert (Quote(k) + s)[1..] == EscapeAll(k) + ['\"'] + s;
    assert (Quote(l) + t)[1..] == EscapeAll(l) + ['\"'] + t;
    CharsRead(k, s);
    CharsRead(l, t);
    assert s[1..] == x && t[1..] == y;
  }

  // ---------- the canonical form ----------

  /** Without arrays of a single undefined item: equal texts exactly for the same data. */
  lemma {:induction false} CanonicalForm(v: Value, w: Value)
    requires IsValue(v) && IsValue(w) && NoLoneHole(v) && NoLoneHole(w)
    ensures CanonicalJson(v) == CanonicalJson(w) <==> SameData(v, w)
  {
    hide NoLoneHole, SlotText, Arranged, SameData, CanonicalJson;
    CanonicalIsSlots(v);
    CanonicalIsSlots(w);
    SameIffArranged(v, w);
    if CanonicalJson(v) == CanonicalJson(w) {
      ArrangedHasNoLoneHole(v);
      ArrangedHasNoLoneHole(w);
      assert SlotText(Arranged(v)) + "" == SlotText(Arranged(w)) + "";
      TextApart(Arranged(v), Arranged(w), "", "");
    }
  }

  /** Every array of a single undefined item emptied. */
  function Emptied(v: Value): Value
    decreases v
  {
    match v
    case Arr(items) => if items == [Undefined] then Arr([]) else Arr(EmptiedItems(items, v))
    case Obj(entries) => Obj(EmptiedEntries(entries, v))
    case _ => v
  }

  function EmptiedItems(items: seq<Value>, parent: Value): (r: seq<Value>)
    requires forall i :: 0 <= i < |items| ==> items[i] < parent
    ensures |r| == |items| && forall i :: 0 <= i < |r| ==> r[i] == Emptied(items[i])
    decreases parent, |items|
  {
    if items == [] then [] else [Emptied(items[0])] + EmptiedItems(items[1..], parent)
  }

  function EmptiedEntries(entries: seq<Entry>, parent: Value): (r: seq<Entry>)
    requires forall e | e in entries :: e.value < parent
    ensures |r| == |entries| && forall i :: 0 <= i < |r| ==> r[i] == Entry(entries[i].key, Emptied(entries[i].value))
    decreases parent, |entries|
  {
    if entries == [] then []
    else
      assert entries == [entries[0]] + entries[1..];
      [Entry(entries[0].key, Emptied(entries[0].value))] + EmptiedEntries(entries[1..], parent)
  }

  lemma {:induction false} EmptiedIsValue(v: Value)
    requires IsValue(v)
    ensures IsValue(Emptied(v)) && NoLoneHole(Emptied(v))
    decreases v
  {
    match v
    case Arr(items) =>
      if items != [Undefined] {
        var a := Emptied(v).items;
        forall x | x in a ensures IsValue(x) && NoLoneHole(x) {
          var i :| 0 <= i < |items| && x == Emptied(items[i]);
          EmptiedIsValue(items[i]);
        }
      }
    case Obj(entries) =>
      forall e | e in Emptied(v).entries ensures IsValue(e.value) && NoLoneHole(e.value) {
        var i :| 0 <= i < |entries| && e == Entry(entries[i].key, Emptied(entries[i].value));
        EmptiedIsValue(entries[i].value);
      }
    case _ =>
  }

  lemma {:induction false} EmptiedDefined(entries: seq<Entry>, parent: Value, x: Entry)
    requires forall e | e in entries :: e.value < parent
    ensures x in Defined(EmptiedEntries(entries, parent))
       <==> exists e :: e in entries && e.value != Undefined && x == Entry(e.key, Emptied(e.value))
  {
    hide Emptied, Defined;
    var m := EmptiedEntries(entries, parent);
    if x in Defined(m) {
      var i :| 0 <= i < |m| && m[i] == x;
      EmptiedUndefined(entries[i].value);
      assert entries[i] in entries && entries[i].value != Undefined;
    }
    if e :| e in entries && e.value != Undefined && x == Entry(e.key, Emptied(e.value)) {
      var i :| 0 <= i < |entries| && entries[i] == e;
      EmptiedUndefined(e.value);
      assert m[i] == x;
    }
  }

  lemma EmptiedUndefined(v: Value)
    ensures Emptied(v) == Undefined <==> v == Undefined
  {
  }

  /** The emptied entries in key order are the entries in key order, emptied. */
  lemma {:induction false} EmptiedProperties(entries: seq<Entry>, parent: Value)
    requires DistinctKeys(entries) && forall e | e in entries :: e.value < parent
    ensures var s := Sort(Defined(entries), KeyOf, UnitLess);
      Sort(Defined(EmptiedEntries(entries, parent)), KeyOf, UnitLess) == EmptiedEntries(s, parent)
  {
    hide UnitLess, Sort, Emptied, Defined;
    var m := EmptiedEntries(entries, parent);
    assert DistinctKeys(m);
    var s, t := Sort(Defined(entries), KeyOf, UnitLess), Sort(Defined(m), KeyOf, UnitLess);
    PropertiesSorted(entries);
    PropertiesSorted(m);
    var a := EmptiedEntries(s, parent);
    SameKeysIncreasing(s, a);
    forall x ensures x in t <==> x in a {
      EmptiedDefined(entries, parent, x);
      EmptiedMember(s, parent, x);
      assert forall e :: e in s <==> e in entries && e.value != Undefined;
    }
    UnitLessIsOrder();
    IncreasingUnique(t, a, KeyOf, UnitLess);
  }

  lemma {:induction false} EmptiedMember(entries: seq<Entry>, parent: Value, x: Entry)
    requires forall e | e in entries :: e.value < parent
    ensures x in EmptiedEntries(entries, parent) <==> exists e :: e in entries && x == Entry(e.key, Emptied(e.value))
  {
    hide Emptied;
    var m := EmptiedEntries(entries, parent);
    if x in m {
      var i :| 0 <= i < |m| && m[i] == x;
      assert entries[i] in entries;
    }
    if e :| e in entries && x == Entry(e.key, Emptied(e.value)) {
      var i :| 0 <= i < |entries| && entries[i] == e;
      assert m[i] == x;
    }
  }

  /** Emptying them does not show in the text. */
  lemma {:induction false} EmptiedText(v: Value)
    requires IsValue(v)
    ensures CanonicalJson(Emptied(v)) == CanonicalJson(v)
    decreases v
  {
    match v
    case Arr(items) =>
      if items == [Undefined] {
        assert ItemTexts(items, v) == [""];
      } else {
        EmptiedItemTexts(items, v, Emptied(v));
      }
    case Obj(entries) =>
      hide Sort, UnitLess;
      EmptiedProperties(entries, v);
      var s := Sort(Defined(entries), KeyOf, UnitLess);
      forall e | e in s ensures e in entries && e.value < v && IsValue(e.value) {
        assert e in Defined(entries);
      }
      EmptiedPropertyTexts(s, v, Emptied(v));
    case _ =>
  }

  lemma {:induction false} EmptiedItemTexts(items: seq<Value>, parent: Value, emptied: Value)
    requires forall i :: 0 <= i < |items| ==> items[i] < parent && Emptied(items[i]) < emptied && IsValue(items[i])
    ensures ItemTexts(EmptiedItems(items, parent), emptied) == ItemTexts(items, parent)
    decreases parent, |items|
  {
    if items != [] {
      EmptiedText(items[0]);
      EmptiedItemTexts(items[1..], parent, emptied);
      assert EmptiedItems(items, parent)[1..] == EmptiedItems(items[1..], parent);
    }
  }

  lemma {:induction false} EmptiedPropertyTexts(entries: seq<Entry>, parent: Value, emptied: Value)
    requires forall e | e in entries :: e.value < parent && IsValue(e.value)
    requires forall e | e in EmptiedEntries(entries, parent) :: e.value < emptied
    ensures PropertyTexts(EmptiedEntries(entries, parent), emptied) == PropertyTexts(entries, parent)
    decreases parent, |entries|
  {
    if entries != [] {
      assert entries == [entries[0]] + entries[1..];
      assert entries[0] in entries;
      var m := EmptiedEntries(entries, parent);
      assert m[1..] == EmptiedEntries(entries[1..], parent) && m[0] in m && m == [m[0]] + m[1..];
      EmptiedText(entries[0].value);
      EmptiedPropertyTexts(entries[1..], parent, emptied);
    }
  }

  /** Of all values: equal texts exactly for what is the same data once those arrays are emptied. */
  lemma {:induction false} EqualTextsExact(v: Value, w: Value)
    requires IsValue(v) && IsValue(w)
    ensures CanonicalJson(v) == CanonicalJson(w) <==> SameData(Emptied(v), Emptied(w))
  {
    hide CanonicalJson, SameData, NoLoneHole;
    EmptiedText(v);
    EmptiedText(w);
    EmptiedIsValue(v);
    EmptiedIsValue(w);
    CanonicalForm(Emptied(v), Emptied(w));
  }

  lemma {:induction false} DataIsValue(v: Value)
    requires IsData(v)
    ensures IsValue(v) && NoLoneHole(v)
    decreases v
  {
    match v
    case Arr(items) =>
      assert Undefined !in items;
      assert Undefined in [Undefined];
      forall x | x in items ensures IsValue(x) && NoLoneHole(x) {
        DataIsValue(x);
      }
    case Obj(entries) =>
      forall e | e in entries ensures IsValue(e.value) && NoLoneHole(e.value) {
        if e.value != Undefined {
          DataIsValue(e.value);
        }
      }
    case _ =>
  }

  lemma {:induction false} JsonIsData(v: Value)
    requires IsJson(v)
    ensures IsData(v)
    decreases v
  {
    match v
    case Arr(items) =>
      forall x | x in items ensures IsData(x) {
        JsonIsData(x);
      }
    case Obj(entries) =>
      forall e | e in entries ensures IsData(e.value) {
        JsonIsData(e.value);
      }
    case _ =>
  }

  lemma {:induction false} DefinedAll(entries: seq<Entry>)
    requires forall e | e in entries :: e.value != Undefined
    ensures Defined(entries) == entries
  {
    if entries != [] {
      assert entries == [entries[0]] + entries[1..];
      assert entries[0] in entries;
      DefinedAll(entries[1..]);
    }
  }

  /** Arranged properties are already in order. */
  lemma {:induction false} ArrangedSorted(entries: seq<Entry>, a: seq<Entry>)
    requires DistinctKeys(entries)
    requires
      var s := Sort(Defined(entries), KeyOf, UnitLess);
      |a| == |s| && forall i :: 0 <= i < |s| ==> a[i].key == s[i].key && a[i].value != Undefined
    ensures Sort(Defined(a), KeyOf, UnitLess) == a
  {
    PropertiesSorted(entries);
    SameKeysIncreasing(Sort(Defined(entries), KeyOf, UnitLess), a);
    DefinedAll(a);
    UnitLessIsOrder();
    SortFixed(a, KeyOf, UnitLess);
  }

  /** Arranging is idempotent. */
  lemma {:induction false} ArrangedTwice(v: Value)
    requires IsData(v)
    ensures Arranged(Arranged(v)) == Arranged(v)
    decreases v
  {
    match v
    case Arr(items) =>
      forall i | 0 <= i < |items| ensures Arranged(Arranged(items[i])) == Arranged(items[i]) {
        assert items[i] in items;
        ArrangedTwice(items[i]);
      }
    case Obj(entries) =>
      var s, a := Sort(Defined(entries), KeyOf, UnitLess), Arranged(v).entries;
      forall i | 0 <= i < |s|
        ensures Arranged(a[i].value) == a[i].value && a[i].value != Undefined
      {
        assert s[i] in s;
        ArrangedTwice(s[i].value);
      }
      ArrangedSorted(entries, a);
      ArrangedFixed(a);
    case _ =>
  }

  lemma {:induction false} ArrangedFixed(a: seq<Entry>)
    requires Sort(Defined(a), KeyOf, UnitLess) == a
    requires forall i :: 0 <= i < |a| ==> Arranged(a[i].value) == a[i].value
    ensures Arranged(Obj(a)) == Obj(a)
  {
    hide Sort, Defined;
    var b := ArrangedEntries(a, Obj(a));
    forall i | 0 <= i < |a| ensures b[i] == a[i] {
      assert b[i] == Entry(a[i].key, Arranged(a[i].value));
    }
    assert b == a;
  }

  /** Reading canonical text back gives the same data, so nothing is lost. */
  lemma CanonicalReadBack(v: Value)
    requires IsData(v)
    ensures Parse(CanonicalJson(v)) == Some(Arranged(v))
    ensures SameData(v, Arranged(v))
  {
    CanonicalIsStringify(v);
    ArrangedIsJson(v);
    ParseStringify(Arranged(v));
    JsonIsData(Arranged(v));
    DataIsValue(v);
    DataIsValue(Arranged(v));
    ArrangedTwice(v);
    SameIffArranged(v, Arranged(v));
  }

  /** The one way to lose an undefined item: alone in its array. Beside others it leaves an empty slot. */
  lemma {:induction false} LoneUndefinedIsLost()
    ensures CanonicalJson(Arr([Undefined])) == CanonicalJson(Arr([]))
    ensures !SameData(Arr([Undefined]), Arr([]))
    ensures CanonicalJson(Arr([Undefined, Null])) != CanonicalJson(Arr([Null]))
  {
    var v := Arr([Undefined]);
    assert ItemTexts(v.items, v) == [""];
    CanonicalForm(Arr([Undefined, Null]), Arr([Null]));
  }
}

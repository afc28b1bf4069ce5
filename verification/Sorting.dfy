/** Array.prototype.sort with a comparison of string keys, and the code-unit order of strings. */
module Sorting {

  ghost predicate StrictTotalOrder(lt: (string, string) -> bool) {
    && (forall a, b :: lt(a, b) ==> !lt(b, a))
    && (forall a, b, c :: lt(a, b) && lt(b, c) ==> lt(a, c))
    && (forall a, b :: a != b ==> lt(a, b) || lt(b, a))
  }

  /** Strings sorted by themselves. */
  function Same(s: string): string {
    s
  }

  /** Keeps `x` in front of elements with an equal key, so that sorting is stable. */
  function Insert<T(!new)>(x: T, s: seq<T>, key: T -> string, lt: (string, string) -> bool): (r: seq<T>)
    ensures |r| == |s| + 1
    ensures forall y :: y in r <==> y == x || y in s
  {
    if s == [] || !lt(key(s[0]), key(x)) then [x] + s
    else
      var rest := Insert(x, s[1..], key, lt);
      assert s == [s[0]] + s[1..];
      [s[0]] + rest
  }

  function Sort<T(!new)>(s: seq<T>, key: T -> string, lt: (string, string) -> bool): (r: seq<T>)
    ensures |r| == |s|
    ensures forall y :: y in r <==> y in s
  {
    if s == [] then []
    else
      assert s == [s[0]] + s[1..];
      Insert(s[0], Sort(s[1..], key, lt), key, lt)
  }

  ghost predicate Ordered<T(!new)>(s: seq<T>, key: T -> string, lt: (string, string) -> bool) {
    forall i, j :: 0 <= i < j < |s| ==> !lt(key(s[j]), key(s[i]))
  }

  ghost predicate Increasing<T(!new)>(s: seq<T>, key: T -> string, lt: (string, string) -> bool) {
    forall i, j :: 0 <= i < j < |s| ==> lt(key(s[i]), key(s[j]))
  }

  predicate DistinctBy<T(!new)>(s: seq<T>, key: T -> string) {
    forall i, j :: 0 <= i < j < |s| ==> key(s[i]) != key(s[j])
  }

  lemma {:induction false} InsertMultiset<T(!new)>(x: T, s: seq<T>, key: T -> string, lt: (string, string) -> bool)
    ensures multiset(Insert(x, s, key, lt)) == multiset(s) + multiset{x}
  {
    if s == [] || !lt(key(s[0]), key(x)) {
    } else {
      InsertMultiset(x, s[1..], key, lt);
      assert s == [s[0]] + s[1..];
    }
  }

  lemma {:induction false} SortMultiset<T(!new)>(s: seq<T>, key: T -> string, lt: (string, string) -> bool)
    ensures multiset(Sort(s, key, lt)) == multiset(s)
  {
    if s != [] {
      SortMultiset(s[1..], key, lt);
      InsertMultiset(s[0], Sort(s[1..], key, lt), key, lt);
      assert s == [s[0]] + s[1..];
    }
  }

  lemma {:induction false} InsertOrdered<T(!new)>(x: T, s: seq<T>, key: T -> string, lt: (string, string) -> bool)
    requires StrictTotalOrder(lt) && Ordered(s, key, lt)
    ensures Ordered(Insert(x, s, key, lt), key, lt)
  {
    var r := Insert(x, s, key, lt);
    if s == [] {
    } else if !lt(key(s[0]), key(x)) {
      forall i, j | 0 <= i < j < |r| ensures !lt(key(r[j]), key(r[i])) {
        if i == 0 && j > 1 {
          assert !lt(key(s[j - 1]), key(s[0]));
        }
      }
    } else {
      InsertOrdered(x, s[1..], key, lt);
      var rest := Insert(x, s[1..], key, lt);
      forall i, j | 0 <= i < j < |r| ensures !lt(key(r[j]), key(r[i])) {
        if i == 0 {
          assert rest[j - 1] in rest;
          if rest[j - 1] != x {
            var k :| 0 <= k < |s| - 1 && s[1..][k] == rest[j - 1];
            assert s[k + 1] == rest[j - 1];
          }
        } else {
          assert r[i] == rest[i - 1] && r[j] == rest[j - 1];
        }
      }
    }
  }

  lemma {:induction false} SortOrdered<T(!new)>(s: seq<T>, key: T -> string, lt: (string, string) -> bool)
    requires StrictTotalOrder(lt)
    ensures Ordered(Sort(s, key, lt), key, lt)
  {
    if s != [] {
      SortOrdered(s[1..], key, lt);
      InsertOrdered(s[0], Sort(s[1..], key, lt), key, lt);
    }
  }

  /** Distinct keys make a multiset determine whether two positions can share a key. */
  lemma {:induction false} DistinctByMultiset<T(!new)>(s: seq<T>, t: seq<T>, key: T -> string)
    requires multiset(s) == multiset(t) && DistinctBy(s, key)
    ensures DistinctBy(t, key)
  {
    forall i, j | 0 <= i < j < |t| ensures key(t[i]) != key(t[j]) {
      assert t == t[..i] + [t[i]] + t[i + 1..j] + [t[j]] + t[j + 1..];
      if t[i] == t[j] {
        assert multiset(s)[t[i]] >= 2;
        OnceBy(s, key, t[i]);
      } else {
        assert t[i] in multiset(s) && t[j] in multiset(s);
        var a :| 0 <= a < |s| && s[a] == t[i];
        var b :| 0 <= b < |s| && s[b] == t[j];
      }
    }
  }

  lemma {:induction false} OnceBy<T(!new)>(s: seq<T>, key: T -> string, x: T)
    requires DistinctBy(s, key)
    ensures multiset(s)[x] <= 1
  {
    if s != [] {
      assert s == [s[0]] + s[1..];
      OnceBy(s[1..], key, x);
      assert forall k :: 0 <= k < |s| - 1 ==> key(s[1..][k]) != key(s[0]);
    }
  }

  lemma {:induction false} SortIncreasing<T(!new)>(s: seq<T>, key: T -> string, lt: (string, string) -> bool)
    requires StrictTotalOrder(lt) && DistinctBy(s, key)
    ensures Increasing(Sort(s, key, lt), key, lt)
  {
    SortOrdered(s, key, lt);
    SortMultiset(s, key, lt);
    DistinctByMultiset(s, Sort(s, key, lt), key);
  }

  /** A strictly increasing sequence is determined by its elements. */
  lemma {:induction false} IncreasingUnique<T(!new)>(s: seq<T>, t: seq<T>, key: T -> string, lt: (string, string) -> bool)
    requires StrictTotalOrder(lt) && Increasing(s, key, lt) && Increasing(t, key, lt)
    requires forall x :: x in s <==> x in t
    ensures s == t
  {
    if s == [] {
      assert forall x :: x !in t;
    } else {
      assert s[0] in t;
      assert t[0] in s;
      var i :| 0 <= i < |t| && t[i] == s[0];
      var j :| 0 <= j < |s| && s[j] == t[0];
      assert forall k :: 0 < k < |t| ==> lt(key(t[0]), key(t[k]));
      assert forall k :: 0 < k < |s| ==> lt(key(s[0]), key(s[k]));
      assert i == 0;
      forall x ensures x in s[1..] <==> x in t[1..] {
        if x in s[1..] {
          var k :| 0 <= k < |s| - 1 && s[1..][k] == x;
          assert s[k + 1] == x && lt(key(s[0]), key(s[k + 1]));
          assert x in s;
          assert x in t && x != t[0];
        }
        if x in t[1..] {
          var k :| 0 <= k < |t| - 1 && t[1..][k] == x;
          assert t[k + 1] == x && lt(key(t[0]), key(t[k + 1]));
          assert x in t;
          assert x in s && x != s[0];
        }
      }
      IncreasingUnique(s[1..], t[1..], key, lt);
      assert s == [s[0]] + s[1..] && t == [t[0]] + t[1..];
    }
  }

  lemma {:induction false} SortFixed<T(!new)>(s: seq<T>, key: T -> string, lt: (string, string) -> bool)
    requires StrictTotalOrder(lt) && Increasing(s, key, lt)
    ensures Sort(s, key, lt) == s
  {
    forall i, j | 0 <= i < j < |s| ensures key(s[i]) != key(s[j]) {
      assert lt(key(s[i]), key(s[j]));
    }
    SortIncreasing(s, key, lt);
    IncreasingUnique(Sort(s, key, lt), s, key, lt);
  }

  /** Sorting forgets the order of its input. */
  lemma {:induction false} SortPermutation<T(!new)>(s: seq<T>, t: seq<T>, key: T -> string, lt: (string, string) -> bool)
    requires StrictTotalOrder(lt) && multiset(s) == multiset(t) && DistinctBy(s, key)
    ensures Sort(s, key, lt) == Sort(t, key, lt)
  {
    DistinctByMultiset(s, t, key);
    SortIncreasing(s, key, lt);
    SortIncreasing(t, key, lt);
    forall x ensures x in Sort(s, key, lt) <==> x in Sort(t, key, lt) {
      assert x in s <==> x in multiset(s);
      assert x in t <==> x in multiset(t);
    }
    IncreasingUnique(Sort(s, key, lt), Sort(t, key, lt), key, lt);
  }

  // ---------- the order of strings ----------

  /** Ranks characters as their UTF-16 code units compare: a surrogate pair sorts below U+E000. */
  function UnitRank(c: char): int {
    var n := c as int;
    if 0xE000 <= n < 0x10000 then n + 0x110000 else n
  }

  predicate UnitLess(a: string, b: string) {
    b != "" &&
    (a == "" || UnitRank(a[0]) < UnitRank(b[0]) || (a[0] == b[0] && UnitLess(a[1..], b[1..])))
  }

  lemma {:induction false} UnitLessAsymmetric(a: string, b: string)
    requires UnitLess(a, b)
    ensures !UnitLess(b, a)
  {
    if a != "" && a[0] == b[0] {
      UnitLessAsymmetric(a[1..], b[1..]);
    }
  }

  lemma {:induction false} UnitLessTransitive(a: string, b: string, c: string)
    requires UnitLess(a, b) && UnitLess(b, c)
    ensures UnitLess(a, c)
  {
    if a != "" && a[0] == b[0] == c[0] {
      UnitLessTransitive(a[1..], b[1..], c[1..]);
    }
  }

  lemma {:induction false} UnitLessTotal(a: string, b: string)
    requires a != b
    ensures UnitLess(a, b) || UnitLess(b, a)
  {
    if a != "" && b != "" && a[0] == b[0] {
      assert a == [a[0]] + a[1..] && b == [b[0]] + b[1..];
      UnitLessTotal(a[1..], b[1..]);
    }
  }

  lemma UnitLessIsOrder()
    ensures StrictTotalOrder(UnitLess)
  {
    forall a, b | UnitLess(a, b) ensures !UnitLess(b, a) {
      UnitLessAsymmetric(a, b);
    }
    forall a, b, c | UnitLess(a, b) && UnitLess(b, c) ensures UnitLess(a, c) {
      UnitLessTransitive(a, b, c);
    }
    forall a, b | a != b ensures UnitLess(a, b) || UnitLess(b, a) {
      UnitLessTotal(a, b);
    }
  }
}

/**
 The runtime's cache: entries in insertion order, oldest first, as a JavaScript Map keeps them. A hit
 moves its entry to the end; the oldest entries are dropped when there are too many.
 */
module LruCache {
  import opened Wrappers

  datatype Entry<+V> = Entry(key: string, expiresAt: int, value: V)

  predicate DistinctKeys<V(!new)>(entries: seq<Entry<V>>) {
    forall i, j :: 0 <= i < j < |entries| ==> entries[i].key != entries[j].key
  }

  function IndexOf<V(!new)>(entries: seq<Entry<V>>, key: string): (i: nat)
    ensures i <= |entries|
    ensures i < |entries| ==> entries[i].key == key
    ensures forall j :: 0 <= j < i ==> entries[j].key != key
  {
    if entries == [] || entries[0].key == key then 0 else IndexOf(entries[1..], key) + 1
  }

  function Delete<V(!new)>(entries: seq<Entry<V>>, key: string): (r: seq<Entry<V>>)
    ensures |r| == |entries| - if IndexOf(entries, key) < |entries| then 1 else 0
  {
    var i := IndexOf(entries, key);
    if i == |entries| then entries else entries[..i] + entries[i + 1..]
  }

  lemma {:induction false} DeleteFacts<V(!new)>(entries: seq<Entry<V>>, key: string)
    requires DistinctKeys(entries)
    ensures DistinctKeys(Delete(entries, key))
    ensures forall e :: e in Delete(entries, key) <==> e in entries && e.key != key
  {
    hide IndexOf, DistinctKeys;
    var i, r := IndexOf(entries, key), Delete(entries, key);
    if i < |entries| {
      OneKey(entries, key);
      DropAt(entries, i);
      assert entries == entries[..i] + [entries[i]] + entries[i + 1..];
    }
  }

  lemma {:induction false} OneKey<V(!new)>(entries: seq<Entry<V>>, key: string)
    requires DistinctKeys(entries) && IndexOf(entries, key) < |entries|
    ensures forall e :: e in entries[..IndexOf(entries, key)] + entries[IndexOf(entries, key) + 1..] ==> e.key != key
  {
    var i := IndexOf(entries, key);
    var r := entries[..i] + entries[i + 1..];
    forall k | 0 <= k < |r| ensures r[k].key != key {
      assert r[k] == entries[if k < i then k else k + 1];
    }
  }

  lemma {:induction false} DropAt<V(!new)>(entries: seq<Entry<V>>, i: nat)
    requires DistinctKeys(entries) && i < |entries|
    ensures DistinctKeys(entries[..i] + entries[i + 1..])
  {
    var r := entries[..i] + entries[i + 1..];
    forall a, b | 0 <= a < b < |r| ensures r[a].key != r[b].key {
      assert r[a] == entries[if a < i then a else a + 1];
      assert r[b] == entries[if b < i then b else b + 1];
    }
  }

  /** The result, and the entries left: an expired entry is removed, a live one becomes the newest. */
  function GetEntry<V(!new)>(entries: seq<Entry<V>>, key: string, now: int): (seq<Entry<V>>, Option<V>) {
    var i := IndexOf(entries, key);
    if i == |entries| then (entries, None)
    else if entries[i].expiresAt <= now then (Delete(entries, key), None)
    else (Delete(entries, key) + [entries[i]], Some(entries[i].value))
  }

  function SetEntry<V(!new)>(entries: seq<Entry<V>>, key: string, value: V, expiresAt: int, maxEntries: nat): seq<Entry<V>> {
    var all := Delete(entries, key) + [Entry(key, expiresAt, value)];
    if |all| > maxEntries then all[|all| - maxEntries..] else all
  }

  function Invalidate<V(!new)>(entries: seq<Entry<V>>, matches: string -> bool): (r: seq<Entry<V>>)
    ensures |r| <= |entries|
  {
    if entries == [] then []
    else
      var rest := Invalidate(entries[1..], matches);
      if matches(entries[0].key) then rest else [entries[0]] + rest
  }

  lemma {:induction false} InvalidateMembers<V(!new)>(entries: seq<Entry<V>>, matches: string -> bool)
    ensures forall e :: e in Invalidate(entries, matches) <==> e in entries && !matches(e.key)
  {
    if entries != [] {
      InvalidateMembers(entries[1..], matches);
      assert entries == [entries[0]] + entries[1..];
    }
  }

  lemma {:induction false} InvalidateDistinct<V(!new)>(entries: seq<Entry<V>>, matches: string -> bool)
    requires DistinctKeys(entries)
    ensures DistinctKeys(Invalidate(entries, matches))
  {
    if entries != [] {
      InvalidateDistinct(entries[1..], matches);
      var rest := Invalidate(entries[1..], matches);
      forall j | 0 <= j < |rest| ensures rest[j].key != entries[0].key {
        InvalidateMembers(entries[1..], matches);
        assert rest[j] in entries[1..];
      }
    }
  }

  class TtlLruCache<V(!new)> {
    const maxEntries: nat
    const ttlMs: int
    var entries: seq<Entry<V>>

    ghost predicate Valid()
      reads this
    {
      DistinctKeys(entries) && |entries| <= maxEntries
    }

    constructor (maxEntries: nat, ttlMs: int)
      requires 1 <= maxEntries
      ensures Valid() && entries == [] && this.maxEntries == maxEntries && this.ttlMs == ttlMs
    {
      this.maxEntries, this.ttlMs, entries := maxEntries, ttlMs, [];
    }

    method DeleteKey(key: string) returns (deleted: bool)
      modifies this
      ensures entries == Delete(old(entries), key) && deleted == (IndexOf(old(entries), key) < |old(entries)|)
    {
      var i := 0;
      while i < |entries| && entries[i].key != key
        invariant 0 <= i <= |entries|
        invariant forall j :: 0 <= j < i ==> entries[j].key != key
        invariant entries == old(entries)
      {
        i := i + 1;
      }
      deleted := i < |entries|;
      if deleted {
        entries := entries[..i] + entries[i + 1..];
      }
    }

    method Get(key: string, now: int) returns (value: Option<V>)
      requires Valid()
      modifies this
      ensures Valid() && (entries, value) == GetEntry(old(entries), key, now)
    {
      var i := IndexOf(entries, key);
      if i == |entries| {
        return None;
      }
      var entry := entries[i];
      if entry.expiresAt <= now {
        var _ := DeleteKey(key);
        return None;
      }
      var _ := DeleteKey(key);
      entries := entries + [entry];
      GetKeeps(old(entries), key, now, maxEntries);
      return Some(entry.value);
    }

    method Set(key: string, value: V, now: int)
      requires Valid()
      modifies this
      ensures Valid() && entries == SetEntry(old(entries), key, value, now + ttlMs, maxEntries)
    {
      hide DistinctKeys, Delete, IndexOf;
      var _ := DeleteKey(key);
      entries := entries + [Entry(key, now + ttlMs, value)];
      ghost var all := entries;
      while |entries| > maxEntries
        invariant |entries| <= |all| && entries == all[|all| - |entries|..]
        invariant |entries| >= maxEntries || entries == all
        decreases |entries|
      {
        entries := entries[1..];
      }
      SetKeeps(old(entries), key, value, now + ttlMs, maxEntries);
    }

    method InvalidateKeys(matches: string -> bool)
      requires Valid()
      modifies this
      ensures Valid() && entries == Invalidate(old(entries), matches)
    {
      hide DistinctKeys;
      var i, kept := 0, [];
      assert entries[0..] == entries;
      while i < |entries|
        invariant 0 <= i <= |entries| && entries == old(entries)
        invariant kept + Invalidate(entries[i..], matches) == Invalidate(entries, matches)
      {
        assert entries[i..][0] == entries[i] && entries[i..][1..] == entries[i + 1..];
        if !matches(entries[i].key) {
          kept := kept + [entries[i]];
        }
        i := i + 1;
      }
      assert entries[i..] == [];
      InvalidateDistinct(entries, matches);
      assert kept == Invalidate(entries, matches);
      entries := kept;
    }
  }

  lemma {:induction false} GetKeeps<V(!new)>(entries: seq<Entry<V>>, key: string, now: int, maxEntries: nat)
    requires DistinctKeys(entries) && |entries| <= maxEntries
    ensures var r := GetEntry(entries, key, now).0; DistinctKeys(r) && |r| <= maxEntries && forall e :: e in r ==> e in entries
  {
    var i := IndexOf(entries, key);
    DeleteFacts(entries, key);
    if i < |entries| && entries[i].expiresAt > now {
      var rest := Delete(entries, key);
      assert forall j :: 0 <= j < |rest| ==> rest[j] in rest && rest[j].key != key;
    }
  }

  lemma {:induction false} SetKeeps<V(!new)>(entries: seq<Entry<V>>, key: string, value: V, expiresAt: int, maxEntries: nat)
    requires DistinctKeys(entries)
    ensures var r := SetEntry(entries, key, value, expiresAt, maxEntries);
      && DistinctKeys(r) && |r| <= maxEntries
      && forall e :: e in r ==> e == Entry(key, expiresAt, value) || (e in entries && e.key != key)
  {
    var rest := Delete(entries, key);
    DeleteFacts(entries, key);
    assert forall j :: 0 <= j < |rest| ==> rest[j] in rest && rest[j].key != key;
    var all := rest + [Entry(key, expiresAt, value)];
    assert DistinctKeys(all);
    var r := SetEntry(entries, key, value, expiresAt, maxEntries);
    forall e | e in r ensures e == Entry(key, expiresAt, value) || (e in entries && e.key != key) {
      assert e in all;
    }
  }

  // ---------- every sequence of operations ----------

  datatype Op<V(!new)> = GetOp(key: string, now: int) | SetOp(key: string, value: V, now: int) | InvalidateOp(matches: string -> bool)

  datatype Config = Config(maxEntries: nat, ttlMs: int)

  function Apply<V(!new)>(c: Config, entries: seq<Entry<V>>, op: Op<V>): seq<Entry<V>> {
    match op
    case GetOp(key, now) => GetEntry(entries, key, now).0
    case SetOp(key, value, now) => SetEntry(entries, key, value, now + c.ttlMs, c.maxEntries)
    case InvalidateOp(matches) => Invalidate(entries, matches)
  }

  /** The entries after the operations; the last element of `ops` happened last. */
  function After<V(!new)>(c: Config, ops: seq<Op<V>>): seq<Entry<V>> {
    if ops == [] then [] else Apply(c, After(c, ops[..|ops| - 1]), ops[|ops| - 1])
  }

  /** The key's last value and its expiry, unless it was invalidated or read after expiring. */
  function LastSet<V(!new)>(c: Config, ops: seq<Op<V>>, key: string): Option<Entry<V>> {
    if ops == [] then None
    else
      var before := LastSet(c, ops[..|ops| - 1], key);
      match ops[|ops| - 1]
      case SetOp(k, value, now) => if k == key then Some(Entry(key, now + c.ttlMs, value)) else before
      case InvalidateOp(matches) => if matches(key) then None else before
      case GetOp(k, now) => if k == key && before.Some? && before.value.expiresAt <= now then None else before
  }

  /** Whether the operation sets the key or finds it. */
  predicate Touches<V(!new)>(c: Config, before: seq<Op<V>>, op: Op<V>, key: string) {
    match op
    case SetOp(k, _, _) => k == key
    case GetOp(k, now) => k == key && GetEntry(After(c, before), k, now).1.Some?
    case InvalidateOp(_) => false
  }

  /** The other keys that were set or hit since `key` was last set or hit. */
  function Others<V(!new)>(c: Config, ops: seq<Op<V>>, key: string): set<string> {
    if ops == [] then {}
    else
      var before, op := ops[..|ops| - 1], ops[|ops| - 1];
      if Touches(c, before, op, key) then {}
      else if !op.InvalidateOp? && Touches(c, before, op, op.key) then Others(c, before, key) + {op.key}
      else Others(c, before, key)
  }

  ghost predicate Newer<V(!new)>(entries: seq<Entry<V>>, key: string, others: set<string>) {
    forall i, j :: 0 <= i < j < |entries| && entries[i].key == key ==> entries[j].key in others
  }

  /** An entry is the last value set; the entries after it are of keys touched since; a lost key has too many of those. */
  ghost predicate Tracks<V(!new)>(entries: seq<Entry<V>>, maxEntries: nat, key: string, last: Option<Entry<V>>, others: set<string>) {
    && (forall e :: e in entries && e.key == key ==> last == Some(e))
    && Newer(entries, key, others)
    && (last.Some? && last.value !in entries ==> |others| >= maxEntries)
  }

  lemma {:induction false} DeleteNewer<V(!new)>(entries: seq<Entry<V>>, gone: string, key: string, others: set<string>)
    requires DistinctKeys(entries) && Newer(entries, key, others)
    ensures Newer(Delete(entries, gone), key, others)
  {
  }

  lemma {:induction false} InvalidateNewer<V(!new)>(entries: seq<Entry<V>>, matches: string -> bool, key: string, others: set<string>)
    requires DistinctKeys(entries) && Newer(entries, key, others)
    ensures Newer(Invalidate(entries, matches), key, others)
  {
    hide DistinctKeys;
    var r := Invalidate(entries, matches);
    if entries != [] {
      var rest := Invalidate(entries[1..], matches);
      assert DistinctKeys(entries[1..]) by { TailDistinct(entries); }
      InvalidateNewer(entries[1..], matches, key, others);
      if !matches(entries[0].key) {
        forall i, j | 0 <= i < j < |r| && r[i].key == key ensures r[j].key in others {
          assert r[j] == rest[j - 1];
          if i == 0 {
            InvalidateMembers(entries[1..], matches);
            assert rest[j - 1] in entries[1..];
          } else {
            assert r[i] == rest[i - 1];
          }
        }
      }
    }
  }

  lemma TailDistinct<V(!new)>(entries: seq<Entry<V>>)
    requires DistinctKeys(entries) && entries != []
    ensures DistinctKeys(entries[1..])
  {
  }

  /** More than `n` distinct keys, all in `others`. */
  lemma {:induction false} KeysFit<V(!new)>(entries: seq<Entry<V>>, others: set<string>)
    requires DistinctKeys(entries) && forall i :: 0 <= i < |entries| ==> entries[i].key in others
    ensures |entries| <= |others|
  {
    if entries != [] {
      assert forall i :: 1 <= i < |entries| ==> entries[i].key in others - {entries[0].key};
      KeysFit(entries[1..], others - {entries[0].key});
    }
  }

  lemma {:induction false} AppendNewer<V(!new)>(entries: seq<Entry<V>>, e: Entry<V>, key: string, others: set<string>)
    requires DistinctKeys(entries) && Newer(entries, key, others) && e.key != key
    ensures Newer(Delete(entries, e.key) + [e], key, others + {e.key})
  {
    DeleteNewer(entries, e.key, key, others);
  }

  lemma {:induction false} SetTracks<V(!new)>(
    entries: seq<Entry<V>>, e: Entry<V>, maxEntries: nat, key: string, last: Option<Entry<V>>, others: set<string>)
    requires DistinctKeys(entries) && |entries| <= maxEntries && e.key != key
    requires Tracks(entries, maxEntries, key, last, others)
    requires last.Some? ==> last.value.key == key
    ensures Tracks(SetEntry(entries, e.key, e.value, e.expiresAt, maxEntries), maxEntries, key, last, others + {e.key})
  {
    hide IndexOf, Delete;
    DeleteFacts(entries, e.key);
    var all := Delete(entries, e.key) + [e];
    var r := SetEntry(entries, e.key, e.value, e.expiresAt, maxEntries);
    AppendNewer(entries, e, key, others);
    SetKeeps(entries, e.key, e.value, e.expiresAt, maxEntries);
    if last.Some? && last.value !in r {
      if last.value in entries {
        assert last.value in Delete(entries, e.key);
        assert last.value in all;
        var d := |all| - maxEntries;
        var i :| 0 <= i < |all| && all[i] == last.value;
        assert forall j :: 0 <= j < |r| ==> r[j] == all[j + d];
        assert forall j :: 0 <= j < |r| ==> r[j] in r;
        assert |all| == maxEntries + 1 && i == 0;
        KeysFit(r, others + {e.key});
      } else {
        assert others <= others + {e.key};
        SubsetSize(others, others + {e.key});
      }
    }
  }

  lemma {:induction false} SubsetSize(a: set<string>, b: set<string>)
    requires a <= b
    ensures |a| <= |b|
  {
    assert b == a + (b - a) && a !! (b - a);
  }

  lemma {:induction false} OpTracks<V(!new)>(c: Config, before: seq<Op<V>>, op: Op<V>, key: string)
    requires 1 <= c.maxEntries
    requires var entries := After(c, before);
      && DistinctKeys(entries) && |entries| <= c.maxEntries
      && Tracks(entries, c.maxEntries, key, LastSet(c, before, key), Others(c, before, key))
    ensures var ops := before + [op];
      && DistinctKeys(After(c, ops)) && |After(c, ops)| <= c.maxEntries
      && Tracks(After(c, ops), c.maxEntries, key, LastSet(c, ops, key), Others(c, ops, key))
  {
    hide DistinctKeys, IndexOf, Delete, GetEntry, SetEntry, Invalidate, Tracks, Newer;
    var ops := before + [op];
    assert ops[..|ops| - 1] == before;
    var entries, last, others := After(c, before), LastSet(c, before, key), Others(c, before, key);
    LastSetKey(c, before, key);
    match op
    case SetOp(k, value, now) =>
      SetKeeps(entries, k, value, now + c.ttlMs, c.maxEntries);
      if k == key {
        FreshTracks(entries, Entry(key, now + c.ttlMs, value), c.maxEntries);
      } else {
        SetTracks(entries, Entry(k, now + c.ttlMs, value), c.maxEntries, key, last, others);
      }
    case InvalidateOp(matches) =>
      InvalidateTracks(entries, matches, c.maxEntries, key, last, others);
    case GetOp(k, now) =>
      GetKeeps(entries, k, now, c.maxEntries);
      GetTracks(entries, k, now, c.maxEntries, key, last, others);
  }

  lemma {:induction false} InvalidateTracks<V(!new)>(
    entries: seq<Entry<V>>, matches: string -> bool, maxEntries: nat, key: string, last: Option<Entry<V>>, others: set<string>)
    requires DistinctKeys(entries) && Tracks(entries, maxEntries, key, last, others)
    requires last.Some? ==> last.value.key == key
    ensures var r := Invalidate(entries, matches);
      && DistinctKeys(r) && |r| <= |entries|
      && Tracks(r, maxEntries, key, if matches(key) then None else last, others)
  {
    InvalidateNewer(entries, matches, key, others);
    InvalidateMembers(entries, matches);
    InvalidateDistinct(entries, matches);
  }

  lemma {:induction false} FreshTracks<V(!new)>(entries: seq<Entry<V>>, e: Entry<V>, maxEntries: nat)
    requires DistinctKeys(entries) && 1 <= maxEntries
    ensures Tracks(SetEntry(entries, e.key, e.value, e.expiresAt, maxEntries), maxEntries, e.key, Some(e), {})
  {
    hide IndexOf, Delete;
    SetKeeps(entries, e.key, e.value, e.expiresAt, maxEntries);
    var r := SetEntry(entries, e.key, e.value, e.expiresAt, maxEntries);
    assert r[|r| - 1] == e;
  }

  lemma {:induction false} GetTracks<V(!new)>(
    entries: seq<Entry<V>>, k: string, now: int, maxEntries: nat, key: string, last: Option<Entry<V>>, others: set<string>)
    requires DistinctKeys(entries) && Tracks(entries, maxEntries, key, last, others)
    requires last.Some? ==> last.value.key == key
    ensures var (r, found) := GetEntry(entries, k, now);
      var left := if k == key && last.Some? && last.value.expiresAt <= now then None else last;
      Tracks(r, maxEntries, key, left, if found.None? then others else if k == key then {} else others + {k})
  {
    hide Delete;
    var i := IndexOf(entries, k);
    DeleteFacts(entries, k);
    DeleteNewer(entries, k, key, others);
    SubsetSize(others, others + {k});
    if i < |entries| {
      assert entries[i] in entries;
      if entries[i].expiresAt > now {
        if k != key {
          AppendNewer(entries, entries[i], key, others);
        } else {
          var r := GetEntry(entries, k, now).0;
          assert r[|r| - 1] == entries[i];
          assert forall j :: 0 <= j < |r| - 1 ==> r[j] in Delete(entries, k);
        }
      }
    }
  }

  lemma {:induction false} LastSetKey<V(!new)>(c: Config, ops: seq<Op<V>>, key: string)
    ensures LastSet(c, ops, key).Some? ==> LastSet(c, ops, key).value.key == key
  {
    if ops != [] {
      LastSetKey(c, ops[..|ops| - 1], key);
    }
  }

  lemma EmptyTracks<V(!new)>(c: Config, ops: seq<Op<V>>, key: string)
    requires ops == []
    ensures DistinctKeys(After(c, ops)) && Tracks(After(c, ops), c.maxEntries, key, LastSet(c, ops, key), Others(c, ops, key))
  {
  }

  lemma {:induction false} RunTracks<V(!new)>(c: Config, ops: seq<Op<V>>, key: string)
    requires 1 <= c.maxEntries
    ensures DistinctKeys(After(c, ops)) && |After(c, ops)| <= c.maxEntries
    ensures Tracks(After(c, ops), c.maxEntries, key, LastSet(c, ops, key), Others(c, ops, key))
  {
    hide DistinctKeys, Tracks, Apply, LastSet, Others;
    if ops == [] {
      EmptyTracks(c, ops, key);
    } else {
      var before := ops[..|ops| - 1];
      RunTracks(c, before, key);
      OpTracks(c, before, ops[|ops| - 1], key);
      assert before + [ops[|ops| - 1]] == ops;
    }
  }

  /**
   After any operations: never more than maxEntries entries; a hit is the last value set, before its
   own expiry; and a live value is found as long as fewer than maxEntries other keys were touched
   since it was.
   */
  lemma {:induction false} CacheContract<V(!new)>(c: Config, ops: seq<Op<V>>, key: string, now: int)
    requires 1 <= c.maxEntries
    ensures |After(c, ops)| <= c.maxEntries
    ensures var found := GetEntry(After(c, ops), key, now).1;
      var last := LastSet(c, ops, key);
      && (found.Some? ==> last.Some? && found.value == last.value.value && now < last.value.expiresAt)
      && (last.Some? && now < last.value.expiresAt && |Others(c, ops, key)| < c.maxEntries
          ==> found == Some(last.value.value))
  {
    hide Delete, Others, LastSet, After;
    RunTracks(c, ops, key);
    LastSetKey(c, ops, key);
    var entries := After(c, ops);
    var i := IndexOf(entries, key);
    if i < |entries| {
      assert entries[i] in entries;
    }
  }
}

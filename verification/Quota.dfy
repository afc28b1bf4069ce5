/** The fixed-window quota of the delivery API, per bucket. */
module Quota {
  import opened Wrappers

  datatype Bucket = Bucket(count: nat, resetAt: int)

  datatype Check = Allowed | Refused(retryAfterSeconds: int)

  function Max(a: int, b: int): int { if a > b then a else b }

  function Min(a: int, b: int): int { if a < b then a else b }

  /** Math.ceil(milliseconds / 1000) */
  function CeilingSeconds(milliseconds: int): (s: int)
    ensures (s - 1) * 1000 < milliseconds <= s * 1000
  {
    (milliseconds + 999) / 1000
  }

  /** The bucket after a request, and the answer. */
  function Consumed(bucket: Option<Bucket>, windowMs: int, limit: int, now: int): (Bucket, Check) {
    if bucket.None? || bucket.value.resetAt <= now then (Bucket(1, now + windowMs), Allowed)
    else
      var next := Bucket(bucket.value.count + 1, bucket.value.resetAt);
      (next, if next.count > limit then Refused(Max(1, CeilingSeconds(next.resetAt - now))) else Allowed)
  }

  function BucketOf(buckets: map<string, Bucket>, key: string): Option<Bucket> {
    if key in buckets then Some(buckets[key]) else None
  }

  class QuotaTracker {
    const windowMs: int
    var buckets: map<string, Bucket>

    constructor (windowMs: int)
      ensures buckets == map[] && this.windowMs == windowMs
    {
      this.windowMs, buckets := windowMs, map[];
    }

    method Consume(bucketKey: string, limitPerWindow: int, now: int) returns (check: Check)
      modifies this
      ensures var (next, answer) := Consumed(BucketOf(old(buckets), bucketKey), windowMs, limitPerWindow, now);
        buckets == old(buckets)[bucketKey := next] && check == answer
    {
      if bucketKey !in buckets || buckets[bucketKey].resetAt <= now {
        buckets := buckets[bucketKey := Bucket(1, now + windowMs)];
        return Allowed;
      }
      var bucket := buckets[bucketKey];
      bucket := bucket.(count := bucket.count + 1);
      buckets := buckets[bucketKey := bucket];
      if bucket.count > limitPerWindow {
        return Refused(Max(1, CeilingSeconds(bucket.resetAt - now)));
      }
      return Allowed;
    }
  }

  // ---------- every sequence of requests ----------

  datatype Call = Call(key: string, now: int)

  datatype Rule = Rule(windowMs: int, limit: int)

  /** The buckets after the calls; the last call is the latest. */
  function After(rule: Rule, calls: seq<Call>): map<string, Bucket> {
    if calls == [] then map[]
    else
      var before, call := After(rule, calls[..|calls| - 1]), calls[|calls| - 1];
      before[call.key := Consumed(BucketOf(before, call.key), rule.windowMs, rule.limit, call.now).0]
  }

  function AnswerTo(rule: Rule, before: seq<Call>, call: Call): Check {
    Consumed(BucketOf(After(rule, before), call.key), rule.windowMs, rule.limit, call.now).1
  }

  predicate InOrder(calls: seq<Call>) {
    forall i, j :: 0 <= i < j < |calls| ==> calls[i].now <= calls[j].now
  }

  /** How many of the key's calls at times from `from` until before `to` are admitted. */
  function Admitted(rule: Rule, calls: seq<Call>, key: string, from: int, to: int): nat {
    if calls == [] then 0
    else
      var before, call := calls[..|calls| - 1], calls[|calls| - 1];
      Admitted(rule, before, key, from, to)
      + if call.key == key && from <= call.now < to && AnswerTo(rule, before, call).Allowed? then 1 else 0
  }

  /** A window admits its first request in any case. */
  function Capacity(rule: Rule): (c: int)
    ensures c >= 1
  {
    Max(1, rule.limit)
  }

  /** What the bucket says of the requests admitted between `from` and `from + windowMs`. */
  ghost predicate Accounts(rule: Rule, calls: seq<Call>, key: string, from: int) {
    var admitted := Admitted(rule, calls, key, from, from + rule.windowMs);
    match BucketOf(After(rule, calls), key)
    case None => admitted == 0
    case Some(bucket) =>
      var start := bucket.resetAt - rule.windowMs;
      var inWindow := Min(bucket.count, Capacity(rule));
      && bucket.count >= 1
      && (calls != [] ==> start <= calls[|calls| - 1].now)
      && (calls != [] && calls[|calls| - 1].now < from ==> admitted == 0)
      && (if start < from then admitted <= inWindow
          else if start < from + rule.windowMs then admitted <= Capacity(rule) + inWindow
          else admitted <= 2 * Capacity(rule))
  }

  lemma {:induction false} CallAccounts(rule: Rule, before: seq<Call>, call: Call, key: string, from: int)
    requires Accounts(rule, before, key, from) && InOrder(before + [call]) && rule.windowMs >= 1
    ensures Accounts(rule, before + [call], key, from)
  {
    var calls := before + [call];
    assert calls[..|calls| - 1] == before;
    assert calls[|before|] == call;
    if before == [] {
      assert Admitted(rule, before, key, from, from + rule.windowMs) == 0;
    } else {
      assert calls[|before| - 1] == before[|before| - 1];
    }
  }

  lemma {:induction false} CallsAccount(rule: Rule, calls: seq<Call>, key: string, from: int)
    requires InOrder(calls) && rule.windowMs >= 1
    ensures Accounts(rule, calls, key, from)
  {
    if calls != [] {
      var before := calls[..|calls| - 1];
      assert InOrder(before);
      CallsAccount(rule, before, key, from);
      assert before + [calls[|calls| - 1]] == calls;
      CallAccounts(rule, before, calls[|calls| - 1], key, from);
    }
  }

  /** No interval as long as a window admits more than two windows' worth of a bucket's requests. */
  lemma {:induction false} QuotaBound(rule: Rule, calls: seq<Call>, key: string, from: int)
    requires InOrder(calls)
    ensures Admitted(rule, calls, key, from, from + rule.windowMs) <= 2 * Capacity(rule)
  {
    if rule.windowMs >= 1 {
      CallsAccount(rule, calls, key, from);
    } else {
      EmptyInterval(rule, calls, key, from, from + rule.windowMs);
    }
  }

  lemma {:induction false} EmptyInterval(rule: Rule, calls: seq<Call>, key: string, from: int, to: int)
    requires to <= from
    ensures Admitted(rule, calls, key, from, to) == 0
  {
    if calls != [] {
      EmptyInterval(rule, calls[..|calls| - 1], key, from, to);
    }
  }

  // ---------- one window ----------

  /** All of the key's requests are before the end of its window, and those since its start are counted. */
  ghost predicate Counts(rule: Rule, calls: seq<Call>, key: string) {
    match BucketOf(After(rule, calls), key)
    case None => forall i :: 0 <= i < |calls| ==> calls[i].key != key
    case Some(bucket) =>
      && bucket.count >= 1
      && (forall i :: 0 <= i < |calls| && calls[i].key == key ==> calls[i].now < bucket.resetAt)
      && calls != [] && bucket.resetAt - rule.windowMs <= calls[|calls| - 1].now
      && Admitted(rule, calls, key, bucket.resetAt - rule.windowMs, bucket.resetAt) == Min(bucket.count, Capacity(rule))
  }

  lemma {:induction false} NoneAdmitted(rule: Rule, calls: seq<Call>, key: string, from: int, to: int)
    requires forall i :: 0 <= i < |calls| && calls[i].key == key ==> calls[i].now < from
    ensures Admitted(rule, calls, key, from, to) == 0
  {
    if calls != [] {
      NoneAdmitted(rule, calls[..|calls| - 1], key, from, to);
    }
  }

  lemma {:induction false} CallCounts(rule: Rule, before: seq<Call>, call: Call, key: string)
    requires Counts(rule, before, key) && InOrder(before + [call]) && rule.windowMs >= 1
    ensures Counts(rule, before + [call], key)
  {
    hide After, Admitted;
    var calls := before + [call];
    assert calls[|before|] == call && forall i :: 0 <= i < |before| ==> calls[i] == before[i];
    var was := BucketOf(After(rule, before), key);
    var bucket := Consumed(was, rule.windowMs, rule.limit, call.now).0;
    LastCall(rule, before, call, key, bucket.resetAt - rule.windowMs, bucket.resetAt);
    if call.key == key {
      if was.None? || was.value.resetAt <= call.now {
        NoneAdmitted(rule, before, key, call.now, call.now + rule.windowMs);
      }
    } else if was.Some? {
      LastCall(rule, before, call, key, was.value.resetAt - rule.windowMs, was.value.resetAt);
    }
  }

  lemma LastCall(rule: Rule, before: seq<Call>, call: Call, key: string, from: int, to: int)
    ensures After(rule, before + [call])
         == After(rule, before)[call.key := Consumed(BucketOf(After(rule, before), call.key), rule.windowMs, rule.limit, call.now).0]
    ensures Admitted(rule, before + [call], key, from, to)
         == Admitted(rule, before, key, from, to)
            + if call.key == key && from <= call.now < to && AnswerTo(rule, before, call).Allowed? then 1 else 0
  {
    var calls := before + [call];
    assert calls[..|calls| - 1] == before;
  }

  /** A window admits exactly what its bucket counts, up to the limit. */
  lemma {:induction false} WindowBound(rule: Rule, calls: seq<Call>, key: string)
    requires InOrder(calls) && rule.windowMs >= 1
    ensures Counts(rule, calls, key)
    ensures key in After(rule, calls) ==>
              var bucket := After(rule, calls)[key];
              Admitted(rule, calls, key, bucket.resetAt - rule.windowMs, bucket.resetAt) <= Capacity(rule)
  {
    if calls != [] {
      var before := calls[..|calls| - 1];
      assert InOrder(before);
      WindowBound(rule, before, key);
      assert before + [calls[|calls| - 1]] == calls;
      CallCounts(rule, before, calls[|calls| - 1], key);
    }
  }

  // ---------- waiting ----------

  /** While a bucket's window lasts, its end does not move. */
  lemma {:induction false} WindowStays(rule: Rule, calls: seq<Call>, more: seq<Call>, key: string)
    requires key in After(rule, calls)
    requires forall i :: 0 <= i < |more| && more[i].key == key ==> more[i].now < After(rule, calls)[key].resetAt
    ensures key in After(rule, calls + more) && After(rule, calls + more)[key].resetAt == After(rule, calls)[key].resetAt
  {
    if more == [] {
      assert calls + more == calls;
    } else {
      var all := calls + more;
      assert all[..|all| - 1] == calls + more[..|more| - 1];
      WindowStays(rule, calls, more[..|more| - 1], key);
    }
  }

  /**
   A refused caller that waits as long as it was told finds its window expired: the bucket's first
   request from then on is admitted.
   */
  lemma {:induction false} WaitingHelps(rule: Rule, before: seq<Call>, refused: Call, between: seq<Call>, later: Call)
    requires AnswerTo(rule, before, refused).Refused? && later.key == refused.key
    requires later.now >= refused.now + 1000 * AnswerTo(rule, before, refused).retryAfterSeconds
    requires forall i :: 0 <= i < |between| && between[i].key == refused.key
               ==> between[i].now < After(rule, before + [refused])[refused.key].resetAt
    ensures AnswerTo(rule, before, refused).retryAfterSeconds >= 1
    ensures After(rule, before + [refused])[refused.key].resetAt <= later.now
    ensures AnswerTo(rule, before + [refused] + between, later) == Allowed
  {
    var calls := before + [refused];
    assert calls[..|calls| - 1] == before;
    WindowStays(rule, calls, between, refused.key);
  }

  // ---------- the answers, from the calls alone ----------

  /** A call opens a window when every window its key opened before has ended. */
  ghost predicate Opens(rule: Rule, before: seq<Call>, call: Call)
    decreases |before|
  {
    forall i :: 0 <= i < |before| && before[i].key == call.key && Opens(rule, before[..i], before[i])
      ==> before[i].now + rule.windowMs <= call.now
  }

  /** The call at `i` opened the window in which this one falls. */
  ghost predicate FallsInWindow(rule: Rule, before: seq<Call>, call: Call, i: nat) {
    && i < |before| && before[i].key == call.key && Opens(rule, before[..i], before[i])
    && call.now < before[i].now + rule.windowMs
  }

  function CallsOf(calls: seq<Call>, key: string): nat {
    if calls == [] then 0
    else CallsOf(calls[..|calls| - 1], key) + if calls[|calls| - 1].key == key then 1 else 0
  }

  lemma {:induction false} CallsAdd(calls: seq<Call>, call: Call, i: nat, key: string)
    requires i <= |calls|
    ensures CallsOf((calls + [call])[i..], key) == CallsOf(calls[i..], key) + if call.key == key then 1 else 0
  {
    assert (calls + [call])[i..] == calls[i..] + [call];
    assert (calls[i..] + [call])[..|calls[i..]|] == calls[i..];
  }

  ghost predicate OpensAt(rule: Rule, calls: seq<Call>, i: nat)
    requires i < |calls|
  {
    Opens(rule, calls[..i], calls[i])
  }

  /** The bucket is the last window its key opened, and the calls since then. */
  ghost predicate IsWindow(rule: Rule, calls: seq<Call>, key: string, bucket: Option<Bucket>, i: nat) {
    match bucket
    case None => forall call :: call in calls ==> call.key != key
    case Some(b) =>
      && i < |calls| && calls[i].key == key && OpensAt(rule, calls, i)
      && b == Bucket(CallsOf(calls[i..], key), calls[i].now + rule.windowMs)
      && forall j :: i < j < |calls| && calls[j].key == key ==> !OpensAt(rule, calls, j)
  }

  lemma OpensStays(rule: Rule, before: seq<Call>, call: Call)
    ensures forall i :: 0 <= i < |before| ==> OpensAt(rule, before + [call], i) == OpensAt(rule, before, i)
  {
    var calls := before + [call];
    forall i | 0 <= i < |before| ensures OpensAt(rule, calls, i) == OpensAt(rule, before, i) {
      assert calls[..i] == before[..i];
    }
  }

  lemma {:induction false} EarlierEnded(rule: Rule, before: seq<Call>, call: Call, bucket: Option<Bucket>, i: nat)
    requires InOrder(before + [call]) && IsWindow(rule, before, call.key, bucket, i) && bucket.Some?
    ensures forall j :: (0 <= j < i && before[j].key == call.key && OpensAt(rule, before, j)
      ==> before[j].now + rule.windowMs <= before[i].now <= call.now)
  {
    var all := before + [call];
    assert all[i].now <= all[|before|].now;
    forall j | 0 <= j < i && before[j].key == call.key && OpensAt(rule, before, j)
      ensures before[j].now + rule.windowMs <= before[i].now
    {
      assert before[..i][j] == before[j] && before[..i][..j] == before[..j];
    }
  }

  /** The next call opens a window exactly when the last one has ended. */
  lemma {:induction false} WindowsEnd(rule: Rule, before: seq<Call>, call: Call, bucket: Option<Bucket>, i: nat)
    requires InOrder(before + [call]) && IsWindow(rule, before, call.key, bucket, i)
    ensures Opens(rule, before, call) <==> bucket.None? || bucket.value.resetAt <= call.now
  {
    if bucket.Some? && bucket.value.resetAt <= call.now {
      EarlierEnded(rule, before, call, bucket, i);
      forall j | 0 <= j < |before| && before[j].key == call.key && Opens(rule, before[..j], before[j])
        ensures before[j].now + rule.windowMs <= call.now
      {
        assert OpensAt(rule, before, j);
      }
    }
  }

  lemma {:induction false} OtherWindow(rule: Rule, before: seq<Call>, call: Call, key: string, bucket: Option<Bucket>, i: nat)
    requires IsWindow(rule, before, key, bucket, i) && call.key != key
    ensures IsWindow(rule, before + [call], key, bucket, i)
  {
    OpensStays(rule, before, call);
    if bucket.Some? {
      CallsAdd(before, call, i, key);
    }
  }

  lemma {:induction false} WindowCounts(rule: Rule, before: seq<Call>, call: Call, bucket: Bucket, i: nat)
    requires IsWindow(rule, before, call.key, Some(bucket), i) && !Opens(rule, before, call)
    ensures IsWindow(rule, before + [call], call.key, Some(Bucket(bucket.count + 1, bucket.resetAt)), i)
  {
    OpensStays(rule, before, call);
    CallsAdd(before, call, i, call.key);
    var calls := before + [call];
    assert calls[..|before|] == before;
  }

  lemma {:induction false} WindowOpens(rule: Rule, before: seq<Call>, call: Call)
    requires Opens(rule, before, call)
    ensures IsWindow(rule, before + [call], call.key, Some(Bucket(1, call.now + rule.windowMs)), |before|)
  {
    var calls := before + [call];
    assert calls[..|before|] == before && calls[|before|..] == [call];
    assert CallsOf([call], call.key) == 1 + CallsOf([call][..0], call.key);
  }

  lemma {:induction false} BucketIsWindow(rule: Rule, calls: seq<Call>, key: string) returns (i: nat)
    requires InOrder(calls)
    ensures IsWindow(rule, calls, key, BucketOf(After(rule, calls), key), i)
  {
    i := 0;
    if calls != [] {
      hide IsWindow, Opens;
      var n := |calls| - 1;
      var before, call := calls[..n], calls[n];
      assert calls == before + [call];
      i := BucketIsWindow(rule, before, key);
      var bucket := BucketOf(After(rule, before), key);
      if call.key != key {
        OtherWindow(rule, before, call, key, bucket, i);
      } else {
        WindowsEnd(rule, before, call, bucket, i);
        if Opens(rule, before, call) {
          WindowOpens(rule, before, call);
          i := n;
        } else {
          WindowCounts(rule, before, call, bucket.value, i);
        }
      }
    }
  }

  /**
   A request is refused exactly when the window it falls in has had as many requests as the limit
   allows, refused ones included; and the wait is the seconds to the end of that window, rounded up.
   */
  lemma {:induction false} AnswerExact(rule: Rule, before: seq<Call>, call: Call)
    requires InOrder(before + [call])
    ensures AnswerTo(rule, before, call).Refused? <==>
      exists i: nat :: FallsInWindow(rule, before, call, i) && CallsOf(before[i..], call.key) >= rule.limit
    ensures forall i: nat :: FallsInWindow(rule, before, call, i) && AnswerTo(rule, before, call).Refused? ==>
      var left := before[i].now + rule.windowMs - call.now;
      var wait := AnswerTo(rule, before, call).retryAfterSeconds;
      wait >= 1 && (wait - 1) * 1000 < left <= wait * 1000
  {
    var calls := before + [call];
    assert calls[..|before|] == before;
    assert InOrder(before) by {
      assert forall j :: 0 <= j < |before| ==> calls[j] == before[j];
    }
    var i := BucketIsWindow(rule, before, call.key);
    OneWindow(rule, before, call, BucketOf(After(rule, before), call.key), i);
  }

  lemma {:induction false} OneWindow(rule: Rule, before: seq<Call>, call: Call, bucket: Option<Bucket>, i: nat)
    requires InOrder(before + [call]) && IsWindow(rule, before, call.key, bucket, i)
    ensures forall j: nat :: FallsInWindow(rule, before, call, j) <==> bucket.Some? && bucket.value.resetAt > call.now && j == i
  {
    if bucket.Some? {
      EarlierEnded(rule, before, call, bucket, i);
    }
    forall j: nat | FallsInWindow(rule, before, call, j)
      ensures bucket.Some? && bucket.value.resetAt > call.now && j == i
    {
      assert OpensAt(rule, before, j) && before[j] in before;
    }
  }
}

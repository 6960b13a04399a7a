/** The fixed-window rate limiter: its methods, its whole-run bound, and its unobservable cleanup. */
module RateLimit {
  import opened Wrappers

  /** Nanoseconds since Go's zero time, which IsZero recognises. */
  type Time = int

  const ZERO_TIME: Time := 0

  datatype Bucket = Bucket(count: int, resetAt: Time)

  type Items = map<string, Bucket>

  function KeyOf(key: string): string {
    if key == "" then "unknown" else key
  }

  /** The bucket that still counts calls for a key. */
  function Live(items: Items, key: string, now: Time): Option<Bucket> {
    if key in items && items[key].resetAt != ZERO_TIME && now <= items[key].resetAt then Some(items[key]) else None
  }

  /** What one call is told and what it leaves behind. */
  function Decide(limit: int, window: int, items: Items, key: string, now: Time): (bool, Items) {
    var k := KeyOf(key);
    match Live(items, k, now)
    case None => (true, items[k := Bucket(1, now + window)])
    case Some(b) => if b.count >= limit then (false, items) else (true, items[k := b.(count := b.count + 1)])
  }

  function Swept(items: Items, now: Time): Items {
    map k | k in items && now <= items[k].resetAt :: items[k]
  }

  class Limiter {
    const limit: int
    const window: int
    var items: Items

    constructor (limit: int, window: int)
      ensures this.limit == limit && this.window == window && items == map[]
    {
      this.limit := limit;
      this.window := window;
      items := map[];
    }

    method Allow(key: string, now: Time) returns (ok: bool)
      modifies this
      ensures (ok, items) == Decide(limit, window, old(items), key, now)
      ensures var k := if key == "" then "unknown" else key;
              if k in old(items) && old(items)[k].resetAt != ZERO_TIME && now <= old(items)[k].resetAt then
                && ok == (old(items)[k].count < limit)
                && (ok ==> items == old(items)[k := Bucket(old(items)[k].count + 1, old(items)[k].resetAt)])
                && (!ok ==> items == old(items))
              else ok && items == old(items)[k := Bucket(1, now + window)]
    {
      var k := if key == "" then "unknown" else key;
      var item := if k in items then items[k] else Bucket(0, ZERO_TIME);
      if item.resetAt == ZERO_TIME || now > item.resetAt {
        items := items[k := Bucket(1, now + window)];
        return true;
      }
      if item.count >= limit {
        return false;
      }
      item := item.(count := item.count + 1);
      items := items[k := item];
      ok := true;
    }

    method Cleanup(now: Time)
      modifies this
      ensures items == Swept(old(items), now)
      ensures items == map k | k in old(items) && now <= old(items)[k].resetAt :: old(items)[k]
    {
      var keys := items.Keys;
      while keys != {}
        invariant keys <= items.Keys <= old(items).Keys
        invariant forall k | k in items :: items[k] == old(items)[k]
        invariant forall k | k in items && k !in keys :: now <= items[k].resetAt
        invariant forall k | k in old(items) && k !in items :: now > old(items)[k].resetAt
        decreases keys
      {
        var key :| key in keys;
        if now > items[key].resetAt {
          items := items - {key};
        }
        keys := keys - {key};
      }
    }
  }

  datatype Op = Call(key: string, now: Time) | Sweep(now: Time)

  /** The clock, read in lock order, runs forward from after Go's zero time. */
  ghost predicate Ordered(ops: seq<Op>) {
    && (forall i | 0 <= i < |ops| :: ops[i].now > ZERO_TIME)
    && (forall i, j | 0 <= i < j < |ops| :: ops[i].now <= ops[j].now)
  }

  /** The limiter after one operation. */
  function Apply(limit: int, window: int, items: Items, op: Op): Items {
    if op.Call? then Decide(limit, window, items, op.key, op.now).1 else Swept(items, op.now)
  }

  /** The limiter after a run. */
  function State(limit: int, window: int, ops: seq<Op>): Items {
    if ops == [] then map[] else Apply(limit, window, State(limit, window, ops[..|ops| - 1]), ops[|ops| - 1])
  }

  /** Whether a call is let through after a run. */
  function Granted(limit: int, window: int, ops: seq<Op>, last: Op): bool {
    last.Call? && Decide(limit, window, State(limit, window, ops), last.key, last.now).0
  }

  /** The answers of all the calls of a run, in order. */
  function Answers(limit: int, window: int, ops: seq<Op>): seq<bool> {
    if ops == [] then []
    else
      var before, last := ops[..|ops| - 1], ops[|ops| - 1];
      Answers(limit, window, before) + if last.Call? then [Granted(limit, window, before, last)] else []
  }

  function EraseSweeps(ops: seq<Op>): seq<Op> {
    if ops == [] then []
    else EraseSweeps(ops[..|ops| - 1]) + if ops[|ops| - 1].Call? then [ops[|ops| - 1]] else []
  }

  /** Two limiters no call from time t on can tell apart. */
  ghost predicate SameFrom(m: Items, m': Items, t: Time) {
    forall k :: Live(m, k, t) == Live(m', k, t)
  }

  lemma SameLater(m: Items, m': Items, t: Time, t': Time)
    requires SameFrom(m, m', t) && t <= t'
    ensures SameFrom(m, m', t')
  {
    forall k ensures Live(m, k, t') == Live(m', k, t') {
      assert Live(m, k, t) == Live(m', k, t);
    }
  }

  lemma SameAnswer(limit: int, window: int, m: Items, m': Items, key: string, now: Time)
    requires SameFrom(m, m', now)
    ensures Decide(limit, window, m, key, now).0 == Decide(limit, window, m', key, now).0
    ensures SameFrom(Decide(limit, window, m, key, now).1, Decide(limit, window, m', key, now).1, now)
  {
    var k := KeyOf(key);
    assert Live(m, k, now) == Live(m', k, now);
    var d, d' := Decide(limit, window, m, key, now).1, Decide(limit, window, m', key, now).1;
    forall j ensures Live(d, j, now) == Live(d', j, now) {
      assert Live(m, j, now) == Live(m', j, now);
    }
  }

  lemma SweepIsSilent(m: Items, now: Time)
    requires now > ZERO_TIME
    ensures SameFrom(Swept(m, now), m, now)
  {
  }

  /** Every operation of the run is at t or earlier. */
  ghost predicate Until(ops: seq<Op>, t: Time) {
    t > ZERO_TIME && forall i | 0 <= i < |ops| :: ops[i].now <= t
  }

  lemma PrefixIsOrdered(ops: seq<Op>)
    requires Ordered(ops) && ops != []
    ensures Ordered(ops[..|ops| - 1]) && Until(ops[..|ops| - 1], ops[|ops| - 1].now) && Until(ops, ops[|ops| - 1].now)
  {
  }

  lemma EraseSnoc(ops: seq<Op>, last: Op)
    ensures EraseSweeps(ops + [last]) == if last.Call? then EraseSweeps(ops) + [last] else EraseSweeps(ops)
  {
    assert (ops + [last])[..|ops|] == ops;
  }

  /** The state and the answers after one more operation. */
  lemma Snoc(limit: int, window: int, ops: seq<Op>, last: Op)
    ensures State(limit, window, ops + [last]) == Apply(limit, window, State(limit, window, ops), last)
    ensures Answers(limit, window, ops + [last]) ==
              Answers(limit, window, ops) + if last.Call? then [Granted(limit, window, ops, last)] else []
  {
    assert (ops + [last])[..|ops|] == ops && (ops + [last])[|ops|] == last;
  }

  lemma {:induction false} ErasedIsTheSame(limit: int, window: int, ops: seq<Op>, t: Time)
    requires Ordered(ops) && Until(ops, t)
    ensures Answers(limit, window, ops) == Answers(limit, window, EraseSweeps(ops))
    ensures SameFrom(State(limit, window, ops), State(limit, window, EraseSweeps(ops)), t)
  {
    if ops != [] {
      var before, last := ops[..|ops| - 1], ops[|ops| - 1];
      PrefixIsOrdered(ops);
      ErasedIsTheSame(limit, window, before, last.now);
      assert ops == before + [last];
      EraseSnoc(before, last);
      Snoc(limit, window, before, last);
      Snoc(limit, window, EraseSweeps(before), last);
      var m, m' := State(limit, window, before), State(limit, window, EraseSweeps(before));
      if last.Call? {
        SameAnswer(limit, window, m, m', last.key, last.now);
      } else {
        SweepIsSilent(m, last.now);
        forall k ensures Live(Swept(m, last.now), k, last.now) == Live(m', k, last.now) {
          assert Live(Swept(m, last.now), k, last.now) == Live(m, k, last.now)
                 && Live(m, k, last.now) == Live(m', k, last.now);
        }
      }
      SameLater(State(limit, window, ops), State(limit, window, EraseSweeps(ops)), last.now, t);
    }
  }

  /** Cleanup calls, wherever they fall in a run and however many, change no answer. */
  lemma {:induction false} CleanupIsUnobservable(limit: int, window: int, ops: seq<Op>, ops': seq<Op>)
    requires Ordered(ops) && Ordered(ops') && EraseSweeps(ops) == EraseSweeps(ops')
    ensures Answers(limit, window, ops) == Answers(limit, window, ops')
  {
    if ops != [] {
      PrefixIsOrdered(ops);
      ErasedIsTheSame(limit, window, ops, ops[|ops| - 1].now);
    }
    if ops' != [] {
      PrefixIsOrdered(ops');
      ErasedIsTheSame(limit, window, ops', ops'[|ops'| - 1].now);
    }
  }

  /** The calls for one key only. */
  function Only(ops: seq<Op>, key: string): seq<Op> {
    if ops == [] then []
    else Only(ops[..|ops| - 1], key) +
         if ops[|ops| - 1].Call? && KeyOf(ops[|ops| - 1].key) == key then [ops[|ops| - 1]] else []
  }

  /** Calls for a key that were allowed at a time in the closed interval from..to. */
  function Allowed(limit: int, window: int, ops: seq<Op>, key: string, from: Time, to: Time): nat {
    if ops == [] then 0
    else
      Allowed(limit, window, ops[..|ops| - 1], key, from, to) +
      Grants(limit, window, ops[..|ops| - 1], ops[|ops| - 1], key, from, to)
  }

  function Grants(limit: int, window: int, ops: seq<Op>, last: Op, key: string, from: Time, to: Time): nat {
    if Granted(limit, window, ops, last) && KeyOf(last.key) == key && from <= last.now <= to then 1 else 0
  }

  lemma AllowedSnoc(limit: int, window: int, ops: seq<Op>, last: Op, key: string, from: Time, to: Time)
    ensures Allowed(limit, window, ops + [last], key, from, to) ==
              Allowed(limit, window, ops, key, from, to) + Grants(limit, window, ops, last, key, from, to)
  {
    assert (ops + [last])[..|ops|] == ops && (ops + [last])[|ops|] == last;
  }

  lemma OnlySnoc(ops: seq<Op>, last: Op, key: string)
    ensures Only(ops + [last], key) ==
              if last.Call? && KeyOf(last.key) == key then Only(ops, key) + [last] else Only(ops, key)
  {
    assert (ops + [last])[..|ops|] == ops;
  }

  /** One operation, as seen by one key. */
  lemma KeyStep(limit: int, window: int, m: Items, m': Items, last: Op, key: string)
    requires last.now > ZERO_TIME && Live(m, key, last.now) == Live(m', key, last.now)
    ensures last.Call? && KeyOf(last.key) == key ==>
              && Decide(limit, window, m, last.key, last.now).0 == Decide(limit, window, m', last.key, last.now).0
              && Live(Decide(limit, window, m, last.key, last.now).1, key, last.now) ==
                  Live(Decide(limit, window, m', last.key, last.now).1, key, last.now)
    ensures last.Call? && KeyOf(last.key) != key ==>
              Live(Decide(limit, window, m, last.key, last.now).1, key, last.now) == Live(m, key, last.now)
    ensures last.Sweep? ==> Live(Swept(m, last.now), key, last.now) == Live(m, key, last.now)
  {
  }

  lemma LiveLater(m: Items, m': Items, key: string, t: Time, t': Time)
    requires Live(m, key, t) == Live(m', key, t) && t <= t'
    ensures Live(m, key, t') == Live(m', key, t')
  {
  }

  /** Neither other keys nor cleanups affect what a key is allowed. */
  lemma {:induction false} KeysAreIndependent(limit: int, window: int, ops: seq<Op>, key: string, from: Time, to: Time,
                                              t: Time)
    requires Ordered(ops) && Until(ops, t)
    ensures Live(State(limit, window, ops), key, t) == Live(State(limit, window, Only(ops, key)), key, t)
    ensures Allowed(limit, window, ops, key, from, to) == Allowed(limit, window, Only(ops, key), key, from, to)
  {
    hide Decide, Live, Swept;
    if ops != [] {
      var before, last := ops[..|ops| - 1], ops[|ops| - 1];
      PrefixIsOrdered(ops);
      KeysAreIndependent(limit, window, before, key, from, to, last.now);
      assert ops == before + [last];
      OnlySnoc(before, last, key);
      Snoc(limit, window, before, last);
      Snoc(limit, window, Only(before, key), last);
      AllowedSnoc(limit, window, before, last, key, from, to);
      AllowedSnoc(limit, window, Only(before, key), last, key, from, to);
      KeyStep(limit, window, State(limit, window, before), State(limit, window, Only(before, key)), last, key);
      LiveLater(State(limit, window, ops), State(limit, window, Only(ops, key)), key, last.now, t);
    }
  }

  function Cap(limit: int): int {
    if limit < 1 then 1 else limit
  }

  predicate OneKey(ops: seq<Op>, key: string) {
    forall i | 0 <= i < |ops| :: ops[i].Call? && KeyOf(ops[i].key) == key
  }

  lemma {:induction false} OnlyHasOneKey(ops: seq<Op>, key: string, t: Time)
    requires Ordered(ops) && Until(ops, t)
    ensures OneKey(Only(ops, key), key) && Ordered(Only(ops, key)) && Until(Only(ops, key), t)
  {
    if ops != [] {
      PrefixIsOrdered(ops);
      OnlyHasOneKey(ops[..|ops| - 1], key, ops[|ops| - 1].now);
    }
  }

  /** How many calls of the interval from..from+window a bucket leaves possible by time t: its opening
      call lies before the interval, in it, or after it. */
  ghost predicate BucketBounds(limit: int, window: int, items: Items, key: string, from: Time, allowed: nat, t: Time) {
    if key !in items then allowed == 0
    else
      var b := items[key];
      var start := b.resetAt - window;
      && 1 <= b.count <= Cap(limit) && start <= t
      && (start < from ==> allowed <= b.count - 1)
      && (from <= start <= from + window ==> allowed <= Cap(limit) - 1 + b.count)
      && allowed <= 2 * Cap(limit) - 1
  }

  lemma {:induction false} NothingBefore(limit: int, window: int, ops: seq<Op>, key: string, from: Time, to: Time)
    requires forall i | 0 <= i < |ops| :: ops[i].now < from
    ensures Allowed(limit, window, ops, key, from, to) == 0
  {
    if ops != [] {
      NothingBefore(limit, window, ops[..|ops| - 1], key, from, to);
    }
  }

  /** One more call for the key. */
  lemma BoundStep(limit: int, window: int, items: Items, last: Op, key: string, from: Time, allowed: nat)
    requires last.Call? && KeyOf(last.key) == key && last.now > ZERO_TIME
    requires BucketBounds(limit, window, items, key, from, allowed, last.now) && (last.now < from ==> allowed == 0)
    ensures var (ok, items') := Decide(limit, window, items, last.key, last.now);
            BucketBounds(limit, window, items', key, from,
                         allowed + (if ok && from <= last.now <= from + window then 1 else 0), last.now)
  {
  }

  lemma {:induction false} OneKeyBound(limit: int, window: int, ops: seq<Op>, key: string, from: Time, t: Time)
    requires Ordered(ops) && OneKey(ops, key) && Until(ops, t)
    ensures BucketBounds(limit, window, State(limit, window, ops), key, from,
                         Allowed(limit, window, ops, key, from, from + window), t)
  {
    if ops != [] {
      var before, last := ops[..|ops| - 1], ops[|ops| - 1];
      PrefixIsOrdered(ops);
      OneKeyBound(limit, window, before, key, from, last.now);
      if last.now < from {
        NothingBefore(limit, window, before, key, from, from + window);
      }
      BoundStep(limit, window, State(limit, window, before), last, key, from,
                Allowed(limit, window, before, key, from, from + window));
    }
  }

  /** In every run, each key is allowed at most 2*limit-1 calls in any closed interval of one window's length. */
  lemma {:induction false} LimiterBound(limit: int, window: int, ops: seq<Op>, key: string, from: Time)
    requires Ordered(ops)
    ensures Allowed(limit, window, ops, key, from, from + window) <= 2 * Cap(limit) - 1
  {
    hide Allowed, State, Only, Ordered, Until, OneKey;
    if ops == [] {
      NothingBefore(limit, window, ops, key, from, from + window);
    } else {
      var t := ops[|ops| - 1].now;
      PrefixIsOrdered(ops);
      KeysAreIndependent(limit, window, ops, key, from, from + window, t);
      OnlyHasOneKey(ops, key, t);
      OneKeyBound(limit, window, Only(ops, key), key, from, t);
    }
  }

  /** A later start counts no more grants. */
  lemma {:induction false} AllowedShrinks(limit: int, window: int, ops: seq<Op>, key: string, from: Time, from': Time,
                                          to: Time)
    requires from <= from'
    ensures Allowed(limit, window, ops, key, from', to) <= Allowed(limit, window, ops, key, from, to)
  {
    if ops != [] {
      AllowedShrinks(limit, window, ops[..|ops| - 1], key, from, from', to);
    }
  }

  /** Every call a bucket has counted was granted since the bucket was opened. */
  ghost predicate Backed(limit: int, window: int, items: Items, ops: seq<Op>, key: string, t: Time) {
    key in items ==>
      var b := items[key];
      && 1 <= b.count <= Allowed(limit, window, ops, key, b.resetAt - window, t)
      && b.resetAt - window <= t && b.resetAt != ZERO_TIME
  }

  lemma {:induction false} CountsAreBacked(limit: int, window: int, ops: seq<Op>, key: string, t: Time)
    requires window >= 0 && Ordered(ops) && Until(ops, t)
    ensures Backed(limit, window, State(limit, window, ops), ops, key, t)
  {
    if ops != [] {
      var before, last := ops[..|ops| - 1], ops[|ops| - 1];
      PrefixIsOrdered(ops);
      CountsAreBacked(limit, window, before, key, last.now);
      CountsAreBacked(limit, window, before, key, t);
    }
  }

  /** The lower bound: a call is granted whenever its key has had fewer grants than the limit within the last window.
      A caller that keeps calling while it is refused is not held back by those calls. */
  lemma {:induction false} FewGrantsAreFollowed(limit: int, window: int, ops: seq<Op>, key: string, now: Time)
    requires window >= 0 && Ordered(ops) && Until(ops, now)
    requires Allowed(limit, window, ops, KeyOf(key), now - window, now) < Cap(limit)
    ensures Granted(limit, window, ops, Call(key, now))
  {
    hide State, Allowed;
    var k, items := KeyOf(key), State(limit, window, ops);
    CountsAreBacked(limit, window, ops, k, now);
    if k in items && now <= items[k].resetAt {
      AllowedShrinks(limit, window, ops, k, now - window, items[k].resetAt - window, now);
    }
  }

  /** n calls at one moment. */
  function Burst(key: string, now: Time, n: nat): seq<Op> {
    if n == 0 then [] else Burst(key, now, n - 1) + [Call(key, now)]
  }

  /** The bucket a key's next call will find, or open. */
  ghost predicate Ready(items: Items, key: string, now: Time, window: int, used: nat, resetAt: Time) {
    match Live(items, key, now)
    case None => used == 0 && resetAt == now + window
    case Some(b) => b == Bucket(used, resetAt)
  }

  lemma OneMore(limit: int, window: int, items: Items, key: string, now: Time, used: nat, resetAt: Time)
    requires key != "" && window >= 0 && now > ZERO_TIME && used < limit && now <= resetAt
    requires Ready(items, key, now, window, used, resetAt)
    ensures Decide(limit, window, items, key, now).0
    ensures Live(Decide(limit, window, items, key, now).1, key, now) == Some(Bucket(used + 1, resetAt))
  {
  }

  /** A burst within the limit, on a bucket that is live throughout or opened by its first call, is allowed in full. */
  lemma {:induction false} BurstIsAllowed(limit: int, window: int, ops: seq<Op>, key: string, now: Time, n: nat,
                                          from: Time, to: Time, used: nat, resetAt: Time)
    requires key != "" && window >= 0 && from <= now <= to && now > ZERO_TIME && used + n <= limit && now <= resetAt
    requires Ready(State(limit, window, ops), key, now, window, used, resetAt)
    ensures Allowed(limit, window, ops + Burst(key, now, n), key, from, to) ==
              Allowed(limit, window, ops, key, from, to) + n
    ensures Ready(State(limit, window, ops + Burst(key, now, n)), key, now, window, used + n, resetAt)
    decreases n
  {
    hide Decide, State, Allowed;
    if n == 0 {
      assert ops + Burst(key, now, 0) == ops;
    } else {
      var before := ops + Burst(key, now, n - 1);
      BurstIsAllowed(limit, window, ops, key, now, n - 1, from, to, used, resetAt);
      assert ops + Burst(key, now, n) == before + [Call(key, now)];
      Snoc(limit, window, before, Call(key, now));
      AllowedSnoc(limit, window, before, Call(key, now), key, from, to);
      OneMore(limit, window, State(limit, window, before), key, now, used + n - 1, resetAt);
    }
  }

  lemma {:induction false} BurstIsOneMoment(key: string, now: Time, n: nat)
    ensures |Burst(key, now, n)| == n && forall i | 0 <= i < n :: Burst(key, now, n)[i] == Call(key, now)
  {
    if n > 0 {
      BurstIsOneMoment(key, now, n - 1);
    }
  }

  /** The bound is tight: one early call, then the rest of its bucket and a whole new bucket within one window. */
  lemma {:induction false} BoundIsTight(limit: int, window: int) returns (ops: seq<Op>, from: Time)
    requires limit >= 1 && window >= 1
    ensures Ordered(ops) && Allowed(limit, window, ops, "client", from, from + window) == 2 * limit - 1
  {
    hide Decide, Allowed, Burst, Live;
    from := 2;
    var first := [Call("client", 1)];
    var second, third := Burst("client", 1 + window, limit - 1), Burst("client", 2 + window, limit);
    FirstCall(limit, window, "client", from, from + window);
    BurstIsAllowed(limit, window, first, "client", 1 + window, limit - 1, from, from + window, 1, 1 + window);
    OldBucketIsDead(State(limit, window, first + second), "client", window, limit);
    BurstIsAllowed(limit, window, first + second, "client", 2 + window, limit, from, from + window, 0, 2 + 2 * window);
    ops := first + second + third;
    BurstIsOneMoment("client", 1 + window, limit - 1);
    BurstIsOneMoment("client", 2 + window, limit);
  }

  lemma FirstCall(limit: int, window: int, key: string, from: Time, to: Time)
    requires limit >= 1 && window >= 1 && from > 1 && key != ""
    ensures Allowed(limit, window, [Call(key, 1)], key, from, to) == 0
    ensures Ready(State(limit, window, [Call(key, 1)]), key, 1 + window, window, 1, 1 + window)
  {
    Snoc(limit, window, [], Call(key, 1));
    AllowedSnoc(limit, window, [], Call(key, 1), key, from, to);
    assert [] + [Call(key, 1)] == [Call(key, 1)];
  }

  lemma OldBucketIsDead(items: Items, key: string, window: int, used: nat)
    requires window >= 1 && used >= 1 && Ready(items, key, 1 + window, window, used, 1 + window)
    ensures Ready(items, key, 2 + window, window, 0, 2 + 2 * window)
  {
  }
}

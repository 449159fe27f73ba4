/**
 The per-tenant fixed-window limiter: one Redis counter per tenant and 60-second slot, counted by an atomic script,
 with an expiry that starts at the slot's first request.  Instants are milliseconds; both clocks are the same.
 */
module RateLimiter {
  import opened Common

  const SLOT: nat := 60_000

  /** `expiry` is None between INCR and EXPIRE. */
  datatype Entry = Entry(count: nat, expiry: Option<int>)

  type Keys = map<string, Entry>

  function Digit(n: nat): (c: char)
    ensures c != ':'
  {
    (n % 10 + 48) as char
  }

  function Decimal(n: nat): (s: string)
    ensures s != [] && ':' !in s
  {
    if n < 10 then [Digit(n)] else Decimal(n / 10) + [Digit(n)]
  }

  function KeyOf(tenant: string, slot: nat): string {
    "rl:" + tenant + [':'] + Decimal(slot)
  }

  lemma {:induction false} DecimalIsInjective(a: nat, b: nat)
    requires Decimal(a) == Decimal(b)
    ensures a == b
    decreases a
  {
    var s, t := Decimal(a), Decimal(b);
    assert Digit(a) == s[|s| - 1] == t[|t| - 1] == Digit(b);
    assert (a >= 10 <==> |s| > 1) && (b >= 10 <==> |t| > 1);
    if a >= 10 {
      assert Decimal(a / 10) == s[..|s| - 1] == t[..|t| - 1] == Decimal(b / 10);
      DecimalIsInjective(a / 10, b / 10);
    }
  }

  lemma NoColonInside(k: string, digits: string, i: int)
    requires |digits| <= |k| && k[|k| - |digits|..] == digits && ':' !in digits
    requires |k| - |digits| <= i < |k|
    ensures k[i] != ':'
  {
    assert k[i] == digits[i - (|k| - |digits|)];
  }

  /** Tenants may contain colons; the slot does not, so no two tenants or slots share a counter. */
  lemma KeysAreDistinct(t: string, slot: nat, u: string, other: nat)
    requires KeyOf(t, slot) == KeyOf(u, other)
    ensures t == u && slot == other
  {
    var a, b := Decimal(slot), Decimal(other);
    var k := KeyOf(t, slot);
    var n := |k|;
    assert k[n - |a| - 1] == ':' && k[n - |b| - 1] == ':';
    assert a == k[n - |a|..] && b == k[n - |b|..];
    if |a| < |b| {
      NoColonInside(k, b, n - |a| - 1);
    } else if |b| < |a| {
      NoColonInside(k, a, n - |b| - 1);
    }
    assert t == k[3..n - |a| - 1] && u == k[3..n - |b| - 1];
    DecimalIsInjective(slot, other);
  }

  // ---- Redis ----

  predicate Alive(keys: Keys, key: string, now: int) {
    key in keys && (keys[key].expiry.None? || now <= keys[key].expiry.value)
  }

  /** TTL answers in seconds, rounded to the nearest. */
  function TtlOf(keys: Keys, key: string, now: int): int {
    if !Alive(keys, key, now) then -2
    else if keys[key].expiry.None? then -1
    else (keys[key].expiry.value - now + 500) / 1000
  }

  class Redis {
    var keys: Keys

    constructor ()
      ensures keys == map[]
    {
      keys := map[];
    }

    method Incr(key: string, now: int) returns (count: nat)
      modifies this
      ensures var entry := if Alive(old(keys), key, now) then old(keys)[key] else Entry(0, None);
              count == entry.count + 1 && keys == old(keys)[key := entry.(count := entry.count + 1)]
    {
      if !Alive(keys, key, now) { keys := keys[key := Entry(0, None)]; }
      count := keys[key].count + 1;
      keys := keys[key := keys[key].(count := count)];
    }

    method Expire(key: string, seconds: int, now: int)
      modifies this
      ensures keys == if Alive(old(keys), key, now)
                      then old(keys)[key := old(keys)[key].(expiry := Some(now + seconds * 1000))] else old(keys)
    {
      if Alive(keys, key, now) { keys := keys[key := keys[key].(expiry := Some(now + seconds * 1000))]; }
    }
  }

  // ---- The limiter ----

  datatype Bucket = Bucket(allowed: bool, remaining: nat, limit: nat, resetAt: int)

  datatype Reply = Passed(limit: nat, remaining: nat, resetAt: int)
                 | Refused(limit: nat, remaining: nat, resetAt: int, retryAfter: int)

  /** The counter after the script: counted up, and given an expiry by its first request. */
  function Counted(keys: Keys, key: string, now: int): Entry {
    if Alive(keys, key, now) && keys[key].count > 0 then keys[key].(count := keys[key].count + 1)
    else Entry(1, Some(now + SLOT))
  }

  /** The reply when the counter stands at `entry`. */
  function ReplyFor(entry: Entry, limit: nat, now: int): Reply
    requires entry.expiry.Some?
  {
    var ttl := (entry.expiry.value - now + 500) / 1000;
    var wait := if ttl > 0 then ttl else 60;
    var remaining := if limit > entry.count then limit - entry.count else 0;
    if entry.count <= limit then Passed(limit, remaining, now / 1000 + wait)
    else Refused(limit, remaining, now / 1000 + wait, wait)
  }

  predicate Expiring(keys: Keys) {
    forall key :: key in keys ==> keys[key].expiry.Some?
  }

  method CheckBucket(redis: Redis, key: string, limit: nat, now: nat) returns (bucket: Bucket)
    requires Expiring(redis.keys)
    modifies redis
    ensures Expiring(redis.keys) && redis.keys == old(redis.keys)[key := Counted(old(redis.keys), key, now)]
    ensures var reply := ReplyFor(Counted(old(redis.keys), key, now), limit, now);
            bucket == Bucket(reply.Passed?, reply.remaining, limit, reply.resetAt)
    ensures var first := key !in old(redis.keys) || old(redis.keys)[key].expiry.value < now
                         || old(redis.keys)[key].count == 0;
            redis.keys[key] == if first then Entry(1, Some(now + 60_000))
                               else Entry(old(redis.keys)[key].count + 1, old(redis.keys)[key].expiry)
  {
    var seconds := now / 1000;
    var resetAt := seconds + 60;
    var count := redis.Incr(key, now);
    if count == 1 {
      redis.Expire(key, 60, now);
    }
    var ttl := TtlOf(redis.keys, key, now);
    var remaining := if limit - count > 0 then limit - count else 0;
    var actualReset := if ttl > 0 then seconds + ttl else resetAt;
    bucket := Bucket(count <= limit, remaining, limit, actualReset);
  }

  method RateLimit(redis: Redis, tenant: string, limit: nat, now: nat) returns (reply: Reply)
    requires Expiring(redis.keys)
    modifies redis
    ensures Expiring(redis.keys) && (redis.keys, reply) == Ask(old(redis.keys), Request(tenant, limit, now))
  {
    var windowKey := KeyOf(tenant, now / SLOT);
    var bucket := CheckBucket(redis, windowKey, limit, now);
    if !bucket.allowed {
      var wait := bucket.resetAt - now / 1000;
      var retryAfter := if wait > 1 then wait else 1;
      return Refused(bucket.limit, bucket.remaining, bucket.resetAt, retryAfter);
    }
    reply := Passed(bucket.limit, bucket.remaining, bucket.resetAt);
  }

  datatype Request = Request(tenant: string, limit: nat, now: nat)

  function Ask(keys: Keys, r: Request): (Keys, Reply)
    requires Expiring(keys)
  {
    var key := KeyOf(r.tenant, r.now / SLOT);
    var entry := Counted(keys, key, r.now);
    (keys[key := entry], ReplyFor(entry, r.limit, r.now))
  }

  // ---- Runs ----

  /** A request, or Redis dropping a key that has expired. */
  datatype Op = Send(r: Request) | Drop(key: string, at: nat)

  function At(op: Op): nat {
    match op case Send(r) => r.now case Drop(_, at) => at
  }

  function Dropped(keys: Keys, key: string, now: nat): Keys {
    if Alive(keys, key, now) then keys else keys - {key}
  }

  /** Redis after the run, and one reply for every operation that is a request. */
  function Run(ops: seq<Op>): (r: (Keys, seq<Reply>))
    ensures Expiring(r.0)
  {
    if ops == [] then (map[], [])
    else
      var (keys, replies) := Run(ops[..|ops| - 1]);
      match ops[|ops| - 1]
      case Drop(key, now) => (Dropped(keys, key, now), replies)
      case Send(r) =>
        var (next, reply) := Ask(keys, r);
        (next, replies + [reply])
  }

  predicate ClockRuns(ops: seq<Op>) {
    forall i, j :: 0 <= i < j < |ops| ==> At(ops[i]) <= At(ops[j])
  }

  predicate OfSlot(op: Op, tenant: string, slot: nat) {
    op.Send? && op.r.tenant == tenant && op.r.now / SLOT == slot
  }

  /** The requests of a tenant in a slot. */
  function InSlot(ops: seq<Op>, tenant: string, slot: nat): (r: seq<Request>)
  {
    if ops == [] then []
    else InSlot(ops[..|ops| - 1], tenant, slot)
         + if OfSlot(ops[|ops| - 1], tenant, slot) then [ops[|ops| - 1].r] else []
  }

  /** What the slot's requests so far have made of its counter. */
  function CounterOf(requests: seq<Request>): Entry {
    Entry(|requests|, if requests == [] then None else Some(requests[0].now + SLOT))
  }

  ghost predicate SlotCounted(keys: Keys, ops: seq<Op>, tenant: string, slot: nat) {
    var key, requests := KeyOf(tenant, slot), InSlot(ops, tenant, slot);
    (key in keys <==> requests != []) && (key in keys ==> keys[key] == CounterOf(requests))
  }

  /** From the current slot on, every counter holds exactly the requests of its own slot. */
  ghost predicate Inv(keys: Keys, ops: seq<Op>, clock: nat) {
    forall tenant, slot: nat :: clock / SLOT <= slot ==> SlotCounted(keys, ops, tenant, slot)
  }

  lemma InSlotLast(ops: seq<Op>, op: Op, tenant: string, slot: nat)
    ensures InSlot(ops + [op], tenant, slot)
            == InSlot(ops, tenant, slot) + if OfSlot(op, tenant, slot) then [op.r] else []
  {
    assert (ops + [op])[..|ops|] == ops;
  }

  lemma {:induction false} InSlotTimes(ops: seq<Op>, tenant: string, slot: nat)
    ensures var requests := InSlot(ops, tenant, slot);
            && (forall i :: 0 <= i < |requests| ==> requests[i].tenant == tenant && requests[i].now / SLOT == slot)
            && (ClockRuns(ops) && requests != [] ==> requests[0].now <= At(ops[|ops| - 1]))
  {
    if ops == [] {
    } else {
      var n := |ops| - 1;
      InSlotTimes(ops[..n], tenant, slot);
      var before := InSlot(ops[..n], tenant, slot);
      if ClockRuns(ops) && before != [] {
        assert |ops[..n]| > 0;
        assert ops[..n][n - 1] == ops[n - 1] && At(ops[n - 1]) <= At(ops[n]);
      }
    }
  }

  /** A counter never expires inside its own slot. */
  lemma AliveInItsSlot(keys: Keys, ops: seq<Op>, tenant: string, slot: nat, now: nat)
    requires SlotCounted(keys, ops, tenant, slot) && now / SLOT == slot && InSlot(ops, tenant, slot) != []
    ensures Alive(keys, KeyOf(tenant, slot), now)
    ensures now < keys[KeyOf(tenant, slot)].expiry.value
  {
    InSlotTimes(ops, tenant, slot);
  }

  /** The counter a request meets is the one of the requests before it, and counts it in. */
  lemma SendCounts(keys: Keys, ops: seq<Op>, r: Request)
    requires Expiring(keys) && SlotCounted(keys, ops, r.tenant, r.now / SLOT)
    ensures Counted(keys, KeyOf(r.tenant, r.now / SLOT), r.now)
            == CounterOf(InSlot(ops, r.tenant, r.now / SLOT) + [r])
  {
    hide KeyOf, InSlot;
    var mine := r.now / SLOT;
    if InSlot(ops, r.tenant, mine) != [] { AliveInItsSlot(keys, ops, r.tenant, mine, r.now); }
  }

  lemma SendKeepsSlot(keys: Keys, ops: seq<Op>, r: Request, tenant: string, slot: nat)
    requires Expiring(keys) && SlotCounted(keys, ops, tenant, slot)
    ensures SlotCounted(Ask(keys, r).0, ops + [Send(r)], tenant, slot)
  {
    hide KeyOf, InSlot, Counted, CounterOf;
    InSlotLast(ops, Send(r), tenant, slot);
    assert InSlot(ops, tenant, slot) + [] == InSlot(ops, tenant, slot);
    if OfSlot(Send(r), tenant, slot) {
      SendCounts(keys, ops, r);
    } else if KeyOf(tenant, slot) == KeyOf(r.tenant, r.now / SLOT) {
      KeysAreDistinct(tenant, slot, r.tenant, r.now / SLOT);
    }
  }

  lemma SendKeepsInv(keys: Keys, ops: seq<Op>, clock: nat, r: Request)
    requires Inv(keys, ops, clock) && clock <= r.now && Expiring(keys)
    ensures Inv(Ask(keys, r).0, ops + [Send(r)], r.now)
    ensures var before := InSlot(ops, r.tenant, r.now / SLOT);
            Ask(keys, r).1 == ReplyFor(CounterOf(before + [r]), r.limit, r.now)
  {
    hide KeyOf, InSlot, Counted, CounterOf, ReplyFor, SlotCounted;
    SendCounts(keys, ops, r);
    forall tenant, slot: nat | r.now / SLOT <= slot
      ensures SlotCounted(Ask(keys, r).0, ops + [Send(r)], tenant, slot)
    {
      SendKeepsSlot(keys, ops, r, tenant, slot);
    }
  }

  lemma DropKeepsInv(keys: Keys, ops: seq<Op>, clock: nat, key: string, now: nat)
    requires Inv(keys, ops, clock) && clock <= now
    ensures Inv(Dropped(keys, key, now), ops + [Drop(key, now)], now)
  {
    forall tenant, slot: nat | now / SLOT <= slot
      ensures SlotCounted(Dropped(keys, key, now), ops + [Drop(key, now)], tenant, slot)
    {
      InSlotLast(ops, Drop(key, now), tenant, slot);
      assert SlotCounted(keys, ops, tenant, slot);
      if KeyOf(tenant, slot) == key && InSlot(ops, tenant, slot) != [] {
        InSlotTimes(ops, tenant, slot);
        assert Alive(keys, key, now);
      }
    }
  }

  function Clock(ops: seq<Op>): nat {
    if ops == [] then 0 else At(ops[|ops| - 1])
  }

  lemma {:induction false} RunKeepsInv(ops: seq<Op>)
    requires ClockRuns(ops)
    ensures Inv(Run(ops).0, ops, Clock(ops))
  {
    if ops == [] {
    } else {
      var n := |ops| - 1;
      var before, op := ops[..n], ops[n];
      assert ops == before + [op];
      RunKeepsInv(before);
      assert Clock(before) <= At(op) by {
        if n > 0 { assert before[n - 1] == ops[n - 1]; }
      }
      hide Inv, Ask, Dropped;
      match op
      case Send(r) => SendKeepsInv(Run(before).0, before, Clock(before), r);
      case Drop(key, now) => DropKeepsInv(Run(before).0, before, Clock(before), key, now);
    }
  }

  /** Every request is answered by its place among the requests of its own tenant and slot, whatever else happens. */
  lemma AnsweredByPlace(ops: seq<Op>, r: Request)
    requires ClockRuns(ops + [Send(r)])
    ensures var before := InSlot(ops, r.tenant, r.now / SLOT);
            var (keys, replies) := Run(ops + [Send(r)]);
            var remaining := r.limit - |before| - 1;
            && replies == Run(ops).1 + [ReplyFor(CounterOf(before + [r]), r.limit, r.now)]
            && replies[|replies| - 1].Passed? == (|before| < r.limit)
            && replies[|replies| - 1].remaining == (if remaining > 0 then remaining else 0)
            && replies[|replies| - 1].limit == r.limit
            && var left := 60_000 - (r.now - (before + [r])[0].now);
               var ttl := (left + 500) / 1000;
            0 < left <= 60_000 && replies[|replies| - 1].resetAt == r.now / 1000 + if ttl > 0 then ttl else 60
  {
    hide CounterOf, ReplyFor;
    var all := ops + [Send(r)];
    assert all[..|ops|] == ops;
    assert ClockRuns(ops) by {
      forall i, j | 0 <= i < j < |ops|
        ensures At(ops[i]) <= At(ops[j])
      {
        assert all[i] == ops[i] && all[j] == ops[j];
      }
    }
    RunKeepsInv(ops);
    assert Clock(ops) <= r.now by {
      if ops != [] { assert all[|ops| - 1] == ops[|ops| - 1] && all[|ops|] == Send(r); }
    }
    SendKeepsInv(Run(ops).0, ops, Clock(ops), r);
    InSlotTimes(ops, r.tenant, r.now / SLOT);
    ReplyOfPlace(InSlot(ops, r.tenant, r.now / SLOT), r);
  }

  lemma ReplyOfPlace(before: seq<Request>, r: Request)
    requires before != [] ==> before[0].now <= r.now && before[0].now / SLOT == r.now / SLOT
    ensures var reply := ReplyFor(CounterOf(before + [r]), r.limit, r.now);
            var remaining := r.limit - |before| - 1;
            && reply.Passed? == (|before| < r.limit)
            && reply.remaining == (if remaining > 0 then remaining else 0) && reply.limit == r.limit
            && var left := 60_000 - (r.now - (before + [r])[0].now);
               var ttl := (left + 500) / 1000;
            0 < left <= 60_000 && reply.resetAt == r.now / 1000 + if ttl > 0 then ttl else 60
  {
  }

  // ---- Admission ----

  /** The requests of `tenant` in [from, to) that were passed. */
  function PassedWithin(ops: seq<Op>, tenant: string, from: int, to: int): nat {
    if ops == [] then 0
    else
      var op := ops[|ops| - 1];
      var replies := Run(ops).1;
      PassedWithin(ops[..|ops| - 1], tenant, from, to)
      + if op.Send? && op.r.tenant == tenant && from <= op.r.now < to && replies[|replies| - 1].Passed? then 1 else 0
  }

  predicate LimitIs(ops: seq<Op>, tenant: string, limit: nat) {
    forall i :: 0 <= i < |ops| && ops[i].Send? && ops[i].r.tenant == tenant ==> ops[i].r.limit == limit
  }

  lemma PrefixIsRun(ops: seq<Op>, tenant: string, limit: nat)
    requires ClockRuns(ops) && LimitIs(ops, tenant, limit) && ops != []
    ensures ClockRuns(ops[..|ops| - 1]) && LimitIs(ops[..|ops| - 1], tenant, limit)
    ensures ops == ops[..|ops| - 1] + [ops[|ops| - 1]]
  {
  }

  /** Each slot passes exactly its first `limit` requests. */
  lemma {:induction false} SlotPassesUpToTheLimit(ops: seq<Op>, tenant: string, limit: nat, slot: nat)
    requires ClockRuns(ops) && LimitIs(ops, tenant, limit)
    ensures var sent := |InSlot(ops, tenant, slot)|;
            PassedWithin(ops, tenant, slot * SLOT, (slot + 1) * SLOT) == if sent < limit then sent else limit
  {
    if ops == [] {
    } else {
      PrefixIsRun(ops, tenant, limit);
      var before, op := ops[..|ops| - 1], ops[|ops| - 1];
      SlotPassesUpToTheLimit(before, tenant, limit, slot);
      hide Run, ClockRuns;
      if op.Send? {
        AnsweredByPlace(before, op.r);
        assert slot * SLOT <= op.r.now < (slot + 1) * SLOT <==> op.r.now / SLOT == slot;
      }
    }
  }

  lemma {:induction false} TwoSlotsCover(ops: seq<Op>, tenant: string, from: nat)
    ensures var slot := from / SLOT;
            PassedWithin(ops, tenant, from, from + SLOT)
            <= PassedWithin(ops, tenant, slot * SLOT, (slot + 1) * SLOT)
               + PassedWithin(ops, tenant, (slot + 1) * SLOT, (slot + 2) * SLOT)
  {
    hide Run;
    if ops == [] {
    } else {
      TwoSlotsCover(ops[..|ops| - 1], tenant, from);
    }
  }

  /** No 60 seconds, wherever they start, pass more than twice the limit. */
  lemma AnyMinutePassesTwiceTheLimit(ops: seq<Op>, tenant: string, limit: nat, from: nat)
    requires ClockRuns(ops) && LimitIs(ops, tenant, limit)
    ensures PassedWithin(ops, tenant, from, from + SLOT) <= 2 * limit
  {
    var slot := from / SLOT;
    TwoSlotsCover(ops, tenant, from);
    SlotPassesUpToTheLimit(ops, tenant, limit, slot);
    SlotPassesUpToTheLimit(ops, tenant, limit, slot + 1);
  }

  function Repeated(op: Op, n: nat): (ops: seq<Op>)
    ensures |ops| == n && forall i :: 0 <= i < n ==> ops[i] == op
  {
    if n == 0 then [] else Repeated(op, n - 1) + [op]
  }

  lemma {:induction false} BurstInSlot(ops: seq<Op>, r: Request, n: nat, slot: nat)
    ensures |InSlot(ops + Repeated(Send(r), n), r.tenant, slot)|
            == |InSlot(ops, r.tenant, slot)| + if r.now / SLOT == slot then n else 0
    decreases n
  {
    if n == 0 {
      assert ops + [] == ops;
    } else {
      var before := ops + Repeated(Send(r), n - 1);
      assert ops + Repeated(Send(r), n) == before + [Send(r)];
      InSlotLast(before, Send(r), r.tenant, slot);
      BurstInSlot(ops, r, n - 1, slot);
    }
  }

  lemma {:induction false} PassedWithinJoins(ops: seq<Op>, tenant: string, from: int, mid: int, to: int)
    requires from <= mid <= to
    ensures PassedWithin(ops, tenant, from, to)
            == PassedWithin(ops, tenant, from, mid) + PassedWithin(ops, tenant, mid, to)
  {
    hide Run;
    if ops == [] {
    } else {
      PassedWithinJoins(ops[..|ops| - 1], tenant, from, mid, to);
    }
  }

  lemma {:induction false} PassedWithinNarrows(ops: seq<Op>, tenant: string, from: int, to: int, a: int, b: int)
    requires from <= a <= b <= to
    requires forall i :: 0 <= i < |ops| && ops[i].Send? && from <= ops[i].r.now < to ==> a <= ops[i].r.now < b
    ensures PassedWithin(ops, tenant, a, b) == PassedWithin(ops, tenant, from, to)
  {
    hide Run;
    if ops == [] {
    } else {
      PassedWithinNarrows(ops[..|ops| - 1], tenant, from, to, a, b);
    }
  }

  /** The bound is reached: bursts on both sides of a slot boundary pass twice the limit within two milliseconds. */
  lemma TwiceTheLimitIsReached(tenant: string, limit: nat)
    ensures var ops := Repeated(Send(Request(tenant, limit, SLOT - 1)), limit)
                       + Repeated(Send(Request(tenant, limit, SLOT)), limit);
            ClockRuns(ops) && PassedWithin(ops, tenant, SLOT - 1, SLOT + 1) == 2 * limit
  {
    hide Run, InSlot, PassedWithin, Repeated;
    var a, b := Request(tenant, limit, SLOT - 1), Request(tenant, limit, SLOT);
    var first := Repeated(Send(a), limit);
    var ops := first + Repeated(Send(b), limit);
    BurstsAreARun(a, b, limit);
    BurstCounts(a, b, limit);
    SlotPassesUpToTheLimit(ops, tenant, limit, 0);
    SlotPassesUpToTheLimit(ops, tenant, limit, 1);
    PassedWithinNarrows(ops, tenant, 0, SLOT, SLOT - 1, SLOT);
    PassedWithinNarrows(ops, tenant, SLOT, 2 * SLOT, SLOT, SLOT + 1);
    PassedWithinJoins(ops, tenant, SLOT - 1, SLOT, SLOT + 1);
  }

  lemma BurstsAreARun(a: Request, b: Request, limit: nat)
    requires a.now <= b.now && a.limit == b.limit
    ensures var ops := Repeated(Send(a), limit) + Repeated(Send(b), limit);
            ClockRuns(ops) && LimitIs(ops, a.tenant, a.limit)
            && (forall i :: 0 <= i < |ops| ==> ops[i] == Send(a) || ops[i] == Send(b))
  {
  }

  lemma BurstCounts(a: Request, b: Request, limit: nat)
    requires a.tenant == b.tenant && a.now / SLOT == 0 && b.now / SLOT == 1
    ensures var ops := Repeated(Send(a), limit) + Repeated(Send(b), limit);
            |InSlot(ops, a.tenant, 0)| == |InSlot(ops, a.tenant, 1)| == limit
  {
    var first := Repeated(Send(a), limit);
    assert [] + first == first;
    BurstInSlot([], a, limit, 0);
    BurstInSlot([], a, limit, 1);
    BurstInSlot(first, b, limit, 0);
    BurstInSlot(first, b, limit, 1);
  }

  // ---- Retry-After ----

  /** The advertised wait of a request at `now` in a slot whose first request came at `first`. */
  function RetryAfter(first: nat, now: nat): int {
    var ttl := (first + SLOT - now + 500) / 1000;
    if ttl > 0 then ttl else 60
  }

  /** Waiting it out leads to a later slot. */
  predicate LandsLater(first: nat, now: nat) {
    (now + 1000 * RetryAfter(first, now)) / SLOT > now / SLOT
  }

  lemma RefusedRetryAfter(ops: seq<Op>, r: Request)
    requires ClockRuns(ops + [Send(r)]) && |InSlot(ops, r.tenant, r.now / SLOT)| >= r.limit
    ensures var replies := Run(ops + [Send(r)]).1;
            var first := (InSlot(ops, r.tenant, r.now / SLOT) + [r])[0].now;
            replies[|replies| - 1]
            == Refused(r.limit, 0, r.now / 1000 + RetryAfter(first, r.now), RetryAfter(first, r.now))
  {
    AnsweredByPlace(ops, r);
  }

  /**
   TTL is rounded to the nearest second, so the advertised wait can end up to 499 ms early.  It leads to a later slot
   exactly when the counter's remaining life is below half a second (the wait is then a minute), or is rounded up, or
   the part rounded off is no longer than what the slot's first request came after the slot's start.
   */
  lemma RetryAfterLandsLater(first: nat, now: nat)
    requires first <= now && first / SLOT == now / SLOT
    ensures var left := first + SLOT - now;
            LandsLater(first, now) <==> left < 500 || left % 1000 >= 500 || left % 1000 <= first % SLOT
  {
  }

  /** Every wait in a slot leads to a later one exactly if the slot's first request is not in its first 499 ms. */
  lemma WaitsAreLongEnough(first: nat)
    ensures (forall now: nat :: first <= now && now / SLOT == first / SLOT ==> LandsLater(first, now))
       <==> first % SLOT >= 499
  {
    if first % SLOT >= 499 {
      forall now: nat | first <= now && now / SLOT == first / SLOT
        ensures LandsLater(first, now)
      {
        RetryAfterLandsLater(first, now);
      }
    } else {
      var now := first - first % SLOT + 58_999;
      RetryAfterLandsLater(first, now);
      assert now / SLOT == first / SLOT && !LandsLater(first, now);
    }
  }

  /** On a clock of whole seconds nothing is rounded off. */
  lemma WholeSecondsLandLater(first: nat, now: nat)
    requires first <= now && first / SLOT == now / SLOT && first % 1000 == 0 && now % 1000 == 0
    ensures LandsLater(first, now)
  {
    RetryAfterLandsLater(first, now);
  }

  /** A tenant with one request a minute that waits as told after 58.999 seconds is refused a second time. */
  lemma PatientCallerIsRefusedAgain(tenant: string)
    ensures var told := Send(Request(tenant, 1, 58_999));
            var ops := [Send(Request(tenant, 1, 0)), told, Send(Request(tenant, 1, 59_999))];
            var replies := Run(ops).1;
            && |replies| == 3 && replies[0].Passed?
            && replies[1] == Refused(1, 0, 59, 1) && replies[2].Refused?
  {
    hide *;
    var a, b, c := Request(tenant, 1, 0), Request(tenant, 1, 58_999), Request(tenant, 1, 59_999);
    var one, two := [Send(a)], [Send(a), Send(b)];
    assert [] + one == one && one + [Send(b)] == two && two + [Send(c)] == [Send(a), Send(b), Send(c)];
    PatientCallerInSlot(a, b, c);
    AnsweredByPlace([], a);
    AnsweredByPlace(one, b);
    RefusedRetryAfter(one, b);
    AnsweredByPlace(two, c);
  }

  lemma PatientCallerInSlot(a: Request, b: Request, c: Request)
    requires a.now == 0 && b.now == 58_999 && c.now == 59_999 && a.tenant == b.tenant
    ensures InSlot([], a.tenant, 0) == [] && Run([]) == (map[], [])
    ensures InSlot([Send(a)], a.tenant, 0) == [a] && InSlot([Send(a), Send(b)], a.tenant, 0) == [a, b]
    ensures ClockRuns([Send(a)]) && ClockRuns([Send(a), Send(b)]) && ClockRuns([Send(a), Send(b), Send(c)])
    ensures RetryAfter(0, 58_999) == 1
    ensures a.now / SLOT == b.now / SLOT == c.now / SLOT == 0
  {
    NothingYet(a.tenant);
    hide InSlot, Run;
    assert [] + [Send(a)] == [Send(a)] && [Send(a)] + [Send(b)] == [Send(a), Send(b)];
    InSlotLast([], Send(a), a.tenant, 0);
    InSlotLast([Send(a)], Send(b), a.tenant, 0);
  }

  lemma NothingYet(tenant: string)
    ensures InSlot([], tenant, 0) == [] && Run([]) == (map[], [])
  {
  }
}

/**
 The in-memory sliding-window limiter for AI endpoints.  It keeps, key by key, the instants of the calls it admitted,
 and forgets those that left the window, on every call and in a periodic pruning of all keys.
 */
module AiRateLimiter {
  datatype Config = Config(tokens: nat, windowMs: nat)

  type Log = map<string, seq<int>>

  datatype Answer = Answer(success: bool, limit: nat, remaining: nat, reset: int)

  /** The instants after `start`. */
  function Live(stamps: seq<int>, start: int): (r: seq<int>)
  {
    if stamps == [] then []
    else (if stamps[0] > start then [stamps[0]] else []) + Live(stamps[1..], start)
  }

  function Stamps(log: Log, key: string): seq<int> {
    if key in log then log[key] else []
  }

  function LimitStep(c: Config, windows: Log, key: string, now: int): (Log, Answer) {
    var live := Live(Stamps(windows, key), now - c.windowMs);
    if |live| < c.tokens then
      (windows[key := live + [now]], Answer(true, c.tokens, c.tokens - |live| - 1, now + c.windowMs))
    else
      (windows[key := live], Answer(false, c.tokens, 0, now + c.windowMs))
  }

  function PruneStep(c: Config, windows: Log, now: int): Log {
    map key | key in windows && Live(windows[key], now - c.windowMs) != [] :: Live(windows[key], now - c.windowMs)
  }

  class InMemoryRateLimiter {
    const config: Config
    var windows: Log

    constructor (config: Config)
      ensures this.config == config && windows == map[]
    {
      this.config, windows := config, map[];
    }

    method Limit(key: string, now: int) returns (answer: Answer)
      modifies this
      ensures (windows, answer) == LimitStep(config, old(windows), key, now)
      ensures answer.limit == config.tokens && answer.reset == now + config.windowMs
      ensures var used := |Live(if key in old(windows) then old(windows)[key] else [], now - config.windowMs)|;
              && answer.success == (used < config.tokens)
              && answer.remaining == if used < config.tokens then config.tokens - used - 1 else 0
    {
      hide Live;
      var windowStart := now - config.windowMs;
      ghost var before, live := windows, Live(Stamps(windows, key), windowStart);
      if key !in windows {
        windows := windows[key := []];
      }
      windows := windows[key := Live(windows[key], windowStart)];
      assert windows == before[key := live];
      var count := |windows[key]|;
      var remaining := if config.tokens - count - 1 > 0 then config.tokens - count - 1 else 0;
      var success := count < config.tokens;
      if success {
        windows := windows[key := windows[key] + [now]];
        assert windows == before[key := live + [now]];
      }
      answer := Answer(success, config.tokens, if success then remaining else 0, now + config.windowMs);
    }

    method Prune(now: int)
      modifies this
      ensures windows == PruneStep(config, old(windows), now)
      ensures forall key :: key in windows <==>
                key in old(windows) && exists t :: t in old(windows)[key] && t > now - config.windowMs
      ensures forall key :: key in windows ==> windows[key] == Live(old(windows)[key], now - config.windowMs)
    {
      hide Live;
      var windowStart := now - config.windowMs;
      ghost var before, after := windows, PruneStep(config, windows, now);
      var todo := windows.Keys;
      while todo != {}
        invariant todo <= before.Keys && windows.Keys == todo + after.Keys
        invariant forall key :: key in todo ==> windows[key] == before[key]
        invariant forall key :: key in windows && key !in todo ==> key in after && windows[key] == after[key]
        invariant forall key :: key in after && key !in todo ==> key in windows
        decreases todo
      {
        var key :| key in todo;
        windows := windows[key := Live(windows[key], windowStart)];
        if windows[key] == [] {
          windows := windows - {key};
        }
        todo := todo - {key};
      }
      assert windows == after;
      forall key | key in before
        ensures Live(before[key], windowStart) != [] <==> exists t :: t in before[key] && t > windowStart
      {
        LiveIsEmpty(before[key], windowStart);
      }
    }
  }

  /** What stays are the instants after `start`, each as often as before, in their order. */
  lemma {:induction false} LiveIsTheFilter(stamps: seq<int>, start: int)
    ensures forall t :: multiset(Live(stamps, start))[t] == if t > start then multiset(stamps)[t] else 0
    ensures forall t :: t in Live(stamps, start) <==> t in stamps && t > start
    decreases |stamps|
  {
    if stamps == [] {
    } else {
      LiveIsTheFilter(stamps[1..], start);
      assert stamps == [stamps[0]] + stamps[1..];
    }
  }

  lemma LiveIsEmpty(stamps: seq<int>, start: int)
    ensures Live(stamps, start) != [] <==> exists t :: t in stamps && t > start
  {
    LiveIsTheFilter(stamps, start);
    var live := Live(stamps, start);
    if live != [] {
      var t := live[0];
      assert t in live;
      assert t in stamps && t > start;
    }
  }

  // ---- The full history, and runs ----

  datatype Op = Limit(key: string, now: int) | Prune(now: int)

  function Run(c: Config, windows: Log, ops: seq<Op>): (Log, seq<Answer>)
    decreases |ops|
  {
    if ops == [] then (windows, [])
    else match ops[0]
      case Prune(now) => Run(c, PruneStep(c, windows, now), ops[1..])
      case Limit(key, now) =>
        var (next, answer) := LimitStep(c, windows, key, now);
        var (last, answers) := Run(c, next, ops[1..]);
        (last, [answer] + answers)
  }

  /** The rule itself: fewer than `tokens` admitted calls of the key in the last `windowMs`. */
  predicate Admits(c: Config, history: seq<int>, now: int) {
    |Live(history, now - c.windowMs)| < c.tokens
  }

  function Extended(c: Config, history: seq<int>, now: int): seq<int> {
    if Admits(c, history, now) then history + [now] else history
  }

  /** The answer for this history; `remaining` is what this call leaves of the window's tokens. */
  function Owed(c: Config, history: seq<int>, now: int): Answer {
    var left := c.tokens - |Live(Extended(c, history, now), now - c.windowMs)|;
    Answer(Admits(c, history, now), c.tokens, if left > 0 then left else 0, now + c.windowMs)
  }

  /** A limiter that forgets nothing: the admitted calls of every key since the start. */
  function Recall(c: Config, history: Log, ops: seq<Op>): (Log, seq<Answer>)
    decreases |ops|
  {
    if ops == [] then (history, [])
    else match ops[0]
      case Prune(_) => Recall(c, history, ops[1..])
      case Limit(key, now) =>
        var past := Stamps(history, key);
        var (last, answers) := Recall(c, history[key := Extended(c, past, now)], ops[1..]);
        (last, [Owed(c, past, now)] + answers)
  }

  predicate ClockRuns(clock: int, ops: seq<Op>) {
    && (forall i :: 0 <= i < |ops| ==> clock <= ops[i].now)
    && (forall i, j :: 0 <= i < j < |ops| ==> ops[i].now <= ops[j].now)
  }

  lemma ClockRunsTail(clock: int, ops: seq<Op>)
    requires ClockRuns(clock, ops) && ops != []
    ensures clock <= ops[0].now && ClockRuns(ops[0].now, ops[1..])
  {
    forall i | 0 <= i < |ops[1..]|
      ensures ops[1..][i] == ops[i + 1] && ops[0].now <= ops[1..][i].now
    {
    }
  }

  /** What was forgotten can no longer count. */
  ghost predicate Agree(c: Config, windows: Log, history: Log, clock: int) {
    forall key :: Live(Stamps(windows, key), clock - c.windowMs) == Live(Stamps(history, key), clock - c.windowMs)
  }

  lemma {:induction false} LiveAgain(stamps: seq<int>, start: int, later: int)
    requires start <= later
    ensures Live(Live(stamps, start), later) == Live(stamps, later)
    decreases |stamps|
  {
    if stamps == [] {
    } else {
      LiveAgain(stamps[1..], start, later);
      if stamps[0] > start {
        assert Live(stamps, start)[1..] == Live(stamps[1..], start);
      } else {
        assert Live(stamps, start) == Live(stamps[1..], start);
      }
    }
  }

  lemma {:induction false} LiveConcat(a: seq<int>, b: seq<int>, start: int)
    ensures Live(a + b, start) == Live(a, start) + Live(b, start)
    decreases |a|
  {
    if a == [] {
      assert a + b == b;
    } else {
      assert (a + b)[1..] == a[1..] + b;
      LiveConcat(a[1..], b, start);
    }
  }

  lemma LiveOne(t: int, start: int)
    ensures Live([t], start) == if t > start then [t] else []
  {
    assert [t][1..] == [];
  }

  lemma AgreeLater(c: Config, windows: Log, history: Log, clock: int, now: int)
    requires Agree(c, windows, history, clock) && clock <= now
    ensures Agree(c, windows, history, now)
  {
    forall key
      ensures Live(Stamps(windows, key), now - c.windowMs) == Live(Stamps(history, key), now - c.windowMs)
    {
      LiveAgain(Stamps(windows, key), clock - c.windowMs, now - c.windowMs);
      LiveAgain(Stamps(history, key), clock - c.windowMs, now - c.windowMs);
    }
  }

  lemma PruneAgrees(c: Config, windows: Log, history: Log, now: int)
    requires Agree(c, windows, history, now)
    ensures Agree(c, PruneStep(c, windows, now), history, now)
  {
    var pruned := PruneStep(c, windows, now);
    forall key
      ensures Live(Stamps(pruned, key), now - c.windowMs) == Live(Stamps(history, key), now - c.windowMs)
    {
      LiveAgain(Stamps(windows, key), now - c.windowMs, now - c.windowMs);
    }
  }

  lemma LimitAgrees(c: Config, windows: Log, history: Log, key: string, now: int)
    requires Agree(c, windows, history, now) && c.windowMs > 0
    ensures var (next, answer) := LimitStep(c, windows, key, now);
            && Agree(c, next, history[key := Extended(c, Stamps(history, key), now)], now)
            && answer == Owed(c, Stamps(history, key), now)
  {
    var past := Stamps(history, key);
    LimitAnswers(c, Stamps(windows, key), past, now);
    var next := LimitStep(c, windows, key, now).0;
    var other := history[key := Extended(c, past, now)];
    hide Live, Extended, Owed;
    forall k
      ensures Live(Stamps(next, k), now - c.windowMs) == Live(Stamps(other, k), now - c.windowMs)
    {
      if k != key {
        assert Stamps(next, k) == Stamps(windows, k) && Stamps(other, k) == Stamps(history, k);
      }
    }
  }

  lemma LimitAnswers(c: Config, stamps: seq<int>, past: seq<int>, now: int)
    requires Live(stamps, now - c.windowMs) == Live(past, now - c.windowMs) && c.windowMs > 0
    ensures var live := Live(stamps, now - c.windowMs);
            var success := |live| < c.tokens;
            && Live(if success then live + [now] else live, now - c.windowMs)
               == Live(Extended(c, past, now), now - c.windowMs)
            && Owed(c, past, now)
               == Answer(success, c.tokens, if success then c.tokens - |live| - 1 else 0, now + c.windowMs)
  {
    var start := now - c.windowMs;
    var live := Live(stamps, start);
    LiveAgain(stamps, start, start);
    LiveOne(now, start);
    hide Live;
    LiveConcat(past, [now], start);
    LiveConcat(live, [now], start);
  }

  /** Forgetting is a refinement: every answer is the one of the limiter that remembers everything. */
  lemma {:induction false} RefinesHistory(c: Config, windows: Log, history: Log, clock: int, ops: seq<Op>)
    requires Agree(c, windows, history, clock) && ClockRuns(clock, ops) && c.windowMs > 0
    ensures Run(c, windows, ops).1 == Recall(c, history, ops).1
    decreases |ops|
  {
    if ops == [] {
    } else {
      hide Live, Stamps, Extended, Owed, LimitStep, PruneStep, ClockRuns, Agree;
      var now, rest := ops[0].now, ops[1..];
      ClockRunsTail(clock, ops);
      AgreeLater(c, windows, history, clock, now);
      match ops[0]
      case Prune(_) =>
        PruneAgrees(c, windows, history, now);
        RefinesHistory(c, PruneStep(c, windows, now), history, now, rest);
      case Limit(key, _) =>
        LimitAgrees(c, windows, history, key, now);
        RefinesHistory(c, LimitStep(c, windows, key, now).0,
                       history[key := Extended(c, Stamps(history, key), now)], now, rest);
    }
  }

  function WithoutPrunes(ops: seq<Op>): (r: seq<Op>)
    ensures |r| <= |ops| && forall op :: op in r ==> op in ops && op.Limit?
    decreases |ops|
  {
    if ops == [] then []
    else (if ops[0].Limit? then [ops[0]] else []) + WithoutPrunes(ops[1..])
  }

  lemma {:induction false} RecallIgnoresPrunes(c: Config, history: Log, ops: seq<Op>)
    ensures Recall(c, history, WithoutPrunes(ops)) == Recall(c, history, ops)
    decreases |ops|
  {
    hide Live, Stamps, Extended, Owed;
    if ops == [] {
    } else {
      match ops[0]
      case Prune(_) =>
        assert WithoutPrunes(ops) == WithoutPrunes(ops[1..]);
        RecallIgnoresPrunes(c, history, ops[1..]);
      case Limit(key, now) =>
        assert WithoutPrunes(ops)[1..] == WithoutPrunes(ops[1..]);
        RecallIgnoresPrunes(c, history[key := Extended(c, Stamps(history, key), now)], ops[1..]);
    }
  }

  lemma {:induction false} WithoutPrunesKeepsOrder(clock: int, ops: seq<Op>)
    requires ClockRuns(clock, ops)
    ensures ClockRuns(clock, WithoutPrunes(ops))
    decreases |ops|
  {
    if ops == [] {
    } else {
      ClockRunsTail(clock, ops);
      var rest := WithoutPrunes(ops[1..]);
      WithoutPrunesKeepsOrder(ops[0].now, ops[1..]);
      var all := WithoutPrunes(ops);
      if ops[0].Limit? {
        forall i | 0 < i < |all|
          ensures all[i] == rest[i - 1] && ops[0].now <= all[i].now
        {
        }
      }
    }
  }

  /** Pruning, wherever it falls and whatever keys it deletes, changes no answer. */
  lemma PruningIsInvisible(c: Config, clock: int, ops: seq<Op>)
    requires ClockRuns(clock, ops) && c.windowMs > 0
    ensures Run(c, map[], ops).1 == Run(c, map[], WithoutPrunes(ops)).1
  {
    assert Agree(c, map[], map[], clock);
    RefinesHistory(c, map[], map[], clock, ops);
    WithoutPrunesKeepsOrder(clock, ops);
    RefinesHistory(c, map[], map[], clock, WithoutPrunes(ops));
    RecallIgnoresPrunes(c, map[], ops);
  }

  // ---- The limit ----

  predicate Sorted(history: seq<int>) {
    forall i, j :: 0 <= i <= j < |history| ==> history[i] <= history[j]
  }

  /** An admitted call comes at least a window after the one `tokens` places before it. */
  predicate Paced(c: Config, history: seq<int>) {
    forall i :: 0 <= i < |history| - c.tokens ==> history[i] + c.windowMs <= history[i + c.tokens]
  }

  predicate Lawful(c: Config, history: seq<int>, clock: int) {
    Sorted(history) && Paced(c, history) && forall i :: 0 <= i < |history| ==> history[i] <= clock
  }

  ghost predicate AllLawful(c: Config, history: Log, clock: int) {
    forall key :: Lawful(c, Stamps(history, key), clock)
  }

  lemma {:induction false} AllLive(history: seq<int>, start: int)
    requires forall i :: 0 <= i < |history| ==> history[i] > start
    ensures Live(history, start) == history
    decreases |history|
  {
    if history == [] {
    } else {
      AllLive(history[1..], start);
    }
  }

  lemma {:induction false} NoneLive(history: seq<int>, start: int)
    requires forall i :: 0 <= i < |history| ==> history[i] <= start
    ensures Live(history, start) == []
    decreases |history|
  {
    if history == [] {
    } else {
      NoneLive(history[1..], start);
    }
  }

  /** On a sorted history the rule is a lag: a call is admitted from a window after the last call but `tokens` on. */
  lemma AdmitsIsALag(c: Config, history: seq<int>, now: int)
    requires Sorted(history)
    ensures Admits(c, history, now)
       <==> c.tokens > 0 && (|history| < c.tokens || history[|history| - c.tokens] + c.windowMs <= now)
  {
    var start, n := now - c.windowMs, |history|;
    if n < c.tokens {
      LiveShrinks(history, start);
    } else if c.tokens > 0 {
      var a, b := history[..n - c.tokens], history[n - c.tokens..];
      assert history == a + b && b[0] == history[n - c.tokens];
      LiveConcat(a, b, start);
      if b[0] <= start {
        NoneLive(a, start);
        LiveShrinks(b[1..], start);
      } else {
        assert forall i :: 0 <= i < |b| ==> b[i] == history[n - c.tokens + i];
        AllLive(b, start);
      }
    }
  }

  lemma {:induction false} LiveShrinks(stamps: seq<int>, start: int)
    ensures |Live(stamps, start)| <= |stamps|
    decreases |stamps|
  {
    if stamps == [] {
    } else {
      LiveShrinks(stamps[1..], start);
    }
  }

  lemma AdmittingIsLawful(c: Config, history: seq<int>, clock: int, now: int)
    requires Lawful(c, history, clock) && clock <= now
    ensures Lawful(c, history, now)
    ensures Lawful(c, Extended(c, history, now), now)
  {
    var all := history + [now];
    AdmitsIsALag(c, history, now);
    if Admits(c, history, now) {
      forall i | 0 <= i < |all| - c.tokens
        ensures all[i] + c.windowMs <= all[i + c.tokens]
      {
        if i + c.tokens < |history| { assert all[i + c.tokens] == history[i + c.tokens]; }
      }
    }
  }

  lemma {:induction false} RunsAreLawful(c: Config, history: Log, clock: int, ops: seq<Op>) returns (end: int)
    requires AllLawful(c, history, clock) && ClockRuns(clock, ops)
    ensures AllLawful(c, Recall(c, history, ops).0, end)
    decreases |ops|
  {
    if ops == [] {
      end := clock;
    } else {
      hide Live, Extended, Owed, ClockRuns, Lawful;
      ClockRunsTail(clock, ops);
      var now := ops[0].now;
      forall key
        ensures Lawful(c, Stamps(history, key), now) && Lawful(c, Extended(c, Stamps(history, key), now), now)
      {
        AdmittingIsLawful(c, Stamps(history, key), clock, now);
      }
      match ops[0]
      case Prune(_) =>
        end := RunsAreLawful(c, history, now, ops[1..]);
      case Limit(key, _) =>
        var next := history[key := Extended(c, Stamps(history, key), now)];
        assert forall k :: Stamps(next, k)
                           == if k == key then Extended(c, Stamps(history, key), now) else Stamps(history, k);
        end := RunsAreLawful(c, next, now, ops[1..]);
    }
  }

  /** How many of the instants lie in [from, to). */
  function Within(stamps: seq<int>, from: int, to: int): nat {
    if stamps == [] then 0 else (if from <= stamps[0] < to then 1 else 0) + Within(stamps[1..], from, to)
  }

  lemma {:induction false} WithinSplits(a: seq<int>, b: seq<int>, from: int, to: int)
    ensures Within(a + b, from, to) == Within(a, from, to) + Within(b, from, to) && Within(a, from, to) <= |a|
    decreases |a|
  {
    if a == [] {
      assert a + b == b;
    } else {
      assert (a + b)[1..] == a[1..] + b;
      WithinSplits(a[1..], b, from, to);
    }
  }

  lemma {:induction false} NoneWithin(stamps: seq<int>, from: int, to: int)
    requires forall i :: 0 <= i < |stamps| ==> to <= stamps[i]
    ensures Within(stamps, from, to) == 0
    decreases |stamps|
  {
    if stamps == [] {
    } else {
      NoneWithin(stamps[1..], from, to);
    }
  }

  lemma {:induction false} PacedInEveryInterval(c: Config, history: seq<int>, from: int)
    requires Sorted(history) && Paced(c, history)
    ensures Within(history, from, from + c.windowMs) <= c.tokens
    decreases |history|
  {
    if |history| > 0 {
      var to := from + c.windowMs;
      if from <= history[0] < to {
        if |history| > c.tokens {
          var a, b := history[..c.tokens], history[c.tokens..];
          assert history == a + b;
          forall i | 0 <= i < |b|
            ensures to <= b[i]
          {
            assert history[0] + c.windowMs <= history[0 + c.tokens] <= history[c.tokens + i];
          }
          NoneWithin(b, from, to);
          WithinSplits(a, b, from, to);
        } else {
          assert history + [] == history;
          WithinSplits(history, [], from, to);
        }
      } else {
        var rest := history[1..];
        forall i | 0 <= i < |rest| - c.tokens
          ensures rest[i] + c.windowMs <= rest[i + c.tokens]
        {
          assert history[i + 1] + c.windowMs <= history[i + 1 + c.tokens];
        }
        PacedInEveryInterval(c, rest, from);
      }
    }
  }

  /** The instants of the calls of `key` that were answered with success. */
  function Successes(ops: seq<Op>, answers: seq<Answer>, key: string): seq<int>
    decreases |ops|
  {
    if ops == [] || answers == [] then []
    else match ops[0]
      case Prune(_) => Successes(ops[1..], answers, key)
      case Limit(k, now) =>
        (if k == key && answers[0].success then [now] else []) + Successes(ops[1..], answers[1..], key)
  }

  lemma {:induction false} HistoryIsTheSuccesses(c: Config, history: Log, ops: seq<Op>, key: string)
    ensures Stamps(Recall(c, history, ops).0, key)
            == Stamps(history, key) + Successes(ops, Recall(c, history, ops).1, key)
    decreases |ops|
  {
    hide Live;
    if ops == [] {
    } else {
      match ops[0]
      case Prune(_) =>
        HistoryIsTheSuccesses(c, history, ops[1..], key);
      case Limit(k, now) =>
        var next := history[k := Extended(c, Stamps(history, k), now)];
        HistoryIsTheSuccesses(c, next, ops[1..], key);
        var answers := Recall(c, history, ops).1;
        assert answers[1..] == Recall(c, next, ops[1..]).1;
        assert answers[0].success == Admits(c, Stamps(history, k), now);
    }
  }

  /** Over every run, no half-open interval of the window's length holds more than `tokens` successes of a key. */
  lemma NoIntervalExceedsTheLimit(c: Config, clock: int, ops: seq<Op>, key: string, from: int)
    requires ClockRuns(clock, ops) && c.windowMs > 0
    ensures Within(Successes(ops, Run(c, map[], ops).1, key), from, from + c.windowMs) <= c.tokens
  {
    assert AllLawful(c, map[], clock) && Agree(c, map[], map[], clock);
    RefinesHistory(c, map[], map[], clock, ops);
    HistoryIsTheSuccesses(c, map[], ops, key);
    var end := RunsAreLawful(c, map[], clock, ops);
    var history := Stamps(Recall(c, map[], ops).0, key);
    assert history == Successes(ops, Run(c, map[], ops).1, key);
    assert Lawful(c, history, end);
    PacedInEveryInterval(c, history, from);
  }

  /** A refused caller who waits for the advertised reset is admitted, if nobody took the place meanwhile. */
  lemma ResetIsLateEnough(c: Config, history: seq<int>, now: int)
    requires Lawful(c, history, now) && c.tokens > 0
    ensures Admits(c, history, now + c.windowMs)
  {
    NoneLive(history, now);
  }
}

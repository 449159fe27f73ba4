/**
 The daily scan for introductory rates about to expire.  A scan visits every due round in whatever order the
 database returns them, writes one alert to the ledger and then sets the round's flag for that alert window; either
 write can fail, and a failure only ends the work on that round.
 */
module AprExpiry {
  type Id = nat

  const DAY: int := 86_400_000

  datatype Window = Days60 | Days30 | Days15

  /** `expiry` is the last instant of the introductory rate, if the round has one. */
  datatype Round = Round(status: string, hasExpiry: bool, expiry: int, sent60: bool, sent30: bool, sent15: bool)

  datatype Action = UrgentRestackOrPaydown | PlanRestackStrategy | ReviewAprTransition

  /** An `apr_expiry.approaching` row of the ledger. */
  datatype Alert = Alert(roundId: Id, window: Window, daysUntilExpiry: int, action: Action, firedAt: int)

  /** What happens to the two writes of a round: both succeed, the first fails, or the second does. */
  datatype Fault = NoFault | AlertFails | FlagFails

  function Ceiling(ms: int): int {
    (ms + DAY - 1) / DAY
  }

  function WindowAt(expiry: int, now: int): Window {
    var days := Ceiling(expiry - now);
    if days <= 15 then Days15 else if days <= 30 then Days30 else Days60
  }

  predicate SentFor(r: Round, w: Window) {
    match w case Days60 => r.sent60 case Days30 => r.sent30 case Days15 => r.sent15
  }

  function SetSent(r: Round, w: Window): Round {
    match w case Days60 => r.(sent60 := true) case Days30 => r.(sent30 := true) case Days15 => r.(sent15 := true)
  }

  /** The where clause of the scan. */
  predicate Expiring(r: Round, now: int) {
    && r.status == "completed" && r.hasExpiry
    && now <= r.expiry <= now + 60 * DAY
    && (!r.sent60 || !r.sent30 || !r.sent15)
  }

  function ExpiringIn(rounds: map<Id, Round>, now: int): set<Id> {
    set id | id in rounds && Expiring(rounds[id], now)
  }

  /** The scan has something to write for this round. */
  predicate Fires(r: Round, now: int) {
    Expiring(r, now) && !SentFor(r, WindowAt(r.expiry, now))
  }

  function NewAlert(id: Id, r: Round, now: int): Alert {
    var days := Ceiling(r.expiry - now);
    Alert(id, WindowAt(r.expiry, now), days,
          if days <= 15 then UrgentRestackOrPaydown
          else if days <= 30 then PlanRestackStrategy
          else ReviewAprTransition, now)
  }

  /** What one scan makes of one round, and the alerts it writes for it. */
  function ScanRound(id: Id, r: Round, now: int, fault: Fault): (Round, seq<Alert>) {
    if !Fires(r, now) || fault == AlertFails then (r, [])
    else if fault == FlagFails then (r, [NewAlert(id, r, now)])
    else (SetSent(r, WindowAt(r.expiry, now)), [NewAlert(id, r, now)])
  }

  /**
   One scan of one round, in days of 86,400,000 ms.  It alerts a completed round that expires within 60 days and has no
   flag for the window it is in, and sets that flag; the action follows the window, and days are rounded up.
   */
  lemma WhatAnAlertSays(id: Id, r: Round, now: int, fault: Fault)
    ensures var (after, alerts) := ScanRound(id, r, now, fault);
            var left := r.expiry - now;
            var window := if left <= 1_296_000_000 then Days15 else if left <= 2_592_000_000 then Days30 else Days60;
            var due := r.status == "completed" && r.hasExpiry && 0 <= left <= 5_184_000_000
                       && ((window == Days15 && !r.sent15) || (window == Days30 && !r.sent30)
                           || (window == Days60 && !r.sent60));
            && |alerts| == (if due && fault != AlertFails then 1 else 0)
            && (alerts != [] ==>
                  && alerts[0].roundId == id && alerts[0].firedAt == now && alerts[0].window == window
                  && (alerts[0].daysUntilExpiry - 1) * 86_400_000 < left <= alerts[0].daysUntilExpiry * 86_400_000
                  && (alerts[0].action == UrgentRestackOrPaydown <==> window == Days15)
                  && (alerts[0].action == PlanRestackStrategy <==> window == Days30))
            && after == (if !due || fault != NoFault then r
                         else if window == Days15 then r.(sent15 := true)
                         else if window == Days30 then r.(sent30 := true)
                         else r.(sent60 := true))
  {
  }

  // ---- The scan over the table ----

  function AlertsOf(ledger: seq<Alert>, id: Id): seq<Alert> {
    if ledger == [] then []
    else (if ledger[0].roundId == id then [ledger[0]] else []) + AlertsOf(ledger[1..], id)
  }

  lemma {:induction false} AlertsOfConcat(a: seq<Alert>, b: seq<Alert>, id: Id)
    ensures AlertsOf(a + b, id) == AlertsOf(a, id) + AlertsOf(b, id)
    decreases |a|
  {
    if a == [] {
      assert a + b == b;
    } else {
      var head := if a[0].roundId == id then [a[0]] else [];
      assert (a + b)[1..] == a[1..] + b;
      AlertsOfConcat(a[1..], b, id);
      assert AlertsOf(a + b, id) == head + AlertsOf(a[1..] + b, id);
      assert head + (AlertsOf(a[1..], id) + AlertsOf(b, id)) == (head + AlertsOf(a[1..], id)) + AlertsOf(b, id);
    }
  }

  datatype Db = Db(rounds: map<Id, Round>, ledger: seq<Alert>)

  /** A round as the scan leaves it, with all its alerts. */
  ghost predicate ScannedRound(before: Db, after: Db, id: Id, now: int, fault: Fault)
    requires id in before.rounds
  {
    && id in after.rounds && after.rounds[id] == ScanRound(id, before.rounds[id], now, fault).0
    && AlertsOf(after.ledger, id)
       == AlertsOf(before.ledger, id) + ScanRound(id, before.rounds[id], now, fault).1
  }

  /** One scan: every round is scanned, in any order. */
  ghost predicate Scan(before: Db, after: Db, now: int, faults: Id -> Fault) {
    && after.rounds.Keys == before.rounds.Keys && before.ledger <= after.ledger
    && (forall id :: id in before.rounds ==> ScannedRound(before, after, id, now, faults(id)))
    && (forall id :: id !in before.rounds ==> AlertsOf(after.ledger, id) == AlertsOf(before.ledger, id))
  }

  datatype Detail = Detail(roundId: Id, daysUntilExpiry: int)

  /** The rounds the result describes: those whose alert and flag were both written. */
  predicate Described(before: Db, d: Detail, now: int, faults: Id -> Fault) {
    d.roundId in before.rounds && var r := before.rounds[d.roundId];
    Fires(r, now) && faults(d.roundId) == NoFault && d.daysUntilExpiry == Ceiling(r.expiry - now)
  }

  /** A scan that has still to visit the rounds in `todo`. */
  ghost predicate Scanning(before: Db, after: Db, todo: set<Id>, now: int, faults: Id -> Fault) {
    && todo <= before.rounds.Keys == after.rounds.Keys && before.ledger <= after.ledger
    && (forall id :: id in before.rounds && id !in todo ==> ScannedRound(before, after, id, now, faults(id)))
    && (forall id :: id in todo ==> after.rounds[id] == before.rounds[id])
    && (forall id :: id in todo || id !in before.rounds ==> AlertsOf(after.ledger, id) == AlertsOf(before.ledger, id))
  }

  lemma ScanningStarts(d: Db, now: int, faults: Id -> Fault)
    ensures Scanning(d, d, ExpiringIn(d.rounds, now), now, faults)
  {
  }

  lemma ScanningGoesOn(before: Db, current: Db, after: Db, todo: set<Id>, id: Id, now: int, faults: Id -> Fault,
                       appended: seq<Alert>)
    requires Scanning(before, current, todo, now, faults) && id in todo
    requires var scanned := ScanRound(id, current.rounds[id], now, faults(id));
             after == Db(current.rounds[id := scanned.0], current.ledger + appended) && appended == scanned.1
    requires forall other :: AlertsOf(appended, other) == if other == id then appended else []
    ensures Scanning(before, after, todo - {id}, now, faults)
  {
    forall other
      ensures AlertsOf(after.ledger, other) == AlertsOf(current.ledger, other) + AlertsOf(appended, other)
    {
      AlertsOfConcat(current.ledger, appended, other);
    }
    forall other | other in before.rounds && other !in todo - {id}
      ensures ScannedRound(before, after, other, now, faults(other))
    {
      if other != id { assert ScannedRound(before, current, other, now, faults(other)); }
    }
  }

  /** The details of a scan that has still to visit the rounds in `todo`: exactly one for each round it describes. */
  ghost predicate Reports(before: Db, details: seq<Detail>, todo: set<Id>, now: int, faults: Id -> Fault) {
    && (forall d :: d in details <==> d.roundId !in todo && Described(before, d, now, faults))
    && (forall i, j :: 0 <= i < j < |details| ==> details[i].roundId != details[j].roundId)
  }

  lemma ReportsGoOn(before: Db, details: seq<Detail>, todo: set<Id>, id: Id, now: int, faults: Id -> Fault)
    requires Reports(before, details, todo, now, faults) && id in todo && id in before.rounds
    ensures var r := before.rounds[id];
            Reports(before,
                    if Fires(r, now) && faults(id) == NoFault then details + [Detail(id, Ceiling(r.expiry - now))]
                    else details,
                    todo - {id}, now, faults)
  {
    assert forall k :: 0 <= k < |details| ==> details[k] in details && details[k].roundId != id;
  }

  lemma ReportsStart(before: Db, now: int, faults: Id -> Fault)
    ensures Reports(before, [], ExpiringIn(before.rounds, now), now, faults)
  {
  }

  class AprJob {
    var rounds: map<Id, Round>
    var ledger: seq<Alert>

    function View(): Db
      reads this
    {
      Db(rounds, ledger)
    }

    constructor (rounds: map<Id, Round>)
      ensures View() == Db(rounds, [])
    {
      this.rounds, ledger := rounds, [];
    }

    /** The result counts the rounds returned by the query and describes those whose two writes succeeded. */
    method CheckAprExpiry(now: int, faults: Id -> Fault) returns (roundsScanned: nat, details: seq<Detail>)
      modifies this
      ensures Scan(old(View()), View(), now, faults)
      ensures roundsScanned == |set id | id in old(rounds) && var r := old(rounds)[id];
                                         && r.status == "completed" && r.hasExpiry
                                         && 0 <= r.expiry - now <= 5_184_000_000
                                         && !(r.sent60 && r.sent30 && r.sent15)|
      ensures Reports(old(View()), details, {}, now, faults)
    {
      hide ScanRound, Ceiling, WindowAt, SentFor, Reports;
      var expiring := ExpiringIn(rounds, now);
      assert expiring == set id | id in rounds && var r := rounds[id];
                                  && r.status == "completed" && r.hasExpiry
                                  && 0 <= r.expiry - now <= 5_184_000_000
                                  && !(r.sent60 && r.sent30 && r.sent15);
      roundsScanned := |expiring|;
      details := [];
      var todo := expiring;
      ghost var before := View();
      ScanningStarts(before, now, faults);
      ReportsStart(before, now, faults);
      while todo != {}
        invariant todo <= expiring && Scanning(before, View(), todo, now, faults)
        invariant Reports(before, details, todo, now, faults)
        decreases todo
      {
        var id :| id in todo;
        var expiry := rounds[id].expiry;
        ghost var current := View();
        var done, appended := ProcessRound(id, now, faults(id));
        ScanningGoesOn(before, current, View(), todo, id, now, faults, appended);
        ReportsGoOn(before, details, todo, id, now, faults);
        if done {
          details := details + [Detail(id, Ceiling(expiry - now))];
        }
        todo := todo - {id};
      }
    }

    /** The loop body: the alert, then the flag; a failing write ends it. */
    method ProcessRound(id: Id, now: int, fault: Fault) returns (done: bool, ghost appended: seq<Alert>)
      requires id in rounds && Expiring(rounds[id], now)
      modifies this
      ensures appended == ScanRound(id, old(rounds)[id], now, fault).1 && ledger == old(ledger) + appended
      ensures rounds == old(rounds)[id := ScanRound(id, old(rounds)[id], now, fault).0]
      ensures done <==> Fires(old(rounds)[id], now) && fault == NoFault
      ensures forall other :: AlertsOf(appended, other) == if other == id then appended else []
    {
      var round := rounds[id];
      var window := WindowAt(round.expiry, now);
      done, appended := false, [];
      if SentFor(round, window) { return; }
      if fault == AlertFails { return; }
      var alert := NewAlert(id, round, now);
      ledger := ledger + [alert];
      appended := [alert];
      assert appended[1..] == [];
      if fault == FlagFails { return; }
      rounds := rounds[id := SetSent(round, window)];
      done := true;
    }
  }

  // ---- One round through many scans ----

  /** One scan as a round meets it: the status it has then, and what happens to its writes. */
  datatype Visit = Visit(now: int, status: string, fault: Fault)

  function Visited(id: Id, r: Round, alerts: seq<Alert>, visits: seq<Visit>): (Round, seq<Alert>)
    decreases |visits|
  {
    if visits == [] then (r, alerts)
    else
      var (next, fired) := ScanRound(id, r.(status := visits[0].status), visits[0].now, visits[0].fault);
      Visited(id, next, alerts + fired, visits[1..])
  }

  predicate ClockRuns(visits: seq<Visit>) {
    forall i, j :: 0 <= i < j < |visits| ==> visits[i].now <= visits[j].now
  }

  function Days(w: Window): nat {
    match w case Days60 => 60 case Days30 => 30 case Days15 => 15
  }

  /** Every alert carries the window of its time, and no alert is from the future. */
  ghost predicate Dated(r: Round, alerts: seq<Alert>, last: int) {
    && (forall i :: 0 <= i < |alerts| ==>
          && alerts[i].window == WindowAt(r.expiry, alerts[i].firedAt)
          && alerts[i].firedAt <= last && alerts[i].firedAt <= r.expiry)
    && (forall i, j :: 0 <= i < j < |alerts| ==> alerts[i].firedAt <= alerts[j].firedAt)
  }

  lemma {:induction false} VisitsKeepDates(id: Id, r: Round, alerts: seq<Alert>, visits: seq<Visit>, last: int)
    returns (end: int)
    requires ClockRuns(visits) && Dated(r, alerts, last) && (visits != [] ==> last <= visits[0].now)
    ensures Dated(r, Visited(id, r, alerts, visits).1, end)
    decreases |visits|
  {
    end := last;
    if visits == [] {
    } else {
      var v := visits[0];
      var (next, fired) := ScanRound(id, r.(status := v.status), v.now, v.fault);
      assert next.expiry == r.expiry && Dated(next, alerts + fired, v.now);
      assert |visits| > 1 ==> visits[0].now <= visits[1].now;
      end := VisitsKeepDates(id, next, alerts + fired, visits[1..], v.now);
    }
  }

  /** In every run of the clock the windows of a round's alerts never widen, and no alert comes after the expiry. */
  lemma WindowsOnlyNarrow(id: Id, r: Round, visits: seq<Visit>, i: nat, j: nat)
    requires ClockRuns(visits) && i <= j < |Visited(id, r, [], visits).1|
    ensures var alerts := Visited(id, r, [], visits).1;
            Days(alerts[i].window) >= Days(alerts[j].window) && alerts[i].firedAt <= alerts[j].firedAt <= r.expiry
  {
    var end := VisitsKeepDates(id, r, [], visits, if visits == [] then 0 else visits[0].now);
  }

  function Count(alerts: seq<Alert>, w: Window): nat {
    if alerts == [] then 0 else (if alerts[0].window == w then 1 else 0) + Count(alerts[1..], w)
  }

  lemma {:induction false} CountConcat(a: seq<Alert>, b: seq<Alert>, w: Window)
    ensures Count(a + b, w) == Count(a, w) + Count(b, w)
    decreases |a|
  {
    if a == [] {
      assert a + b == b;
    } else {
      assert (a + b)[1..] == a[1..] + b;
      CountConcat(a[1..], b, w);
    }
  }

  /** How often a scan failed between the alert of window `w` and its flag. */
  function Crashes(id: Id, r: Round, visits: seq<Visit>, w: Window): nat
    decreases |visits|
  {
    if visits == [] then 0
    else
      var v, seen := visits[0], r.(status := visits[0].status);
      (if Fires(seen, v.now) && v.fault == FlagFails && WindowAt(r.expiry, v.now) == w then 1 else 0)
      + Crashes(id, ScanRound(id, seen, v.now, v.fault).0, visits[1..], w)
  }

  function Bit(b: bool): nat {
    if b then 1 else 0
  }

  /**
   The books balance: the alerts written for a window are its flag plus one for every scan that failed between the
   two writes.  So a set flag always has its alert, and a window fires at most once unless such a failure repeats it.
   */
  lemma {:induction false} AlertsAreFlagsPlusCrashes(id: Id, r: Round, alerts: seq<Alert>,
                                                     visits: seq<Visit>, w: Window)
    requires Count(alerts, w) >= Bit(SentFor(r, w))
    ensures var (end, all) := Visited(id, r, alerts, visits);
            && Count(all, w) + Bit(SentFor(r, w))
               == Count(alerts, w) + Bit(SentFor(end, w)) + Crashes(id, r, visits, w)
            && (SentFor(r, w) ==> SentFor(end, w))
    decreases |visits|
  {
    if visits == [] {
    } else {
      var v := visits[0];
      var (next, fired) := ScanRound(id, r.(status := v.status), v.now, v.fault);
      CountConcat(alerts, fired, w);
      assert fired != [] ==> fired[1..] == [];
      assert Count(fired, w) + Bit(SentFor(r, w)) == Bit(SentFor(next, w)) + (
        if Fires(r.(status := v.status), v.now) && v.fault == FlagFails && WindowAt(r.expiry, v.now) == w
        then 1 else 0);
      AlertsAreFlagsPlusCrashes(id, next, alerts + fired, visits[1..], w);
    }
  }

  /** A second scan at the same instant adds nothing, exactly unless a write of the first one failed. */
  lemma RerunAddsNothing(id: Id, r: Round, now: int, first: Fault, second: Fault)
    ensures var again := ScanRound(id, ScanRound(id, r, now, first).0, now, second);
            && (first == NoFault ==> again == (ScanRound(id, r, now, first).0, []))
            && (second != AlertFails ==> (again.1 == [] <==> !(Fires(r, now) && first != NoFault)))
  {
  }

  // ---- Coverage ----

  predicate Gaps(visits: seq<Visit>, most: int) {
    forall i :: 0 <= i < |visits| - 1 ==> visits[i].now <= visits[i + 1].now <= visits[i].now + most
  }

  /** Visits no more than `most` apart cannot step over an interval of that length. */
  lemma {:induction false} SomeVisitFallsInto(visits: seq<Visit>, from: int, most: int) returns (i: nat)
    requires visits != [] && Gaps(visits, most) && most > 0
    requires visits[0].now <= from <= visits[|visits| - 1].now
    ensures i < |visits| && from <= visits[i].now < from + most
    decreases |visits|
  {
    if visits[0].now == from {
      i := 0;
    } else {
      assert visits[1].now <= visits[0].now + most;
      if from <= visits[1].now {
        i := 1;
      } else {
        assert Gaps(visits[1..], most) by {
          forall k | 0 <= k < |visits[1..]| - 1
            ensures visits[1..][k].now <= visits[1..][k + 1].now <= visits[1..][k].now + most
          {
            assert visits[1..][k] == visits[k + 1] && visits[1..][k + 1] == visits[k + 2];
          }
        }
        i := SomeVisitFallsInto(visits[1..], from, most);
        i := i + 1;
      }
    }
  }

  /** A visit without failures in a window's time leaves the window's flag set. */
  lemma {:induction false} VisitSetsFlag(id: Id, r: Round, alerts: seq<Alert>, visits: seq<Visit>, i: nat, w: Window)
    requires i < |visits| && r.hasExpiry && visits[i].status == "completed" && visits[i].fault == NoFault
    requires visits[i].now <= r.expiry <= visits[i].now + 60 * DAY && WindowAt(r.expiry, visits[i].now) == w
    ensures SentFor(Visited(id, r, alerts, visits).0, w)
    decreases |visits|
  {
    var v := visits[0];
    var (next, fired) := ScanRound(id, r.(status := v.status), v.now, v.fault);
    if i == 0 {
      assert SentFor(next, w);
      FlagsStay(id, next, alerts + fired, visits[1..], w);
    } else {
      assert visits[1..][i - 1] == visits[i];
      VisitSetsFlag(id, next, alerts + fired, visits[1..], i - 1, w);
    }
  }

  lemma {:induction false} FlagsStay(id: Id, r: Round, alerts: seq<Alert>, visits: seq<Visit>, w: Window)
    requires SentFor(r, w)
    ensures SentFor(Visited(id, r, alerts, visits).0, w)
    decreases |visits|
  {
    if visits == [] {
    } else {
      var (next, fired) := ScanRound(id, r.(status := visits[0].status), visits[0].now, visits[0].fault);
      FlagsStay(id, next, alerts + fired, visits[1..], w);
    }
  }

  lemma {:induction false} NoCrashes(id: Id, r: Round, visits: seq<Visit>, w: Window)
    requires forall v :: v in visits ==> v.fault == NoFault
    ensures Crashes(id, r, visits, w) == 0
    decreases |visits|
  {
    if visits == [] {
    } else {
      NoCrashes(id, ScanRound(id, r.(status := visits[0].status), visits[0].now, visits[0].fault).0, visits[1..], w);
    }
  }

  lemma {:induction false} AlertsComeBeforeExpiry(id: Id, r: Round, alerts: seq<Alert>, visits: seq<Visit>)
    requires forall a :: a in alerts ==> a.firedAt <= r.expiry
    ensures forall a :: a in Visited(id, r, alerts, visits).1 ==> a.firedAt <= r.expiry
    decreases |visits|
  {
    if visits == [] {
    } else {
      var (next, fired) := ScanRound(id, r.(status := visits[0].status), visits[0].now, visits[0].fault);
      AlertsComeBeforeExpiry(id, next, alerts + fired, visits[1..]);
    }
  }

  predicate Unalerted(r: Round) {
    r.hasExpiry && !r.sent60 && !r.sent30 && !r.sent15
  }

  /**
   Scans that start at least 60 days before the expiry of a completed round, come no more than 15 days apart, reach
   its last 15 days and do not fail raise all three alerts, each exactly once and before the expiry.
   */
  lemma EveryWindowFiresOnce(id: Id, r: Round, visits: seq<Visit>, w: Window)
    requires Unalerted(r) && visits != [] && Gaps(visits, 15 * DAY)
    requires visits[0].now <= r.expiry - 60 * DAY && visits[|visits| - 1].now >= r.expiry - 15 * DAY
    requires forall v :: v in visits ==> v.status == "completed" && v.fault == NoFault
    ensures SentFor(Visited(id, r, [], visits).0, w) && Count(Visited(id, r, [], visits).1, w) == 1
    ensures forall a :: a in Visited(id, r, [], visits).1 ==> a.firedAt <= r.expiry
  {
    AlertsComeBeforeExpiry(id, r, [], visits);
    var i := SomeVisitFallsInto(visits, r.expiry - Days(w) * DAY, 15 * DAY);
    assert visits[i] in visits;
    VisitSetsFlag(id, r, [], visits, i, w);
    NoCrashes(id, r, visits, w);
    AlertsAreFlagsPlusCrashes(id, r, [], visits, w);
  }

  /** Fifteen days is the bound: a gap one millisecond longer can step over the 30-day window. */
  lemma LongerGapMissesAWindow(id: Id, r: Round)
    requires Unalerted(r)
    ensures var done := "completed";
            var visits := [Visit(r.expiry - 60 * DAY, done, NoFault), Visit(r.expiry - 45 * DAY - 1, done, NoFault),
                           Visit(r.expiry - 30 * DAY - 1, done, NoFault), Visit(r.expiry - 15 * DAY, done, NoFault)];
            && Gaps(visits, 15 * DAY + 1)
            && !Visited(id, r, [], visits).0.sent30 && Count(Visited(id, r, [], visits).1, Days30) == 0
  {
    var e, done := r.expiry, "completed";
    var a, b := Visit(e - 60 * DAY, done, NoFault), Visit(e - 45 * DAY - 1, done, NoFault);
    var c, d := Visit(e - 30 * DAY - 1, done, NoFault), Visit(e - 15 * DAY, done, NoFault);
    var visits := [a, b, c, d];
    assert visits[1..] == [b, c, d] && visits[1..][1..] == [c, d] && [c, d][1..] == [d] && [d][1..] == [];
    var r1 := r.(status := done, sent60 := true);
    var first, last := NewAlert(id, r.(status := done), a.now), NewAlert(id, r1, d.now);
    var alerts := [first] + [last];
    assert [first] + [] == [first] && [] + [first] == [first];
    assert Visited(id, r1, [first], [d]) == Visited(id, r1.(sent15 := true), alerts, []);
    assert Visited(id, r1, [first], [c, d]) == Visited(id, r1, [first], [d]);
    assert Visited(id, r1, [first], [b, c, d]) == Visited(id, r1, [first], [c, d]);
    assert Visited(id, r, [], visits) == (r1.(sent15 := true), alerts);
    NoCrashes(id, r, visits, Days30);
    AlertsAreFlagsPlusCrashes(id, r, [], visits, Days30);
  }

  // ---- The table through many scans ----

  /** One scan of the table: what it found and what it left. */
  datatype Cycle = Cycle(before: Db, after: Db, now: int, faults: Id -> Fault)

  /** Between two scans the rest of the system may change a round's status and add rounds. */
  ghost predicate Meanwhile(d: Db, d': Db) {
    && d'.ledger == d.ledger
    && forall id :: id in d.rounds ==>
         id in d'.rounds && d'.rounds[id] == d.rounds[id].(status := d'.rounds[id].status)
  }

  ghost predicate ValidRun(run: seq<Cycle>) {
    && (forall i :: 0 <= i < |run| ==> Scan(run[i].before, run[i].after, run[i].now, run[i].faults))
    && (forall i :: 0 <= i < |run| - 1 ==> Meanwhile(run[i].after, run[i + 1].before))
    && (forall i, j :: 0 <= i < j < |run| ==> run[i].now <= run[j].now)
  }

  function StatusOf(d: Db, id: Id): string {
    if id in d.rounds then d.rounds[id].status else ""
  }

  function VisitsOf(run: seq<Cycle>, id: Id): (visits: seq<Visit>)
    ensures |visits| == |run|
  {
    if run == [] then []
    else [Visit(run[0].now, StatusOf(run[0].before, id), run[0].faults(id))] + VisitsOf(run[1..], id)
  }

  lemma {:induction false} VisitsOfAt(run: seq<Cycle>, id: Id, i: nat)
    requires i < |run|
    ensures VisitsOf(run, id)[i] == Visit(run[i].now, StatusOf(run[i].before, id), run[i].faults(id))
    decreases |run|
  {
    if i > 0 { VisitsOfAt(run[1..], id, i - 1); }
  }

  lemma {:induction false} ValidRunTail(run: seq<Cycle>)
    requires ValidRun(run) && run != []
    ensures ValidRun(run[1..])
  {
    forall i | 0 <= i < |run[1..]| - 1
      ensures Meanwhile(run[1..][i].after, run[1..][i + 1].before)
    {
      assert run[1..][i] == run[i + 1] && run[1..][i + 1] == run[i + 2];
    }
  }

  lemma VisitedFirst(id: Id, r: Round, alerts: seq<Alert>, v: Visit, rest: seq<Visit>)
    requires v.status == r.status
    ensures var (next, fired) := ScanRound(id, r, v.now, v.fault);
            Visited(id, r, alerts, [v] + rest) == Visited(id, next, alerts + fired, rest)
  {
    hide ScanRound;
    assert ([v] + rest)[1..] == rest && r.(status := v.status) == r;
  }

  /** Whatever the order in which scans visit rounds, each round goes through its own visits and no others. */
  lemma {:induction false} RunIsVisits(run: seq<Cycle>, id: Id)
    requires ValidRun(run) && run != [] && id in run[0].before.rounds
    ensures var first, last := run[0].before, run[|run| - 1].after;
            && id in last.rounds
            && Visited(id, first.rounds[id], AlertsOf(first.ledger, id), VisitsOf(run, id))
               == (last.rounds[id], AlertsOf(last.ledger, id))
    decreases |run|
  {
    hide ScanRound, AlertsOf;
    var c := run[0];
    var r := c.before.rounds[id];
    var visits := VisitsOf(run[1..], id);
    assert ScannedRound(c.before, c.after, id, c.now, c.faults(id));
    VisitedFirst(id, r, AlertsOf(c.before.ledger, id), Visit(c.now, r.status, c.faults(id)), visits);
    if |run| > 1 {
      hide Visited, VisitsOf;
      ValidRunTail(run);
      assert Meanwhile(run[0].after, run[0 + 1].before);
      assert run[1..][0] == run[1] && run[1..][|run[1..]| - 1] == run[|run| - 1];
      RunIsVisits(run[1..], id);
      VisitIgnoresStatus(id, c.after.rounds[id], AlertsOf(c.after.ledger, id), visits, run[1].before.rounds[id].status);
    }
  }

  /** A visit brings its own status. */
  lemma VisitIgnoresStatus(id: Id, r: Round, alerts: seq<Alert>, visits: seq<Visit>, status: string)
    requires visits != []
    ensures Visited(id, r.(status := status), alerts, visits) == Visited(id, r, alerts, visits)
  {
  }

  /**
   The guarantees over every run of the job on a table whose round `id` starts without alerts: windows only narrow,
   a set flag has its alert, and alerts for a window are one at most, plus the crashes between the two writes.
   */
  lemma EveryRun(run: seq<Cycle>, id: Id, w: Window)
    requires ValidRun(run) && run != [] && id in run[0].before.rounds
    requires Unalerted(run[0].before.rounds[id]) && AlertsOf(run[0].before.ledger, id) == []
    ensures var last := run[|run| - 1].after;
            var alerts := AlertsOf(last.ledger, id);
            && id in last.rounds
            && (forall i, j :: 0 <= i < j < |alerts| ==> Days(alerts[i].window) >= Days(alerts[j].window))
            && (forall a :: a in alerts ==> a.firedAt <= run[0].before.rounds[id].expiry)
            && Count(alerts, w)
               == Bit(SentFor(last.rounds[id], w)) + Crashes(id, run[0].before.rounds[id], VisitsOf(run, id), w)
  {
    var r := run[0].before.rounds[id];
    var visits := VisitsOf(run, id);
    RunIsVisits(run, id);
    AlertsAreFlagsPlusCrashes(id, r, [], visits, w);
    AlertsComeBeforeExpiry(id, r, [], visits);
    assert ClockRuns(visits) by {
      forall i, j | 0 <= i < j < |visits|
        ensures visits[i].now <= visits[j].now
      {
        VisitsOfAt(run, id, i);
        VisitsOfAt(run, id, j);
      }
    }
    var alerts := Visited(id, r, [], visits).1;
    forall i, j | 0 <= i < j < |alerts|
      ensures Days(alerts[i].window) >= Days(alerts[j].window)
    {
      WindowsOnlyNarrow(id, r, visits, i, j);
    }
  }

  /** The same for a table: a completed round is covered whatever happens to the others. */
  lemma EveryRoundIsCovered(run: seq<Cycle>, id: Id, w: Window)
    requires ValidRun(run) && run != [] && id in run[0].before.rounds
    requires Unalerted(run[0].before.rounds[id]) && AlertsOf(run[0].before.ledger, id) == []
    requires forall i :: 0 <= i < |run| ==> StatusOf(run[i].before, id) == "completed" && run[i].faults(id) == NoFault
    requires forall i :: 0 <= i < |run| - 1 ==> run[i + 1].now <= run[i].now + 15 * DAY
    requires var expiry := run[0].before.rounds[id].expiry;
             run[0].now <= expiry - 60 * DAY && run[|run| - 1].now >= expiry - 15 * DAY
    ensures var last := run[|run| - 1].after;
            id in last.rounds && SentFor(last.rounds[id], w) && Count(AlertsOf(last.ledger, id), w) == 1
  {
    var visits := VisitsOf(run, id);
    RunIsVisits(run, id);
    forall i | 0 <= i < |visits|
      ensures visits[i] == Visit(run[i].now, "completed", NoFault)
    {
      VisitsOfAt(run, id, i);
    }
    assert Gaps(visits, 15 * DAY);
    EveryWindowFiresOnce(id, run[0].before.rounds[id], visits, w);
  }

  /** A scan without failures followed by one at the same instant: the second changes neither table nor ledger. */
  lemma RerunChangesNothing(d: Db, d1: Db, d2: Db, now: int, first: Id -> Fault, second: Id -> Fault)
    requires Scan(d, d1, now, first) && Scan(d1, d2, now, second) && forall id :: first(id) == NoFault
    ensures d2 == d1
  {
    forall id
      ensures AlertsOf(d2.ledger, id) == AlertsOf(d1.ledger, id)
      ensures id in d1.rounds ==> d2.rounds[id] == d1.rounds[id]
    {
      if id in d1.rounds {
        assert ScannedRound(d, d1, id, now, first(id)) && ScannedRound(d1, d2, id, now, second(id));
        RerunAddsNothing(id, d.rounds[id], now, first(id), second(id));
      }
    }
    var more := d2.ledger[|d1.ledger|..];
    assert d2.ledger == d1.ledger + more;
    if more != [] {
      assert AlertsOf(more, more[0].roundId) != [];
      AlertsOfConcat(d1.ledger, more, more[0].roundId);
    }
  }
}

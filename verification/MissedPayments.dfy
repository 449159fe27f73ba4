/**
 The daily scan for missed payments: overdue payments are marked, grouped by repayment plan, and a hardship case is
 opened for a business one of whose plans has missed two payments or more in 180 days.
 */
module MissedPayments {
  import opened Common

  type Id = nat

  const DAY: int := 86_400_000

  datatype Schedule = Schedule(planId: Id, due: int, status: string)

  datatype Plan = Plan(tenantId: Id, businessId: Id)

  datatype Severity = Medium | High | Critical

  datatype Case = Case(tenantId: Id, businessId: Id, triggerType: string, severity: Severity, status: string,
                       planId: Id, consecutiveMissed: nat)

  /** A `hardship.auto_flagged` row of the ledger. */
  datatype Flag = Flag(tenantId: Id, businessId: Id, planId: Id, consecutiveMissed: nat, severity: Severity)

  datatype Detail = Detail(businessId: Id, planId: Id, consecutiveMissed: nat)

  /** The two writes for a plan both succeed, the first fails, or the second does. */
  datatype Fault = NoFault | CaseFails | LedgerFails

  // ---- Overdue payments ----

  predicate Overdue(s: Schedule, now: int) {
    s.status == "upcoming" && s.due < now
  }

  /** What the query returns: each overdue row once, earliest first. */
  ghost predicate Listing(schedules: map<Id, Schedule>, now: int, rows: seq<Id>) {
    && (forall id :: id in rows <==> id in schedules && Overdue(schedules[id], now))
    && (forall i, j :: 0 <= i < j < |rows| ==> rows[i] != rows[j])
    && (forall i, j :: 0 <= i < j < |rows| && rows[i] in schedules && rows[j] in schedules
          ==> schedules[rows[i]].due <= schedules[rows[j]].due)
  }

  function MarkMissed(schedules: map<Id, Schedule>, rows: seq<Id>): map<Id, Schedule> {
    map id | id in schedules :: if id in rows then schedules[id].(status := "missed") else schedules[id]
  }

  lemma ListedIsOverdue(schedules: map<Id, Schedule>, now: int, rows: seq<Id>, i: nat)
    requires Listing(schedules, now, rows) && i < |rows|
    ensures rows[i] in schedules && Overdue(schedules[rows[i]], now)
  {
    assert rows[i] in rows;
  }

  /** The only change is from upcoming to missed, and nothing overdue stays upcoming. */
  lemma MarkingIsExact(schedules: map<Id, Schedule>, now: int, rows: seq<Id>)
    requires Listing(schedules, now, rows)
    ensures var marked := MarkMissed(schedules, rows);
            && marked.Keys == schedules.Keys
            && (forall id :: id in schedules ==>
                  && !Overdue(marked[id], now)
                  && marked[id].status == (if schedules[id].status == "upcoming" && schedules[id].due < now
                                           then "missed" else schedules[id].status)
                  && (marked[id] == schedules[id]
                      || (schedules[id].status == "upcoming" && marked[id] == schedules[id].(status := "missed"))))
            && (forall again :: Listing(marked, now, again) ==> again == [])
  {
    var marked := MarkMissed(schedules, rows);
    forall again | Listing(marked, now, again)
      ensures again == []
    {
      if again != [] { ListedIsOverdue(marked, now, again, 0); }
    }
  }

  // ---- Groups ----

  function PlansOf(schedules: map<Id, Schedule>, rows: seq<Id>): (plans: seq<Id>)
    requires forall id :: id in rows ==> id in schedules
    ensures |plans| == |rows| && forall i :: 0 <= i < |rows| ==> plans[i] == schedules[rows[i]].planId
  {
    seq(|rows|, i requires 0 <= i < |rows| => schedules[rows[i]].planId)
  }

  /** The keys of the Map, in insertion order: every plan where it first appears. */
  function FirstSeen(plans: seq<Id>): (order: seq<Id>)
    ensures forall p :: p in order <==> p in plans
    ensures forall i, j :: 0 <= i < j < |order| ==> order[i] != order[j]
  {
    if plans == [] then []
    else
      var last := plans[|plans| - 1];
      var order := FirstSeen(plans[..|plans| - 1]);
      assert plans == plans[..|plans| - 1] + [last];
      if last in order then order else order + [last]
  }

  datatype Misses = Misses(tenantId: Id, businessId: Id, count: nat)

  /** How many of the rows are of the plan. */
  function Times(seen: seq<Id>, p: Id): nat {
    multiset(seen)[p]
  }

  /** The Map after grouping the rows of the plans `seen`. */
  ghost predicate Grouped(order: seq<Id>, misses: map<Id, Misses>, plans: map<Id, Plan>, seen: seq<Id>) {
    && order == FirstSeen(seen)
    && (forall p :: p in misses <==> p in order)
    && (forall p :: p in misses ==>
          p in plans && misses[p] == Misses(plans[p].tenantId, plans[p].businessId, Times(seen, p)))
  }

  lemma FirstSeenGoesOn(seen: seq<Id>, p: Id)
    ensures FirstSeen(seen + [p]) == if p in FirstSeen(seen) then FirstSeen(seen) else FirstSeen(seen) + [p]
  {
    assert (seen + [p])[..|seen|] == seen;
  }

  /** How often a plan occurs once one more row has been seen. */
  lemma OneMoreRow(seen: seq<Id>, p: Id, other: Id)
    ensures Times(seen + [p], other) == Times(seen, other) + if other == p then 1 else 0
    ensures other !in FirstSeen(seen) ==> Times(seen, other) == 0
  {
  }

  lemma GroupedAgain(order: seq<Id>, misses: map<Id, Misses>, plans: map<Id, Plan>, seen: seq<Id>, p: Id)
    requires Grouped(order, misses, plans, seen) && p in misses
    ensures Grouped(order, misses[p := misses[p].(count := misses[p].count + 1)], plans, seen + [p])
  {
    hide FirstSeen, Times;
    FirstSeenGoesOn(seen, p);
    var more := misses[p := misses[p].(count := misses[p].count + 1)];
    forall other | other in more
      ensures more[other].count == Times(seen + [p], other)
    {
      OneMoreRow(seen, p, other);
    }
  }

  lemma GroupedFirst(order: seq<Id>, misses: map<Id, Misses>, plans: map<Id, Plan>, seen: seq<Id>, p: Id)
    requires Grouped(order, misses, plans, seen) && p !in misses && p in plans
    ensures Grouped(order + [p], misses[p := Misses(plans[p].tenantId, plans[p].businessId, 1)], plans, seen + [p])
  {
    hide FirstSeen, Times;
    FirstSeenGoesOn(seen, p);
    var more := misses[p := Misses(plans[p].tenantId, plans[p].businessId, 1)];
    forall other | other in more
      ensures more[other].count == Times(seen + [p], other)
    {
      OneMoreRow(seen, p, other);
    }
  }

  method GroupByPlan(schedules: map<Id, Schedule>, plans: map<Id, Plan>, rows: seq<Id>)
    returns (order: seq<Id>, misses: map<Id, Misses>)
    requires forall id :: id in rows ==> id in schedules && schedules[id].planId in plans
    ensures Grouped(order, misses, plans, PlansOf(schedules, rows))
  {
    hide Grouped;
    order, misses := [], map[];
    ghost var all := PlansOf(schedules, rows);
    assert Grouped(order, misses, plans, all[..0]) by { NothingGrouped(plans); }
    for k := 0 to |rows|
      invariant Grouped(order, misses, plans, all[..k])
    {
      var planId := schedules[rows[k]].planId;
      assert rows[k] in rows && all[k] == planId;
      assert all[..k + 1] == all[..k] + [planId];
      if planId in misses {
        GroupedAgain(order, misses, plans, all[..k], planId);
        misses := misses[planId := misses[planId].(count := misses[planId].count + 1)];
      } else {
        GroupedFirst(order, misses, plans, all[..k], planId);
        misses := misses[planId := Misses(plans[planId].tenantId, plans[planId].businessId, 1)];
        order := order + [planId];
      }
    }
    assert all[..|rows|] == all;
  }

  lemma NothingGrouped(plans: map<Id, Plan>)
    ensures Grouped([], map[], plans, [])
  {
  }

  function Total(order: seq<Id>, counts: multiset<Id>): nat {
    if order == [] then 0 else counts[order[0]] + Total(order[1..], counts)
  }

  lemma {:induction false} TotalGrows(order: seq<Id>, counts: multiset<Id>, p: Id)
    requires forall i, j :: 0 <= i < j < |order| ==> order[i] != order[j]
    ensures Total(order, counts + multiset{p}) == Total(order, counts) + if p in order then 1 else 0
    decreases |order|
  {
    if order == [] {
    } else {
      TotalGrows(order[1..], counts, p);
    }
  }

  lemma {:induction false} TotalAppend(order: seq<Id>, p: Id, counts: multiset<Id>)
    ensures Total(order + [p], counts) == Total(order, counts) + counts[p]
    decreases |order|
  {
    if order == [] {
      assert order + [p] == [p] && [p][1..] == [];
    } else {
      assert (order + [p])[1..] == order[1..] + [p];
      TotalAppend(order[1..], p, counts);
    }
  }

  /** No overdue row is lost or counted twice: the groups add up to the rows. */
  lemma {:induction false} GroupsAddUp(plans: seq<Id>)
    ensures Total(FirstSeen(plans), multiset(plans)) == |plans|
    decreases |plans|
  {
    if plans == [] {
    } else {
      var before, last := plans[..|plans| - 1], plans[|plans| - 1];
      var order := FirstSeen(before);
      assert plans == before + [last];
      GroupsAddUp(before);
      TotalGrows(order, multiset(before), last);
      if last !in order {
        TotalAppend(order, last, multiset(plans));
        assert last !in multiset(before);
      }
    }
  }

  // ---- Hardship cases ----

  predicate Recent(s: Schedule, planId: Id, now: int) {
    s.planId == planId && s.status == "missed" && s.due >= now - 180 * DAY
  }

  function RecentIds(schedules: map<Id, Schedule>, planId: Id, now: int): set<Id> {
    set id | id in schedules && Recent(schedules[id], planId, now)
  }

  function RecentMissed(schedules: map<Id, Schedule>, planId: Id, now: int): nat {
    |RecentIds(schedules, planId, now)|
  }

  /** What the query has to count: a payment of the plan, marked missed, due no more than 180 days ago. */
  predicate Counts(s: Schedule, planId: Id, now: int) {
    s.planId == planId && s.status == "missed" && s.due >= now - 15_552_000_000
  }

  /** Two different payments count for the plan. */
  ghost predicate TwoRecentMisses(schedules: map<Id, Schedule>, planId: Id, now: int) {
    exists a, b :: a in schedules && b in schedules && a != b
                   && Counts(schedules[a], planId, now) && Counts(schedules[b], planId, now)
  }

  lemma RecentMissedCounts(schedules: map<Id, Schedule>, planId: Id, now: int)
    ensures RecentMissed(schedules, planId, now)
            == |set id | id in schedules && schedules[id].planId == planId && schedules[id].status == "missed"
                         && schedules[id].due >= now - 15_552_000_000|
    ensures RecentMissed(schedules, planId, now) >= 2 <==> TwoRecentMisses(schedules, planId, now)
  {
    var recent := RecentIds(schedules, planId, now);
    assert recent == set id | id in schedules && schedules[id].planId == planId && schedules[id].status == "missed"
                              && schedules[id].due >= now - 15_552_000_000;
    if |recent| >= 2 {
      var a :| a in recent;
      assert |recent - {a}| >= 1;
      var b :| b in recent - {a};
      assert b in recent;
    }
    if TwoRecentMisses(schedules, planId, now) {
      var a, b :| a in schedules && b in schedules && a != b
                  && Counts(schedules[a], planId, now) && Counts(schedules[b], planId, now);
      assert recent == (recent - {a, b}) + {a, b} && |{a, b}| == 2;
    }
  }

  function SeverityOf(recent: nat): Severity {
    if recent >= 4 then Critical else if recent >= 3 then High else Medium
  }

  predicate OpenFor(c: Case, businessId: Id) {
    c.businessId == businessId && c.status == "open" && c.triggerType == "missed_payments"
  }

  predicate HasOpenCase(cases: seq<Case>, businessId: Id) {
    exists i :: 0 <= i < |cases| && OpenFor(cases[i], businessId)
  }

  ghost predicate OneOpenCaseEach(cases: seq<Case>) {
    forall i, j, b :: 0 <= i < j < |cases| && OpenFor(cases[i], b) ==> !OpenFor(cases[j], b)
  }

  /** What the run writes. */
  datatype Work = Work(cases: seq<Case>, ledger: seq<Flag>, details: seq<Detail>)

  /** One turn of the loop over the groups. */
  function Consider(w: Work, planId: Id, plan: Plan, recent: nat, fault: Fault): Work {
    if recent < 2 || HasOpenCase(w.cases, plan.businessId) || fault == CaseFails then w
    else
      var severity := SeverityOf(recent);
      var withCase := w.(cases := w.cases + [Case(plan.tenantId, plan.businessId, "missed_payments", severity, "open",
                                                planId, recent)]);
      if fault == LedgerFails then withCase
      else withCase.(ledger := w.ledger + [Flag(plan.tenantId, plan.businessId, planId, recent, severity)],
                   details := w.details + [Detail(plan.businessId, planId, recent)])
  }

  function ConsiderAll(w: Work, order: seq<Id>, plans: map<Id, Plan>, schedules: map<Id, Schedule>, now: int,
                       faults: Id -> Fault): Work
    requires forall p :: p in order ==> p in plans
    decreases |order|
  {
    if order == [] then w
    else
      var p := order[|order| - 1];
      Consider(ConsiderAll(w, order[..|order| - 1], plans, schedules, now, faults), p, plans[p],
               RecentMissed(schedules, p, now), faults(p))
  }

  lemma MarkingKeepsPlans(schedules: map<Id, Schedule>, rows: seq<Id>)
    requires forall id :: id in rows ==> id in schedules
    ensures PlansOf(MarkMissed(schedules, rows), rows) == PlansOf(schedules, rows)
    ensures MarkMissed(schedules, rows).Keys == schedules.Keys
    ensures forall id :: id in schedules ==> MarkMissed(schedules, rows)[id].planId == schedules[id].planId
  {
  }

  lemma PlanIsSeen(schedules: map<Id, Schedule>, rows: seq<Id>, id: Id)
    requires (forall id :: id in rows ==> id in schedules) && id in rows
    ensures schedules[id].planId in FirstSeen(PlansOf(schedules, rows))
  {
    var i :| 0 <= i < |rows| && rows[i] == id;
    assert PlansOf(schedules, rows)[i] in PlansOf(schedules, rows);
  }

  // ---- The job ----

  predicate Linked(schedules: map<Id, Schedule>, plans: map<Id, Plan>) {
    forall id :: id in schedules ==> schedules[id].planId in plans
  }

  class MissedPaymentJob {
    const plans: map<Id, Plan>
    var schedules: map<Id, Schedule>
    var cases: seq<Case>
    var ledger: seq<Flag>

    constructor (plans: map<Id, Plan>, schedules: map<Id, Schedule>)
      requires Linked(schedules, plans)
      ensures this.plans == plans && this.schedules == schedules && cases == [] && ledger == []
    {
      this.plans, this.schedules, cases, ledger := plans, schedules, [], [];
    }

    /**
     `rows` is the answer of the query.  The marking loop is not guarded: when the update number `broken` throws, the
     run ends there with None.  The writes for a plan are guarded, plan by plan.
     */
    method CheckMissedPayments(now: int, rows: seq<Id>, broken: Option<nat>, faults: Id -> Fault)
      returns (details: Option<seq<Detail>>)
      requires Linked(schedules, plans) && Listing(schedules, now, rows)
      modifies this
      ensures Linked(schedules, plans)
      ensures broken.Some? && broken.value < |rows| ==>
                && details == None && cases == old(cases) && ledger == old(ledger)
                && schedules == MarkMissed(old(schedules), rows[..broken.value])
      ensures !(broken.Some? && broken.value < |rows|) ==>
                && schedules == MarkMissed(old(schedules), rows)
                && var work := ConsiderAll(Work(old(cases), old(ledger), []), FirstSeen(PlansOf(old(schedules), rows)),
                                           plans, schedules, now, faults);
                details == Some(work.details) && cases == work.cases && ledger == work.ledger
      ensures OneOpenCaseEach(old(cases)) ==> OneOpenCaseEach(cases)
      ensures details.Some? ==> forall id :: id in rows ==> CaseIsOpen(schedules[id].planId, now, faults)
    {
      hide MarkMissed, ConsiderAll, RecentMissed, FirstSeen;
      ghost var before := schedules;
      var marked := MarkOverdue(rows, broken);
      if !marked {
        MarkingKeepsPlans(before, rows[..broken.value]);
        return None;
      }
      MarkingKeepsPlans(before, rows);
      var order, misses := GroupByPlan(schedules, plans, rows);
      ghost var work := Work(cases, ledger, []);
      var found := ConsiderGroups(order, misses, now, faults);
      CasesAreOpenedOnce(work, order, plans, schedules, now, faults);
      forall id | id in rows
        ensures CaseIsOpen(schedules[id].planId, now, faults)
      {
        PlanIsSeen(schedules, rows, id);
        RecentMissedCounts(schedules, schedules[id].planId, now);
      }
      details := Some(found);
    }

    /** A plan with two recent misses has an open case for its business, unless the case could not be written. */
    ghost predicate CaseIsOpen(planId: Id, now: int, faults: Id -> Fault)
      reads this
    {
      planId in plans && TwoRecentMisses(schedules, planId, now) && faults(planId) != CaseFails
      ==> exists i :: 0 <= i < |cases| && cases[i].businessId == plans[planId].businessId
                      && cases[i].status == "open" && cases[i].triggerType == "missed_payments"
    }

    /** The unguarded loop: it ends early, with false, when an update throws. */
    method MarkOverdue(rows: seq<Id>, broken: Option<nat>) returns (done: bool)
      requires forall id :: id in rows ==> id in schedules
      modifies this`schedules
      ensures done == !(broken.Some? && broken.value < |rows|)
      ensures schedules == MarkMissed(old(schedules), if done then rows else rows[..broken.value])
    {
      ghost var before := schedules;
      for k := 0 to |rows|
        invariant schedules == MarkMissed(before, rows[..k])
        invariant broken.Some? ==> k <= broken.value || |rows| <= broken.value
      {
        if broken == Some(k) {
          return false;
        }
        assert rows[k] in rows && rows[..k + 1] == rows[..k] + [rows[k]];
        schedules := schedules[rows[k] := schedules[rows[k]].(status := "missed")];
      }
      assert rows[..|rows|] == rows;
      done := true;
    }

    method ConsiderGroups(order: seq<Id>, misses: map<Id, Misses>, now: int, faults: Id -> Fault)
      returns (found: seq<Detail>)
      requires forall p :: p in order ==>
                 p in misses && p in plans
                 && misses[p].tenantId == plans[p].tenantId && misses[p].businessId == plans[p].businessId
      modifies this`cases, this`ledger
      ensures Work(cases, ledger, found)
              == ConsiderAll(Work(old(cases), old(ledger), []), order, plans, schedules, now, faults)
    {
      hide RecentMissed;
      found := [];
      for k := 0 to |order|
        invariant Work(cases, ledger, found)
                  == ConsiderAll(Work(old(cases), old(ledger), []), order[..k], plans, schedules, now, faults)
      {
        assert order[k] in order && order[..k + 1][..k] == order[..k];
        found := ConsiderPlan(order[k], misses[order[k]], now, faults(order[k]), found);
      }
      assert order[..|order|] == order;
    }

    method ConsiderPlan(planId: Id, info: Misses, now: int, fault: Fault, found: seq<Detail>) returns (r: seq<Detail>)
      requires planId in plans && info.tenantId == plans[planId].tenantId && info.businessId == plans[planId].businessId
      modifies this`cases, this`ledger
      ensures Work(cases, ledger, r) == Consider(Work(old(cases), old(ledger), found), planId, plans[planId],
                                                 RecentMissed(schedules, planId, now), fault)
      ensures !TwoRecentMisses(schedules, planId, now) || fault == CaseFails
              || (exists c :: c in old(cases) && c.businessId == info.businessId && c.status == "open"
                              && c.triggerType == "missed_payments")
              ==> cases == old(cases) && ledger == old(ledger) && r == found
      ensures TwoRecentMisses(schedules, planId, now) && fault != CaseFails
              && (forall c :: c in old(cases) && c.businessId == info.businessId && c.status == "open" ==>
                    c.triggerType != "missed_payments")
              ==>
                && |cases| == |old(cases)| + 1 && old(cases) <= cases
                && (ledger == old(ledger) <==> fault == LedgerFails) && (r == found <==> fault == LedgerFails)
                && var c := cases[|old(cases)|];
                && c.tenantId == info.tenantId && c.businessId == info.businessId && c.planId == planId
                && c.status == "open" && c.triggerType == "missed_payments"
                && c.severity == if c.consecutiveMissed >= 4 then Critical
                                 else if c.consecutiveMissed == 3 then High else Medium
    {
      hide RecentMissed, TwoRecentMisses;
      RecentMissedCounts(schedules, planId, now);
      r := found;
      var recentMissed := RecentMissed(schedules, planId, now);
      if recentMissed >= 2 {
        var existing := HasOpenCase(cases, info.businessId);
        if !existing {
          if fault == CaseFails { return; }
          var severity := SeverityOf(recentMissed);
          cases := cases + [Case(info.tenantId, info.businessId, "missed_payments", severity, "open",
                                 planId, recentMissed)];
          if fault == LedgerFails { return; }
          ledger := ledger + [Flag(info.tenantId, info.businessId, planId, recentMissed, severity)];
          r := found + [Detail(info.businessId, planId, recentMissed)];
        }
      }
    }
  }

  // ---- What a run guarantees ----

  lemma ConsiderKeepsOneCase(w: Work, planId: Id, plan: Plan, recent: nat, fault: Fault)
    ensures OneOpenCaseEach(w.cases) ==> OneOpenCaseEach(Consider(w, planId, plan, recent, fault).cases)
    ensures w.cases <= Consider(w, planId, plan, recent, fault).cases
    ensures fault != CaseFails && recent >= 2 ==>
              HasOpenCase(Consider(w, planId, plan, recent, fault).cases, plan.businessId)
  {
    var cases := Consider(w, planId, plan, recent, fault).cases;
    if |cases| > |w.cases| {
      assert OpenFor(cases[|w.cases|], plan.businessId);
    }
    if |cases| > |w.cases| && OneOpenCaseEach(w.cases) {
      forall i, j, b | 0 <= i < j < |cases| && OpenFor(cases[i], b)
        ensures !OpenFor(cases[j], b)
      {
        if j == |w.cases| { assert cases[i] == w.cases[i]; }
      }
    }
  }

  /**
   A business never gets a second open case, however many of its plans are in trouble and whichever writes fail; and
   a plan whose case could be written has an open case for its business afterwards if it missed two payments.
   */
  lemma {:induction false} CasesAreOpenedOnce(w: Work, order: seq<Id>, plans: map<Id, Plan>,
                                              schedules: map<Id, Schedule>, now: int, faults: Id -> Fault)
    requires forall p :: p in order ==> p in plans
    ensures var end := ConsiderAll(w, order, plans, schedules, now, faults);
            && (OneOpenCaseEach(w.cases) ==> OneOpenCaseEach(end.cases)) && w.cases <= end.cases
            && forall p :: p in order && faults(p) != CaseFails && RecentMissed(schedules, p, now) >= 2
                           ==> HasOpenCase(end.cases, plans[p].businessId)
    decreases |order|
  {
    if order == [] {
    } else {
      var last, before := order[|order| - 1], order[..|order| - 1];
      var mid := ConsiderAll(w, before, plans, schedules, now, faults);
      CasesAreOpenedOnce(w, before, plans, schedules, now, faults);
      ConsiderKeepsOneCase(mid, last, plans[last], RecentMissed(schedules, last, now), faults(last));
      var end := ConsiderAll(w, order, plans, schedules, now, faults);
      forall p | p in order && faults(p) != CaseFails && RecentMissed(schedules, p, now) >= 2
        ensures HasOpenCase(end.cases, plans[p].businessId)
      {
        if p != last {
          assert p in before;
          var i :| 0 <= i < |mid.cases| && OpenFor(mid.cases[i], plans[p].businessId);
          assert end.cases[i] == mid.cases[i];
        }
      }
    }
  }

  /**
   No case without a reason: every new case is for a plan of the run with two different payments marked missed and due
   in the last 180 days, counts exactly those payments, and has the severity of their number.
   */
  lemma {:induction false} CasesHaveReasons(w: Work, order: seq<Id>, plans: map<Id, Plan>,
                                            schedules: map<Id, Schedule>, now: int, faults: Id -> Fault, i: nat)
    requires forall p :: p in order ==> p in plans
    requires |w.cases| <= i < |ConsiderAll(w, order, plans, schedules, now, faults).cases|
    ensures var c := ConsiderAll(w, order, plans, schedules, now, faults).cases[i];
            && c.planId in order && c.businessId == plans[c.planId].businessId
            && c.tenantId == plans[c.planId].tenantId && c.status == "open" && c.triggerType == "missed_payments"
            && TwoRecentMisses(schedules, c.planId, now) && faults(c.planId) != CaseFails
            && c.consecutiveMissed == (|set id | id in schedules && schedules[id].planId == c.planId
                                               && schedules[id].status == "missed"
                                               && schedules[id].due >= now - 15_552_000_000|)
            && (c.severity == Critical <==> c.consecutiveMissed >= 4)
            && (c.severity == Medium <==> c.consecutiveMissed == 2)
    decreases |order|
  {
    if order == [] {
    } else {
      var before := order[..|order| - 1];
      var mid := ConsiderAll(w, before, plans, schedules, now, faults);
      hide RecentMissed, TwoRecentMisses, HasOpenCase;
      if i < |mid.cases| {
        CasesHaveReasons(w, before, plans, schedules, now, faults, i);
      } else {
        RecentMissedCounts(schedules, order[|order| - 1], now);
      }
    }
  }

  /** Two such payments of a plan of the run leave its business with an open case, unless writing it failed. */
  lemma TwoMissesOpenACase(w: Work, order: seq<Id>, plans: map<Id, Plan>, schedules: map<Id, Schedule>, now: int,
                           faults: Id -> Fault, p: Id)
    requires forall p :: p in order ==> p in plans
    requires p in order && TwoRecentMisses(schedules, p, now) && faults(p) != CaseFails
    ensures var end := ConsiderAll(w, order, plans, schedules, now, faults);
            exists i :: 0 <= i < |end.cases| && end.cases[i].businessId == plans[p].businessId
                        && end.cases[i].status == "open" && end.cases[i].triggerType == "missed_payments"
  {
    hide RecentMissed, TwoRecentMisses;
    RecentMissedCounts(schedules, p, now);
    CasesAreOpenedOnce(w, order, plans, schedules, now, faults);
  }

  /** A payment that is paid, upcoming, older or of another plan than those considered changes nothing at all. */
  lemma {:induction false} OthersChangeNothing(w: Work, order: seq<Id>, plans: map<Id, Plan>,
                                               schedules: map<Id, Schedule>, now: int, faults: Id -> Fault,
                                               id: Id, s: Schedule)
    requires forall p :: p in order ==> p in plans
    requires forall p :: p in order ==> !Counts(s, p, now) && (id in schedules ==> !Counts(schedules[id], p, now))
    ensures ConsiderAll(w, order, plans, schedules[id := s], now, faults)
            == ConsiderAll(w, order, plans, schedules, now, faults)
    decreases |order|
  {
    if order == [] {
    } else {
      hide Consider, RecentMissed, Counts;
      var p := order[|order| - 1];
      OthersChangeNothing(w, order[..|order| - 1], plans, schedules, now, faults, id, s);
      OtherIsNotCounted(schedules, p, now, id, s);
    }
  }

  lemma OtherIsNotCounted(schedules: map<Id, Schedule>, p: Id, now: int, id: Id, s: Schedule)
    requires !Counts(s, p, now) && (id in schedules ==> !Counts(schedules[id], p, now))
    ensures RecentMissed(schedules[id := s], p, now) == RecentMissed(schedules, p, now)
  {
    assert RecentIds(schedules[id := s], p, now) == RecentIds(schedules, p, now);
  }

  /** How many ledger writes failed after their case had been written. */
  function LedgerFailures(w: Work, order: seq<Id>, plans: map<Id, Plan>, schedules: map<Id, Schedule>, now: int,
                          faults: Id -> Fault): nat
    requires forall p :: p in order ==> p in plans
    decreases |order|
  {
    if order == [] then 0
    else
      var before, p := order[..|order| - 1], order[|order| - 1];
      LedgerFailures(w, before, plans, schedules, now, faults)
      + if RecentMissed(schedules, p, now) >= 2 && faults(p) == LedgerFails
           && !HasOpenCase(ConsiderAll(w, before, plans, schedules, now, faults).cases, plans[p].businessId)
        then 1 else 0
  }

  function Reported(flags: seq<Flag>): (details: seq<Detail>)
    ensures |details| == |flags|
  {
    seq(|flags|, i requires 0 <= i < |flags| =>
      Detail(flags[i].businessId, flags[i].planId, flags[i].consecutiveMissed))
  }

  /** A case and its flag: the flag repeats what the case says. */
  predicate FlagOf(f: Flag, c: Case) {
    f == Flag(c.tenantId, c.businessId, c.planId, c.consecutiveMissed, c.severity)
  }

  /** The flag is of one of the cases from `first` on. */
  predicate Repeats(f: Flag, cases: seq<Case>, first: nat) {
    exists j :: first <= j < |cases| && FlagOf(f, cases[j])
  }

  /** What a run has added when `failures` ledger writes have failed after their case. */
  ghost predicate Balanced(w: Work, end: Work, failures: nat) {
    && w.cases <= end.cases && w.ledger <= end.ledger
    && |end.cases| - |w.cases| == |end.ledger| - |w.ledger| + failures
    && end.details == w.details + Reported(end.ledger[|w.ledger|..])
    && forall i :: |w.ledger| <= i < |end.ledger| ==> Repeats(end.ledger[i], end.cases, |w.cases|)
  }

  lemma ReportedAppend(flags: seq<Flag>, f: Flag)
    ensures Reported(flags + [f]) == Reported(flags) + [Detail(f.businessId, f.planId, f.consecutiveMissed)]
  {
  }

  lemma BalanceGoesOn(w: Work, mid: Work, failures: nat, planId: Id, plan: Plan, recent: nat, fault: Fault)
    requires Balanced(w, mid, failures)
    ensures var fired := recent >= 2 && fault == LedgerFails && !HasOpenCase(mid.cases, plan.businessId);
            Balanced(w, Consider(mid, planId, plan, recent, fault), failures + if fired then 1 else 0)
  {
    hide HasOpenCase;
    var end := Consider(mid, planId, plan, recent, fault);
    var n := |mid.ledger|;
    if |end.ledger| > n {
      assert end.ledger[|w.ledger|..] == mid.ledger[|w.ledger|..] + [end.ledger[n]];
      ReportedAppend(mid.ledger[|w.ledger|..], end.ledger[n]);
    } else {
      assert end.ledger == mid.ledger;
    }
    assert end.details == w.details + Reported(end.ledger[|w.ledger|..]);
    forall i | |w.ledger| <= i < |end.ledger|
      ensures Repeats(end.ledger[i], end.cases, |w.cases|)
    {
      if i < n {
        assert Repeats(mid.ledger[i], mid.cases, |w.cases|);
        var j :| |w.cases| <= j < |mid.cases| && FlagOf(mid.ledger[i], mid.cases[j]);
        assert FlagOf(end.ledger[i], end.cases[j]);
      } else {
        assert FlagOf(end.ledger[i], end.cases[|mid.cases|]);
      }
    }
  }

  /**
   The books balance: the new cases are the new flags plus the ledger writes that failed after their case, every flag
   repeats a case of the run, and the details report exactly the flags.
   */
  lemma {:induction false} CasesAreFlagsPlusFailures(w: Work, order: seq<Id>, plans: map<Id, Plan>,
                                                     schedules: map<Id, Schedule>, now: int, faults: Id -> Fault)
    requires (forall p :: p in order ==> p in plans)
    ensures Balanced(w, ConsiderAll(w, order, plans, schedules, now, faults),
                     LedgerFailures(w, order, plans, schedules, now, faults))
    decreases |order|
  {
    if order == [] {
      assert w.details + [] == w.details;
    } else {
      hide Balanced, Consider, HasOpenCase, RecentMissed;
      var before, p := order[..|order| - 1], order[|order| - 1];
      CasesAreFlagsPlusFailures(w, before, plans, schedules, now, faults);
      BalanceGoesOn(w, ConsiderAll(w, before, plans, schedules, now, faults),
                    LedgerFailures(w, before, plans, schedules, now, faults), p, plans[p],
                    RecentMissed(schedules, p, now), faults(p));
    }
  }

  /** A second run at the same instant finds no row, and a run without rows writes nothing. */
  lemma RerunFindsNothing(schedules: map<Id, Schedule>, now: int, rows: seq<Id>, again: seq<Id>, plans: map<Id, Plan>,
                          w: Work, faults: Id -> Fault)
    requires Listing(schedules, now, rows) && Listing(MarkMissed(schedules, rows), now, again)
    ensures again == [] && MarkMissed(MarkMissed(schedules, rows), again) == MarkMissed(schedules, rows)
    ensures ConsiderAll(w, FirstSeen([]), plans, MarkMissed(schedules, rows), now, faults) == w
  {
    MarkingIsExact(schedules, now, rows);
  }

  // ---- The next run ----

  /** Between two runs anything may be added, paid or moved, but no payment becomes upcoming again. */
  ghost predicate Meanwhile(before: map<Id, Schedule>, after: map<Id, Schedule>) {
    forall id :: id in before && id in after && before[id].status != "upcoming" ==> after[id].status != "upcoming"
  }

  /** The plan has an overdue payment that is not among those already marked. */
  predicate Unmarked(schedules: map<Id, Schedule>, marked: seq<Id>, later: int, plan: Id) {
    exists id :: id in schedules && id !in marked && schedules[id].planId == plan && Overdue(schedules[id], later)
  }

  /**
   A run that marked the first `k` of its rows, and whatever happens after it: the next run considers exactly the plans
   with an overdue payment that was not marked then.
   */
  lemma NextRunConsiders(schedules: map<Id, Schedule>, now: int, rows: seq<Id>, k: nat,
                         schedules': map<Id, Schedule>, later: int, again: seq<Id>, plan: Id)
    requires Listing(schedules, now, rows) && k <= |rows|
    requires Meanwhile(MarkMissed(schedules, rows[..k]), schedules') && Listing(schedules', later, again)
    ensures plan in FirstSeen(PlansOf(schedules', again)) <==> Unmarked(schedules', rows[..k], later, plan)
  {
    var marked := MarkMissed(schedules, rows[..k]);
    forall id | id in rows[..k] && id in schedules'
      ensures !Overdue(schedules'[id], later)
    {
      assert id in rows && marked[id].status == "missed";
    }
    var all := PlansOf(schedules', again);
    if plan in all {
      var i :| 0 <= i < |all| && all[i] == plan;
      ListedIsOverdue(schedules', later, again, i);
    }
    if id :| id in schedules' && schedules'[id].planId == plan && Overdue(schedules'[id], later) {
      PlanIsSeen(schedules', again, id);
    }
  }

  /**
   After a run that broke off at update `k`, with nothing else happening, the next run considers exactly the plans that
   have a row from `k` on or another payment that has become overdue: a plan all of whose overdue rows were already
   marked is passed over until then, whatever it has missed.
   */
  lemma BrokenRunForgetsPlans(schedules: map<Id, Schedule>, now: int, rows: seq<Id>, k: nat, later: int, again: seq<Id>,
                              plan: Id)
    requires Listing(schedules, now, rows) && k <= |rows| && now <= later
    requires Listing(MarkMissed(schedules, rows[..k]), later, again)
    ensures (plan in FirstSeen(PlansOf(MarkMissed(schedules, rows[..k]), again)))
       <==> ((exists i :: k <= i < |rows| && schedules[rows[i]].planId == plan)
             || (exists id :: id in schedules && schedules[id].planId == plan && schedules[id].status == "upcoming"
                              && now <= schedules[id].due < later))
  {
    var marked := MarkMissed(schedules, rows[..k]);
    NextRunConsiders(schedules, now, rows, k, marked, later, again, plan);
    if Unmarked(marked, rows[..k], later, plan) {
      var id :| id in marked && id !in rows[..k] && marked[id].planId == plan && Overdue(marked[id], later);
      if schedules[id].due < now {
        assert Overdue(schedules[id], now) && id in rows;
        var i :| 0 <= i < |rows| && rows[i] == id;
        forall j | 0 <= j < k ensures rows[j] != id { assert rows[..k][j] == rows[j]; }
      }
    }
    if i :| k <= i < |rows| && schedules[rows[i]].planId == plan {
      ListedIsOverdue(schedules, now, rows, i);
      forall j | 0 <= j < k ensures rows[..k][j] != rows[i] { assert rows[..k][j] == rows[j]; }
      assert Overdue(marked[rows[i]], later);
    }
    if id :| id in schedules && schedules[id].planId == plan && schedules[id].status == "upcoming"
             && now <= schedules[id].due < later {
      assert id !in rows;
      assert Overdue(marked[id], later) && id !in rows[..k];
    }
  }

  /**
   A plan whose case could not be written gets none in that run, and is not retried by itself: whatever happens in
   between, the next run considers it exactly if a payment other than those it found has become overdue.
   */
  lemma FailedCaseWaitsForAnotherRow(schedules: map<Id, Schedule>, now: int, rows: seq<Id>, plans: map<Id, Plan>,
                                     w: Work, faults: Id -> Fault, planId: Id,
                                     schedules': map<Id, Schedule>, later: int, again: seq<Id>)
    requires Linked(schedules, plans) && Listing(schedules, now, rows) && faults(planId) == CaseFails
    requires Meanwhile(MarkMissed(schedules, rows), schedules') && Listing(schedules', later, again)
    requires forall p :: p in FirstSeen(PlansOf(schedules, rows)) ==> p in plans
    ensures var order, marked := FirstSeen(PlansOf(schedules, rows)), MarkMissed(schedules, rows);
            var end := ConsiderAll(w, order, plans, marked, now, faults);
            forall i :: |w.cases| <= i < |end.cases| ==> end.cases[i].planId != planId
    ensures planId in FirstSeen(PlansOf(schedules', again)) <==> Unmarked(schedules', rows, later, planId)
  {
    var order, marked := FirstSeen(PlansOf(schedules, rows)), MarkMissed(schedules, rows);
    var end := ConsiderAll(w, order, plans, marked, now, faults);
    forall i | |w.cases| <= i < |end.cases|
      ensures end.cases[i].planId != planId
    {
      CasesHaveReasons(w, order, plans, marked, now, faults, i);
    }
    assert rows[..|rows|] == rows;
    NextRunConsiders(schedules, now, rows, |rows|, schedules', later, again, planId);
  }
}

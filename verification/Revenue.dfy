// Owner analytics over the service tables: revenue windows and the status overview.
//
// Days are whole UTC days of the completion time.
module Revenue {
  import opened Common
  import opened StateMachine
  import opened Workshop
  import JobHistory

  function DayOf(instant: int): int {
    instant / DAY
  }

  // 00:00:00.000000 of the first day and 23:59:59.999999 of the last.
  function WindowStart(dateFrom: Option<int>, today: int): int {
    (if dateFrom.Some? then dateFrom.value else today - 30) * DAY
  }

  function WindowEnd(dateTo: Option<int>, today: int): int {
    (if dateTo.Some? then dateTo.value else today) * DAY + DAY - 1
  }

  // ---- the two queries -------------------------------------------------------------------

  predicate Counts(s: Service, centreId: nat, start: int, end: int) {
    s.centreId == centreId && s.status == Completed
    && s.completedAt.Some? && start <= s.completedAt.value <= end
  }

  // The services a window counts.
  function Counted(services: seq<Service>, centreId: nat, start: int, end: int): set<nat> {
    set s: nat | s < |services| && Counts(services[s], centreId, start, end)
  }

  // Item rows joined with a set of services, in table order.
  function Lines(items: seq<Item>, sids: set<nat>): seq<Item> {
    if items == [] then []
    else
      var last := items[|items| - 1];
      Lines(items[..|items| - 1], sids) + if last.serviceId in sids then [last] else []
  }

  function Amount(lines: seq<Item>): nat {
    if lines == [] then 0
    else
      var last := lines[|lines| - 1].line;
      Amount(lines[..|lines| - 1]) + last.servicePrice + last.partsPrice
  }

  function Total(t: Tables, centreId: nat, start: int, end: int): nat {
    Amount(Lines(t.items, Counted(t.services, centreId, start, end)))
  }

  datatype DayRow = DayRow(day: int, amount: nat, services: nat)

  function ServicesIn(lines: seq<Item>): set<nat> {
    set i | 0 <= i < |lines| :: lines[i].serviceId
  }

  function DayLines(t: Tables, centreId: nat, day: int): seq<Item> {
    Lines(t.items, Counted(t.services, centreId, day * DAY, day * DAY + DAY - 1))
  }

  // One row for each day from `first` to `last` that has any item line, in day order.
  function Daily(t: Tables, centreId: nat, first: int, last: int): seq<DayRow>
    decreases last - first
  {
    if last < first then []
    else
      var lines := DayLines(t, centreId, last);
      Daily(t, centreId, first, last - 1)
      + if lines == [] then [] else [DayRow(last, Amount(lines), |ServicesIn(lines)|)]
  }

  datatype Report = Report(total: nat, daily: seq<DayRow>)

  // The report for a window of whole days.
  function WindowReport(t: Tables, centreId: nat, first: int, last: int): Report {
    Report(Total(t, centreId, first * DAY, last * DAY + DAY - 1), Daily(t, centreId, first, last))
  }

  function RevenueReport(t: Tables, centreId: nat, dateFrom: Option<int>, dateTo: Option<int>, today: int): Report {
    Report(Total(t, centreId, WindowStart(dateFrom, today), WindowEnd(dateTo, today)),
           Daily(t, centreId, DayOf(WindowStart(dateFrom, today)), DayOf(WindowEnd(dateTo, today))))
  }

  lemma ReportIsWindowReport(t: Tables, centreId: nat, dateFrom: Option<int>, dateTo: Option<int>, today: int)
    ensures RevenueReport(t, centreId, dateFrom, dateTo, today)
         == WindowReport(t, centreId,
                         if dateFrom.Some? then dateFrom.value else today - 30,
                         if dateTo.Some? then dateTo.value else today)
  {}

  // ---- windows add up -------------------------------------------------------------------------

  lemma AmountStep(items: seq<Item>, sids: set<nat>)
    requires items != []
    ensures var last := items[|items| - 1];
            Amount(Lines(items, sids)) == Amount(Lines(items[..|items| - 1], sids))
            + if last.serviceId in sids then last.line.servicePrice + last.line.partsPrice else 0
  {
    var lines, last := Lines(items[..|items| - 1], sids), items[|items| - 1];
    assert lines + [] == lines;
    assert (lines + [last])[..|lines + [last]| - 1] == lines;
  }

  lemma {:induction false} AmountOfUnion(items: seq<Item>, a: set<nat>, b: set<nat>)
    requires a !! b
    ensures Amount(Lines(items, a + b)) == Amount(Lines(items, a)) + Amount(Lines(items, b))
  {
    if items != [] {
      AmountOfUnion(items[..|items| - 1], a, b);
      AmountStep(items, a);
      AmountStep(items, b);
      AmountStep(items, a + b);
    }
  }

  // Adjacent windows: splitting at any day boundary loses and double-counts nothing.
  lemma AdjacentWindowsAddUp(t: Tables, centreId: nat, first: int, mid: int, last: int)
    requires first <= mid + 1 && mid <= last
    ensures WindowReport(t, centreId, first, last).total
         == WindowReport(t, centreId, first, mid).total + WindowReport(t, centreId, mid + 1, last).total
  {
    var a := Counted(t.services, centreId, first * DAY, mid * DAY + DAY - 1);
    var b := Counted(t.services, centreId, (mid + 1) * DAY, last * DAY + DAY - 1);
    assert Counted(t.services, centreId, first * DAY, last * DAY + DAY - 1) == a + b;
    AmountOfUnion(t.items, a, b);
  }

  function SumOfDays(rows: seq<DayRow>): nat {
    if rows == [] then 0 else SumOfDays(rows[..|rows| - 1]) + rows[|rows| - 1].amount
  }

  lemma SumOfDaysGrows(rows: seq<DayRow>, row: DayRow)
    ensures SumOfDays(rows + [row]) == SumOfDays(rows) + row.amount
  {
    assert (rows + [row])[..|rows + [row]| - 1] == rows;
  }

  lemma {:induction false} NothingCounted(items: seq<Item>)
    ensures Lines(items, {}) == []
  {
    if items != [] {
      NothingCounted(items[..|items| - 1]);
    }
  }

  // Day rows within a window, in strictly increasing day order.
  ghost predicate InOrder(days: seq<DayRow>, first: int, last: int) {
    && (forall k | 0 <= k < |days| :: first <= days[k].day <= last)
    && (forall k, j | 0 <= k < j < |days| :: days[k].day < days[j].day)
  }

  lemma InOrderGrows(days: seq<DayRow>, first: int, row: DayRow)
    requires InOrder(days, first, row.day - 1) && first <= row.day
    ensures InOrder(days + [row], first, row.day) && InOrder(days, first, row.day)
  {}

  lemma {:induction false} DaysComeInOrder(t: Tables, centreId: nat, first: int, last: int)
    ensures InOrder(Daily(t, centreId, first, last), first, last)
    decreases last - first
  {
    if first <= last {
      DaysComeInOrder(t, centreId, first, last - 1);
      var lines, before := DayLines(t, centreId, last), Daily(t, centreId, first, last - 1);
      InOrderGrows(before, first, DayRow(last, Amount(lines), |ServicesIn(lines)|));
      assert before + [] == before;
    }
  }

  function WindowTotal(t: Tables, centreId: nat, first: int, last: int): nat {
    Total(t, centreId, first * DAY, last * DAY + DAY - 1)
  }

  lemma EmptyWindow(t: Tables, centreId: nat, first: int, last: int)
    requires last < first
    ensures WindowTotal(t, centreId, first, last) == 0
  {
    MulMonotone(last + 1, first, DAY);
    assert Counted(t.services, centreId, first * DAY, last * DAY + DAY - 1) == {};
    NothingCounted(t.items);
  }

  lemma {:induction false} SumOfDaily(t: Tables, centreId: nat, first: int, last: int)
    ensures WindowTotal(t, centreId, first, last) == SumOfDays(Daily(t, centreId, first, last))
    decreases last - first
  {
    if last < first {
      EmptyWindow(t, centreId, first, last);
    } else {
      SumOfDaily(t, centreId, first, last - 1);
      AdjacentWindowsAddUp(t, centreId, first, last - 1, last);
      var lines, before := DayLines(t, centreId, last), Daily(t, centreId, first, last - 1);
      SumOfDaysGrows(before, DayRow(last, Amount(lines), |ServicesIn(lines)|));
      assert before + [] == before;
      assert WindowTotal(t, centreId, last, last) == Amount(lines);
    }
  }

  // The total is the sum of the daily amounts, and the days come in order within the window.
  lemma TotalIsSumOfDays(t: Tables, centreId: nat, first: int, last: int)
    ensures var report := WindowReport(t, centreId, first, last);
            && report.total == SumOfDays(report.daily)
            && InOrder(report.daily, first, last)
  {
    SumOfDaily(t, centreId, first, last);
    DaysComeInOrder(t, centreId, first, last);
  }

  // ---- past revenue is frozen --------------------------------------------------------------------

  lemma {:induction false} LinesOfConcat(a: seq<Item>, b: seq<Item>, sids: set<nat>)
    ensures Lines(a + b, sids) == Lines(a, sids) + Lines(b, sids)
  {
    if b == [] {
      assert a + b == a;
    } else {
      assert (a + b)[..|a + b| - 1] == a + b[..|b| - 1];
      LinesOfConcat(a, b[..|b| - 1], sids);
    }
  }

  lemma {:induction false} LinesIgnoreOthers(items: seq<Item>, sids: set<nat>, sid: nat)
    requires sid !in sids
    ensures Lines(OtherItems(items, sid), sids) == Lines(items, sids)
  {
    if items != [] {
      var front, last := items[..|items| - 1], items[|items| - 1];
      LinesIgnoreOthers(front, sids, sid);
      LinesOfConcat(OtherItems(front, sid), [last], sids);
      LinesOfOne(last, sids);
      assert OtherItems(front, sid) + [] == OtherItems(front, sid);
    }
  }

  lemma LinesOfOne(item: Item, sids: set<nat>)
    ensures Lines([item], sids) == if item.serviceId in sids then [item] else []
  {
    assert [item][..0] == [];
    assert Lines([item][..0], sids) == [];
  }

  lemma {:induction false} NewItemsUncounted(sid: nat, lines: seq<ItemIn>, sids: set<nat>)
    requires sid !in sids
    ensures Lines(NewItems(sid, lines), sids) == []
  {
    if lines != [] {
      var front := lines[..|lines| - 1];
      assert NewItems(sid, lines)[..|lines| - 1] == NewItems(sid, front);
      NewItemsUncounted(sid, front, sids);
    }
  }

  // No request touches the item rows of a finished job.
  lemma StepKeepsLines(t: Tables, e: Event, sids: set<nat>)
    requires forall s | s in sids :: s < |t.services| && t.services[s].status in TERMINAL
    ensures Lines(Step(t, e).items, sids) == Lines(t.items, sids)
  {
    if Step(t, e).items != t.items {
      var sid := if e.Open? then |t.services| else e.sid;
      var lines := if e.Open? then e.form.items else e.patch.items.value;
      LinesOfConcat(OtherItems(t.items, sid), NewItems(sid, lines), sids);
      LinesIgnoreOthers(t.items, sids, sid);
      NewItemsUncounted(sid, lines, sids);
    }
  }

  // Every completion a run can still add reads the clock at `now` or later.
  ghost predicate ClockFrom(es: seq<Event>, now: int) {
    forall i | 0 <= i < |es| && es[i].Move? :: now <= es[i].now
  }

  // What a window counts can only grow, and only by completions at `now` or later.
  lemma StepCounts(t: Tables, e: Event, centreId: nat, start: int, end: int)
    ensures Counted(t.services, centreId, start, end) <= Counted(Step(t, e).services, centreId, start, end)
    ensures (e.Move? ==> end < e.now) ==>
              Counted(Step(t, e).services, centreId, start, end) == Counted(t.services, centreId, start, end)
  {
    forall s: nat | s < |t.services|
      ensures Counts(t.services[s], centreId, start, end) ==> Counts(Step(t, e).services[s], centreId, start, end)
      ensures (e.Move? ==> end < e.now) && Counts(Step(t, e).services[s], centreId, start, end) ==>
                Counts(t.services[s], centreId, start, end)
    {
      JobHistory.StepOnJob(t, e, s);
    }
  }

  lemma {:induction false} WindowLinesAreFrozen(t: Tables, es: seq<Event>, centreId: nat, start: int, end: int)
    requires forall i | 0 <= i < |es| && es[i].Move? :: end < es[i].now
    ensures Counted(Run(t, es).services, centreId, start, end) == Counted(t.services, centreId, start, end)
    ensures Lines(Run(t, es).items, Counted(t.services, centreId, start, end))
         == Lines(t.items, Counted(t.services, centreId, start, end))
  {
    if es != [] {
      var front, e := es[..|es| - 1], es[|es| - 1];
      WindowLinesAreFrozen(t, front, centreId, start, end);
      StepCounts(Run(t, front), e, centreId, start, end);
      StepKeepsLines(Run(t, front), e, Counted(t.services, centreId, start, end));
    }
  }

  lemma PastDayEnds(day: int, now: int)
    requires day < DayOf(now)
    ensures day * DAY + DAY - 1 < now
  {
    MulMonotone(day + 1, DayOf(now), DAY);
  }

  lemma {:induction false} DailyIsFrozen(t: Tables, es: seq<Event>, centreId: nat, first: int, last: int, now: int)
    requires ClockFrom(es, now) && last < DayOf(now)
    ensures Daily(Run(t, es), centreId, first, last) == Daily(t, centreId, first, last)
    decreases last - first
  {
    if first <= last {
      DailyIsFrozen(t, es, centreId, first, last - 1, now);
      PastDayEnds(last, now);
      WindowLinesAreFrozen(t, es, centreId, last * DAY, last * DAY + DAY - 1);
    }
  }

  // The whole report of a window that ended before today - total, every daily amount, every daily
  // count - is the same in every later state.
  lemma PastRevenueIsFrozen(t: Tables, es: seq<Event>, centreId: nat, first: int, last: int, now: int)
    requires ClockFrom(es, now) && last < DayOf(now)
    ensures WindowReport(Run(t, es), centreId, first, last) == WindowReport(t, centreId, first, last)
  {
    PastDayEnds(last, now);
    WindowLinesAreFrozen(t, es, centreId, first * DAY, last * DAY + DAY - 1);
    DailyIsFrozen(t, es, centreId, first, last, now);
  }

  lemma {:induction false} AmountIsMonotone(items: seq<Item>, a: set<nat>, b: set<nat>)
    requires a <= b
    ensures Amount(Lines(items, a)) <= Amount(Lines(items, b))
  {
    assert a + (b - a) == b;
    AmountOfUnion(items, a, b - a);
  }

  // Any window's revenue never decreases, whatever is requested and whatever the clock does.
  lemma {:induction false} RevenueNeverDecreases(t: Tables, es: seq<Event>, centreId: nat, start: int, end: int)
    ensures Total(t, centreId, start, end) <= Total(Run(t, es), centreId, start, end)
  {
    if es != [] {
      var front, e := es[..|es| - 1], es[|es| - 1];
      var before, after := Run(t, front), Run(t, es);
      var a, b := Counted(before.services, centreId, start, end), Counted(after.services, centreId, start, end);
      RevenueNeverDecreases(t, front, centreId, start, end);
      StepCounts(before, e, centreId, start, end);
      StepKeepsLines(before, e, a);
      AmountIsMonotone(after.items, a, b);
    }
  }

  // ---- which jobs a report counts -----------------------------------------------------------------

  function Price(lines: seq<ItemIn>): nat {
    if lines == [] then 0
    else Price(lines[..|lines| - 1]) + lines[|lines| - 1].servicePrice + lines[|lines| - 1].partsPrice
  }

  // What a report shows for one day: nothing when it has no row for it.
  function AmountOn(days: seq<DayRow>, day: int): nat {
    if days == [] then 0
    else AmountOn(days[..|days| - 1], day) + if days[|days| - 1].day == day then days[|days| - 1].amount else 0
  }

  function JobsOn(days: seq<DayRow>, day: int): nat {
    if days == [] then 0
    else JobsOn(days[..|days| - 1], day) + if days[|days| - 1].day == day then days[|days| - 1].services else 0
  }

  lemma DayGrows(days: seq<DayRow>, row: DayRow, day: int)
    ensures AmountOn(days + [row], day) == AmountOn(days, day) + if row.day == day then row.amount else 0
    ensures JobsOn(days + [row], day) == JobsOn(days, day) + if row.day == day then row.services else 0
  {
    assert (days + [row])[..|days + [row]| - 1] == days;
  }

  lemma {:induction false} DailyShows(t: Tables, centreId: nat, first: int, last: int, day: int)
    ensures var days, lines := Daily(t, centreId, first, last), DayLines(t, centreId, day);
            && AmountOn(days, day) == (if first <= day <= last then Amount(lines) else 0)
            && JobsOn(days, day) == (if first <= day <= last then |ServicesIn(lines)| else 0)
    decreases last - first
  {
    if first <= last {
      DailyShows(t, centreId, first, last - 1, day);
      var lines, before := DayLines(t, centreId, last), Daily(t, centreId, first, last - 1);
      if lines == [] {
        assert before + [] == before && ServicesIn(lines) == {};
      } else {
        DayGrows(before, DayRow(last, Amount(lines), |ServicesIn(lines)|), day);
      }
    }
  }

  lemma PriceGrows(lines: seq<ItemIn>, line: ItemIn)
    ensures Price(lines + [line]) == Price(lines) + line.servicePrice + line.partsPrice
  {
    assert (lines + [line])[..|lines + [line]| - 1] == lines;
  }

  lemma {:induction false} LinesOfOneJob(items: seq<Item>, sid: nat)
    ensures Amount(Lines(items, {sid})) == Price(LinesOf(items, sid))
  {
    if items != [] {
      var front, last := items[..|items| - 1], items[|items| - 1];
      LinesOfOneJob(front, sid);
      AmountStep(items, {sid});
      LinesOfSnoc(front, last, sid);
      assert items == front + [last];
      if last.serviceId == sid {
        PriceGrows(LinesOf(front, sid), last.line);
      } else {
        assert LinesOf(front, sid) + [] == LinesOf(front, sid);
      }
    }
  }

  lemma {:induction false} LinesAreExact(items: seq<Item>, sids: set<nat>)
    ensures forall x :: x in Lines(items, sids) <==> x in items && x.serviceId in sids
  {
    if items != [] {
      LinesAreExact(items[..|items| - 1], sids);
      assert items == items[..|items| - 1] + [items[|items| - 1]];
    }
  }

  ghost predicate HasItems(items: seq<Item>, sid: nat) {
    exists x :: x in items && x.serviceId == sid
  }

  lemma {:induction false} LinesOfIsEmptyWithoutItems(items: seq<Item>, sid: nat)
    ensures LinesOf(items, sid) == [] <==> !HasItems(items, sid)
  {
    if items != [] {
      var front, last := items[..|items| - 1], items[|items| - 1];
      LinesOfIsEmptyWithoutItems(front, sid);
      assert items == front + [last];
      if last.serviceId == sid {
        assert last in items;
      } else if HasItems(front, sid) {
        var x :| x in front && x.serviceId == sid;
        assert x in items;
      }
    }
  }

  lemma ServicesInLines(items: seq<Item>, sids: set<nat>)
    ensures ServicesIn(Lines(items, sids)) == set s | s in sids && HasItems(items, s)
  {
    LinesAreExact(items, sids);
    var lines := Lines(items, sids);
    forall s ensures s in ServicesIn(lines) <==> s in sids && HasItems(items, s) {
      if s in ServicesIn(lines) {
        var i :| 0 <= i < |lines| && lines[i].serviceId == s;
        assert lines[i] in lines;
      }
      if s in sids && HasItems(items, s) {
        var x :| x in items && x.serviceId == s;
        assert x in lines;
      }
    }
  }

  // An accepted completion.
  ghost predicate Completes(t: Tables, e: Event) {
    e.Move? && e.to == Completed && Apply(t, e).1.Done?
  }

  lemma CountedAfterCompletion(t: Tables, e: Event, centreId: nat, start: int, end: int)
    requires Completes(t, e)
    ensures e.sid < |t.services| && Step(t, e).items == t.items
    ensures e.sid !in Counted(t.services, centreId, start, end)
    ensures Counted(Step(t, e).services, centreId, start, end)
         == Counted(t.services, centreId, start, end)
            + if t.services[e.sid].centreId == centreId && start <= e.now <= end then {e.sid} else {}
  {}

  // One more job among those counted adds its lines, and itself if it has any.
  lemma OneMoreCounted(items: seq<Item>, sids: set<nat>, sid: nat)
    requires sid !in sids
    ensures Amount(Lines(items, sids + {sid})) == Amount(Lines(items, sids)) + Price(LinesOf(items, sid))
    ensures |ServicesIn(Lines(items, sids + {sid}))|
         == |ServicesIn(Lines(items, sids))| + if LinesOf(items, sid) == [] then 0 else 1
    ensures LinesOf(items, sid) == [] ==> Lines(items, sids + {sid}) == Lines(items, sids)
  {
    AmountOfUnion(items, sids, {sid});
    LinesOfOneJob(items, sid);
    LinesOfIsEmptyWithoutItems(items, sid);
    ServicesInLines(items, sids);
    ServicesInLines(items, sids + {sid});
    var was, now := ServicesIn(Lines(items, sids)), ServicesIn(Lines(items, sids + {sid}));
    if HasItems(items, sid) {
      assert now == was + {sid};
    } else {
      assert now == was;
      NoItemsNoLines(items, sids, sid);
    }
  }

  lemma {:induction false} NoItemsNoLines(items: seq<Item>, sids: set<nat>, sid: nat)
    requires !HasItems(items, sid)
    ensures Lines(items, sids + {sid}) == Lines(items, sids)
  {
    if items != [] {
      var front, last := items[..|items| - 1], items[|items| - 1];
      assert last in items && forall x :: x in front ==> x in items;
      NoItemsNoLines(front, sids, sid);
    }
  }

  lemma {:induction false} DailyDependsOnDays(t: Tables, t': Tables, centreId: nat, first: int, last: int)
    requires forall day | first <= day <= last :: DayLines(t', centreId, day) == DayLines(t, centreId, day)
    ensures Daily(t', centreId, first, last) == Daily(t, centreId, first, last)
    decreases last - first
  {
    if first <= last {
      DailyDependsOnDays(t, t', centreId, first, last - 1);
    }
  }

  // The instants of the days from `first` to `last`.
  predicate Within(instant: int, first: int, last: int) {
    first * 86_400_000_000 <= instant < (last + 1) * 86_400_000_000
  }

  function FirstDay(dateFrom: Option<int>, today: int): int {
    match dateFrom case Some(day) => day case None => today - 30
  }

  function LastDay(dateTo: Option<int>, today: int): int {
    match dateTo case Some(day) => day case None => today
  }

  lemma DayInsideWindow(instant: int, first: int, last: int, day: int)
    requires first <= day <= last && Within(instant, day, day)
    ensures Within(instant, first, last)
  {}

  lemma DayLinesAfterCompletion(t: Tables, e: Event, centreId: nat, day: int)
    requires Completes(t, e)
    ensures e.sid < |t.services|
    ensures var was, now, lines := DayLines(t, centreId, day), DayLines(Step(t, e), centreId, day), LinesOf(t.items, e.sid);
            if t.services[e.sid].centreId == centreId && Within(e.now, day, day) && lines != [] then
              Amount(now) == Amount(was) + Price(lines) && |ServicesIn(now)| == |ServicesIn(was)| + 1
            else now == was
  {
    CountedAfterCompletion(t, e, centreId, day * DAY, day * DAY + DAY - 1);
    OneMoreCounted(t.items, Counted(t.services, centreId, day * DAY, day * DAY + DAY - 1), e.sid);
    assert Counted(t.services, centreId, day * DAY, day * DAY + DAY - 1) + {}
        == Counted(t.services, centreId, day * DAY, day * DAY + DAY - 1);
  }

  lemma TotalAfterCompletion(t: Tables, e: Event, centreId: nat, start: int, end: int)
    requires Completes(t, e)
    ensures e.sid < |t.services|
    ensures Total(Step(t, e), centreId, start, end)
         == Total(t, centreId, start, end)
            + if t.services[e.sid].centreId == centreId && start <= e.now <= end then Price(LinesOf(t.items, e.sid)) else 0
  {
    var counted := Counted(t.services, centreId, start, end);
    CountedAfterCompletion(t, e, centreId, start, end);
    OneMoreCounted(t.items, counted, e.sid);
    assert counted + {} == counted;
  }

  // A completion is added to the total of exactly those reports of the job's own centre whose days
  // hold its instant: the service and parts prices of its lines.
  lemma CompletionEntersTheTotal(
    t: Tables, e: Event, centreId: nat, dateFrom: Option<int>, dateTo: Option<int>, today: int)
    requires Completes(t, e)
    ensures e.sid < |t.services|
    ensures var inside := Within(e.now, FirstDay(dateFrom, today), LastDay(dateTo, today));
            RevenueReport(Step(t, e), centreId, dateFrom, dateTo, today).total
            == RevenueReport(t, centreId, dateFrom, dateTo, today).total
               + if t.services[e.sid].centreId == centreId && inside then Price(LinesOf(t.items, e.sid)) else 0
  {
    TotalAfterCompletion(t, e, centreId, WindowStart(dateFrom, today), WindowEnd(dateTo, today));
  }

  // The same of the day it falls on, which counts one job more; and of no other day.
  lemma CompletionEntersItsDay(
    t: Tables, e: Event, centreId: nat, dateFrom: Option<int>, dateTo: Option<int>, today: int, day: int)
    requires Completes(t, e)
    ensures e.sid < |t.services|
    ensures var was, now := RevenueReport(t, centreId, dateFrom, dateTo, today).daily,
                            RevenueReport(Step(t, e), centreId, dateFrom, dateTo, today).daily;
            var lines, first, last := LinesOf(t.items, e.sid), FirstDay(dateFrom, today), LastDay(dateTo, today);
            if t.services[e.sid].centreId == centreId && first <= day <= last && Within(e.now, day, day) then
              && AmountOn(now, day) == AmountOn(was, day) + Price(lines)
              && JobsOn(now, day) == JobsOn(was, day) + if lines == [] then 0 else 1
            else AmountOn(now, day) == AmountOn(was, day) && JobsOn(now, day) == JobsOn(was, day)
  {
    var first, last := FirstDay(dateFrom, today), LastDay(dateTo, today);
    ReportIsWindowReport(t, centreId, dateFrom, dateTo, today);
    ReportIsWindowReport(Step(t, e), centreId, dateFrom, dateTo, today);
    DailyShows(t, centreId, first, last, day);
    DailyShows(Step(t, e), centreId, first, last, day);
    DayLinesAfterCompletion(t, e, centreId, day);
  }

  // Every other report is as it was, row for row.
  lemma CompletionLeavesOtherReports(
    t: Tables, e: Event, centreId: nat, dateFrom: Option<int>, dateTo: Option<int>, today: int)
    requires Completes(t, e)
    requires e.sid < |t.services| && t.services[e.sid].centreId == centreId && LinesOf(t.items, e.sid) != [] ==>
               !Within(e.now, FirstDay(dateFrom, today), LastDay(dateTo, today))
    ensures RevenueReport(Step(t, e), centreId, dateFrom, dateTo, today)
         == RevenueReport(t, centreId, dateFrom, dateTo, today)
  {
    var t', first, last := Step(t, e), FirstDay(dateFrom, today), LastDay(dateTo, today);
    ReportIsWindowReport(t, centreId, dateFrom, dateTo, today);
    ReportIsWindowReport(t', centreId, dateFrom, dateTo, today);
    CompletionEntersTheTotal(t, e, centreId, dateFrom, dateTo, today);
    forall day | first <= day <= last ensures DayLines(t', centreId, day) == DayLines(t, centreId, day) {
      DayLinesAfterCompletion(t, e, centreId, day);
      if Within(e.now, day, day) {
        DayInsideWindow(e.now, first, last, day);
      }
    }
    DailyDependsOnDays(t, t', centreId, first, last);
  }

  lemma CountedStays(t: Tables, e: Event, centreId: nat, start: int, end: int)
    requires !Completes(t, e)
    ensures Counted(Step(t, e).services, centreId, start, end) == Counted(t.services, centreId, start, end)
    ensures Lines(Step(t, e).items, Counted(t.services, centreId, start, end))
         == Lines(t.items, Counted(t.services, centreId, start, end))
  {
    forall s: nat ensures s in Counted(Step(t, e).services, centreId, start, end)
                     <==> s in Counted(t.services, centreId, start, end) {
      if s < |t.services| {
        JobHistory.StepOnJob(t, e, s);
      }
    }
    StepKeepsLines(t, e, Counted(t.services, centreId, start, end));
  }

  lemma TotalStays(t: Tables, e: Event, centreId: nat, start: int, end: int)
    requires !Completes(t, e)
    ensures Total(Step(t, e), centreId, start, end) == Total(t, centreId, start, end)
  {
    CountedStays(t, e, centreId, start, end);
  }

  lemma DayLinesStay(t: Tables, e: Event, centreId: nat, day: int)
    requires !Completes(t, e)
    ensures DayLines(Step(t, e), centreId, day) == DayLines(t, centreId, day)
  {
    var start := day * DAY;
    CountedStays(t, e, centreId, start, start + DAY - 1);
    assert DayLines(Step(t, e), centreId, day)
        == Lines(Step(t, e).items, Counted(Step(t, e).services, centreId, start, start + DAY - 1));
  }

  lemma DailyStays(t: Tables, e: Event, centreId: nat, first: int, last: int)
    requires !Completes(t, e)
    ensures Daily(Step(t, e), centreId, first, last) == Daily(t, centreId, first, last)
  {
    forall day | first <= day <= last ensures DayLines(Step(t, e), centreId, day) == DayLines(t, centreId, day) {
      DayLinesStay(t, e, centreId, day);
    }
    DailyDependsOnDays(t, Step(t, e), centreId, first, last);
  }

  // No other request changes any report.
  lemma OtherRequestsLeaveReports(
    t: Tables, e: Event, centreId: nat, dateFrom: Option<int>, dateTo: Option<int>, today: int)
    requires !Completes(t, e)
    ensures RevenueReport(Step(t, e), centreId, dateFrom, dateTo, today)
         == RevenueReport(t, centreId, dateFrom, dateTo, today)
  {
    var start, end := WindowStart(dateFrom, today), WindowEnd(dateTo, today);
    TotalStays(t, e, centreId, start, end);
    DailyStays(t, e, centreId, DayOf(start), DayOf(end));
  }

  // Where no job is completed every report is empty.
  lemma NothingCompletedNothingReported(
    t: Tables, centreId: nat, dateFrom: Option<int>, dateTo: Option<int>, today: int)
    requires forall s | 0 <= s < |t.services| :: t.services[s].status != Completed
    ensures RevenueReport(t, centreId, dateFrom, dateTo, today) == Report(0, [])
  {
    ReportIsWindowReport(t, centreId, dateFrom, dateTo, today);
    NothingCounted(t.items);
    assert Counted(t.services, centreId, WindowStart(dateFrom, today), WindowEnd(dateTo, today)) == {};
    EmptyDaily(t, centreId, FirstDay(dateFrom, today), LastDay(dateTo, today));
  }

  lemma {:induction false} EmptyDaily(t: Tables, centreId: nat, first: int, last: int)
    requires forall s | 0 <= s < |t.services| :: t.services[s].status != Completed
    ensures Daily(t, centreId, first, last) == []
    decreases last - first
  {
    if first <= last {
      EmptyDaily(t, centreId, first, last - 1);
      NothingCounted(t.items);
      assert Counted(t.services, centreId, last * DAY, last * DAY + DAY - 1) == {};
    }
  }

  // Each day row counts at least one job.
  lemma {:induction false} DayRowsHaveJobs(t: Tables, centreId: nat, first: int, last: int)
    ensures forall k | 0 <= k < |Daily(t, centreId, first, last)| :: Daily(t, centreId, first, last)[k].services > 0
    decreases last - first
  {
    if first <= last {
      DayRowsHaveJobs(t, centreId, first, last - 1);
      var lines := DayLines(t, centreId, last);
      if lines != [] {
        assert lines[0].serviceId in ServicesIn(lines);
      }
    }
  }

  // What a run earns a centre on some days: the prices of the jobs it completes there and then.
  ghost function Earned(t: Tables, es: seq<Event>, centreId: nat, first: int, last: int): nat {
    if es == [] then 0
    else
      var front, e := es[..|es| - 1], es[|es| - 1];
      var before := Run(t, front);
      Earned(t, front, centreId, first, last)
      + if Completes(before, e) && e.sid < |before.services| && before.services[e.sid].centreId == centreId
           && Within(e.now, first, last)
        then Price(LinesOf(before.items, e.sid)) else 0
  }

  // Over every run a report's total grows by exactly what the run earned in its window.
  lemma {:induction false} TotalGrowsByWhatIsEarned(
    t: Tables, es: seq<Event>, centreId: nat, dateFrom: Option<int>, dateTo: Option<int>, today: int)
    ensures RevenueReport(Run(t, es), centreId, dateFrom, dateTo, today).total
         == RevenueReport(t, centreId, dateFrom, dateTo, today).total
            + Earned(t, es, centreId, FirstDay(dateFrom, today), LastDay(dateTo, today))
  {
    if es != [] {
      var before, e := Run(t, es[..|es| - 1]), es[|es| - 1];
      TotalGrowsByWhatIsEarned(t, es[..|es| - 1], centreId, dateFrom, dateTo, today);
      if Completes(before, e) {
        CompletionEntersTheTotal(before, e, centreId, dateFrom, dateTo, today);
      } else {
        OtherRequestsLeaveReports(before, e, centreId, dateFrom, dateTo, today);
      }
    }
  }

  // ---- the overview ---------------------------------------------------------------------------------

  function InStatus(services: seq<Service>, centreId: nat, status: Status): nat {
    if services == [] then 0
    else
      var last := services[|services| - 1];
      InStatus(services[..|services| - 1], centreId, status)
      + if last.centreId == centreId && last.status == status then 1 else 0
  }

  function AtCentre(services: seq<Service>, centreId: nat): nat {
    if services == [] then 0
    else AtCentre(services[..|services| - 1], centreId) + if services[|services| - 1].centreId == centreId then 1 else 0
  }

  function Live(services: seq<Service>, centreId: nat): nat {
    if services == [] then 0
    else
      var last := services[|services| - 1];
      Live(services[..|services| - 1], centreId)
      + if last.centreId == centreId && last.status !in TERMINAL then 1 else 0
  }

  // What GROUP BY status returns: one row for each status that occurs, in any order.
  ghost predicate IsGrouping(rows: seq<(Status, nat)>, services: seq<Service>, centreId: nat) {
    && (forall i, j | 0 <= i < j < |rows| :: rows[i].0 != rows[j].0)
    && (forall i | 0 <= i < |rows| :: rows[i].1 == InStatus(services, centreId, rows[i].0))
    && (forall s | InStatus(services, centreId, s) > 0 :: exists i | 0 <= i < |rows| :: rows[i].0 == s)
  }

  lemma {:induction false} StatusesPartition(services: seq<Service>, centreId: nat)
    ensures InStatus(services, centreId, Waiting) + InStatus(services, centreId, InProgress)
            + InStatus(services, centreId, Paused) == Live(services, centreId)
    ensures Live(services, centreId) + InStatus(services, centreId, Completed)
            + InStatus(services, centreId, Cancelled) == AtCentre(services, centreId)
  {
    if services != [] {
      StatusesPartition(services[..|services| - 1], centreId);
    }
  }

  function JobsIn(services: seq<Service>, centreId: nat, status: Status): set<nat> {
    set s: nat | s < |services| && services[s].centreId == centreId && services[s].status == status
  }

  lemma JobsGrow(services: seq<Service>, last: Service, centreId: nat, status: Status)
    ensures JobsIn(services + [last], centreId, status)
         == JobsIn(services, centreId, status)
            + if last.centreId == centreId && last.status == status then {|services|} else {}
  {}

  // A status count is the number of the centre's jobs in that status.
  lemma {:induction false} InStatusCounts(services: seq<Service>, centreId: nat, status: Status)
    ensures InStatus(services, centreId, status) == |JobsIn(services, centreId, status)|
  {
    if services == [] {
      assert JobsIn(services, centreId, status) == {};
    } else {
      var front, last := services[..|services| - 1], services[|services| - 1];
      InStatusCounts(front, centreId, status);
      JobsGrow(front, last, centreId, status);
      assert front + [last] == services;
    }
  }

  // The queue is every live job of the centre, and the five counts cover its jobs exactly.
  method Overview(rows: seq<(Status, nat)>, ghost services: seq<Service>, ghost centreId: nat)
    returns (byStatus: map<Status, nat>, queue: nat)
    requires IsGrouping(rows, services, centreId)
    ensures byStatus.Keys == {Waiting, InProgress, Paused, Completed, Cancelled}
    ensures forall s <- byStatus.Keys :: byStatus[s] == InStatus(services, centreId, s)
    ensures queue == Live(services, centreId)
    ensures queue + byStatus[Completed] + byStatus[Cancelled] == AtCentre(services, centreId)
  {
    byStatus := map[Waiting := 0, InProgress := 0, Paused := 0, Completed := 0, Cancelled := 0];
    forall s: Status ensures s in byStatus {
      match s { case Waiting => case InProgress => case Paused => case Completed => case Cancelled => }
    }
    for i := 0 to |rows|
      invariant forall s: Status :: s in byStatus
      invariant byStatus.Keys == {Waiting, InProgress, Paused, Completed, Cancelled}
      invariant forall j | 0 <= j < i :: byStatus[rows[j].0] == rows[j].1
      invariant forall s <- byStatus.Keys :: (forall j | 0 <= j < i :: rows[j].0 != s) ==> byStatus[s] == 0
    {
      byStatus := byStatus[rows[i].0 := rows[i].1];
    }
    queue := byStatus[Waiting] + byStatus[InProgress] + byStatus[Paused];
    StatusesPartition(services, centreId);
  }
}

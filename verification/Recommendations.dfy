// Mileage-based maintenance recommendations over the interval table.
module Recommendations {
  import opened Common
  import opened Sorting

  datatype Interval = Interval(serviceType: string, km: nat, reasonDue: string, reasonUpcoming: string)
  datatype Priority = Due | Upcoming | Optional
  datatype Item = Item(serviceType: string, reason: string, priority: Priority, km: nat, nextDue: nat)

  const INTERVALS: seq<Interval> := [
    Interval("oil_change", 10_000, "Oil change is overdue", "Oil change is approaching"),
    Interval("air_filter", 20_000, "Air filter replacement is due", "Air filter soon"),
    Interval("cabin_filter", 20_000, "Cabin filter is due", "Cabin filter soon"),
    Interval("fuel_filter", 30_000, "Fuel filter replacement is due", "Fuel filter soon"),
    Interval("brake_pads", 30_000, "Brake pads inspection is due", "Brake pad inspection soon"),
    Interval("spark_plugs", 40_000, "Spark plugs should be replaced", "Spark plugs approaching"),
    Interval("transmission", 60_000, "Transmission service is due", "Transmission service soon"),
    Interval("timing_belt", 90_000, "Timing belt replacement is due", "Timing belt approaching"),
    Interval("coolant", 60_000, "Coolant flush is due", "Coolant flush soon"),
    Interval("wheel_alignment", 15_000, "Wheel alignment is due", "Wheel alignment soon")
  ]

  const UPCOMING_WINDOW_KM := 1_500

  lemma EveryIntervalIsPositive()
    ensures forall i | 0 <= i < |INTERVALS| :: INTERVALS[i].km > 0
  {
    assert |INTERVALS| == 10;
  }

  // `f"{n:,}"`
  function Grouped(n: nat): string {
    if n < 1000 then Decimal(n)
    else
      var low := n % 1000;
      Grouped(n / 1000) + "," + Padded(low)
  }

  predicate IsComma(c: char) {
    c == ','
  }

  function WithoutCommas(s: string): string {
    if s == [] then []
    else WithoutCommas(s[..|s| - 1]) + if IsComma(s[|s| - 1]) then [] else [s[|s| - 1]]
  }

  lemma {:induction false} WithoutCommasConcat(a: string, b: string)
    ensures WithoutCommas(a + b) == WithoutCommas(a) + WithoutCommas(b)
  {
    if b == [] {
      assert a + b == a;
    } else {
      assert (a + b)[..|a + b| - 1] == a + b[..|b| - 1];
      WithoutCommasConcat(a, b[..|b| - 1]);
    }
  }

  lemma {:induction false} NoCommasToDrop(s: string)
    requires forall c <- s :: !IsComma(c)
    ensures WithoutCommas(s) == s
  {
    if s != [] {
      NoCommasToDrop(s[..|s| - 1]);
      assert s == s[..|s| - 1] + [s[|s| - 1]];
    }
  }

  function Digit(n: nat): char {
    ('0' as int + n % 10) as char
  }

  // The last three digits, zeros included.
  function Padded(low: nat): string
    requires low < 1000
  {
    (if low < 10 then "00" else if low < 100 then "0" else "") + Decimal(low)
  }

  lemma DecimalGrows(n: nat)
    requires n >= 10
    ensures Decimal(n) == Decimal(n / 10) + [Digit(n)]
  {}

  lemma PaddedIsThreeDigits(low: nat)
    requires low < 1000
    ensures Padded(low) == [Digit(low / 100), Digit(low / 10), Digit(low)]
  {
    if low >= 10 {
      DecimalGrows(low);
      if low >= 100 {
        DecimalGrows(low / 10);
      }
    }
  }

  // Whole thousands do not show in the last three digits.
  lemma SameLastDigits(high: nat, low: nat)
    ensures (high * 1000 + low) % 10 == low % 10
    ensures (high * 1000 + low) / 10 == high * 100 + low / 10
    ensures (high * 100 + low / 10) % 10 == low / 10 % 10
    ensures (high * 1000 + low) / 100 == high * 10 + low / 100
    ensures (high * 10 + low / 100) % 10 == low / 100 % 10
  {}

  lemma DigitsOfTheRest(n: nat)
    ensures Digit(n % 1000) == Digit(n) && Digit(n % 1000 / 10) == Digit(n / 10)
    ensures Digit(n % 1000 / 100) == Digit(n / 100)
  {
    SameLastDigits(n / 1000, n % 1000);
    assert n == n / 1000 * 1000 + n % 1000;
  }

  lemma DecimalByThousands(n: nat)
    requires n >= 1000
    ensures Decimal(n) == Decimal(n / 1000) + Padded(n % 1000)
  {
    DecimalGrows(n);
    DecimalGrows(n / 10);
    DecimalGrows(n / 100);
    PaddedIsThreeDigits(n % 1000);
    DigitsOfTheRest(n);
    assert n / 10 / 10 == n / 100 && n / 100 / 10 == n / 1000;
    assert Decimal(n / 1000) + [Digit(n / 100)] + [Digit(n / 10)] + [Digit(n)]
        == Decimal(n / 1000) + [Digit(n / 100), Digit(n / 10), Digit(n)];
  }

  // A comma at every fourth place from the right, and nowhere else.
  ghost predicate CommasInPlace(s: string) {
    forall k | 0 <= k < |s| :: s[|s| - 1 - k] == ',' <==> k % 4 == 3
  }

  lemma CommasGrow(high: string, low: string)
    requires CommasInPlace(high) && |low| == 3 && forall c <- low :: c != ','
    ensures CommasInPlace(high + "," + low)
  {
    var s := high + "," + low;
    forall k | 0 <= k < |s| ensures s[|s| - 1 - k] == ',' <==> k % 4 == 3 {
      if k >= 4 {
        assert s[|s| - 1 - k] == high[|high| - 1 - (k - 4)];
        assert k % 4 == (k - 4) % 4;
      } else if k < 3 {
        assert s[|s| - 1 - k] == low[2 - k] && low[2 - k] in low;
      } else {
        assert s[|s| - 1 - k] == s[|high|];
      }
    }
  }

  lemma CommaDrops(high: string, low: string)
    requires forall c <- low :: c != ','
    ensures WithoutCommas(high + "," + low) == WithoutCommas(high) + low
  {
    WithoutCommasConcat(high + ",", low);
    WithoutCommasConcat(high, ",");
    NoCommasToDrop(low);
    assert WithoutCommas(","[..0]) == [] && WithoutCommas(",") == [];
    assert WithoutCommas(high) + [] == WithoutCommas(high);
  }

  lemma ShortIsInPlace(s: string)
    requires |s| <= 3 && forall c <- s :: c != ','
    ensures CommasInPlace(s)
  {
    forall i | 0 <= i < |s| ensures s[i] != ',' {
      assert s[i] in s;
    }
  }

  lemma GroupedShort(n: nat)
    requires n < 1000
    ensures WithoutCommas(Grouped(n)) == Decimal(n) && CommasInPlace(Grouped(n))
  {
    var s := Decimal(n);
    NoCommasToDrop(s);
    AtMostThreeDigits(n);
    ShortIsInPlace(s);
    assert Grouped(n) == s;
  }

  // The grouped number is the number, with a comma after every three digits from the right.
  lemma {:induction false} GroupedIsExact(n: nat)
    ensures WithoutCommas(Grouped(n)) == Decimal(n) && CommasInPlace(Grouped(n))
  {
    if n < 1000 {
      GroupedShort(n);
    } else {
      var high, low := Grouped(n / 1000), Padded(n % 1000);
      GroupedIsExact(n / 1000);
      assert Grouped(n) == high + "," + low;
      PaddedIsThreeDigits(n % 1000);
      CommasGrow(high, low);
      CommaDrops(high, low);
      DecimalByThousands(n);
    }
  }

  lemma AtMostThreeDigits(n: nat)
    requires n < 1000
    ensures |Decimal(n)| <= 3
  {
    if n >= 100 {
      DecimalGrows(n);
      DecimalGrows(n / 10);
    }
  }

  // ---- what an item means ------------------------------------------------------------------------------

  // The least multiple of the interval above the mileage.
  ghost predicate IsNextMilestone(next: nat, km: nat, m: nat)
    requires km > 0
  {
    next % km == 0 && m < next && forall k: nat | k % km == 0 && m < k :: next <= k
  }

  // At a milestone: a positive multiple of the interval.
  predicate AtMilestone(m: nat, km: nat)
    requires km > 0
  {
    m > 0 && m % km == 0
  }

  ghost predicate Describes(item: Item, itv: Interval, m: nat)
    requires itv.km > 0
  {
    && item.serviceType == itv.serviceType && item.km == itv.km
    && IsNextMilestone(item.nextDue, itv.km, m)
    && (item.priority == Due <==> AtMilestone(m, itv.km))
    && (item.priority == Upcoming <==> !AtMilestone(m, itv.km) && item.nextDue <= m + UPCOMING_WINDOW_KM)
    && item.reason == match item.priority
                      case Due => itv.reasonDue
                      case Upcoming => itv.reasonUpcoming
                      case Optional => "Next " + itv.serviceType + " at " + Grouped(item.nextDue) + " km"
  }

  // `max(0, int(mileage or 0))`
  function Clamped(mileage: Option<int>): nat {
    if mileage.Some? && mileage.value > 0 then mileage.value else 0
  }

  function Rank(item: Item): nat {
    match item.priority
    case Due => 0
    case Upcoming => 1
    case Optional => 2
  }

  predicate NoLater(a: Item, b: Item) {
    Rank(a) <= Rank(b)
  }

  function Bucket(items: seq<Item>, p: Priority): seq<Item> {
    if items == [] then []
    else
      var last := items[|items| - 1];
      Bucket(items[..|items| - 1], p) + if last.priority == p then [last] else []
  }

  function Buckets(items: seq<Item>): seq<Item> {
    Bucket(items, Due) + Bucket(items, Upcoming) + Bucket(items, Optional)
  }

  // ---- arithmetic ------------------------------------------------------------------------------------------

  lemma MilestoneAhead(m: nat, km: nat)
    requires km > 0
    ensures m < (m / km + 1) * km && m - (m / km) * km == m % km
  {
    DivisionBounds(m, km);
  }

  lemma NextMultiple(m: nat, km: nat)
    requires km > 0
    ensures IsNextMilestone((m / km + 1) * km, km, m)
    ensures m - (m / km) * km == m % km
  {
    var next := (m / km + 1) * km;
    DivisionBounds(m, km);
    MultipleOf(m / km + 1, km);
    forall k: nat | k % km == 0 && m < k ensures next <= k {
      assert k == (k / km) * km;
      if k / km <= m / km {
        MulMonotone(k / km, m / km, km);
      } else {
        MulMonotone(m / km + 1, k / km, km);
      }
    }
  }

  lemma MultipleOf(q: nat, km: nat)
    requires km > 0
    ensures (q * km) % km == 0 && (q * km) / km == q
  {
    var a := q * km;
    DivisionBounds(a, km);
    if a / km < q {
      MulMonotone(a / km + 1, q, km);
    } else if q < a / km {
      MulMonotone(q + 1, a / km, km);
    }
    assert a == (a / km) * km + a % km;
  }

  // ---- the stable bucket sort -----------------------------------------------------------------------------------

  ghost predicate AllOf(items: seq<Item>, p: Priority) {
    forall i | 0 <= i < |items| :: items[i].priority == p
  }

  lemma {:induction false} BucketIsPure(items: seq<Item>, p: Priority)
    ensures AllOf(Bucket(items, p), p)
  {
    if items != [] {
      BucketIsPure(items[..|items| - 1], p);
    }
  }

  // Inserting after a run that stays in front of `x`, before a run that does not.
  lemma {:induction false} InsertBetween(x: Item, a: seq<Item>, b: seq<Item>)
    requires a == [] || NoLater(a[|a| - 1], x)
    requires forall i | 0 <= i < |b| :: !NoLater(b[i], x)
    ensures Insert(NoLater, x, a + b) == a + [x] + b
  {
    if b == [] {
      assert a + b == a && a + [x] + b == a + [x];
    } else {
      var front := b[..|b| - 1];
      assert (a + b)[..|a + b| - 1] == a + front;
      InsertBetween(x, a, front);
      assert a + [x] + front + [b[|b| - 1]] == a + [x] + b;
    }
  }

  lemma BucketGrows(items: seq<Item>, x: Item, p: Priority)
    ensures Bucket(items + [x], p) == if x.priority == p then Bucket(items, p) + [x] else Bucket(items, p)
  {
    assert (items + [x])[..|items + [x]| - 1] == items;
  }

  lemma InsertDue(x: Item, a: seq<Item>, rest: seq<Item>)
    requires x.priority == Due && AllOf(a, Due) && forall i | 0 <= i < |rest| :: rest[i].priority != Due
    ensures Insert(NoLater, x, a + rest) == a + [x] + rest
  {
    InsertBetween(x, a, rest);
  }

  lemma InsertUpcoming(x: Item, front: seq<Item>, c: seq<Item>)
    requires x.priority == Upcoming && AllOf(c, Optional) && forall i | 0 <= i < |front| :: front[i].priority != Optional
    ensures Insert(NoLater, x, front + c) == front + [x] + c
  {
    InsertBetween(x, front, c);
  }

  lemma Regroup<T>(a: seq<T>, b: seq<T>, c: seq<T>)
    ensures a + (b + c) == a + b + c
  {}

  lemma InsertIntoBuckets(x: Item, a: seq<Item>, b: seq<Item>, c: seq<Item>)
    requires AllOf(a, Due) && AllOf(b, Upcoming) && AllOf(c, Optional)
    ensures x.priority == Due ==> Insert(NoLater, x, a + b + c) == (a + [x]) + b + c
    ensures x.priority == Upcoming ==> Insert(NoLater, x, a + b + c) == a + (b + [x]) + c
    ensures x.priority == Optional ==> Insert(NoLater, x, a + b + c) == a + b + (c + [x])
  {
    match x.priority {
      case Due =>
        Regroup(a, b, c);
        InsertDue(x, a, b + c);
        Regroup(a + [x], b, c);
      case Upcoming =>
        InsertUpcoming(x, a + b, c);
        Regroup(a, b, [x]);
      case Optional =>
        InsertAtEnd(x, a + b + c);
        Regroup(a + b, c, [x]);
    }
  }

  lemma InsertAtEnd(x: Item, s: seq<Item>)
    requires x.priority == Optional
    ensures Insert(NoLater, x, s) == s + [x]
  {}

  // Sorting by priority keeps table order within each bucket.
  lemma {:induction false} SortMakesBuckets(items: seq<Item>)
    ensures Sort(NoLater, items) == Buckets(items)
  {
    if items != [] {
      var front, x := items[..|items| - 1], items[|items| - 1];
      assert items == front + [x];
      SortMakesBuckets(front);
      BucketIsPure(front, Due);
      BucketIsPure(front, Upcoming);
      BucketIsPure(front, Optional);
      InsertIntoBuckets(x, Bucket(front, Due), Bucket(front, Upcoming), Bucket(front, Optional));
      BucketGrows(front, x, Due);
      BucketGrows(front, x, Upcoming);
      BucketGrows(front, x, Optional);
    }
  }

  // ---- compute ------------------------------------------------------------------------------------------------------

  // The branch the loop takes for one entry.
  function PriorityOf(itv: Interval, m: nat): Priority
    requires itv.km > 0
  {
    var next := (m / itv.km + 1) * itv.km;
    if m >= itv.km && m % itv.km == 0 then Due
    else if next - m <= UPCOMING_WINDOW_KM then Upcoming
    else Optional
  }

  function ItemFor(itv: Interval, m: nat): Item
    requires itv.km > 0
  {
    var next := (m / itv.km + 1) * itv.km;
    MilestoneAhead(m, itv.km);
    var priority := PriorityOf(itv, m);
    var reason := match priority
      case Due => itv.reasonDue
      case Upcoming => itv.reasonUpcoming
      case Optional => "Next " + itv.serviceType + " at " + Grouped(next) + " km";
    Item(itv.serviceType, reason, priority, itv.km, next)
  }

  function TableItems(itvs: seq<Interval>, m: nat): seq<Item>
    requires forall i | 0 <= i < |itvs| :: itvs[i].km > 0
  {
    seq(|itvs|, i requires 0 <= i < |itvs| => ItemFor(itvs[i], m))
  }

  // The loop body for one table entry.
  method Assess(itv: Interval, m: nat) returns (item: Item)
    requires itv.km > 0
    ensures item == ItemFor(itv, m)
  {
    var elapsed := m / itv.km;
    var nextDue := (elapsed + 1) * itv.km;
    var delta := nextDue - m;
    MilestoneAhead(m, itv.km);
    var priority, reason;
    if m >= itv.km && m - elapsed * itv.km == 0 {
      priority, reason := Due, itv.reasonDue;
    } else if delta <= 0 {
      // A milestone always lies strictly ahead: this branch is never taken.
      assert false;
    } else if delta <= UPCOMING_WINDOW_KM {
      priority, reason := Upcoming, itv.reasonUpcoming;
    } else {
      priority, reason := Optional, "Next " + itv.serviceType + " at " + Grouped(nextDue) + " km";
    }
    item := Item(itv.serviceType, reason, priority, itv.km, nextDue);
  }

  lemma TableItemsGrow(itvs: seq<Interval>, m: nat, i: nat)
    requires i < |itvs| && forall j | 0 <= j < |itvs| :: itvs[j].km > 0
    ensures TableItems(itvs[..i + 1], m) == TableItems(itvs[..i], m) + [ItemFor(itvs[i], m)]
  {}

  method ComputeOver(itvs: seq<Interval>, mileage: Option<int>) returns (out: seq<Item>)
    requires forall i | 0 <= i < |itvs| :: itvs[i].km > 0
    ensures out == Buckets(TableItems(itvs, Clamped(mileage)))
  {
    var m := if mileage.Some? then Max(0, mileage.value) else 0;
    out := [];
    for i := 0 to |itvs|
      invariant out == TableItems(itvs[..i], m)
    {
      var item := Assess(itvs[i], m);
      TableItemsGrow(itvs, m, i);
      out := out + [item];
    }
    assert itvs[..|itvs|] == itvs;
    SortMakesBuckets(out);
    out := Sort(NoLater, out);
  }

  method Compute(mileage: Option<int>) returns (out: seq<Item>)
    ensures forall i | 0 <= i < |INTERVALS| :: INTERVALS[i].km > 0
    ensures out == Buckets(TableItems(INTERVALS, Clamped(mileage)))
  {
    EveryIntervalIsPositive();
    out := ComputeOver(INTERVALS, mileage);
  }

  // Every item says what its words mean: the next milestone is the least one ahead, and "due" is
  // said exactly at a positive multiple of the interval.
  lemma ItemForDescribes(itv: Interval, m: nat)
    requires itv.km > 0
    ensures Describes(ItemFor(itv, m), itv, m)
  {
    NextMultiple(m, itv.km);
    if m % itv.km == 0 && m > 0 {
      assert m == (m / itv.km) * itv.km;
      if m / itv.km >= 1 {
        MulMonotone(1, m / itv.km, itv.km);
      }
    }
  }

  // The documentation calls an item due when its next mark is at or before the mileage. The mark
  // always lies ahead, so that agrees with what is answered exactly away from the milestones.
  lemma DueAsDocumentedExactlyWhen(itv: Interval, m: nat)
    requires itv.km > 0
    ensures var item := ItemFor(itv, m);
            (item.priority == Due <==> item.nextDue <= m) <==> !AtMilestone(m, itv.km)
  {
    ItemForDescribes(itv, m);
  }

  // The answer is a permutation of the table's items, each bucket in table order.
  lemma BucketsPermute(items: seq<Item>)
    ensures multiset(Buckets(items)) == multiset(items)
  {
    SortMakesBuckets(items);
    SortKeepsElements(NoLater, items);
  }

  // The bucket of a priority lists exactly the items that have it.
  lemma {:induction false} BucketIsExact(items: seq<Item>, p: Priority)
    ensures multiset(Bucket(items, p)) <= multiset(items)
    ensures forall x :: x in Bucket(items, p) <==> x in items && x.priority == p
  {
    if items != [] {
      BucketIsExact(items[..|items| - 1], p);
      assert items == items[..|items| - 1] + [items[|items| - 1]];
    }
  }

  // The mileage that counts: the one given, or none for a missing or negative one.
  ghost predicate CountsAs(mileage: Option<int>, m: nat) {
    mileage == Some(m) || (m == 0 && (mileage.None? || mileage.value < 0))
  }

  // For every mileage the answer `Compute` gives is made of one rightly described item per entry.
  lemma RecommendationsAreRight(mileage: Option<int>, m: nat)
    requires CountsAs(mileage, m)
    ensures forall i | 0 <= i < |INTERVALS| :: INTERVALS[i].km > 0
    ensures var items := TableItems(INTERVALS, Clamped(mileage));
            && |items| == |INTERVALS|
            && (forall i | 0 <= i < |items| :: Describes(items[i], INTERVALS[i], m))
            && multiset(Buckets(items)) == multiset(items)
  {
    EveryIntervalIsPositive();
    DescribedItems(INTERVALS, m);
    BucketsPermute(TableItems(INTERVALS, m));
  }

  lemma DescribedItems(itvs: seq<Interval>, m: nat)
    requires forall i | 0 <= i < |itvs| :: itvs[i].km > 0
    ensures |TableItems(itvs, m)| == |itvs|
    ensures forall i | 0 <= i < |itvs| :: Describes(TableItems(itvs, m)[i], itvs[i], m)
  {
    forall i | 0 <= i < |itvs| ensures Describes(TableItems(itvs, m)[i], itvs[i], m) {
      ItemForDescribes(itvs[i], m);
    }
  }
}

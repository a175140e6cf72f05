// Cars with their mileage readings, and service jobs with their items and transition log.
//
// Row ids are positions in their tables. Role checks, mechanic lookups and the plate and VIN
// checks are opaque flags on each request; a refused request changes nothing.
module Workshop {
  import opened Common
  import opened StateMachine

  datatype Source = ByUser | ByService
  datatype Car = Car(ownerId: nat, mileage: int)
  datatype Reading = Reading(carId: nat, value: int, source: Source)

  datatype Service = Service(
    carId: nat,
    centreId: nat,
    mechanicId: Option<nat>,
    status: Status,
    mileageAtIntake: int,
    nextRecommended: Option<int>,
    notes: Option<string>,
    createdAt: int,
    startedAt: Option<int>,
    pausedAt: Option<int>,
    pausedElapsed: int,
    completedAt: Option<int>,
    cancelledAt: Option<int>,
    cancelReason: Option<string>,
    pauseReason: Option<string>)

  // Prices are non-negative by the request schema.
  datatype ItemIn = ItemIn(serviceType: string, servicePrice: nat, partsPrice: nat)
  datatype Item = Item(serviceId: nat, line: ItemIn)

  datatype LogRow = LogRow(
    serviceId: nat, fromStatus: Option<Status>, toStatus: Status, byUser: nat, reason: Option<string>)

  datatype Tables = Tables(
    cars: seq<Car>,
    readings: seq<Reading>,
    services: seq<Service>,
    items: seq<Item>,
    log: seq<LogRow>)

  datatype IntakeForm = IntakeForm(
    centreId: nat,
    userId: nat,
    carId: nat,
    mileage: int,
    mechanicId: Option<nat>,
    nextRecommended: Option<int>,
    notes: Option<string>,
    items: seq<ItemIn>)

  // A missing field is None; `mechanicId` may be set to null, hence the nesting.
  datatype PatchForm = PatchForm(
    mechanicId: Option<Option<nat>>,
    nextRecommended: Option<int>,
    notes: Option<string>,
    items: Option<seq<ItemIn>>)

  datatype Answer =
    | Done(id: nat)
    | NotFound
    | Forbidden
    | Duplicate
    | MileageDecrease
    | MileageRegression
    | MechanicInvalid
    | TerminalLocked
    | Refused(verdict: Verdict)

  // ---- specification: cars -----------------------------------------------------

  function CreateCar(t: Tables, ownerId: nat, mileage: int, unique: bool): (Tables, Answer) {
    if !unique then (t, Duplicate)
    else
      var id := |t.cars|;
      (t.(cars := t.cars + [Car(ownerId, mileage)],
          readings := if mileage > 0 then t.readings + [Reading(id, mileage, ByUser)] else t.readings), Done(id))
  }

  // Whether the session shows the new mileage on the row it already held when the reading is
  // decided is left open: `refreshed` is either.
  function PatchCar(t: Tables, carId: nat, userId: nat, mileage: Option<int>, unique: bool, refreshed: bool)
    : (Tables, Answer)
  {
    if carId >= |t.cars| then (t, NotFound)
    else if t.cars[carId].ownerId != userId then (t, Forbidden)
    else if !unique then (t, Duplicate)
    else if mileage.None? then (t, Done(carId))
    else if mileage.value < t.cars[carId].mileage then (t, MileageDecrease)
    else
      (t.(cars := t.cars[carId := t.cars[carId].(mileage := mileage.value)],
          readings := if !refreshed && mileage.value != t.cars[carId].mileage
                      then t.readings + [Reading(carId, mileage.value, ByUser)] else t.readings), Done(carId))
  }

  function RecordMileage(t: Tables, carId: nat, userId: nat, value: int): (Tables, Answer) {
    if carId >= |t.cars| then (t, NotFound)
    else if t.cars[carId].ownerId != userId then (t, Forbidden)
    else if value < t.cars[carId].mileage then (t, MileageDecrease)
    else if value == t.cars[carId].mileage then (t, Done(carId))
    else
      (t.(cars := t.cars[carId := t.cars[carId].(mileage := value)],
          readings := t.readings + [Reading(carId, value, ByUser)]), Done(carId))
  }

  // ---- specification: services ---------------------------------------------------

  function OtherItems(items: seq<Item>, serviceId: nat): seq<Item> {
    if items == [] then []
    else
      var last := items[|items| - 1];
      OtherItems(items[..|items| - 1], serviceId) + if last.serviceId == serviceId then [] else [last]
  }

  function NewItems(serviceId: nat, lines: seq<ItemIn>): seq<Item> {
    seq(|lines|, i requires 0 <= i < |lines| => Item(serviceId, lines[i]))
  }

  function ReplaceItems(items: seq<Item>, serviceId: nat, lines: seq<ItemIn>): seq<Item> {
    OtherItems(items, serviceId) + NewItems(serviceId, lines)
  }

  function OpenedService(form: IntakeForm, now: int): Service {
    Service(form.carId, form.centreId, form.mechanicId, Waiting, form.mileage, form.nextRecommended,
            form.notes, now, None, None, 0, None, None, None, None)
  }

  function Intake(t: Tables, form: IntakeForm, access: bool, mechanicOk: bool, now: int): (Tables, Answer) {
    if !access then (t, Forbidden)
    else if form.carId >= |t.cars| then (t, NotFound)
    else if form.mileage < t.cars[form.carId].mileage then (t, MileageRegression)
    else if !mechanicOk then (t, MechanicInvalid)
    else
      var id, car := |t.services|, t.cars[form.carId];
      (Tables(
         t.cars[form.carId := car.(mileage := form.mileage)],
         if form.mileage > car.mileage then t.readings + [Reading(form.carId, form.mileage, ByService)] else t.readings,
         t.services + [OpenedService(form, now)],
         if form.items == [] then t.items else ReplaceItems(t.items, id, form.items),
         t.log + [LogRow(id, None, Waiting, form.userId, None)]), Done(id))
  }

  function Patched(s: Service, form: PatchForm): Service {
    s.(mechanicId := if form.mechanicId.Some? then form.mechanicId.value else s.mechanicId,
    nextRecommended := if form.nextRecommended.Some? then form.nextRecommended else s.nextRecommended,
    notes := if form.notes.Some? then form.notes else s.notes)
  }

  function PatchService(t: Tables, sid: nat, form: PatchForm, access: bool, mechanicOk: bool): (Tables, Answer) {
    if sid >= |t.services| then (t, NotFound)
    else if !access then (t, Forbidden)
    else if t.services[sid].status in TERMINAL then (t, TerminalLocked)
    else if form.mechanicId.Some? && !mechanicOk then (t, MechanicInvalid)
    else
      (t.(services := t.services[sid := Patched(t.services[sid], form)],
          items := if form.items.Some? then ReplaceItems(t.items, sid, form.items.value) else t.items), Done(sid))
  }

  // The row after an accepted transition, column by column.
  function Moved(s: Service, to: Status, reason: Option<string>, now: int): Service {
    var closes := s.status == Paused && s.pausedAt.Some? && (to == InProgress || to == Completed);
    s.(status := to,
    startedAt := if to == InProgress && s.status == Waiting && s.startedAt.None? then Some(now) else s.startedAt,
    pausedAt := if to == Paused then Some(now) else if closes then None else s.pausedAt,
    pausedElapsed := s.pausedElapsed + if closes then Max(0, WholeSeconds(now - s.pausedAt.value)) else 0,
    pauseReason := if to != Paused then s.pauseReason
                   else if Stripped(reason) == "" then None else Some(Stripped(reason)),
    completedAt := if to == Completed then Some(now) else s.completedAt,
    cancelledAt := if to == Cancelled then Some(now) else s.cancelledAt,
    cancelReason := if to == Cancelled then Some(Stripped(reason)) else s.cancelReason)
  }

  function Transition(t: Tables, sid: nat, userId: nat, access: bool, to: Status, reason: Option<string>, now: int)
    : (Tables, Answer)
  {
    if sid >= |t.services| then (t, NotFound)
    else if !access then (t, Forbidden)
    else
      var s := t.services[sid];
      var verdict := Validate(s.status, to, reason);
      if verdict != Accepted then (t, Refused(verdict))
      else
        (t.(services := t.services[sid := Moved(s, to, reason, now)],
            log := t.log + [LogRow(sid, Some(s.status), to, userId, reason)]), Done(sid))
  }

  // ---- the store -------------------------------------------------------------------

  class WorkshopDb {
    var cars: seq<Car>
    var readings: seq<Reading>
    var services: seq<Service>
    var items: seq<Item>
    var log: seq<LogRow>

    ghost function View(): Tables
      reads this
    {
      Tables(cars, readings, services, items, log)
    }

    method AppendReading(carId: nat, value: int, source: Source)
      modifies this`readings
      ensures readings == old(readings) + [Reading(carId, value, source)]
    {
      readings := readings + [Reading(carId, value, source)];
    }

    method SetMileage(carId: nat, value: int)
      requires carId < |cars|
      modifies this`cars
      ensures cars == old(cars)[carId := old(cars)[carId].(mileage := value)]
    {
      cars := cars[carId := cars[carId].(mileage := value)];
    }

    method DoCreateCar(ownerId: nat, mileage: int, unique: bool) returns (answer: Answer)
      modifies this
      ensures (View(), answer) == CreateCar(old(View()), ownerId, mileage, unique)
    {
      if !unique {
        return Duplicate;
      }
      cars := cars + [Car(ownerId, mileage)];
      if mileage > 0 {
        AppendReading(|cars| - 1, mileage, ByUser);
      }
      return Done(|cars| - 1);
    }

    method DoPatchCar(carId: nat, userId: nat, mileage: Option<int>, unique: bool, refreshed: bool)
      returns (answer: Answer)
      modifies this
      ensures (View(), answer) == PatchCar(old(View()), carId, userId, mileage, unique, refreshed)
    {
      if carId >= |cars| {
        return NotFound;
      }
      var held := cars[carId];
      if held.ownerId != userId {
        return Forbidden;
      }
      if !unique {
        return Duplicate;
      }
      if mileage.Some? && mileage.value < held.mileage {
        return MileageDecrease;
      }
      if mileage.Some? {
        SetMileage(carId, mileage.value);
      }
      if refreshed {
        held := cars[carId];
      }
      if mileage.Some? && mileage.value != held.mileage {
        AppendReading(carId, mileage.value, ByUser);
      }
      return Done(carId);
    }

    method DoRecordMileage(carId: nat, userId: nat, value: int) returns (answer: Answer)
      modifies this
      ensures (View(), answer) == RecordMileage(old(View()), carId, userId, value)
    {
      if carId >= |cars| {
        return NotFound;
      }
      if cars[carId].ownerId != userId {
        return Forbidden;
      }
      if value < cars[carId].mileage {
        return MileageDecrease;
      }
      if value == cars[carId].mileage {
        return Done(carId);
      }
      SetMileage(carId, value);
      AppendReading(carId, value, ByUser);
      return Done(carId);
    }

    method DoReplaceItems(sid: nat, lines: seq<ItemIn>)
      modifies this`items
      ensures items == ReplaceItems(old(items), sid, lines)
    {
      items := OtherItems(items, sid);
      for i := 0 to |lines|
        invariant items == OtherItems(old(items), sid) + NewItems(sid, lines[..i])
      {
        assert NewItems(sid, lines[..i + 1]) == NewItems(sid, lines[..i]) + [Item(sid, lines[i])];
        items := items + [Item(sid, lines[i])];
      }
      assert lines[..|lines|] == lines;
    }

    method AddTransition(sid: nat, from: Option<Status>, to: Status, byUser: nat, reason: Option<string>)
      modifies this`log
      ensures log == old(log) + [LogRow(sid, from, to, byUser, reason)]
    {
      log := log + [LogRow(sid, from, to, byUser, reason)];
    }

    method DoIntake(form: IntakeForm, access: bool, mechanicOk: bool, now: int) returns (answer: Answer)
      modifies this
      ensures (View(), answer) == Intake(old(View()), form, access, mechanicOk, now)
    {
      if !access {
        return Forbidden;
      }
      if form.carId >= |cars| {
        return NotFound;
      }
      var car := cars[form.carId];
      if form.mileage < car.mileage {
        return MileageRegression;
      }
      if !mechanicOk {
        return MechanicInvalid;
      }
      var sid := |services|;
      services := services + [
        Service(form.carId, form.centreId, form.mechanicId, Waiting, form.mileage, form.nextRecommended,
                form.notes, now, None, None, 0, None, None, None, None)];
      if form.items != [] {
        DoReplaceItems(sid, form.items);
      }
      AddTransition(sid, None, Waiting, form.userId, None);
      if form.mileage > car.mileage {
        SetMileage(form.carId, form.mileage);
        AppendReading(form.carId, form.mileage, ByService);
      }
      assert cars == old(cars)[form.carId := car.(mileage := form.mileage)];
      return Done(sid);
    }

    method DoPatchService(sid: nat, form: PatchForm, access: bool, mechanicOk: bool) returns (answer: Answer)
      modifies this
      ensures (View(), answer) == PatchService(old(View()), sid, form, access, mechanicOk)
    {
      if sid >= |services| {
        return NotFound;
      }
      if !access {
        return Forbidden;
      }
      var s := services[sid];
      if s.status in TERMINAL {
        return TerminalLocked;
      }
      if form.mechanicId.Some? {
        if !mechanicOk {
          return MechanicInvalid;
        }
        s := s.(mechanicId := form.mechanicId.value);
      }
      if form.nextRecommended.Some? {
        s := s.(nextRecommended := form.nextRecommended);
      }
      if form.notes.Some? {
        s := s.(notes := form.notes);
      }
      services := services[sid := s];
      if form.items.Some? {
        DoReplaceItems(sid, form.items.value);
      }
      return Done(sid);
    }

    method DoTransition(sid: nat, userId: nat, access: bool, to: Status, reason: Option<string>, now: int)
      returns (answer: Answer)
      modifies this
      ensures (View(), answer) == Transition(old(View()), sid, userId, access, to, reason, now)
    {
      if sid >= |services| {
        return NotFound;
      }
      if !access {
        return Forbidden;
      }
      var s := services[sid];
      var verdict := Validate(s.status, to, reason);
      if verdict != Accepted {
        return Refused(verdict);
      }
      var fields := s.(status := to);
      if to == InProgress {
        if s.status == Waiting {
          fields := fields.(startedAt := if s.startedAt.Some? then s.startedAt else Some(now));
        }
        if s.status == Paused && s.pausedAt.Some? {
          var elapsed := WholeSeconds(now - s.pausedAt.value);
          if elapsed > 0 {
            fields := fields.(pausedElapsed := s.pausedElapsed + elapsed);
          }
          fields := fields.(pausedAt := None);
        }
      } else if to == Paused {
        fields := fields.(pausedAt := Some(now));
        var text := Stripped(reason);
        fields := fields.(pauseReason := if text == "" then None else Some(text));
      } else if to == Completed {
        if s.status == Paused && s.pausedAt.Some? {
          var elapsed := WholeSeconds(now - s.pausedAt.value);
          if elapsed > 0 {
            fields := fields.(pausedElapsed := s.pausedElapsed + elapsed);
          }
          fields := fields.(pausedAt := None);
        }
        fields := fields.(completedAt := Some(now));
      } else if to == Cancelled {
        fields := fields.(cancelledAt := Some(now));
        fields := fields.(cancelReason := Some(Stripped(reason)));
      }
      services := services[sid := fields];
      AddTransition(sid, Some(s.status), to, userId, reason);
      return Done(sid);
    }
  }

  // ---- runs ------------------------------------------------------------------------

  datatype Event =
    | NewCar(ownerId: nat, mileage: int, unique: bool)
    | EditCar(carId: nat, userId: nat, newMileage: Option<int>, unique: bool, refreshed: bool)
    | PostMileage(carId: nat, userId: nat, value: int)
    | Open(form: IntakeForm, access: bool, mechanicOk: bool, now: int)
    | Edit(sid: nat, patch: PatchForm, access: bool, mechanicOk: bool)
    | Move(sid: nat, userId: nat, access: bool, to: Status, reason: Option<string>, now: int)

  function Apply(t: Tables, e: Event): (Tables, Answer) {
    match e
    case NewCar(ownerId, mileage, unique) => CreateCar(t, ownerId, mileage, unique)
    case EditCar(carId, userId, mileage, unique, refreshed) =>
      PatchCar(t, carId, userId, mileage, unique, refreshed)
    case PostMileage(carId, userId, value) => RecordMileage(t, carId, userId, value)
    case Open(form, access, mechanicOk, now) => Intake(t, form, access, mechanicOk, now)
    case Edit(sid, form, access, mechanicOk) => PatchService(t, sid, form, access, mechanicOk)
    case Move(sid, userId, access, to, reason, now) => Transition(t, sid, userId, access, to, reason, now)
  }

  function Step(t: Tables, e: Event): Tables {
    Apply(t, e).0
  }

  function Run(t: Tables, es: seq<Event>): Tables {
    if es == [] then t else Step(Run(t, es[..|es| - 1]), es[|es| - 1])
  }

  // A refused request leaves every table as it was.
  lemma RefusalChangesNothing(t: Tables, e: Event)
    ensures !Apply(t, e).1.Done? ==> Step(t, e) == t
  {}

  // Foreign keys: every child row names an existing parent.
  ghost predicate ForeignKeys(t: Tables) {
    && (forall i | 0 <= i < |t.readings| :: t.readings[i].carId < |t.cars|)
    && (forall i | 0 <= i < |t.services| :: t.services[i].carId < |t.cars|)
    && (forall i | 0 <= i < |t.items| :: t.items[i].serviceId < |t.services|)
    && (forall i | 0 <= i < |t.log| :: t.log[i].serviceId < |t.services|)
  }

  lemma {:induction false} OtherItemsAreItems(items: seq<Item>, sid: nat)
    ensures forall i | 0 <= i < |OtherItems(items, sid)| ::
              OtherItems(items, sid)[i].serviceId != sid && OtherItems(items, sid)[i] in items
  {
    if items != [] {
      OtherItemsAreItems(items[..|items| - 1], sid);
    }
  }

  // The lines of one job, in order.
  function LinesOf(items: seq<Item>, sid: nat): seq<ItemIn> {
    if items == [] then []
    else
      var last := items[|items| - 1];
      LinesOf(items[..|items| - 1], sid) + if last.serviceId == sid then [last.line] else []
  }

  lemma LinesOfSnoc(items: seq<Item>, last: Item, sid: nat)
    ensures LinesOf(items + [last], sid) == LinesOf(items, sid) + if last.serviceId == sid then [last.line] else []
  {
    assert (items + [last])[..|items + [last]| - 1] == items;
  }

  lemma {:induction false} LinesOfOthers(items: seq<Item>, sid: nat, other: nat)
    ensures LinesOf(OtherItems(items, sid), other) == if other == sid then [] else LinesOf(items, other)
  {
    if items != [] {
      var front, last := items[..|items| - 1], items[|items| - 1];
      LinesOfOthers(front, sid, other);
      LinesOfSnoc(OtherItems(front, sid), last, other);
      assert OtherItems(front, sid) + [] == OtherItems(front, sid);
    }
  }

  // Replacing a job's items leaves it exactly the given lines, in order, and no other job's moved.
  lemma {:induction false} ReplaceItemsIsExact(items: seq<Item>, sid: nat, lines: seq<ItemIn>, other: nat)
    ensures LinesOf(ReplaceItems(items, sid, lines), other) == if other == sid then lines else LinesOf(items, other)
  {
    if lines == [] {
      LinesOfOthers(items, sid, other);
      assert ReplaceItems(items, sid, lines) == OtherItems(items, sid);
    } else {
      var front, last := lines[..|lines| - 1], lines[|lines| - 1];
      ReplaceItemsIsExact(items, sid, front, other);
      assert ReplaceItems(items, sid, lines) == ReplaceItems(items, sid, front) + [Item(sid, last)];
      LinesOfSnoc(ReplaceItems(items, sid, front), Item(sid, last), other);
      assert lines == front + [last];
    }
  }

  lemma StepKeepsForeignKeys(t: Tables, e: Event)
    requires ForeignKeys(t)
    ensures ForeignKeys(Step(t, e))
    ensures |t.cars| <= |Step(t, e).cars| && |t.services| <= |Step(t, e).services|
  {
    if e.Open? {
      OtherItemsAreItems(t.items, |t.services|);
    } else if e.Edit? {
      OtherItemsAreItems(t.items, e.sid);
    }
  }

  lemma {:induction false} RunKeepsForeignKeys(t: Tables, es: seq<Event>)
    requires ForeignKeys(t)
    ensures ForeignKeys(Run(t, es))
    ensures |t.cars| <= |Run(t, es).cars| && |t.services| <= |Run(t, es).services|
  {
    if es != [] {
      RunKeepsForeignKeys(t, es[..|es| - 1]);
      StepKeepsForeignKeys(Run(t, es[..|es| - 1]), es[|es| - 1]);
    }
  }
}

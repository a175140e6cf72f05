// The mileage ledger that cars, mileage posts and service intakes share.
module MileageLedger {
  import opened Common
  import opened Workshop

  // Readings of one car strictly increase and stay within its mileage.
  ghost predicate ReadingsInOrder(cars: seq<Car>, readings: seq<Reading>) {
    && (forall i | 0 <= i < |readings| ::
          readings[i].carId < |cars| && readings[i].value <= cars[readings[i].carId].mileage)
    && (forall i, j | 0 <= i < j < |readings| && readings[i].carId == readings[j].carId ::
          readings[i].value < readings[j].value)
  }

  // The intake mileages of one car never decrease and stay within its mileage.
  ghost predicate IntakesInOrder(cars: seq<Car>, services: seq<Service>) {
    && (forall i | 0 <= i < |services| ::
          services[i].carId < |cars| && services[i].mileageAtIntake <= cars[services[i].carId].mileage)
    && (forall i, j | 0 <= i < j < |services| && services[i].carId == services[j].carId ::
          services[i].mileageAtIntake <= services[j].mileageAtIntake)
  }

  ghost predicate Ledger(t: Tables) {
    ReadingsInOrder(t.cars, t.readings) && IntakesInOrder(t.cars, t.services)
  }

  ghost predicate CarsGrow(cars: seq<Car>, cars': seq<Car>) {
    |cars| <= |cars'| && forall c | 0 <= c < |cars| ::
      cars[c].mileage <= cars'[c].mileage && cars'[c].ownerId == cars[c].ownerId
  }

  lemma ReadingAbove(cars: seq<Car>, cars': seq<Car>, readings: seq<Reading>, r: Reading)
    requires ReadingsInOrder(cars, readings) && CarsGrow(cars, cars')
    requires r.carId < |cars'| && r.value <= cars'[r.carId].mileage
    requires r.carId < |cars| ==> cars[r.carId].mileage < r.value
    ensures ReadingsInOrder(cars', readings + [r])
  {}

  lemma IntakeAbove(cars: seq<Car>, cars': seq<Car>, services: seq<Service>, s: Service)
    requires IntakesInOrder(cars, services) && CarsGrow(cars, cars')
    requires s.carId < |cars| && cars[s.carId].mileage <= s.mileageAtIntake <= cars'[s.carId].mileage
    ensures IntakesInOrder(cars', services + [s])
  {}

  // Append-only tables: what is written stays written.
  ghost predicate Extends(t: Tables, t': Tables) {
    && CarsGrow(t.cars, t'.cars)
    && t.readings <= t'.readings
    && |t.services| <= |t'.services|
    && (forall s | 0 <= s < |t.services| ::
          t'.services[s].carId == t.services[s].carId
          && t'.services[s].mileageAtIntake == t.services[s].mileageAtIntake)
  }

  lemma StepKeepsReadings(t: Tables, e: Event)
    requires ReadingsInOrder(t.cars, t.readings)
    ensures CarsGrow(t.cars, Step(t, e).cars) && t.readings <= Step(t, e).readings
    ensures ReadingsInOrder(Step(t, e).cars, Step(t, e).readings)
  {
    var t' := Step(t, e);
    if t'.readings != t.readings {
      var r := t'.readings[|t.readings|];
      assert t'.readings == t.readings + [r];
      ReadingAbove(t.cars, t'.cars, t.readings, r);
    }
  }

  lemma IntakesStay(cars: seq<Car>, cars': seq<Car>, services: seq<Service>, services': seq<Service>)
    requires IntakesInOrder(cars, services) && CarsGrow(cars, cars') && |services| == |services'|
    requires forall s | 0 <= s < |services| ::
               services'[s].carId == services[s].carId && services'[s].mileageAtIntake == services[s].mileageAtIntake
    ensures IntakesInOrder(cars', services')
  {}

  lemma StepKeepsIntakes(t: Tables, e: Event)
    requires IntakesInOrder(t.cars, t.services) && CarsGrow(t.cars, Step(t, e).cars)
    ensures IntakesInOrder(Step(t, e).cars, Step(t, e).services)
  {
    if e.Open? && Step(t, e) != t {
      IntakeAbove(t.cars, Step(t, e).cars, t.services, OpenedService(e.form, e.now));
    } else {
      IntakesStay(t.cars, Step(t, e).cars, t.services, Step(t, e).services);
    }
  }

  lemma StepKeepsLedger(t: Tables, e: Event)
    requires Ledger(t)
    ensures Ledger(Step(t, e)) && Extends(t, Step(t, e))
  {
    StepKeepsReadings(t, e);
    StepKeepsIntakes(t, e);
  }

  // Over any run mixing car requests, mileage posts, intakes, edits and transitions, from any
  // tables in order (the empty ones are): the ledger stays in order, no mileage ever decreases and
  // no reading or intake is ever altered.
  lemma {:induction false} RunKeepsLedger(t: Tables, es: seq<Event>)
    requires Ledger(t)
    ensures Ledger(Run(t, es)) && Extends(t, Run(t, es))
  {
    if es != [] {
      RunKeepsLedger(t, es[..|es| - 1]);
      StepKeepsLedger(Run(t, es[..|es| - 1]), es[|es| - 1]);
    }
  }

  // The last reading of car `c` is its mileage.
  ghost predicate LastReading(readings: seq<Reading>, c: nat, value: int) {
    exists i | 0 <= i < |readings| ::
      readings[i].carId == c && readings[i].value == value
      && forall j | i < j < |readings| :: readings[j].carId != c
  }

  ghost predicate InSync(t: Tables, c: nat) {
    c < |t.cars| && LastReading(t.readings, c, t.cars[c].mileage)
  }

  lemma LastReadingGrows(readings: seq<Reading>, r: Reading, c: nat, value: int)
    ensures LastReading(readings + [r], c, value)
            <==> if r.carId == c then r.value == value else LastReading(readings, c, value)
  {
    var readings' := readings + [r];
    assert readings'[|readings|] == r;
    assert forall i | 0 <= i < |readings| :: readings'[i] == readings[i];
    if r.carId != c && LastReading(readings, c, value) {
      var i :| 0 <= i < |readings| && readings[i].carId == c && readings[i].value == value
               && forall j | i < j < |readings| :: readings[j].carId != c;
      assert readings'[i].carId == c;
    }
    if r.carId != c && LastReading(readings', c, value) {
      var i :| 0 <= i < |readings'| && readings'[i].carId == c && readings'[i].value == value
               && forall j | i < j < |readings'| :: readings'[j].carId != c;
      assert readings[i].carId == c;
      assert forall j | i < j < |readings| :: readings[j] == readings'[j];
    }
  }

  // The car edit that raises a mileage and writes no reading.
  ghost predicate RaisesSilently(t: Tables, e: Event, c: nat) {
    && e.EditCar? && e.carId == c && c < |t.cars| && Apply(t, e).1.Done?
    && e.newMileage.Some? && e.newMileage.value > t.cars[c].mileage && e.refreshed
  }

  // A car whose last reading is its mileage stays that way under every request but one: an edit
  // that raises the mileage when the session already shows the new value.
  lemma SyncLostExactlyBySilentRaise(t: Tables, e: Event, c: nat)
    requires Ledger(t) && InSync(t, c)
    ensures InSync(Step(t, e), c) <==> !RaisesSilently(t, e, c)
  {
    var t' := Step(t, e);
    if t'.readings != t.readings {
      assert t'.readings == t.readings + [t'.readings[|t.readings|]];
      LastReadingGrows(t.readings, t'.readings[|t.readings|], c, t'.cars[c].mileage);
    }
  }

  ghost predicate NeverRaisesSilently(t: Tables, es: seq<Event>, c: nat) {
    forall i | 0 <= i < |es| :: !RaisesSilently(Run(t, es[..i]), es[i], c)
  }

  ghost predicate StaysInSync(t: Tables, es: seq<Event>, c: nat) {
    forall i | 0 <= i <= |es| :: InSync(Run(t, es[..i]), c)
  }

  lemma StepUpTo(t: Tables, es: seq<Event>, c: nat, i: nat)
    requires Ledger(t) && i < |es| && InSync(Run(t, es[..i]), c)
    ensures InSync(Run(t, es[..i + 1]), c) <==> !RaisesSilently(Run(t, es[..i]), es[i], c)
  {
    assert es[..i + 1][..i] == es[..i];
    RunKeepsLedger(t, es[..i]);
    SyncLostExactlyBySilentRaise(Run(t, es[..i]), es[i], c);
  }

  lemma {:induction false} NeverRaisedInSync(t: Tables, es: seq<Event>, c: nat, i: nat)
    requires Ledger(t) && InSync(t, c) && i <= |es| && NeverRaisesSilently(t, es, c)
    ensures InSync(Run(t, es[..i]), c)
  {
    if i > 0 {
      NeverRaisedInSync(t, es, c, i - 1);
      StepUpTo(t, es, c, i - 1);
    }
  }

  // Over every run: the last reading of a car is its mileage in all states of the run exactly when
  // no edit in it raises the mileage silently.
  lemma InSyncExactlyWhenNeverRaisedSilently(t: Tables, es: seq<Event>, c: nat)
    requires Ledger(t) && InSync(t, c)
    ensures StaysInSync(t, es, c) <==> NeverRaisesSilently(t, es, c)
  {
    if NeverRaisesSilently(t, es, c) {
      forall i | 0 <= i <= |es| ensures InSync(Run(t, es[..i]), c) {
        NeverRaisedInSync(t, es, c, i);
      }
    }
    if StaysInSync(t, es, c) {
      forall i | 0 <= i < |es| ensures !RaisesSilently(Run(t, es[..i]), es[i], c) {
        StepUpTo(t, es, c, i);
      }
    }
  }

  // A new car with a positive mileage starts in step with its history.
  lemma NewCarStartsInSync(t: Tables, ownerId: nat, mileage: int)
    requires Ledger(t) && mileage > 0
    ensures InSync(CreateCar(t, ownerId, mileage, true).0, |t.cars|)
  {
    LastReadingGrows(t.readings, Reading(|t.cars|, mileage, ByUser), |t.cars|, mileage);
  }

  // After an accepted intake the car's mileage is the intake's, and the intake is the newest.
  lemma IntakeSetsTheMileage(t: Tables, form: IntakeForm, access: bool, mechanicOk: bool, now: int)
    requires Ledger(t)
    ensures var (t', answer) := Intake(t, form, access, mechanicOk, now);
            answer.Done? ==>
              && form.carId < |t.cars| && t'.cars[form.carId].mileage == form.mileage
              && t'.services[answer.id].mileageAtIntake == form.mileage
              && (forall s | 0 <= s < |t'.services| && t'.services[s].carId == form.carId ::
                    t'.services[s].mileageAtIntake <= form.mileage)
  {}
}

// What each workshop request is answered and what it writes, read off the rows: when it is done,
// which refusal it gets otherwise, and every column it leaves behind.
module Requests {
  import opened Common
  import opened StateMachine
  import opened Workshop

  // ---- cars ----------------------------------------------------------------------

  ghost predicate Owns(t: Tables, carId: nat, userId: nat) {
    carId < |t.cars| && t.cars[carId].ownerId == userId
  }

  // A car with the same owner now shows `mileage`; every other car, and everything about jobs, is as
  // it was.
  ghost predicate OnlyMileage(t: Tables, t': Tables, carId: nat, mileage: int) {
    && |t'.cars| == |t.cars| && carId < |t.cars|
    && t'.cars[carId].ownerId == t.cars[carId].ownerId && t'.cars[carId].mileage == mileage
    && (forall c | 0 <= c < |t.cars| && c != carId :: t'.cars[c] == t.cars[c])
    && t'.services == t.services && t'.items == t.items && t'.log == t.log
  }

  lemma CreateCarAnswers(t: Tables, ownerId: nat, mileage: int, unique: bool)
    ensures var (t', answer) := CreateCar(t, ownerId, mileage, unique);
            && (if unique then answer == Done(|t.cars|) else (t', answer) == (t, Duplicate))
            && (unique ==>
                  && |t'.cars| == |t.cars| + 1 && t'.cars[..|t.cars|] == t.cars
                  && t'.cars[|t.cars|].ownerId == ownerId && t'.cars[|t.cars|].mileage == mileage
                  && t'.readings == t.readings + (if 0 < mileage then [Reading(|t.cars|, mileage, ByUser)] else [])
                  && t'.services == t.services && t'.items == t.items && t'.log == t.log)
  {}

  // A post is refused for a missing car, a car of someone else or a lower value; otherwise the car
  // ends at the posted value, with one reading more exactly when that is news.
  lemma RecordMileageAnswers(t: Tables, carId: nat, userId: nat, value: int)
    ensures var (t', answer) := RecordMileage(t, carId, userId, value);
            && (answer == NotFound <==> |t.cars| <= carId)
            && (answer == Forbidden <==> carId < |t.cars| && t.cars[carId].ownerId != userId)
            && (answer == MileageDecrease <==> Owns(t, carId, userId) && value < t.cars[carId].mileage)
            && (answer == Done(carId) <==> Owns(t, carId, userId) && t.cars[carId].mileage <= value)
            && (answer != Done(carId) ==> t' == t)
            && (answer == Done(carId) ==>
                  && OnlyMileage(t, t', carId, value)
                  && t'.readings == t.readings
                       + (if t.cars[carId].mileage < value then [Reading(carId, value, ByUser)] else []))
  {}

  // An edit does the same with the mileage it gives, if any; its reading hangs on the row's refresh.
  lemma PatchCarAnswers(t: Tables, carId: nat, userId: nat, mileage: Option<int>, unique: bool, refreshed: bool)
    ensures var (t', answer) := PatchCar(t, carId, userId, mileage, unique, refreshed);
            && (answer == NotFound <==> |t.cars| <= carId)
            && (answer == Forbidden <==> carId < |t.cars| && t.cars[carId].ownerId != userId)
            && (answer == Duplicate <==> Owns(t, carId, userId) && !unique)
            && (answer == MileageDecrease <==>
                  Owns(t, carId, userId) && unique && mileage.Some? && mileage.value < t.cars[carId].mileage)
            && (answer == Done(carId) <==>
                  Owns(t, carId, userId) && unique && (mileage.Some? ==> t.cars[carId].mileage <= mileage.value))
            && (answer != Done(carId) || mileage.None? ==> t' == t)
            && (answer == Done(carId) && mileage.Some? ==>
                  && OnlyMileage(t, t', carId, mileage.value)
                  && t'.readings == t.readings
                       + (if t.cars[carId].mileage < mileage.value && !refreshed
                          then [Reading(carId, mileage.value, ByUser)] else []))
  {}

  // ---- intake ------------------------------------------------------------------------

  lemma IntakeAnswers(t: Tables, form: IntakeForm, access: bool, mechanicOk: bool, now: int)
    ensures var (t', answer) := Intake(t, form, access, mechanicOk, now);
            var known := form.carId < |t.cars|;
            && (answer == Forbidden <==> !access)
            && (answer == NotFound <==> access && !known)
            && (answer == MileageRegression <==> access && known && form.mileage < t.cars[form.carId].mileage)
            && (answer == MechanicInvalid <==>
                  access && known && t.cars[form.carId].mileage <= form.mileage && !mechanicOk)
            && (answer == Done(|t.services|) <==>
                  access && known && t.cars[form.carId].mileage <= form.mileage && mechanicOk)
            && (answer != Done(|t.services|) ==> t' == t)
  {}

  lemma {:induction false} NoLines(items: seq<Item>, sid: nat)
    requires forall i | 0 <= i < |items| :: items[i].serviceId != sid
    ensures LinesOf(items, sid) == []
  {
    if items != [] {
      NoLines(items[..|items| - 1], sid);
    }
  }

  // A fresh job: everything the form says, nothing that has not happened yet.
  ghost predicate IsFresh(s: Service, form: IntakeForm, now: int) {
    && s.carId == form.carId && s.centreId == form.centreId && s.mechanicId == form.mechanicId
    && s.mileageAtIntake == form.mileage && s.nextRecommended == form.nextRecommended && s.notes == form.notes
    && s.status == Waiting && s.createdAt == now && s.pausedElapsed == 0
    && s.startedAt == None && s.pausedAt == None && s.completedAt == None && s.cancelledAt == None
    && s.cancelReason == None && s.pauseReason == None
  }

  // An accepted intake opens one fresh job with exactly the form's lines, logs its opening and sets
  // the car's mileage, with a reading exactly when that rises.
  lemma IntakeWrites(t: Tables, form: IntakeForm, access: bool, mechanicOk: bool, now: int, other: nat)
    requires ForeignKeys(t) && Intake(t, form, access, mechanicOk, now).1.Done?
    ensures form.carId < |t.cars|
    ensures var (t', sid) := (Intake(t, form, access, mechanicOk, now).0, |t.services|);
            && |t'.services| == sid + 1 && t'.services[..sid] == t.services && IsFresh(t'.services[sid], form, now)
            && LinesOf(t'.items, other) == (if other == sid then form.items else LinesOf(t.items, other))
            && t'.log == t.log + [LogRow(sid, None, Waiting, form.userId, None)]
            && OnlyMileage(t, t'.(services := t.services, items := t.items, log := t.log), form.carId, form.mileage)
            && t'.readings == t.readings
                 + (if t.cars[form.carId].mileage < form.mileage
                    then [Reading(form.carId, form.mileage, ByService)] else [])
  {
    NoLines(t.items, |t.services|);
    if form.items != [] {
      ReplaceItemsIsExact(t.items, |t.services|, form.items, other);
    }
  }

  // ---- edits ---------------------------------------------------------------------------

  lemma PatchServiceAnswers(t: Tables, sid: nat, form: PatchForm, access: bool, mechanicOk: bool)
    ensures var (t', answer) := PatchService(t, sid, form, access, mechanicOk);
            var open := sid < |t.services| && access && Live(t.services[sid].status);
            && (answer == NotFound <==> |t.services| <= sid)
            && (answer == Forbidden <==> sid < |t.services| && !access)
            && (answer == TerminalLocked <==> sid < |t.services| && access && !Live(t.services[sid].status))
            && (answer == MechanicInvalid <==> open && form.mechanicId.Some? && !mechanicOk)
            && (answer == Done(sid) <==> open && (form.mechanicId.Some? ==> mechanicOk))
            && (answer != Done(sid) ==> t' == t)
  {}

  // The columns only an edit writes after the intake.
  predicate SameCard(s: Service, s': Service) {
    s'.mechanicId == s.mechanicId && s'.nextRecommended == s.nextRecommended && s'.notes == s.notes
  }

  // The columns no request writes after the intake.
  predicate SameOrigin(s: Service, s': Service) {
    s'.carId == s.carId && s'.centreId == s.centreId && s'.mileageAtIntake == s.mileageAtIntake
    && s'.createdAt == s.createdAt
  }

  // The columns transitions write.
  predicate SameProgress(s: Service, s': Service) {
    && s'.status == s.status && s'.pausedElapsed == s.pausedElapsed
    && s'.startedAt == s.startedAt && s'.pausedAt == s.pausedAt
    && s'.completedAt == s.completedAt && s'.cancelledAt == s.cancelledAt
    && s'.cancelReason == s.cancelReason && s'.pauseReason == s.pauseReason
  }

  ghost predicate OtherJobsStay(t: Tables, t': Tables, sid: nat) {
    |t'.services| == |t.services| && forall s | 0 <= s < |t.services| && s != sid :: t'.services[s] == t.services[s]
  }

  // An accepted edit writes what the form gives, keeps what it leaves out, and replaces the lines as
  // a whole or not at all.
  lemma PatchServiceWrites(t: Tables, sid: nat, form: PatchForm, access: bool, mechanicOk: bool, other: nat)
    requires PatchService(t, sid, form, access, mechanicOk).1.Done?
    ensures sid < |t.services|
    ensures var (s, t') := (t.services[sid], PatchService(t, sid, form, access, mechanicOk).0);
            && OtherJobsStay(t, t', sid) && t'.cars == t.cars && t'.readings == t.readings && t'.log == t.log
            && LinesOf(t'.items, other)
               == (if other == sid && form.items.Some? then form.items.value else LinesOf(t.items, other))
            && var s' := t'.services[sid];
               && SameOrigin(s, s') && SameProgress(s, s')
               && s'.mechanicId == (match form.mechanicId case Some(m) => m case None => s.mechanicId)
               && s'.nextRecommended == (match form.nextRecommended case Some(n) => Some(n) case None => s.nextRecommended)
               && s'.notes == (match form.notes case Some(n) => Some(n) case None => s.notes)
  {
    if form.items.Some? {
      ReplaceItemsIsExact(t.items, sid, form.items.value, other);
    }
  }

  // ---- transitions --------------------------------------------------------------------------

  // Which answer a transition gets. It is done exactly along an edge, a cancellation only with text.
  lemma TransitionAnswers(t: Tables, sid: nat, userId: nat, access: bool, to: Status, reason: Option<string>, now: int)
    ensures var (t', answer) := Transition(t, sid, userId, access, to, reason, now);
            && (answer == NotFound <==> |t.services| <= sid)
            && (answer == Forbidden <==> sid < |t.services| && !access)
            && (sid < |t.services| && access ==>
                  var from := t.services[sid].status;
                  && (answer == Refused(StateTerminal) <==> !Live(from))
                  && (answer == Refused(StateInvalid) <==> Live(from) && !MayMove(from, to))
                  && (answer == Refused(ReasonRequired) <==> MayMove(from, to) && to == Cancelled && !Reasoned(reason))
                  && (answer == Done(sid) <==> MayMove(from, to) && (to == Cancelled ==> Reasoned(reason))))
            && (!answer.Done? ==> t' == t)
  {
    if sid < |t.services| {
      ValidateAnswers(t.services[sid].status, to, reason);
    }
  }

  // A done transition touches the job's progress and the log, and nothing else anywhere.
  lemma TransitionWrites(t: Tables, sid: nat, userId: nat, access: bool, to: Status, reason: Option<string>, now: int)
    requires Transition(t, sid, userId, access, to, reason, now).1.Done?
    ensures sid < |t.services|
    ensures var (s, t') := (t.services[sid], Transition(t, sid, userId, access, to, reason, now).0);
            && t'.cars == t.cars && t'.readings == t.readings && t'.items == t.items && OtherJobsStay(t, t', sid)
            && t'.log == t.log + [LogRow(sid, Some(s.status), to, userId, reason)]
            && t'.services[sid].status == to
            && SameOrigin(s, t'.services[sid]) && SameCard(s, t'.services[sid])
  {}

  // ---- over runs ---------------------------------------------------------------------------------

  ghost predicate Edits(t: Tables, es: seq<Event>, sid: nat, i: nat) {
    i < |es| && es[i].Edit? && es[i].sid == sid && Apply(Run(t, es[..i]), es[i]).1.Done?
  }

  lemma StepKeepsOrigin(t: Tables, e: Event, sid: nat)
    requires sid < |t.services|
    ensures sid < |Step(t, e).services|
    ensures var s, s' := t.services[sid], Step(t, e).services[sid];
            && SameOrigin(s, s')
            && (!(e.Edit? && e.sid == sid && Apply(t, e).1.Done?) ==> SameCard(s, s'))
            && (!(e.Move? && e.sid == sid && Apply(t, e).1.Done?) ==> SameProgress(s, s'))
  {}

  // Over every run a job keeps its car, centre, intake mileage and creation time, and its mechanic,
  // recommendation and notes too unless an accepted edit of that job comes by: whatever
  // transitions it goes through, and whatever happens to others.
  lemma {:induction false} JobsKeepTheirCard(t: Tables, es: seq<Event>, sid: nat)
    requires sid < |t.services|
    ensures sid < |Run(t, es).services|
    ensures SameOrigin(t.services[sid], Run(t, es).services[sid])
    ensures (forall i: nat :: !Edits(t, es, sid, i)) ==> SameCard(t.services[sid], Run(t, es).services[sid])
  {
    if es != [] {
      var front, e := es[..|es| - 1], es[|es| - 1];
      JobsKeepTheirCard(t, front, sid);
      StepKeepsOrigin(Run(t, front), e, sid);
      if forall i: nat :: !Edits(t, es, sid, i) {
        forall i: nat ensures !Edits(t, front, sid, i) {
          assert i < |front| ==> front[..i] == es[..i];
          assert !Edits(t, es, sid, i);
        }
        assert !Edits(t, es, sid, |es| - 1);
      }
    }
  }
}

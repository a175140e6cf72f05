// Whole runs of the payment tables: checkouts, raw webhooks, Payme calls and Click callbacks in
// any order, with any duplicates.
module PaymentRuns {
  import opened Common
  import opened Billing
  import Payme
  import Click

  datatype Event =
    | Checkout(userId: nat, isAdmin: bool, planCode: string, centreId: nat, provider: string)
    | Deliver(pid: nat, ref: string, outcome: Outcome, clock: Clock)
    | PaymeCall(authorized: bool, body: Payme.Body, clock: Clock)
    | ClickCall(form: Click.Form, clock: Clock)

  function Step(t: Tables, e: Event): Tables {
    match e
    case Checkout(userId, isAdmin, planCode, centreId, provider) =>
      CheckoutSubscription(t, userId, isAdmin, planCode, centreId, provider).0
    case Deliver(pid, ref, outcome, clock) => Webhook(t, pid, ref, outcome, clock).0
    case PaymeCall(authorized, body, clock) => Payme.Dispatch(t, authorized, body, clock).0
    case ClickCall(form, clock) => Click.Handle(t, form, clock).0
  }

  function Run(t: Tables, es: seq<Event>): Tables {
    if es == [] then t else Step(Run(t, es[..|es| - 1]), es[|es| - 1])
  }

  // ---- every event is one of four moves ---------------------------------------

  datatype Move =
    | Idle
    | Opens(row: Payment)
    | Attaches(pid: nat, ref: string)
    | Hooks(pid: nat, ref: string, outcome: Outcome, clock: Clock)

  // The parameters with which `e` calls a Payme method, if it does so and they can be read.
  function Asked(e: Event, call: string): Option<Payme.Params> {
    if e.PaymeCall? && e.authorized && e.body.Rpc? && e.body.call == call then e.body.params else None
  }

  // The parameters of a Perform or Cancel whose time can be read.
  function Finalises(e: Event, call: string): Option<Payme.Params> {
    var asked := Asked(e, call);
    if asked.Some? && asked.value.time.Some? then asked else None
  }

  function MoveOf(t: Tables, e: Event): Move {
    match e
    case Checkout(_, _, _, _, _) =>
      var after := Step(t, e).payments;
      if |after| <= |t.payments| then Idle else Opens(after[|after| - 1])
    case Deliver(pid, ref, outcome, clock) => Hooks(pid, ref, outcome, clock)
    case PaymeCall(_, _, clock) =>
      var create, perform, cancel :=
        Asked(e, "CreateTransaction"), Finalises(e, "PerformTransaction"), Finalises(e, "CancelTransaction");
      if create.Some? && create.value.account.Named? && Step(t, e) != t then
        Attaches(create.value.account.pid, create.value.id)
      else if perform.Some? && perform.value.id != "" then HooksRow(t, perform.value.id, AsPaid, clock)
      else if cancel.Some? then HooksRow(t, cancel.value.id, AsFailed, clock)
      else Idle
    case ClickCall(form, clock) =>
      if form.signed && form.action == Click.ACTION_COMPLETE && form.merchantTransId.Some? && form.error.Some? then
        Hooks(form.merchantTransId.value, form.clickTransId, Click.OutcomeOf(form.error.value), clock)
      else Idle
  }

  function HooksRow(t: Tables, id: string, outcome: Outcome, clock: Clock): Move {
    var found := Payme.FindByRef(t.payments, id);
    if found.Some? then Hooks(found.value, id, outcome, clock) else Idle
  }

  ghost predicate Makes(t: Tables, move: Move, t': Tables) {
    match move
    case Idle => t' == t
    case Opens(row) =>
      row.status == Pending && row.externalRef == None && row.paidAt == None
      && t' == t.(payments := t.payments + [row])
    case Attaches(pid, ref) =>
      pid < |t.payments| && !Attached(t.payments[pid]) && ref != "" && !RefTaken(t.payments, pid, ref)
      && t' == t.(payments := t.payments[pid := t.payments[pid].(externalRef := Some(ref))])
    case Hooks(pid, ref, outcome, clock) => t' == Webhook(t, pid, ref, outcome, clock).0
  }

  lemma PaymeMakesMove(t: Tables, e: Event)
    requires e.PaymeCall?
    ensures Makes(t, MoveOf(t, e), Step(t, e))
  {}

  lemma StepMakesMove(t: Tables, e: Event)
    ensures Makes(t, MoveOf(t, e), Step(t, e))
  {
    match e {
      case Checkout(_, _, _, _, _) =>
      case Deliver(_, _, _, _) =>
      case PaymeCall(_, _, _) => PaymeMakesMove(t, e);
      case ClickCall(_, _) =>
    }
  }

  // ---- what one step keeps -----------------------------------------------------

  function Rank(s: Status): nat {
    match s
    case Pending => 0
    case Failed => 1
    case Paid => 2
    case Refunded => 3
  }

  ghost predicate Later(was: Payment, now: Payment) {
    && Rank(was.status) <= Rank(now.status)
    && (Rank(was.status) >= 2 ==> now.status == was.status && now.paidAt == was.paidAt)
    && (now.status == Refunded ==> was.status == Refunded)
    && (now.status != Paid ==> now.paidAt == was.paidAt)
    && (Attached(was) ==> now.externalRef == was.externalRef)
    && now == was.(status := now.status, externalRef := now.externalRef, paidAt := now.paidAt)
  }

  ghost predicate AllLater(a: Tables, b: Tables) {
    |a.payments| <= |b.payments| && forall p | 0 <= p < |a.payments| :: Later(a.payments[p], b.payments[p])
  }

  lemma WebhookKeepsRows(t: Tables, pid: nat, ref: string, outcome: Outcome, clock: Clock)
    ensures var t' := Webhook(t, pid, ref, outcome, clock).0;
            && AllLater(t, t') && t'.plans == t.plans && |t'.centres| == |t.centres|
  {}

  lemma StepKeepsRows(t: Tables, e: Event)
    ensures |t.payments| <= |Step(t, e).payments|
    ensures forall p | 0 <= p < |t.payments| :: Later(t.payments[p], Step(t, e).payments[p])
    ensures Step(t, e).plans == t.plans && |Step(t, e).centres| == |t.centres|
  {
    StepMakesMove(t, e);
    var move := MoveOf(t, e);
    if move.Hooks? {
      WebhookKeepsRows(t, move.pid, move.ref, move.outcome, move.clock);
    }
  }

  lemma StepKeepsRefsUnique(t: Tables, e: Event)
    requires RefsUnique(t.payments)
    ensures RefsUnique(Step(t, e).payments)
  {
    StepMakesMove(t, e);
  }

  // Statuses only climb pending < failed < paid, a finalised row is frozen, an attached reference
  // is never replaced and who-owes-what never changes - over every run, for every payment.
  lemma {:induction false} RunKeepsRows(t: Tables, es: seq<Event>)
    ensures |t.payments| <= |Run(t, es).payments|
    ensures forall p | 0 <= p < |t.payments| :: Later(t.payments[p], Run(t, es).payments[p])
    ensures Run(t, es).plans == t.plans && |Run(t, es).centres| == |t.centres|
    ensures RefsUnique(t.payments) ==> RefsUnique(Run(t, es).payments)
  {
    if es != [] {
      var before := Run(t, es[..|es| - 1]);
      RunKeepsRows(t, es[..|es| - 1]);
      StepKeepsRows(before, es[|es| - 1]);
      if RefsUnique(t.payments) {
        StepKeepsRefsUnique(before, es[|es| - 1]);
      }
    }
  }

  // Rows from `from` on carry a payment instant exactly when they are paid.
  ghost predicate StampedWhenPaid(payments: seq<Payment>, from: nat) {
    forall p | from <= p < |payments| :: payments[p].paidAt.Some? <==> payments[p].status == Paid
  }

  lemma StepStampsThePaid(t: Tables, e: Event, from: nat)
    requires StampedWhenPaid(t.payments, from) && from <= |t.payments|
    ensures StampedWhenPaid(Step(t, e).payments, from)
  {
    StepMakesMove(t, e);
    StepKeepsRows(t, e);
    var move := MoveOf(t, e);
    if move.Hooks? && Webhook(t, move.pid, move.ref, move.outcome, move.clock).1 == Applied {
      WebhookWrites(t, move.pid, move.ref, move.outcome, move.clock);
    } else if move.Hooks? {
      WebhookAnswers(t, move.pid, move.ref, move.outcome, move.clock);
    }
  }

  // Over every run: a payment opened in it has a payment instant exactly when it is paid, and one
  // that was there before gets another only by turning paid.
  lemma {:induction false} PaidAtIsStampedExactlyWhenPaid(t: Tables, es: seq<Event>)
    ensures StampedWhenPaid(Run(t, es).payments, |t.payments|)
    ensures |t.payments| <= |Run(t, es).payments|
    ensures forall p | 0 <= p < |t.payments| ::
              var was, now := t.payments[p], Run(t, es).payments[p];
              now.paidAt == was.paidAt || (was.status != Paid && now.status == Paid && now.paidAt.Some?)
  {
    RunKeepsRows(t, es);
    if es != [] {
      var front, e := es[..|es| - 1], es[|es| - 1];
      var before := Run(t, front);
      PaidAtIsStampedExactlyWhenPaid(t, front);
      RunKeepsRows(t, front);
      StepStampsThePaid(before, e, |t.payments|);
      StepKeepsRows(before, e);
      StepEffects(before, e);
      forall p | 0 <= p < |t.payments|
        ensures var was, now := t.payments[p], Step(before, e).payments[p];
                now.paidAt == was.paidAt || (was.status != Paid && now.status == Paid && now.paidAt.Some?)
      {
        assert Later(t.payments[p], before.payments[p]) && Later(before.payments[p], Step(before, e).payments[p]);
        assert TurnsPaid(before, Step(before, e), p) || !TurnsPaid(before, Step(before, e), p);
      }
    }
  }

  // How often the status of `p` changed along a run.
  ghost function Changes(t: Tables, es: seq<Event>, p: nat): nat
    requires p < |t.payments|
  {
    if es == [] then 0
    else
      var before, after := Run(t, es[..|es| - 1]), Run(t, es);
      RunKeepsRows(t, es[..|es| - 1]);
      RunKeepsRows(t, es);
      Changes(t, es[..|es| - 1], p)
      + if before.payments[p].status == after.payments[p].status then 0 else 1
  }

  // At most twice (pending -> failed -> paid), however many events are delivered.
  lemma {:induction false} AtMostTwoChanges(t: Tables, es: seq<Event>, p: nat)
    requires p < |t.payments|
    ensures p < |Run(t, es).payments|
    ensures Changes(t, es, p) + Rank(t.payments[p].status) <= Rank(Run(t, es).payments[p].status)
    ensures Changes(t, es, p) <= 2
  {
    RunKeepsRows(t, es);
    if es != [] {
      AtMostTwoChanges(t, es[..|es| - 1], p);
      StepKeepsRows(Run(t, es[..|es| - 1]), es[|es| - 1]);
    }
  }

  // ---- confluence: one payment, one reference ----------------------------------

  datatype Delivery = Delivery(outcome: Outcome, clock: Clock)

  function Redeliver(t: Tables, pid: nat, ref: string, ds: seq<Delivery>): Tables {
    if ds == [] then t
    else
      var d := ds[|ds| - 1];
      Webhook(Redeliver(t, pid, ref, ds[..|ds| - 1]), pid, ref, d.outcome, d.clock).0
  }

  // The delivery that decides: the first "paid" one, or else the first one.
  function Deciding(ds: seq<Delivery>): Delivery
    requires ds != []
  {
    if |ds| == 1 then ds[0]
    else
      var d := Deciding(ds[..|ds| - 1]);
      if d.outcome.AsFailed? && ds[|ds| - 1].outcome.AsPaid? then ds[|ds| - 1] else d
  }

  // Position `k` of `ds` holds its first "paid" delivery, or its first delivery when none is.
  ghost predicate DecidesAt(ds: seq<Delivery>, k: nat) {
    && k < |ds|
    && (forall j | 0 <= j < k :: ds[j].outcome.AsFailed?)
    && (ds[k].outcome.AsFailed? ==> k == 0 && forall j | 0 <= j < |ds| :: ds[j].outcome.AsFailed?)
  }

  lemma {:induction false} DecidingIsFirstPaid(ds: seq<Delivery>) returns (k: nat)
    requires ds != []
    ensures DecidesAt(ds, k) && Deciding(ds) == ds[k]
  {
    k := 0;
    if |ds| > 1 {
      var front, last := ds[..|ds| - 1], |ds| - 1;
      k := DecidingIsFirstPaid(front);
      if front[k].outcome.AsFailed? && ds[last].outcome.AsPaid? {
        k := last;
      }
    }
  }

  // Two deliveries in a row amount to the one that decides.
  lemma TwoIsOne(t: Tables, pid: nat, ref: string, a: Delivery, b: Delivery)
    ensures Webhook(Webhook(t, pid, ref, a.outcome, a.clock).0, pid, ref, b.outcome, b.clock).0
         == var d := if a.outcome.AsFailed? && b.outcome.AsPaid? then b else a;
            Webhook(t, pid, ref, d.outcome, d.clock).0
  {
    if pid < |t.payments| {
      var p := t.payments[pid];
      var t1 := Webhook(t, pid, ref, a.outcome, a.clock).0;
      if t1 != t {
        assert forall q | 0 <= q < |t.payments| && q != pid :: t1.payments[q] == t.payments[q];
        assert !RefTaken(t1.payments, pid, ref);
        assert t1.payments[pid] == SettledRow(p, ref, a.outcome, a.clock);
        if a.outcome.AsFailed? && b.outcome.AsPaid? {
          assert SettledRow(t1.payments[pid], ref, b.outcome, b.clock) == SettledRow(p, ref, b.outcome, b.clock);
        }
      }
    }
  }

  // Any number of deliveries of one reference to one payment, in any order and with any
  // duplicates, leaves exactly the tables a single delivery of the deciding one would.
  lemma {:induction false} Confluence(t: Tables, pid: nat, ref: string, ds: seq<Delivery>)
    requires ds != []
    ensures Redeliver(t, pid, ref, ds) == Webhook(t, pid, ref, Deciding(ds).outcome, Deciding(ds).clock).0
  {
    var front, d := ds[..|ds| - 1], ds[|ds| - 1];
    if front == [] {
      assert Redeliver(t, pid, ref, front) == t;
    } else {
      Confluence(t, pid, ref, front);
      TwoIsOne(t, pid, ref, Deciding(front), d);
    }
  }

  // Equal up to the clock readings on payment `pid` and on the centre it renews.
  ghost predicate SameButClock(a: Tables, b: Tables) {
    && a.plans == b.plans && a.notifications == b.notifications
    && |a.payments| == |b.payments| && |a.centres| == |b.centres|
    && (forall p | 0 <= p < |a.payments| ::
          a.payments[p].(paidAt := None) == b.payments[p].(paidAt := None)
          && (a.payments[p].paidAt.Some? <==> b.payments[p].paidAt.Some?))
    && (forall c | 0 <= c < |a.centres| ::
          a.centres[c].(subscriptionUntil := None) == b.centres[c].(subscriptionUntil := None)
          && (a.centres[c].subscriptionUntil.Some? <==> b.centres[c].subscriptionUntil.Some?))
  }

  ghost predicate SomePaid(ds: seq<Delivery>) {
    exists k | 0 <= k < |ds| :: ds[k].outcome.AsPaid?
  }

  lemma ClockOnlyStamps(t: Tables, pid: nat, ref: string, outcome: Outcome, c: Clock, c': Clock)
    ensures SameButClock(Webhook(t, pid, ref, outcome, c).0, Webhook(t, pid, ref, outcome, c').0)
    ensures outcome.AsFailed? ==> Webhook(t, pid, ref, outcome, c).0 == Webhook(t, pid, ref, outcome, c').0
  {}

  // Hence reordering or duplicating never matters: two delivery lists that agree on whether a
  // "paid" was among them end in the same tables up to when the clock was read, and in the same
  // tables outright when every delivery read the clock alike.
  lemma RedeliveryOrderIsIrrelevant(t: Tables, pid: nat, ref: string, ds: seq<Delivery>, ds': seq<Delivery>)
    requires ds != [] && ds' != []
    requires SomePaid(ds) <==> SomePaid(ds')
    ensures SameButClock(Redeliver(t, pid, ref, ds), Redeliver(t, pid, ref, ds'))
    ensures (forall k, j | 0 <= k < |ds| && 0 <= j < |ds'| :: ds[k].clock == ds'[j].clock) ==>
              Redeliver(t, pid, ref, ds) == Redeliver(t, pid, ref, ds')
  {
    Confluence(t, pid, ref, ds);
    Confluence(t, pid, ref, ds');
    var _ := DecidingIsFirstPaid(ds);
    var _ := DecidingIsFirstPaid(ds');
    assert Deciding(ds).outcome == Deciding(ds').outcome;
    ClockOnlyStamps(t, pid, ref, Deciding(ds).outcome, Deciding(ds).clock, Deciding(ds').clock);
  }

  // In terms of the row: under a reference it can take, an open payment ends as the maximum of
  // pending < failed < paid over what was delivered, holding that reference.
  lemma RedeliveryEndsInMaximum(t: Tables, pid: nat, ref: string, ds: seq<Delivery>)
    requires ds != [] && pid < |t.payments| && t.payments[pid].status in {Pending, Failed}
    requires Attached(t.payments[pid]) ==> t.payments[pid].externalRef == Some(ref)
    requires !RefTaken(t.payments, pid, ref)
    ensures pid < |Redeliver(t, pid, ref, ds).payments|
    ensures var p, p' := t.payments[pid], Redeliver(t, pid, ref, ds).payments[pid];
            && p'.status == (if SomePaid(ds) then Paid else Failed)
            && (p'.externalRef == Some(ref) || p' == p)
            && (p.status == Pending || SomePaid(ds) ==> p'.externalRef == Some(ref))
  {
    Confluence(t, pid, ref, ds);
    var _ := DecidingIsFirstPaid(ds);
  }

  // Deliveries under mixed references.
  datatype Tagged = Tagged(ref: string, delivery: Delivery)

  function RedeliverMixed(t: Tables, pid: nat, ds: seq<Tagged>): Tables {
    if ds == [] then t
    else
      var d := ds[|ds| - 1];
      Webhook(RedeliverMixed(t, pid, ds[..|ds| - 1]), pid, d.ref, d.delivery.outcome, d.delivery.clock).0
  }

  function Under(ds: seq<Tagged>, ref: string): seq<Delivery> {
    if ds == [] then []
    else
      var d := ds[|ds| - 1];
      if d.ref == ref then Under(ds[..|ds| - 1], ref) + [d.delivery] else Under(ds[..|ds| - 1], ref)
  }

  ghost predicate Holds(t: Tables, pid: nat, ref: string) {
    pid < |t.payments| && ref != "" && t.payments[pid].externalRef == Some(ref)
  }

  lemma WebhookKeepsHeldRef(t: Tables, pid: nat, ref: string, d: Tagged)
    requires Holds(t, pid, ref)
    ensures d.ref != ref ==> Webhook(t, pid, d.ref, d.delivery.outcome, d.delivery.clock).0 == t
    ensures Holds(Webhook(t, pid, d.ref, d.delivery.outcome, d.delivery.clock).0, pid, ref)
  {}

  // Once a reference is attached, deliveries under any other might as well not have been sent: no
  // table shows them.
  lemma {:induction false} OtherReferencesAreInvisible(t: Tables, pid: nat, ref: string, ds: seq<Tagged>)
    requires Holds(t, pid, ref)
    ensures RedeliverMixed(t, pid, ds) == Redeliver(t, pid, ref, Under(ds, ref))
    ensures Holds(RedeliverMixed(t, pid, ds), pid, ref)
  {
    if ds != [] {
      var front, d := ds[..|ds| - 1], ds[|ds| - 1];
      OtherReferencesAreInvisible(t, pid, ref, front);
      var mid := RedeliverMixed(t, pid, front);
      WebhookKeepsHeldRef(mid, pid, ref, d);
      if d.ref == ref {
        var own := Under(ds, ref);
        assert own[..|own| - 1] == Under(front, ref);
        assert Redeliver(t, pid, ref, own) == Webhook(mid, pid, ref, d.delivery.outcome, d.delivery.clock).0;
      }
    }
  }

  // ---- the same claim inside arbitrary traffic ----------------------------------

  // Does `e` carry an outcome for payment `p` under the reference `r`?
  function Carries(e: Event, p: nat, r: string): Option<Outcome> {
    match e
    case Checkout(_, _, _, _, _) => None
    case Deliver(pid, ref, outcome, _) => if pid == p && ref == r then Some(outcome) else None
    case PaymeCall(_, _, _) =>
      var perform, cancel := Finalises(e, "PerformTransaction"), Finalises(e, "CancelTransaction");
      if perform.Some? && perform.value.id == r then Some(AsPaid)
      else if cancel.Some? && cancel.value.id == r then Some(AsFailed)
      else None
    case ClickCall(form, _) =>
      if form.signed && form.action == Click.ACTION_COMPLETE && form.error.Some?
         && form.merchantTransId == Some(p) && form.clickTransId == r
      then Some(Click.OutcomeOf(form.error.value)) else None
  }

  ghost predicate Carried(es: seq<Event>, p: nat, r: string, outcome: Outcome) {
    exists i | 0 <= i < |es| :: Carries(es[i], p, r) == Some(outcome)
  }

  ghost function BestOf(status: Status, es: seq<Event>, p: nat, r: string): Status {
    if status == Paid || status == Refunded then status
    else if Carried(es, p, r, AsPaid) then Paid
    else if Carried(es, p, r, AsFailed) then Failed
    else status
  }

  // One event, seen from a payment holding `r`.
  lemma AttachedHook(t: Tables, pid: nat, ref: string, outcome: Outcome, clock: Clock, p: nat)
    requires RefsUnique(t.payments) && p < |t.payments| && Attached(t.payments[p])
    ensures var q, q' := t.payments[p], Webhook(t, pid, ref, outcome, clock).0.payments[p];
            && q'.externalRef == q.externalRef
            && q'.status == if pid == p && q.externalRef == Some(ref) && Rank(q.status) < Rank(StatusFor(outcome))
                            then StatusFor(outcome) else q.status
  {
    if pid == p {
      Payme.FindByRefIsThe(t.payments, t.payments[p].externalRef.value, p);
    }
  }

  lemma CarriesIsHook(t: Tables, e: Event, p: nat, r: string)
    requires RefsUnique(t.payments) && p < |t.payments| && t.payments[p].externalRef == Some(r) && r != ""
    ensures Carries(e, p, r).Some? <==> MoveOf(t, e).Hooks? && MoveOf(t, e).pid == p && MoveOf(t, e).ref == r
    ensures Carries(e, p, r).Some? ==> Carries(e, p, r).value == MoveOf(t, e).outcome
  {
    Payme.FindByRefIsThe(t.payments, r, p);
    if e.PaymeCall? && e.body.Rpc? && e.body.params.Some? {
      Payme.FindByRefFinds(t.payments, e.body.params.value.id);
    }
  }

  lemma AttachedStep(t: Tables, e: Event, p: nat)
    requires RefsUnique(t.payments) && p < |t.payments| && Attached(t.payments[p])
    ensures p < |Step(t, e).payments|
    ensures Step(t, e).payments[p].externalRef == t.payments[p].externalRef
    ensures Step(t, e).payments[p].status == BestOf(t.payments[p].status, [e], p, t.payments[p].externalRef.value)
  {
    var r, move := t.payments[p].externalRef.value, MoveOf(t, e);
    StepMakesMove(t, e);
    CarriesIsHook(t, e, p, r);
    if move.Hooks? {
      AttachedHook(t, move.pid, move.ref, move.outcome, move.clock, p);
    }
    assert forall o :: Carried([e], p, r, o) <==> Carries([e][0], p, r) == Some(o);
  }

  lemma CarriedGrows(es: seq<Event>, p: nat, r: string, o: Outcome)
    requires es != []
    ensures Carried(es, p, r, o) <==> Carried(es[..|es| - 1], p, r, o) || Carries(es[|es| - 1], p, r) == Some(o)
  {
    var front := es[..|es| - 1];
    if Carried(front, p, r, o) {
      var i :| 0 <= i < |front| && Carries(front[i], p, r) == Some(o);
      assert Carries(es[i], p, r) == Some(o);
    }
    if Carried(es, p, r, o) {
      var i :| 0 <= i < |es| && Carries(es[i], p, r) == Some(o);
      assert i < |front| ==> Carries(front[i], p, r) == Some(o);
    }
  }

  // Best-of is a running maximum.
  lemma BestOfGrows(status: Status, es: seq<Event>, p: nat, r: string)
    requires es != []
    ensures BestOf(status, es, p, r) == BestOf(BestOf(status, es[..|es| - 1], p, r), [es[|es| - 1]], p, r)
  {
    var last := [es[|es| - 1]];
    forall o
      ensures Carried(es, p, r, o) <==> Carried(es[..|es| - 1], p, r, o) || Carried(last, p, r, o)
    {
      CarriedGrows(es, p, r, o);
      CarriedGrows(last, p, r, o);
    }
  }

  // Once a reference is attached, the status of its payment is the maximum of what was delivered
  // under that reference - whatever else happens in between: other references, other payments,
  // checkouts, replays, any order.
  lemma {:induction false} AttachedStatusIsMaximum(t: Tables, es: seq<Event>, p: nat)
    requires RefsUnique(t.payments) && p < |t.payments| && Attached(t.payments[p])
    ensures p < |Run(t, es).payments|
    ensures Run(t, es).payments[p].externalRef == t.payments[p].externalRef
    ensures Run(t, es).payments[p].status == BestOf(t.payments[p].status, es, p, t.payments[p].externalRef.value)
  {
    if es != [] {
      var front, e := es[..|es| - 1], es[|es| - 1];
      AttachedStatusIsMaximum(t, front, p);
      RunKeepsRows(t, front);
      AttachedStep(Run(t, front), e, p);
      BestOfGrows(t.payments[p].status, es, p, t.payments[p].externalRef.value);
    }
  }

  // ---- references are permanent exactly when they are not empty ------------------

  lemma {:induction false} FreshRef(payments: seq<Payment>) returns (ref: string)
    ensures ref != "" && forall q | 0 <= q < |payments| :: payments[q].externalRef != Some(ref)
    ensures forall q | 0 <= q < |payments| && payments[q].externalRef.Some? :: |payments[q].externalRef.value| < |ref|
  {
    if payments == [] {
      ref := "x";
    } else {
      var front, last := payments[..|payments| - 1], payments[|payments| - 1];
      ref := FreshRef(front);
      assert forall q | 0 <= q < |front| :: payments[q] == front[q];
      if last.externalRef.Some? {
        ref := ref + last.externalRef.value;
      }
    }
  }

  ghost predicate KeepsRef(t: Tables, p: nat, es: seq<Event>)
    requires p < |t.payments|
  {
    p < |Run(t, es).payments| && Run(t, es).payments[p].externalRef == t.payments[p].externalRef
  }

  // Click Complete without a click_trans_id stores "", which the mismatch check does not see: such
  // a reference can be taken over, and no other can.
  lemma RefIsPermanentExactlyWhenNonEmpty(t: Tables, p: nat)
    requires p < |t.payments| && t.payments[p].externalRef.Some?
    ensures (forall es :: KeepsRef(t, p, es)) <==> t.payments[p].externalRef != Some("")
  {
    if t.payments[p].externalRef == Some("") {
      var ref := FreshRef(t.payments);
      var params := Payme.Params(Payme.Named(p), Some(t.payments[p].amount), ref, Some(0));
      var takeOver := PaymeCall(true, Payme.Rpc("CreateTransaction", Some(params)), Clock(0, 0));
      assert Step(t, takeOver).payments[p].externalRef == Some(ref);
      var es := [takeOver];
      assert es[..|es| - 1] == [];
      assert Run(t, es) == Step(Run(t, []), takeOver);
      assert !KeepsRef(t, p, [takeOver]);
    } else {
      forall es ensures KeepsRef(t, p, es) {
        RunKeepsRows(t, es);
      }
    }
  }

  // ---- exactly-once effects -----------------------------------------------------

  datatype Settlement = Settlement(pid: nat, clock: Clock)

  ghost predicate TurnsPaid(before: Tables, after: Tables, p: nat) {
    && p < |before.payments| && p < |after.payments|
    && before.payments[p].status != Paid && after.payments[p].status == Paid
  }

  // The settlements of a run, read off the tables before and after each event.
  ghost function PaidLog(t: Tables, es: seq<Event>): seq<Settlement> {
    if es == [] then []
    else
      var before, after, e := Run(t, es[..|es| - 1]), Run(t, es), es[|es| - 1];
      PaidLog(t, es[..|es| - 1])
      + if !e.Checkout? && exists p :: TurnsPaid(before, after, p)
        then [Settlement((var p :| TurnsPaid(before, after, p); p), e.clock)] else []
  }

  // Replays renewals in settlement order; `rows` supplies each payment's immutable columns.
  ghost function ReplayCentres(plans: seq<Plan>, centres: seq<Centre>, rows: seq<Payment>, log: seq<Settlement>)
    : seq<Centre>
    requires forall k | 0 <= k < |log| :: log[k].pid < |rows|
  {
    if log == [] then centres
    else
      var s := log[|log| - 1];
      Renewed(plans, ReplayCentres(plans, centres, rows, log[..|log| - 1]), rows[s.pid], s.clock)
  }

  ghost function Notices(rows: seq<Payment>, log: seq<Settlement>): seq<Notification>
    requires forall k | 0 <= k < |log| :: log[k].pid < |rows|
  {
    seq(|log|, k requires 0 <= k < |log| => PaidNotice(rows[log[k].pid], log[k].pid))
  }

  ghost predicate SettledIn(log: seq<Settlement>, p: nat) {
    exists k | 0 <= k < |log| :: log[k].pid == p
  }

  ghost predicate WasPaid(t: Tables, p: nat) {
    p < |t.payments| && t.payments[p].status == Paid
  }

  // One event settles nothing and has no effect, or settles one payment with exactly its effects.
  lemma StepEffects(t: Tables, e: Event)
    ensures forall p: nat, q: nat :: TurnsPaid(t, Step(t, e), p) && TurnsPaid(t, Step(t, e), q) ==> p == q
    ensures e.Checkout? ==> forall p: nat :: !TurnsPaid(t, Step(t, e), p)
    ensures (forall p: nat :: !TurnsPaid(t, Step(t, e), p)) ==>
              Step(t, e).centres == t.centres && Step(t, e).notifications == t.notifications
    ensures forall p: nat | TurnsPaid(t, Step(t, e), p) ::
              && Step(t, e).payments[p].paidAt == Some(e.clock.paidAt)
              && Step(t, e).centres == Renewed(t.plans, t.centres, t.payments[p], e.clock)
              && Step(t, e).notifications == t.notifications + [PaidNotice(t.payments[p], p)]
    ensures forall p | |t.payments| <= p < |Step(t, e).payments| :: Step(t, e).payments[p].status == Pending
  {
    StepMakesMove(t, e);
    var move := MoveOf(t, e);
    if move.Hooks? && move.outcome.AsPaid? && Step(t, e) != t {
      assert TurnsPaid(t, Step(t, e), move.pid);
    }
  }

  lemma RenewedIgnoresMutableColumns(plans: seq<Plan>, centres: seq<Centre>, p: Payment, q: Payment, clock: Clock)
    requires q == p.(status := q.status, externalRef := q.externalRef, paidAt := q.paidAt)
    ensures Renewed(plans, centres, p, clock) == Renewed(plans, centres, q, clock)
  {}

  lemma {:induction false} ReplayIgnoresMutableColumns(
    plans: seq<Plan>, centres: seq<Centre>, rows: seq<Payment>, rows': seq<Payment>, log: seq<Settlement>)
    requires |rows| <= |rows'| && forall p | 0 <= p < |rows| :: Later(rows[p], rows'[p])
    requires forall k | 0 <= k < |log| :: log[k].pid < |rows|
    ensures ReplayCentres(plans, centres, rows, log) == ReplayCentres(plans, centres, rows', log)
    ensures Notices(rows, log) == Notices(rows', log)
  {
    if log != [] {
      var s := log[|log| - 1];
      ReplayIgnoresMutableColumns(plans, centres, rows, rows', log[..|log| - 1]);
      assert Later(rows[s.pid], rows'[s.pid]);
      forall k | 0 <= k < |log|
        ensures PaidNotice(rows[log[k].pid], log[k].pid) == PaidNotice(rows'[log[k].pid], log[k].pid)
      {
        assert Later(rows[log[k].pid], rows'[log[k].pid]);
      }
    }
  }

  // The log names each payment that became paid once, with the clock that stamped it.
  ghost predicate LogMatches(t: Tables, end: Tables, log: seq<Settlement>) {
    && (forall k | 0 <= k < |log| ::
          log[k].pid < |end.payments| && end.payments[log[k].pid].paidAt == Some(log[k].clock.paidAt))
    && (forall k, j | 0 <= k < j < |log| :: log[k].pid != log[j].pid)
    && (forall p: nat :: SettledIn(log, p) <==> WasPaid(end, p) && !WasPaid(t, p))
  }

  // Inbox and centres hold exactly the logged effects.
  ghost predicate EffectsMatch(t: Tables, end: Tables, log: seq<Settlement>)
    requires forall k | 0 <= k < |log| :: log[k].pid < |end.payments|
  {
    && end.notifications == t.notifications + Notices(end.payments, log)
    && end.centres == ReplayCentres(t.plans, t.centres, end.payments, log)
  }

  // Over every run: no payment settles twice, the settled payments are exactly those that became
  // paid, each took its paid_at from the event that settled it, the inbox grew by exactly one notice
  // per settlement, and every centre is what replaying the settlements in order gives.
  lemma {:induction false} EffectsHappenExactlyOnce(t: Tables, es: seq<Event>)
    ensures LogMatches(t, Run(t, es), PaidLog(t, es))
    ensures EffectsMatch(t, Run(t, es), PaidLog(t, es))
  {
    if es != [] {
      var front, e := es[..|es| - 1], es[|es| - 1];
      var before, after := Run(t, front), Run(t, es);
      var log := PaidLog(t, front);
      EffectsHappenExactlyOnce(t, front);
      RunKeepsRows(t, front);
      RunKeepsRows(t, es);
      StepKeepsRows(before, e);
      StepEffects(before, e);
      assert before.plans == t.plans;
      ReplayIgnoresMutableColumns(t.plans, t.centres, before.payments, after.payments, log);
      if p: nat :| TurnsPaid(before, after, p) {
        assert PaidLog(t, es) == log + [Settlement(p, e.clock)];
        LogGrows(t, before, after, log, p, e.clock);
        EffectsGrow(t, before, after, log, p, e.clock);
      } else {
        assert PaidLog(t, es) == log;
        LogStays(t, before, after, log);
      }
    }
  }

  lemma LogStays(t: Tables, before: Tables, after: Tables, log: seq<Settlement>)
    requires LogMatches(t, before, log) && AllLater(before, after)
    requires forall p: nat :: !TurnsPaid(before, after, p)
    requires forall p | |before.payments| <= p < |after.payments| :: after.payments[p].status == Pending
    ensures LogMatches(t, after, log)
  {
    forall p: nat ensures WasPaid(after, p) <==> WasPaid(before, p) {
      if p < |before.payments| {
        assert Later(before.payments[p], after.payments[p]) && !TurnsPaid(before, after, p);
      }
    }
    forall k | 0 <= k < |log|
      ensures log[k].pid < |after.payments| && after.payments[log[k].pid].paidAt == Some(log[k].clock.paidAt)
    {
      assert SettledIn(log, log[k].pid) && Later(before.payments[log[k].pid], after.payments[log[k].pid]);
    }
  }

  lemma LogGrows(t: Tables, before: Tables, after: Tables, log: seq<Settlement>, p: nat, clock: Clock)
    requires LogMatches(t, before, log) && AllLater(t, before) && AllLater(before, after)
    requires TurnsPaid(before, after, p) && after.payments[p].paidAt == Some(clock.paidAt)
    requires forall q: nat :: TurnsPaid(before, after, q) ==> q == p
    requires forall q | |before.payments| <= q < |after.payments| :: after.payments[q].status == Pending
    ensures LogMatches(t, after, log + [Settlement(p, clock)])
  {
    var log' := log + [Settlement(p, clock)];
    assert !SettledIn(log, p);
    forall q: nat ensures SettledIn(log', q) <==> SettledIn(log, q) || q == p {
      assert log'[|log|].pid == p;
      if SettledIn(log, q) {
        var k :| 0 <= k < |log| && log[k].pid == q;
        assert log'[k].pid == q;
      }
    }
    forall q: nat ensures WasPaid(after, q) && !WasPaid(t, q) <==> SettledIn(log, q) || q == p {
      if q < |t.payments| {
        assert Later(t.payments[q], before.payments[q]);
      }
      if q < |before.payments| {
        assert Later(before.payments[q], after.payments[q]);
        assert q != p ==> !TurnsPaid(before, after, q);
      }
    }
    forall k | 0 <= k < |log|
      ensures log[k].pid < |after.payments| && after.payments[log[k].pid].paidAt == Some(log[k].clock.paidAt)
    {
      assert SettledIn(log, log[k].pid) && Later(before.payments[log[k].pid], after.payments[log[k].pid]);
    }
  }

  lemma EffectsGrow(t: Tables, before: Tables, after: Tables, log: seq<Settlement>, p: nat, clock: Clock)
    requires AllLater(before, after) && p < |before.payments|
    requires forall k | 0 <= k < |log| :: log[k].pid < |before.payments|
    requires EffectsMatch(t, before, log)
    requires after.centres == Renewed(t.plans, before.centres, before.payments[p], clock)
    requires after.notifications == before.notifications + [PaidNotice(before.payments[p], p)]
    ensures EffectsMatch(t, after, log + [Settlement(p, clock)])
  {
    var log' := log + [Settlement(p, clock)];
    assert log'[..|log'| - 1] == log;
    assert Later(before.payments[p], after.payments[p]);
    RenewedIgnoresMutableColumns(t.plans, before.centres, before.payments[p], after.payments[p], clock);
    ReplayIgnoresMutableColumns(t.plans, t.centres, before.payments, after.payments, log);
    assert Notices(after.payments, log') == Notices(after.payments, log) + [PaidNotice(after.payments[p], p)];
  }

  // The payments a run turned paid.
  ghost function NewlyPaid(t: Tables, end: Tables): set<nat> {
    set p: nat | p < |end.payments| && WasPaid(end, p) && !WasPaid(t, p)
  }

  lemma {:induction false} DistinctPidsCount(log: seq<Settlement>, pids: set<nat>)
    requires forall k, j | 0 <= k < j < |log| :: log[k].pid != log[j].pid
    requires forall p: nat :: p in pids <==> SettledIn(log, p)
    ensures |pids| == |log|
  {
    if log == [] {
      assert forall p: nat :: p !in pids;
      assert pids == {};
    } else {
      var front, last := log[..|log| - 1], log[|log| - 1];
      forall p: nat ensures SettledIn(front, p) <==> SettledIn(log, p) && p != last.pid {
        if SettledIn(front, p) {
          var k :| 0 <= k < |front| && front[k].pid == p;
          assert log[k].pid == p;
        }
        if SettledIn(log, p) && p != last.pid {
          var k :| 0 <= k < |log| && log[k].pid == p;
          assert front[k].pid == p;
        }
      }
      assert SettledIn(log, last.pid);
      DistinctPidsCount(front, pids - {last.pid});
    }
  }

  // The inbox gained exactly as many "billing.paid" rows as payments became paid.
  lemma NoticesCountPaidPayments(t: Tables, es: seq<Event>)
    ensures |Run(t, es).notifications| == |t.notifications| + |NewlyPaid(t, Run(t, es))|
  {
    EffectsHappenExactlyOnce(t, es);
    DistinctPidsCount(PaidLog(t, es), NewlyPaid(t, Run(t, es)));
  }

  // A renewal overwrites: the settlement a centre's columns come from is the last that names it.
  ghost predicate Renews(rows: seq<Payment>, s: Settlement, c: nat)
    requires s.pid < |rows|
  {
    var p := rows[s.pid];
    p.kind.Subscription? && p.targetId == Some(c) && p.planId.Some?
  }

  ghost predicate LastRenewal(rows: seq<Payment>, log: seq<Settlement>, c: nat, k: nat)
    requires forall j | 0 <= j < |log| :: log[j].pid < |rows|
  {
    k < |log| && Renews(rows, log[k], c) && forall j | k < j < |log| :: !Renews(rows, log[j], c)
  }

  ghost predicate HoldsRenewal(plans: seq<Plan>, was: Centre, now: Centre, p: Payment, clock: Clock)
    requires p.planId.Some?
  {
    now == Centre(was.ownerId, p.planId, Some(clock.renewal + DurationDays(plans, p.planId.value) * DAY))
  }

  lemma {:induction false} ReplayStep(
    plans: seq<Plan>, centres: seq<Centre>, rows: seq<Payment>, log: seq<Settlement>, c: nat)
    requires c < |centres| && forall k | 0 <= k < |log| :: log[k].pid < |rows|
    ensures |ReplayCentres(plans, centres, rows, log)| == |centres|
    ensures ReplayCentres(plans, centres, rows, log)[c].ownerId == centres[c].ownerId
    ensures log != [] ==>
              var s, now := log[|log| - 1], ReplayCentres(plans, centres, rows, log)[c];
              if Renews(rows, s, c) then HoldsRenewal(plans, centres[c], now, rows[s.pid], s.clock)
              else now == ReplayCentres(plans, centres, rows, log[..|log| - 1])[c]
  {
    if log != [] {
      ReplayStep(plans, centres, rows, log[..|log| - 1], c);
    }
  }

  lemma LastRenewalExtends(rows: seq<Payment>, log: seq<Settlement>, c: nat, k: nat)
    requires log != [] && forall j | 0 <= j < |log| :: log[j].pid < |rows|
    requires LastRenewal(rows, log[..|log| - 1], c, k) && !Renews(rows, log[|log| - 1], c)
    ensures LastRenewal(rows, log, c, k) && log[..|log| - 1][k] == log[k]
  {
    var front := log[..|log| - 1];
    forall j | k < j < |log| ensures !Renews(rows, log[j], c) {
      assert j < |front| ==> front[j] == log[j];
    }
  }

  lemma {:induction false} ReplayHoldsLastRenewal(
    plans: seq<Plan>, centres: seq<Centre>, rows: seq<Payment>, log: seq<Settlement>, c: nat)
    requires c < |centres| && forall k | 0 <= k < |log| :: log[k].pid < |rows|
    ensures |ReplayCentres(plans, centres, rows, log)| == |centres|
    ensures var centre := ReplayCentres(plans, centres, rows, log)[c];
            || (centre == centres[c] && forall k | 0 <= k < |log| :: !Renews(rows, log[k], c))
            || exists k: nat :: LastRenewal(rows, log, c, k)
                                && HoldsRenewal(plans, centres[c], centre, rows[log[k].pid], log[k].clock)
  {
    ReplayStep(plans, centres, rows, log, c);
    if log != [] {
      var front, last := log[..|log| - 1], |log| - 1;
      if Renews(rows, log[last], c) {
        assert LastRenewal(rows, log, c, last);
      } else {
        ReplayHoldsLastRenewal(plans, centres, rows, front, c);
        var centre := ReplayCentres(plans, centres, rows, front)[c];
        if k: nat :| LastRenewal(rows, front, c, k)
                     && HoldsRenewal(plans, centres[c], centre, rows[front[k].pid], front[k].clock) {
          LastRenewalExtends(rows, log, c, k);
        }
      }
    }
  }

  // Centre `c` took its plan and end date from settlement `k`, the last of the run that names it.
  ghost predicate HoldsLast(t: Tables, end: Tables, log: seq<Settlement>, c: nat, k: nat)
    requires c < |t.centres| && c < |end.centres|
    requires forall j | 0 <= j < |log| :: log[j].pid < |end.payments|
  {
    && LastRenewal(end.payments, log, c, k)
    && HoldsRenewal(t.plans, t.centres[c], end.centres[c], end.payments[log[k].pid], log[k].clock)
  }

  // After every run a centre holds the plan of the settlement applied last that names it, until that
  // settlement's instant plus the plan's duration - and what it held at the start when none did.
  lemma CentreHoldsLastRenewal(t: Tables, es: seq<Event>, c: nat)
    requires c < |t.centres|
    ensures var end, log := Run(t, es), PaidLog(t, es);
            && |end.centres| == |t.centres|
            && LogMatches(t, end, log)
            && (|| (end.centres[c] == t.centres[c] && forall k | 0 <= k < |log| :: !Renews(end.payments, log[k], c))
                || exists k: nat :: HoldsLast(t, end, log, c, k))
  {
    EffectsHappenExactlyOnce(t, es);
    RunKeepsRows(t, es);
    var end, log := Run(t, es), PaidLog(t, es);
    ReplayHoldsLastRenewal(t.plans, t.centres, end.payments, log, c);
    if k: nat :| LastRenewal(end.payments, log, c, k)
                 && HoldsRenewal(t.plans, t.centres[c], end.centres[c], end.payments[log[k].pid], log[k].clock) {
      assert HoldsLast(t, end, log, c, k);
    }
  }
}

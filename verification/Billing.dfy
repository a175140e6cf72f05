// Subscription checkout and the provider-agnostic payment webhook.
//
// A table is a sequence of rows and a row's id is its position, so ids are fresh by
// construction. Each request is one atomic step; a raised error leaves the tables as they were.
module Billing {
  import opened Common

  datatype Status = Pending | Paid | Failed | Refunded
  datatype Outcome = AsPaid | AsFailed
  datatype Kind = Subscription | Insurance | ServiceJob

  datatype Payment = Payment(
    userId: nat,
    kind: Kind,
    targetId: Option<nat>,
    planId: Option<nat>,
    amount: int,
    provider: string,
    status: Status,
    externalRef: Option<string>,
    paidAt: Option<int>)

  datatype Plan = Plan(code: string, monthlyPrice: int, durationDays: int, active: bool)
  datatype Centre = Centre(ownerId: nat, planId: Option<nat>, subscriptionUntil: Option<int>)
  // A "billing.paid" inbox row.
  datatype Notification = Notification(userId: nat, paymentId: nat, amount: int, kind: Kind)

  datatype Tables = Tables(
    plans: seq<Plan>,
    payments: seq<Payment>,
    centres: seq<Centre>,
    notifications: seq<Notification>)

  // The two clock readings one webhook takes: for `paid_at` and for the subscription's end.
  datatype Clock = Clock(paidAt: int, renewal: int)

  datatype Result = Applied | PaymentNotFound | RefMismatch | IntegrityError

  // The exceptions that escape a provider adapter: the webhook's own, a part of the request that is
  // not an object, a number `int` refuses.
  datatype Cause = Billing(result: Result) | AttributeError | ValueError

  datatype CheckoutResult = Opened(paymentId: nat) | CentreNotFound | NotCentreOwner | PlanNotFound

  const DEFAULT_DURATION_DAYS := 30

  // The empty string is falsy in the source: a row holding it counts as having no reference.
  predicate Attached(p: Payment) {
    p.externalRef.Some? && p.externalRef.value != ""
  }

  // Would the unique index on external_ref refuse `ref` on row `pid`?
  predicate RefTaken(payments: seq<Payment>, pid: nat, ref: string) {
    exists q | 0 <= q < |payments| :: q != pid && payments[q].externalRef == Some(ref)
  }

  ghost predicate RefsUnique(payments: seq<Payment>) {
    forall i, j | 0 <= i < j < |payments| ::
      payments[i].externalRef.Some? ==> payments[i].externalRef != payments[j].externalRef
  }

  function StatusFor(outcome: Outcome): Status {
    if outcome.AsPaid? then Paid else Failed
  }

  function DurationDays(plans: seq<Plan>, planId: nat): int {
    if planId < |plans| then plans[planId].durationDays else DEFAULT_DURATION_DAYS
  }

  // ---- specification ---------------------------------------------------------

  // The row a delivery leaves behind when it is not swallowed or refused.
  function SettledRow(p: Payment, ref: string, outcome: Outcome, clock: Clock): Payment {
    p.(status := StatusFor(outcome),
    externalRef := Some(ref),
    paidAt := if outcome.AsPaid? then Some(clock.paidAt) else p.paidAt)
  }

  // The centres after payment `p` is paid: its centre, if any, gets the plan and a new end date.
  function Renewed(plans: seq<Plan>, centres: seq<Centre>, p: Payment, clock: Clock): seq<Centre> {
    if p.kind.Subscription? && p.targetId.Some? && p.targetId.value < |centres| && p.planId.Some? then
      centres[p.targetId.value := centres[p.targetId.value].(
      planId := p.planId,
      subscriptionUntil := Some(clock.renewal + DurationDays(plans, p.planId.value) * DAY))]
    else
      centres
  }

  function PaidNotice(p: Payment, pid: nat): Notification {
    Notification(p.userId, pid, p.amount, p.kind)
  }

  predicate Swallowed(p: Payment, outcome: Outcome) {
    p.status == Paid || p.status == Refunded || (p.status == Failed && outcome.AsFailed?)
  }

  function Webhook(t: Tables, pid: nat, ref: string, outcome: Outcome, clock: Clock): (Tables, Result) {
    if pid >= |t.payments| then (t, PaymentNotFound)
    else
      var p := t.payments[pid];
      if Swallowed(p, outcome) then (t, Applied)
      else if Attached(p) && p.externalRef != Some(ref) then (t, RefMismatch)
      else if RefTaken(t.payments, pid, ref) then (t, IntegrityError)
      else
        var settled := t.(payments := t.payments[pid := SettledRow(p, ref, outcome, clock)]);
        if outcome.AsFailed? then (settled, Applied)
        else
          (settled.(centres := Renewed(t.plans, t.centres, p, clock),
                    notifications := t.notifications + [PaidNotice(p, pid)]), Applied)
  }

  // Is the row still open to this outcome? A pending one to both, a failed one to being paid.
  predicate OpenTo(p: Payment, outcome: Outcome) {
    p.status.Pending? || (p.status.Failed? && outcome.AsPaid?)
  }

  predicate HeldByAnother(p: Payment, ref: string) {
    match p.externalRef
    case None => false
    case Some(held) => held != "" && held != ref
  }

  // Which answer a delivery gets, read off the rows alone.
  lemma WebhookAnswers(t: Tables, pid: nat, ref: string, outcome: Outcome, clock: Clock)
    ensures var (t', result) := Webhook(t, pid, ref, outcome, clock);
            var rows := t.payments;
            var taken := exists q | 0 <= q < |rows| :: q != pid && rows[q].externalRef == Some(ref);
            && (result == PaymentNotFound <==> |rows| <= pid)
            && (result == RefMismatch <==> pid < |rows| && OpenTo(rows[pid], outcome) && HeldByAnother(rows[pid], ref))
            && (result == IntegrityError <==>
                  pid < |rows| && OpenTo(rows[pid], outcome) && !HeldByAnother(rows[pid], ref) && taken)
            && (result == Applied <==>
                  pid < |rows| && (OpenTo(rows[pid], outcome) ==> !HeldByAnother(rows[pid], ref) && !taken))
            && (result != Applied ==> t' == t)
  {}

  // Does paying `p` renew centre `c`?
  predicate PaysCentre(p: Payment, c: nat) {
    p.kind.Subscription? && p.targetId == Some(c) && p.planId.Some?
  }

  // What an applied delivery writes, column by column: nothing on a row not open to it; else status
  // and reference of that row; when paid also its instant, its centre's plan and end, and a notice.
  lemma WebhookWrites(t: Tables, pid: nat, ref: string, outcome: Outcome, clock: Clock)
    requires Webhook(t, pid, ref, outcome, clock).1 == Applied
    ensures pid < |t.payments|
    ensures var (p, t') := (t.payments[pid], Webhook(t, pid, ref, outcome, clock).0);
            if !OpenTo(p, outcome) then t' == t
            else
              && |t'.payments| == |t.payments| && |t'.centres| == |t.centres| && t'.plans == t.plans
              && (forall q | 0 <= q < |t.payments| && q != pid :: t'.payments[q] == t.payments[q])
              && var p' := t'.payments[pid];
                 && p'.userId == p.userId && p'.kind == p.kind && p'.targetId == p.targetId
                 && p'.planId == p.planId && p'.amount == p.amount && p'.provider == p.provider
                 && p'.externalRef == Some(ref)
                 && match outcome
                    case AsFailed =>
                      p'.status == Failed && p'.paidAt == p.paidAt
                      && t'.centres == t.centres && t'.notifications == t.notifications
                    case AsPaid =>
                      p'.status == Paid && p'.paidAt == Some(clock.paidAt)
                      && t'.notifications == t.notifications + [Notification(p.userId, pid, p.amount, p.kind)]
  {
    WebhookAnswers(t, pid, ref, outcome, clock);
  }

  // What a paid delivery makes of each centre: thirty days when the plan's row is gone.
  lemma WebhookRenews(t: Tables, pid: nat, ref: string, clock: Clock, c: nat)
    requires Webhook(t, pid, ref, AsPaid, clock).1 == Applied && c < |t.centres|
    ensures pid < |t.payments| && c < |Webhook(t, pid, ref, AsPaid, clock).0.centres|
    ensures var p, was, now := t.payments[pid], t.centres[c], Webhook(t, pid, ref, AsPaid, clock).0.centres[c];
            if !OpenTo(p, AsPaid) || !PaysCentre(p, c) then now == was
            else
              var days := if p.planId.value < |t.plans| then t.plans[p.planId.value].durationDays else 30;
              && now.ownerId == was.ownerId && now.planId == p.planId
              && now.subscriptionUntil == Some(clock.renewal + days * 86_400_000_000)
  {
    WebhookAnswers(t, pid, ref, AsPaid, clock);
  }

  // The active plan with this code; codes are unique in the plan table.
  function FindPlan(plans: seq<Plan>, code: string): Option<nat> {
    if plans == [] then None
    else if plans[|plans| - 1].code == code && plans[|plans| - 1].active then Some(|plans| - 1)
    else FindPlan(plans[..|plans| - 1], code)
  }

  lemma {:induction false} FindPlanFinds(plans: seq<Plan>, code: string)
    ensures FindPlan(plans, code).Some? ==>
              var i := FindPlan(plans, code).value;
              i < |plans| && plans[i].code == code && plans[i].active
    ensures FindPlan(plans, code).None? ==>
              forall i | 0 <= i < |plans| :: !(plans[i].code == code && plans[i].active)
  {
    if plans != [] {
      FindPlanFinds(plans[..|plans| - 1], code);
    }
  }

  function OpenedRow(userId: nat, centreId: nat, planId: nat, price: int, provider: string): Payment {
    Payment(userId, Subscription, Some(centreId), Some(planId), price, provider, Pending, None, None)
  }

  function CheckoutSubscription(
    t: Tables, userId: nat, isAdmin: bool, planCode: string, centreId: nat, provider: string
  ): (Tables, CheckoutResult)
  {
    FindPlanFinds(t.plans, planCode);
    if centreId >= |t.centres| then (t, CentreNotFound)
    else if !isAdmin && t.centres[centreId].ownerId != userId then (t, NotCentreOwner)
    else match FindPlan(t.plans, planCode)
      case None => (t, PlanNotFound)
      case Some(plan) =>
        var row := OpenedRow(userId, centreId, plan, t.plans[plan].monthlyPrice, provider);
        (t.(payments := t.payments + [row]), Opened(|t.payments|))
  }

  ghost predicate OnSale(plans: seq<Plan>, code: string) {
    exists i | 0 <= i < |plans| :: plans[i].code == code && plans[i].active
  }

  // A payment is opened exactly when the centre exists, the caller owns it or is an admin, and an
  // active plan has the code; each refusal names the first of these that fails, and changes nothing.
  lemma CheckoutOpensExactlyWhen(
    t: Tables, userId: nat, isAdmin: bool, planCode: string, centreId: nat, provider: string)
    ensures var (t', result) := CheckoutSubscription(t, userId, isAdmin, planCode, centreId, provider);
            var mine := centreId < |t.centres| && (isAdmin || t.centres[centreId].ownerId == userId);
            && (result == CentreNotFound <==> |t.centres| <= centreId)
            && (result == NotCentreOwner <==> centreId < |t.centres| && !mine)
            && (result == PlanNotFound <==> mine && !OnSale(t.plans, planCode))
            && (result.Opened? <==> mine && OnSale(t.plans, planCode))
            && (!result.Opened? ==> t' == t)
  {
    FindPlanFinds(t.plans, planCode);
  }

  // The payment opened is a new pending one: for that centre, at the price of a plan with that code.
  lemma CheckoutOwesThePrice(
    t: Tables, userId: nat, isAdmin: bool, planCode: string, centreId: nat, provider: string)
    requires CheckoutSubscription(t, userId, isAdmin, planCode, centreId, provider).1.Opened?
    ensures var (t', result) := CheckoutSubscription(t, userId, isAdmin, planCode, centreId, provider);
            && result.paymentId == |t.payments|
            && |t'.payments| == |t.payments| + 1 && t'.payments[..|t.payments|] == t.payments
            && t'.plans == t.plans && t'.centres == t.centres && t'.notifications == t.notifications
            && var p := t'.payments[result.paymentId];
               && p.status.Pending? && p.externalRef == None && p.paidAt == None
               && p.userId == userId && p.kind.Subscription? && p.targetId == Some(centreId) && p.provider == provider
               && p.planId.Some? && p.planId.value < |t.plans|
               && var plan := t.plans[p.planId.value];
                  plan.code == planCode && plan.active && p.amount == plan.monthlyPrice
  {
    FindPlanFinds(t.plans, planCode);
  }

  // From `t` to `t'`, centre `c` got this plan for its duration and the buyer one notice of its price.
  ghost predicate Sold(t: Tables, t': Tables, plan: nat, c: nat, userId: nat, pid: nat, clock: Clock) {
    && plan < |t.plans| && c < |t.centres|
    && t'.notifications == t.notifications + [Notification(userId, pid, t.plans[plan].monthlyPrice, Subscription)]
    && var until := clock.renewal + t.plans[plan].durationDays * DAY;
       t'.centres == t.centres[c := Centre(t.centres[c].ownerId, Some(plan), Some(until))]
  }

  // Buying a subscription end to end: after the checkout one paid webhook, under a reference no
  // payment holds, renews the centre on the plan asked for.
  lemma CheckoutThenPaidSellsThePlan(
    t: Tables, userId: nat, isAdmin: bool, planCode: string, c: nat, provider: string, ref: string, clock: Clock)
    requires CheckoutSubscription(t, userId, isAdmin, planCode, c, provider).1.Opened?
    requires forall q | 0 <= q < |t.payments| :: t.payments[q].externalRef != Some(ref)
    ensures var (t1, order) := CheckoutSubscription(t, userId, isAdmin, planCode, c, provider);
            var (t2, result) := Webhook(t1, order.paymentId, ref, AsPaid, clock);
            && result == Applied
            && exists plan: nat :: Sold(t, t2, plan, c, userId, order.paymentId, clock)
                                   && t.plans[plan].code == planCode && t.plans[plan].active
  {
    FindPlanFinds(t.plans, planCode);
    var (t1, order) := CheckoutSubscription(t, userId, isAdmin, planCode, c, provider);
    var plan := FindPlan(t.plans, planCode).value;
    assert !RefTaken(t1.payments, order.paymentId, ref);
    assert Sold(t, Webhook(t1, order.paymentId, ref, AsPaid, clock).0, plan, c, userId, order.paymentId, clock);
  }

  // ---- the store -------------------------------------------------------------

  class BillingDb {
    var plans: seq<Plan>
    var payments: seq<Payment>
    var centres: seq<Centre>
    var notifications: seq<Notification>

    function View(): Tables
      reads this
    {
      Tables(plans, payments, centres, notifications)
    }

    // What the session's rollback does after a raised error.
    method Restore(t: Tables)
      modifies this
      ensures View() == t
    {
      plans, payments, centres, notifications := t.plans, t.payments, t.centres, t.notifications;
    }

    method Checkout(userId: nat, isAdmin: bool, planCode: string, centreId: nat, provider: string)
      returns (result: CheckoutResult)
      modifies this
      ensures (View(), result) == CheckoutSubscription(old(View()), userId, isAdmin, planCode, centreId, provider)
    {
      if centreId >= |centres| {
        return CentreNotFound;
      }
      if !isAdmin && centres[centreId].ownerId != userId {
        return NotCentreOwner;
      }
      var planId := FindPlan(plans, planCode);
      if planId.None? {
        return PlanNotFound;
      }
      FindPlanFinds(plans, planCode);
      var plan := plans[planId.value];
      payments := payments + [
        Payment(userId, Subscription, Some(centreId), planId, plan.monthlyPrice, provider, Pending, None, None)];
      return Opened(|payments| - 1);
    }

    // The subscription branch: the payment's centre, when both it and a plan are named.
    method RenewCentre(payment: Payment, clock: Clock)
      requires payment.kind.Subscription?
      modifies this`centres
      ensures centres == Renewed(plans, old(centres), payment, clock)
    {
      if payment.targetId.Some? && payment.targetId.value < |centres| && payment.planId.Some? {
        var duration := DEFAULT_DURATION_DAYS;
        if payment.planId.value < |plans| {
          duration := plans[payment.planId.value].durationDays;
        }
        var centre := centres[payment.targetId.value];
        centre := centre.(planId := payment.planId);
        centre := centre.(subscriptionUntil := Some(clock.renewal + duration * DAY));
        centres := centres[payment.targetId.value := centre];
      }
    }

    method ApplyWebhook(pid: nat, ref: string, outcome: Outcome, clock: Clock) returns (result: Result)
      modifies this
      ensures (View(), result) == Webhook(old(View()), pid, ref, outcome, clock)
    {
      if pid >= |payments| {
        return PaymentNotFound;
      }
      var payment := payments[pid];
      if payment.status == Paid || payment.status == Refunded {
        return Applied;
      }
      if payment.status == Failed && outcome == AsFailed {
        return Applied;
      }
      if Attached(payment) && payment.externalRef.value != ref {
        return RefMismatch;
      }

      var savedPayments, savedCentres := payments, centres;
      payment := payment.(status := StatusFor(outcome));
      payment := payment.(externalRef := Some(ref));
      if outcome == AsPaid {
        payment := payment.(paidAt := Some(clock.paidAt));
      }
      payments := payments[pid := payment];
      if outcome == AsPaid && payment.kind == Subscription {
        RenewCentre(payment, clock);
      }
      // The flush: the unique index may refuse the reference, which undoes the whole request.
      assert forall q | 0 <= q < |payments| && q != pid :: payments[q] == savedPayments[q];
      if RefTaken(payments, pid, ref) {
        payments, centres := savedPayments, savedCentres;
        return IntegrityError;
      }
      if outcome == AsPaid {
        notifications := notifications + [
          Notification(payment.userId, pid, payment.amount, payment.kind)];
      }
      return Applied;
    }
  }
}

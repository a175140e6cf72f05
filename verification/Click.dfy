// The Click merchant adapter: Prepare validates the order, Complete settles it.
module Click {
  import opened Common
  import opened Billing

  const ERR_OK := 0
  const ERR_SIGN_CHECK_FAILED := -1
  const ERR_INCORRECT_AMOUNT := -2
  const ERR_ACTION_NOT_FOUND := -3
  const ERR_TRANS_ALREADY_PAID := -4
  const ERR_USER_NOT_FOUND := -5
  const ERR_TRANS_CANCELLED := -9

  const ACTION_PREPARE := "0"
  const ACTION_COMPLETE := "1"

  // `merchantTransId` is None when the field is not a well-formed id; a missing `click_trans_id`
  // reads as the empty string. `amount` and `error` are None when `int` refuses the field's text, as
  // it does "1000.00"; a missing one reads as 0.
  datatype Form = Form(
    signed: bool,
    action: string,
    merchantTransId: Option<nat>,
    clickTransId: string,
    amount: Option<int>,
    error: Option<int>)

  datatype Reply = Answer(payment: Option<nat>, error: int) | Raised(cause: Cause)

  function OutcomeOf(error: int): Outcome {
    if error == 0 then AsPaid else AsFailed
  }

  function Prepare(t: Tables, form: Form): Reply {
    if form.merchantTransId.None? || form.merchantTransId.value >= |t.payments| then
      Answer(None, ERR_USER_NOT_FOUND)
    else if form.amount.None? then Raised(ValueError)
    else
      var pid := form.merchantTransId.value;
      var p := t.payments[pid];
      // Click counts soum, the table counts tiyin.
      if form.amount.value != p.amount / 100 then Answer(Some(pid), ERR_INCORRECT_AMOUNT)
      else if p.status != Pending then Answer(Some(pid), ERR_TRANS_ALREADY_PAID)
      else Answer(Some(pid), ERR_OK)
  }

  function Complete(t: Tables, form: Form, clock: Clock): (Tables, Reply) {
    if form.merchantTransId.None? || form.merchantTransId.value >= |t.payments| then
      (t, Answer(None, ERR_USER_NOT_FOUND))
    else if form.error.None? then (t, Raised(ValueError))
    else
      var pid := form.merchantTransId.value;
      var (t', result) := Webhook(t, pid, form.clickTransId, OutcomeOf(form.error.value), clock);
      if result != Applied then (t', Raised(Billing(result)))
      else (t', Answer(Some(pid), if form.error.value == 0 then ERR_OK else ERR_TRANS_CANCELLED))
  }

  function Handle(t: Tables, form: Form, clock: Clock): (Tables, Reply) {
    if !form.signed then (t, Answer(None, ERR_SIGN_CHECK_FAILED))
    else if form.action == ACTION_PREPARE then (t, Prepare(t, form))
    else if form.action == ACTION_COMPLETE then Complete(t, form, clock)
    else (t, Answer(None, ERR_ACTION_NOT_FOUND))
  }

  method HandleForm(db: BillingDb, form: Form, clock: Clock) returns (reply: Reply)
    modifies db
    ensures (db.View(), reply) == Handle(old(db.View()), form, clock)
  {
    if !form.signed {
      return Answer(None, ERR_SIGN_CHECK_FAILED);
    }
    if form.action == ACTION_PREPARE {
      return Prepare(db.View(), form);
    }
    if form.action != ACTION_COMPLETE {
      return Answer(None, ERR_ACTION_NOT_FOUND);
    }
    if form.merchantTransId.None? || form.merchantTransId.value >= |db.payments| {
      return Answer(None, ERR_USER_NOT_FOUND);
    }
    if form.error.None? {
      return Raised(ValueError);
    }
    var outcome := if form.error.value == 0 then AsPaid else AsFailed;
    var result := db.ApplyWebhook(form.merchantTransId.value, form.clickTransId, outcome, clock);
    if result != Applied {
      return Raised(Billing(result));
    }
    return Answer(form.merchantTransId, if outcome == AsPaid then ERR_OK else ERR_TRANS_CANCELLED);
  }

  // The form names this payment.
  ghost predicate Names(t: Tables, form: Form, pid: nat) {
    pid < |t.payments| && form.merchantTransId == Some(pid)
  }

  // The stated soum are the payment's tiyin, up to 99 of which may differ.
  ghost predicate SoumMatch(p: Payment, soum: int) {
    soum * 100 <= p.amount < soum * 100 + 100
  }

  // What is refused before any action: an unsigned form, an action there is not, a payment there is
  // not. None of it changes anything.
  lemma StrangersAreRefused(t: Tables, form: Form, clock: Clock)
    ensures var (t', reply) := Handle(t, form, clock);
            var known, named := form.action == "0" || form.action == "1", exists pid: nat :: Names(t, form, pid);
            && (reply == Answer(None, -1) <==> !form.signed)
            && (reply == Answer(None, -3) <==> form.signed && !known)
            && (reply == Answer(None, -5) <==> form.signed && known && !named)
            && (!form.signed || !known || !named ==> t' == t)
  {
    assert forall pid: nat :: Names(t, form, pid) ==> form.merchantTransId == Some(pid);
    if form.merchantTransId.Some? && form.merchantTransId.value < |t.payments| {
      assert Names(t, form, form.merchantTransId.value);
    }
  }

  // Prepare says yes exactly to a pending payment of the amount stated, -2 to another amount and -4
  // to a payment no longer pending, and changes nothing.
  lemma PreparedExactlyWhen(t: Tables, form: Form, clock: Clock, pid: nat)
    requires form.signed && form.action == "0" && Names(t, form, pid) && form.amount.Some?
    ensures var p, (t', reply) := t.payments[pid], Handle(t, form, clock);
            && t' == t && reply.Answer? && reply.payment == Some(pid)
            && (reply.error == 0 <==> SoumMatch(p, form.amount.value) && p.status.Pending?)
            && (reply.error == -2 <==> !SoumMatch(p, form.amount.value))
            && (reply.error == -4 <==> SoumMatch(p, form.amount.value) && !p.status.Pending?)
  {}

  // Complete hands the payment to the webhook under Click's id, as paid when no error is reported and
  // as failed when one is; it answers 0 or -9 accordingly once that is applied.
  lemma CompleteAnswersExactlyWhen(t: Tables, form: Form, clock: Clock, pid: nat)
    requires form.signed && form.action == "1" && Names(t, form, pid) && form.error.Some?
    ensures var paid := form.error.value == 0;
            var (after, result) := Webhook(t, pid, form.clickTransId, if paid then AsPaid else AsFailed, clock);
            var (t', reply) := Handle(t, form, clock);
            && t' == after
            && reply == if result == Applied then Answer(Some(pid), if paid then 0 else -9) else Raised(Billing(result))
  {}

  // A prepared payment that no other transaction holds is settled by Complete as Click reports it.
  lemma PreparedPaymentsComplete(t: Tables, prepare: Form, complete: Form, clock: Clock, pid: nat)
    requires prepare.signed && prepare.action == "0" && Handle(t, prepare, clock).1 == Answer(Some(pid), 0)
    requires complete.signed && complete.action == "1" && Names(t, complete, pid) && complete.error.Some?
    requires !Attached(t.payments[pid])
    requires forall q | 0 <= q < |t.payments| :: t.payments[q].externalRef != Some(complete.clickTransId)
    ensures var paid, (t', reply) := complete.error.value == 0, Handle(t, complete, clock);
            && reply == Answer(Some(pid), if paid then 0 else -9)
            && pid < |t'.payments| && t'.payments[pid].externalRef == Some(complete.clickTransId)
            && t'.payments[pid].status == if paid then Paid else Failed
  {}

  // Would the webhook refuse this delivery?
  predicate Refused(t: Tables, pid: nat, ref: string, outcome: Outcome)
    requires pid < |t.payments|
  {
    var p := t.payments[pid];
    !Swallowed(p, outcome)
    && ((Attached(p) && p.externalRef != Some(ref)) || RefTaken(t.payments, pid, ref))
  }

  // An exception escapes a signed form exactly when it names a payment and the number its action
  // reads is none, or it completes a payment that is still open and either is attached to another
  // transaction or would take another payment's one. It then changes nothing.
  lemma HandleRaisesExactlyWhen(t: Tables, form: Form, clock: Clock)
    ensures Handle(t, form, clock).1.Raised?
            <==> form.signed && exists pid | 0 <= pid < |t.payments| ::
                   form.merchantTransId == Some(pid)
                   && ((form.action == ACTION_PREPARE && form.amount.None?)
                       || (form.action == ACTION_COMPLETE
                           && (form.error.None?
                               || Refused(t, pid, form.clickTransId, OutcomeOf(form.error.value)))))
    ensures Handle(t, form, clock).1.Raised? ==> Handle(t, form, clock).0 == t
  {}
}

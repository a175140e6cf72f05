// Three things the payment code's documentation promises and the code does not always do: exactly
// when it does, and a state in which it does not.
module Promises {
  import opened Common
  import opened Billing
  import opened PaymentRuns
  import Payme
  import Click

  // ---- "on success extend the centre's subscription by the plan's duration" ------

  // A paid delivery for `p` would renew centre `c`.
  ghost predicate PaysFor(t: Tables, pid: nat, ref: string, c: nat) {
    && pid < |t.payments| && c < |t.centres|
    && t.payments[pid].kind.Subscription? && t.payments[pid].targetId == Some(c) && t.payments[pid].planId.Some?
    && !Swallowed(t.payments[pid], AsPaid) && !Click.Refused(t, pid, ref, AsPaid)
  }

  function Term(t: Tables, pid: nat): int
    requires pid < |t.payments| && t.payments[pid].planId.Some?
  {
    DurationDays(t.plans, t.payments[pid].planId.value) * DAY
  }

  // A renewal never ends earlier than the subscription it replaces exactly when that has no more
  // left than the new term, and adds the term to it exactly when it runs out at this instant.
  lemma RenewalExtendsExactlyWhen(t: Tables, pid: nat, ref: string, clock: Clock, c: nat)
    requires PaysFor(t, pid, ref, c) && t.centres[c].subscriptionUntil.Some?
    ensures var was, end := t.centres[c].subscriptionUntil.value, Webhook(t, pid, ref, AsPaid, clock).0.centres;
            && |end| == |t.centres| && end[c].subscriptionUntil.Some?
            && var until := end[c].subscriptionUntil.value;
               && (until >= was <==> was <= clock.renewal + Term(t, pid))
               && (until == was + Term(t, pid) <==> was == clock.renewal)
  {}

  // From `before` to `after` the subscription of `c` lost time.
  ghost predicate Cut(before: Tables, after: Tables, c: nat) {
    && c < |before.centres| && c < |after.centres| && before.centres[c].subscriptionUntil.Some?
    && (after.centres[c].subscriptionUntil.Some? ==>
          after.centres[c].subscriptionUntil.value < before.centres[c].subscriptionUntil.value)
  }

  // `e` pays for a term that ends before the one centre `c` has.
  ghost predicate FallsShort(t: Tables, e: Event, c: nat) {
    var move := MoveOf(t, e);
    && move.Hooks? && move.outcome.AsPaid? && PaysFor(t, move.pid, move.ref, c)
    && t.centres[c].subscriptionUntil.Some?
    && move.clock.renewal + Term(t, move.pid) < t.centres[c].subscriptionUntil.value
  }

  lemma StepCutsExactlyWhen(t: Tables, e: Event, c: nat)
    requires c < |t.centres|
    ensures Cut(t, Step(t, e), c) <==> FallsShort(t, e, c)
    ensures |Step(t, e).centres| == |t.centres|
    ensures t.centres[c].subscriptionUntil.Some? ==> Step(t, e).centres[c].subscriptionUntil.Some?
  {
    StepMakesMove(t, e);
    var move := MoveOf(t, e);
    if move.Hooks? && move.outcome.AsPaid? && PaysFor(t, move.pid, move.ref, c)
       && t.centres[c].subscriptionUntil.Some? {
      RenewalExtendsExactlyWhen(t, move.pid, move.ref, move.clock, c);
    }
  }

  ghost predicate NeverFallsShort(t: Tables, es: seq<Event>, c: nat) {
    forall i | 0 <= i < |es| :: !FallsShort(Run(t, es[..i]), es[i], c)
  }

  ghost predicate NeverCut(t: Tables, es: seq<Event>, c: nat) {
    forall i, j | 0 <= i <= j <= |es| :: !Cut(Run(t, es[..i]), Run(t, es[..j]), c)
  }

  lemma RunUpTo(t: Tables, es: seq<Event>, i: nat)
    requires i < |es|
    ensures Run(t, es[..i + 1]) == Step(Run(t, es[..i]), es[i])
    ensures |Run(t, es[..i]).centres| == |t.centres|
  {
    assert es[..i + 1][..i] == es[..i];
    RunKeepsRows(t, es[..i]);
  }

  // What loses time over two stretches loses some in one of them.
  lemma CutAddsUp(a: Tables, b: Tables, d: Tables, c: nat)
    requires c < |a.centres| && c < |b.centres| && c < |d.centres|
    requires !Cut(a, b, c) && !Cut(b, d, c)
    ensures !Cut(a, d, c)
  {}

  lemma NextIsNotCut(t: Tables, es: seq<Event>, c: nat, i: nat)
    requires c < |t.centres| && i < |es| && NeverFallsShort(t, es, c)
    ensures !Cut(Run(t, es[..i]), Run(t, es[..i + 1]), c)
    ensures |Run(t, es[..i]).centres| == |t.centres| && |Run(t, es[..i + 1]).centres| == |t.centres|
  {
    RunUpTo(t, es, i);
    assert !FallsShort(Run(t, es[..i]), es[i], c);
    StepCutsExactlyWhen(Run(t, es[..i]), es[i], c);
  }

  ghost predicate KeptBetween(t: Tables, es: seq<Event>, c: nat, i: nat, j: nat) {
    i <= j <= |es| && !Cut(Run(t, es[..i]), Run(t, es[..j]), c)
  }

  lemma KeptOneMore(t: Tables, es: seq<Event>, c: nat, i: nat, j: nat)
    requires c < |t.centres| && j < |es| && NeverFallsShort(t, es, c) && KeptBetween(t, es, c, i, j)
    ensures KeptBetween(t, es, c, i, j + 1)
  {
    RunKeepsRows(t, es[..i]);
    NextIsNotCut(t, es, c, j);
    CutAddsUp(Run(t, es[..i]), Run(t, es[..j]), Run(t, es[..j + 1]), c);
  }

  lemma NothingIsCutAtOnce(t: Tables, c: nat)
    ensures !Cut(t, t, c)
  {}

  lemma {:induction false} NotShortNotCut(t: Tables, es: seq<Event>, c: nat, i: nat, j: nat)
    requires c < |t.centres| && i <= j <= |es| && NeverFallsShort(t, es, c)
    ensures KeptBetween(t, es, c, i, j)
    decreases j
  {
    if i < j {
      NotShortNotCut(t, es, c, i, j - 1);
      KeptOneMore(t, es, c, i, j - 1);
    } else {
      NothingIsCutAtOnce(Run(t, es[..i]), c);
    }
  }

  // Over every run: a centre's subscription never loses time, between any two moments, exactly when
  // no renewal is paid while more is left than it gives.
  lemma NeverCutExactlyWhen(t: Tables, es: seq<Event>, c: nat)
    requires c < |t.centres|
    ensures NeverCut(t, es, c) <==> NeverFallsShort(t, es, c)
  {
    if NeverFallsShort(t, es, c) {
      forall i, j | 0 <= i <= j <= |es| ensures !Cut(Run(t, es[..i]), Run(t, es[..j]), c) {
        NotShortNotCut(t, es, c, i, j);
      }
    }
    if NeverCut(t, es, c) {
      forall i | 0 <= i < |es| ensures !FallsShort(Run(t, es[..i]), es[i], c) {
        RunUpTo(t, es, i);
        assert !Cut(Run(t, es[..i]), Run(t, es[..i + 1]), c);
        StepCutsExactlyWhen(Run(t, es[..i]), es[i], c);
      }
    }
  }

  // A year bought, a month paid on the same day: eleven months gone.
  lemma AMonthReplacesAYear()
    ensures exists t: Tables, e: Event :: Cut(t, Step(t, e), 0)
  {
    var month := Plan("month", 100, 30, true);
    var order := OpenedRow(7, 0, 0, 100, "payme");
    var t := Tables([month], [order], [Centre(7, Some(1), Some(365 * DAY))], []);
    var e := Deliver(0, "r", AsPaid, Clock(0, 0));
    assert PaysFor(t, 0, "r", 0);
    RenewalExtendsExactlyWhen(t, 0, "r", Clock(0, 0), 0);
    assert Cut(t, Step(t, e), 0);
  }

  // ---- "repeated delivery of the same external_ref on a pending payment [is] a no-op" ---

  // A repeated reference changes nothing exactly when the status already swallows the outcome.
  lemma RepeatIsNoOpExactlyWhen(t: Tables, pid: nat, ref: string, outcome: Outcome, clock: Clock)
    requires RefsUnique(t.payments) && Holds(t, pid, ref)
    ensures Webhook(t, pid, ref, outcome, clock).0 == t <==> Swallowed(t.payments[pid], outcome)
  {
    Payme.FindByRefIsThe(t.payments, ref, pid);
    if !Swallowed(t.payments[pid], outcome) {
      assert Webhook(t, pid, ref, outcome, clock).0.payments[pid].status == StatusFor(outcome);
    }
  }

  // On a pending payment, then, it never is one: it settles the payment as any first delivery does.
  lemma RepeatOnPendingSettles(t: Tables, pid: nat, ref: string, outcome: Outcome, clock: Clock)
    requires RefsUnique(t.payments) && Holds(t, pid, ref) && t.payments[pid].status.Pending?
    ensures Webhook(t, pid, ref, outcome, clock).1 == Applied
    ensures Webhook(t, pid, ref, outcome, clock).0.payments
         == t.payments[pid := SettledRow(t.payments[pid], ref, outcome, clock)]
    ensures Webhook(t, pid, ref, outcome, clock).0 != t
  {
    Payme.FindByRefIsThe(t.payments, ref, pid);
    RepeatIsNoOpExactlyWhen(t, pid, ref, outcome, clock);
  }

  // Payme's own Create then Perform is such a repeat.
  lemma PerformRepeatsTheCreate()
    ensures exists t: Tables, ref: string, clock: Clock ::
              && RefsUnique(t.payments) && Holds(t, 0, ref) && t.payments[0].status.Pending?
              && Webhook(t, 0, ref, AsPaid, clock).0 != t
  {
    var order := OpenedRow(7, 0, 0, 100, "payme").(externalRef := Some("r"));
    var t := Tables([], [order], [], []);
    assert Holds(t, 0, "r");
    RepeatOnPendingSettles(t, 0, "r", AsPaid, Clock(0, 0));
  }

  // ---- CancelTransaction: "refund / cancel" ------------------------------------------

  // What Cancel answers is what Check answers afterwards exactly when the payment was not paid: a
  // paid one stays paid, and Check says so.
  lemma CancelIsTrueExactlyWhen(t: Tables, params: Payme.Params, clock: Clock)
    requires RefsUnique(t.payments) && Payme.Ask(t, "CancelTransaction", params, clock).1.Cancelled?
    ensures var (t', reply) := Payme.Ask(t, "CancelTransaction", params, clock);
            var checked := Payme.Ask(t', "CheckTransaction", params, clock).1;
            && reply.transaction < |t.payments| && t.payments[reply.transaction].externalRef == Some(params.id)
            && var paid := t.payments[reply.transaction].status == Paid;
               && (checked == Payme.Current(reply.transaction, reply.state) <==> !paid)
               && (paid ==> t' == t && checked == Payme.Current(reply.transaction, 2))
  {
    Payme.FindByRefFinds(t.payments, params.id);
    var (t', reply) := Payme.Ask(t, "CancelTransaction", params, clock);
    var pid := reply.transaction;
    Payme.FindByRefIsThe(t.payments, params.id, pid);
    assert forall q | 0 <= q < |t.payments| && q != pid :: t'.payments[q] == t.payments[q];
    Payme.FindByRefIsThe(t'.payments, params.id, pid);
  }

  lemma CancelOfAPaidPayment()
    ensures exists t: Tables, params: Payme.Params, clock: Clock ::
              && Payme.Ask(t, "CancelTransaction", params, clock) == (t, Payme.Cancelled(0, 0, -2))
              && Payme.Ask(t, "CheckTransaction", params, clock) == (t, Payme.Current(0, 2))
  {
    var order := OpenedRow(7, 0, 0, 100, "payme").(externalRef := Some("r"), status := Paid);
    var t, params := Tables([], [order], [], []), Payme.Params(Payme.Unnamed, Some(0), "r", Some(0));
    Payme.FindByRefIsThe(t.payments, "r", 0);
    assert Payme.Ask(t, "CancelTransaction", params, Clock(0, 0)) == (t, Payme.Cancelled(0, 0, -2));
    assert Payme.Ask(t, "CheckTransaction", params, Clock(0, 0)) == (t, Payme.Current(0, 2));
  }
}

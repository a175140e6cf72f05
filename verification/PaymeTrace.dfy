// What a Payme conversation can lead to, read off the calls alone.
module PaymeTrace {
  import opened Common
  import opened Billing
  import opened PaymentRuns
  import Payme

  ghost predicate PaymeOnly(es: seq<Event>) {
    forall i | 0 <= i < |es| :: es[i].Checkout? || es[i].PaymeCall?
  }

  function ReplyTo(t: Tables, e: Event): Payme.Reply
    requires e.PaymeCall?
  {
    Payme.Dispatch(t, e.authorized, e.body, e.clock).1
  }

  // Event `i` of the run is a CreateTransaction for payment `p` under id `r`, answered with
  // success, that stated the amount the payment row holds.
  ghost predicate CreatedAt(t: Tables, es: seq<Event>, i: nat, p: nat, r: string) {
    && i < |es| && Creates(Run(t, es[..i]), es[i], p, r)
  }

  ghost predicate Creates(t: Tables, e: Event, p: nat, r: string) {
    var asked := Asked(e, "CreateTransaction");
    && asked.Some? && asked.value.id == r && asked.value.time.Some?
    && ReplyTo(t, e) == Payme.Created(asked.value.time.value, p, 1)
    && Payme.Matches(t, asked.value, p)
  }

  ghost predicate PerformedAt(t: Tables, es: seq<Event>, i: nat, p: nat, r: string) {
    && i < |es| && Performs(Run(t, es[..i]), es[i], p, r)
  }

  ghost predicate Performs(t: Tables, e: Event, p: nat, r: string) {
    var asked := Finalises(e, "PerformTransaction");
    && asked.Some? && asked.value.id == r
    && ReplyTo(t, e) == Payme.Performed(asked.value.time.value, p, 2)
  }

  ghost predicate Unattached(t: Tables, p: nat) {
    p < |t.payments| ==> !Attached(t.payments[p]) && t.payments[p].status != Paid
  }

  lemma CreatedAtPrefix(t: Tables, es: seq<Event>, i: nat, p: nat, r: string)
    requires es != [] && CreatedAt(t, es[..|es| - 1], i, p, r)
    ensures CreatedAt(t, es, i, p, r)
  {
    assert es[..|es| - 1][..i] == es[..i];
  }

  lemma PerformedAtPrefix(t: Tables, es: seq<Event>, i: nat, p: nat, r: string)
    requires es != [] && PerformedAt(t, es[..|es| - 1], i, p, r)
    ensures PerformedAt(t, es, i, p, r)
  {
    assert es[..|es| - 1][..i] == es[..i];
  }

  // The only step that attaches a reference.
  lemma AttachingStep(t: Tables, e: Event, p: nat)
    requires (e.Checkout? || e.PaymeCall?) && p < |Step(t, e).payments| && Attached(Step(t, e).payments[p])
    requires p < |t.payments| ==> !Attached(t.payments[p])
    ensures p < |t.payments| && Creates(t, e, p, Step(t, e).payments[p].externalRef.value)
  {
    if e.PaymeCall? && e.body.Rpc? && e.body.params.Some? {
      Payme.FindByRefFinds(t.payments, e.body.params.value.id);
    }
  }

  // The only step that turns a payment paid.
  lemma PayingStep(t: Tables, e: Event, p: nat) returns (r: string)
    requires (e.Checkout? || e.PaymeCall?) && p < |Step(t, e).payments| && Step(t, e).payments[p].status == Paid
    requires p < |t.payments| ==> t.payments[p].status != Paid
    ensures p < |t.payments| && r != "" && Performs(t, e, p, r)
    ensures t.payments[p].externalRef == Some(r) && Step(t, e).payments[p].externalRef == Some(r)
  {
    r := "";
    if e.PaymeCall? && e.body.Rpc? && e.body.params.Some? {
      r := e.body.params.value.id;
      Payme.FindByRefFinds(t.payments, r);
    }
  }

  // A reference gets onto a payment only through a successful Create for it.
  lemma {:induction false} AttachedOnlyByCreate(t: Tables, es: seq<Event>, p: nat) returns (i: nat)
    requires PaymeOnly(es) && Unattached(t, p)
    requires p < |Run(t, es).payments| && Attached(Run(t, es).payments[p])
    ensures i < |es| && CreatedAt(t, es, i, p, Run(t, es).payments[p].externalRef.value)
  {
    var front, e := es[..|es| - 1], es[|es| - 1];
    var before := Run(t, front);
    if p < |before.payments| && Attached(before.payments[p]) {
      i := AttachedOnlyByCreate(t, front, p);
      CreatedAtPrefix(t, es, i, p, before.payments[p].externalRef.value);
      StepKeepsRows(before, e);
      assert Later(before.payments[p], Run(t, es).payments[p]);
    } else {
      i := |es| - 1;
      AttachingStep(before, e, p);
    }
  }

  ghost predicate PaidProperly(t: Tables, es: seq<Event>, p: nat, r: string, i: nat, j: nat) {
    i < j && CreatedAt(t, es, i, p, r) && PerformedAt(t, es, j, p, r)
  }

  lemma PaidByLastEvent(t: Tables, es: seq<Event>, p: nat) returns (r: string, i: nat, j: nat)
    requires PaymeOnly(es) && Unattached(t, p) && es != []
    requires p < |Run(t, es).payments| && Run(t, es).payments[p].status == Paid
    requires p < |Run(t, es[..|es| - 1]).payments| ==> Run(t, es[..|es| - 1]).payments[p].status != Paid
    ensures Run(t, es).payments[p].externalRef == Some(r) && r != ""
    ensures PaidProperly(t, es, p, r, i, j)
  {
    r := PayingStep(Run(t, es[..|es| - 1]), es[|es| - 1], p);
    j := |es| - 1;
    i := AttachedOnlyByCreate(t, es[..|es| - 1], p);
    CreatedAtPrefix(t, es, i, p, r);
  }

  lemma PaidProperlyPrefix(t: Tables, es: seq<Event>, p: nat, r: string, i: nat, j: nat)
    requires es != [] && PaidProperly(t, es[..|es| - 1], p, r, i, j)
    ensures PaidProperly(t, es, p, r, i, j)
  {
    CreatedAtPrefix(t, es, i, p, r);
    PerformedAtPrefix(t, es, j, p, r);
  }

  lemma PaidRowStays(t: Tables, e: Event, p: nat)
    requires p < |t.payments| && Attached(t.payments[p])
    ensures p < |Step(t, e).payments| && Step(t, e).payments[p].externalRef == t.payments[p].externalRef
  {
    StepKeepsRows(t, e);
    assert Later(t.payments[p], Step(t, e).payments[p]);
  }

  // In every run of checkouts and Payme calls, a payment is paid only by a Perform that follows a
  // successful Create with the same id and the right amount.
  lemma {:induction false} PaidOnlyAfterCreateAndPerform(t: Tables, es: seq<Event>, p: nat)
    returns (r: string, i: nat, j: nat)
    requires PaymeOnly(es) && Unattached(t, p)
    requires p < |Run(t, es).payments| && Run(t, es).payments[p].status == Paid
    ensures Run(t, es).payments[p].externalRef == Some(r) && r != ""
    ensures PaidProperly(t, es, p, r, i, j)
  {
    var front := es[..|es| - 1];
    if p < |Run(t, front).payments| && Run(t, front).payments[p].status == Paid {
      r, i, j := PaidOnlyAfterCreateAndPerform(t, front, p);
      PaidProperlyPrefix(t, es, p, r, i, j);
      PaidRowStays(Run(t, front), es[|es| - 1], p);
    } else {
      r, i, j := PaidByLastEvent(t, es, p);
    }
  }

  // ---- CheckTransaction ----------------------------------------------------------

  ghost predicate ReportsPerformed(t: Tables, params: Payme.Params, clock: Clock, p: nat) {
    Payme.Ask(t, "CheckTransaction", params, clock) == (t, Payme.Current(p, 2))
  }

  ghost predicate StillPerformed(t: Tables, es: seq<Event>, params: Payme.Params, clock: Clock, p: nat) {
    ReportsPerformed(Run(t, es), params, clock, p)
  }

  // Once Check answers "performed" for an id it does so forever, whatever else is delivered -
  // exactly when the id is not empty.
  lemma PerformedIsForeverExactlyWhenNonEmpty(t: Tables, params: Payme.Params, clock: Clock, p: nat)
    requires RefsUnique(t.payments) && ReportsPerformed(t, params, clock, p)
    ensures (forall es :: StillPerformed(t, es, params, clock, p)) <==> params.id != ""
  {
    Payme.FindByRefFinds(t.payments, params.id);
    if params.id != "" {
      forall es ensures StillPerformed(t, es, params, clock, p) {
        RunKeepsRows(t, es);
        assert Later(t.payments[p], Run(t, es).payments[p]);
        Payme.FindByRefIsThe(Run(t, es).payments, params.id, p);
      }
    } else {
      RefIsPermanentExactlyWhenNonEmpty(t, p);
      var es :| !KeepsRef(t, p, es);
      RunKeepsRows(t, es);
      Payme.FindByRefFinds(Run(t, es).payments, params.id);
      assert !StillPerformed(t, es, params, clock, p);
    }
  }
}

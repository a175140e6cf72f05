// The Payme merchant adapter: five JSON-RPC methods over the payment table.
//
// A request is what its JSON body says, well formed or not; authentication is an opaque flag.
module Payme {
  import opened Common
  import opened Billing

  const ERR_INVALID_AMOUNT := -31001
  const ERR_TRANSACTION_NOT_FOUND := -31003
  const ERR_INVALID_ACCOUNT := -31050
  const ERR_UNAUTHORIZED := -32504

  // `Unnamed` covers every payment id that is missing or no UUID; `Malformed` an `account` that is
  // not an object.
  datatype Account = Named(pid: nat) | Unnamed | Malformed

  // `amount` and `time` are None when `int` refuses what was sent; a missing one reads as 0, a
  // missing `id` as "".
  datatype Params = Params(account: Account, amount: Option<int>, id: string, time: Option<int>)

  // The body, and its `params`, may fail to be objects; missing params are an empty object.
  datatype Body = NotAnObject | Rpc(call: string, params: Option<Params>)

  const METHODS: set<string> := {
    "CheckPerformTransaction", "CreateTransaction", "PerformTransaction", "CancelTransaction", "CheckTransaction"
  }

  // What `dispatch` puts in the response, or `Raised` when an exception escapes it.
  datatype Reply =
    | Allow
    | Created(createTime: int, transaction: nat, state: int)
    | Performed(performTime: int, transaction: nat, state: int)
    | Cancelled(cancelTime: int, transaction: nat, state: int)
    | Current(transaction: nat, state: int)
    | Error(code: int)
    | Raised(cause: Cause)

  function FindByRef(payments: seq<Payment>, ref: string): Option<nat> {
    if payments == [] then None
    else if payments[|payments| - 1].externalRef == Some(ref) then Some(|payments| - 1)
    else FindByRef(payments[..|payments| - 1], ref)
  }

  lemma {:induction false} FindByRefFinds(payments: seq<Payment>, ref: string)
    ensures FindByRef(payments, ref).Some? ==>
              var i := FindByRef(payments, ref).value;
              i < |payments| && payments[i].externalRef == Some(ref)
    ensures FindByRef(payments, ref).None? ==>
              forall i | 0 <= i < |payments| :: payments[i].externalRef != Some(ref)
  {
    if payments != [] {
      FindByRefFinds(payments[..|payments| - 1], ref);
    }
  }

  // The unique index leaves at most one row to find.
  lemma FindByRefIsThe(payments: seq<Payment>, ref: string, i: nat)
    requires RefsUnique(payments) && i < |payments| && payments[i].externalRef == Some(ref)
    ensures FindByRef(payments, ref) == Some(i)
    ensures !RefTaken(payments, i, ref)
  {
    FindByRefFinds(payments, ref);
  }

  function StateCode(status: Status): int {
    match status
    case Pending => 1
    case Paid => 2
    case Failed => -2
    case Refunded => -2
  }

  // ---- specification ---------------------------------------------------------

  function CheckPerform(t: Tables, params: Params): Reply {
    match params.account
    case Malformed => Raised(AttributeError)
    case Unnamed => Error(ERR_INVALID_ACCOUNT)
    case Named(pid) =>
      if pid >= |t.payments| then Error(ERR_INVALID_ACCOUNT)
      else if params.amount.None? then Raised(ValueError)
      else if params.amount.value != t.payments[pid].amount then Error(ERR_INVALID_AMOUNT)
      else if t.payments[pid].status != Pending then Error(ERR_INVALID_ACCOUNT)
      else Allow
  }

  function CreateTransaction(t: Tables, params: Params): (Tables, Reply) {
    match params.account
    case Malformed => (t, Raised(AttributeError))
    case Unnamed => (t, Error(ERR_INVALID_ACCOUNT))
    case Named(pid) =>
      if pid >= |t.payments| then (t, Error(ERR_INVALID_ACCOUNT))
      else if params.amount.None? then (t, Raised(ValueError))
      else if params.amount.value != t.payments[pid].amount then (t, Error(ERR_INVALID_AMOUNT))
      else if params.id == "" then (t, Error(ERR_TRANSACTION_NOT_FOUND))
      else if Attached(t.payments[pid]) && t.payments[pid].externalRef != Some(params.id) then
        (t, Error(ERR_INVALID_ACCOUNT))
      else if !Attached(t.payments[pid]) && RefTaken(t.payments, pid, params.id) then
        (t, Raised(Billing(IntegrityError)))
      else if params.time.None? then (t, Raised(ValueError))
      else
        (t.(payments := t.payments[pid := t.payments[pid].(externalRef := Some(params.id))]),
         Created(params.time.value, pid, 1))
  }

  // Perform and Cancel both look the row up by its reference and hand over to the webhook; a time
  // that cannot be read afterwards undoes it.
  function Finalise(t: Tables, params: Params, outcome: Outcome, clock: Clock, ok: (int, nat) -> Reply)
    : (Tables, Reply)
  {
    match FindByRef(t.payments, params.id)
    case None => (t, Error(ERR_TRANSACTION_NOT_FOUND))
    case Some(pid) =>
      var (t', result) := Webhook(t, pid, params.id, outcome, clock);
      if result != Applied then (t', Raised(Billing(result)))
      else if params.time.None? then (t, Raised(ValueError))
      else (t', ok(params.time.value, pid))
  }

  function PerformTransaction(t: Tables, params: Params, clock: Clock): (Tables, Reply) {
    if params.id == "" then (t, Error(ERR_TRANSACTION_NOT_FOUND))
    else Finalise(t, params, AsPaid, clock, (time: int, pid: nat) => Performed(time, pid, 2))
  }

  function CancelTransaction(t: Tables, params: Params, clock: Clock): (Tables, Reply) {
    Finalise(t, params, AsFailed, clock, (time: int, pid: nat) => Cancelled(time, pid, -2))
  }

  function CheckTransaction(t: Tables, params: Params): Reply {
    match FindByRef(t.payments, params.id)
    case None => Error(ERR_TRANSACTION_NOT_FOUND)
    case Some(pid) =>
      FindByRefFinds(t.payments, params.id);
      Current(pid, StateCode(t.payments[pid].status))
  }

  function Dispatch(t: Tables, authorized: bool, body: Body, clock: Clock): (Tables, Reply) {
    if body.NotAnObject? then (t, Raised(AttributeError))
    else if !authorized then (t, Error(ERR_UNAUTHORIZED))
    else if body.call !in METHODS then (t, Error(ERR_TRANSACTION_NOT_FOUND))
    else match body.params
      case None => (t, Raised(AttributeError))
      case Some(params) => Call(t, body.call, params, clock)
  }

  function Call(t: Tables, call: string, params: Params, clock: Clock): (Tables, Reply)
    requires call in METHODS
  {
    if call == "CheckPerformTransaction" then (t, CheckPerform(t, params))
    else if call == "CreateTransaction" then CreateTransaction(t, params)
    else if call == "PerformTransaction" then PerformTransaction(t, params, clock)
    else if call == "CancelTransaction" then CancelTransaction(t, params, clock)
    else (t, CheckTransaction(t, params))
  }

  // ---- handlers over the store -----------------------------------------------

  method HandleCreate(db: BillingDb, params: Params) returns (reply: Reply)
    modifies db
    ensures (db.View(), reply) == CreateTransaction(old(db.View()), params)
  {
    if params.account.Malformed? {
      return Raised(AttributeError);
    }
    if params.account.Unnamed? || params.account.pid >= |db.payments| {
      return Error(ERR_INVALID_ACCOUNT);
    }
    var pid := params.account.pid;
    var saved, payment := db.payments, db.payments[pid];
    if params.amount.None? {
      return Raised(ValueError);
    }
    if params.amount.value != payment.amount {
      return Error(ERR_INVALID_AMOUNT);
    }
    if params.id == "" {
      return Error(ERR_TRANSACTION_NOT_FOUND);
    }
    if Attached(payment) && payment.externalRef.value != params.id {
      return Error(ERR_INVALID_ACCOUNT);
    }
    if !Attached(payment) {
      if RefTaken(db.payments, pid, params.id) {
        return Raised(Billing(IntegrityError));
      }
      payment := payment.(externalRef := Some(params.id));
      db.payments := db.payments[pid := payment];
    }
    assert db.payments == saved[pid := saved[pid].(externalRef := Some(params.id))];
    if params.time.None? {
      db.payments := saved;
      return Raised(ValueError);
    }
    return Created(params.time.value, pid, 1);
  }

  method HandlePerform(db: BillingDb, params: Params, clock: Clock) returns (reply: Reply)
    modifies db
    ensures (db.View(), reply) == PerformTransaction(old(db.View()), params, clock)
  {
    if params.id == "" {
      return Error(ERR_TRANSACTION_NOT_FOUND);
    }
    var saved := db.View();
    var found := FindByRef(db.payments, params.id);
    if found.None? {
      return Error(ERR_TRANSACTION_NOT_FOUND);
    }
    var result := db.ApplyWebhook(found.value, params.id, AsPaid, clock);
    if result != Applied {
      return Raised(Billing(result));
    }
    if params.time.None? {
      db.Restore(saved);
      return Raised(ValueError);
    }
    return Performed(params.time.value, found.value, 2);
  }

  method HandleCancel(db: BillingDb, params: Params, clock: Clock) returns (reply: Reply)
    modifies db
    ensures (db.View(), reply) == CancelTransaction(old(db.View()), params, clock)
  {
    var saved := db.View();
    var found := FindByRef(db.payments, params.id);
    if found.None? {
      return Error(ERR_TRANSACTION_NOT_FOUND);
    }
    var result := db.ApplyWebhook(found.value, params.id, AsFailed, clock);
    if result != Applied {
      return Raised(Billing(result));
    }
    if params.time.None? {
      db.Restore(saved);
      return Raised(ValueError);
    }
    return Cancelled(params.time.value, found.value, -2);
  }

  method HandleRpc(db: BillingDb, authorized: bool, body: Body, clock: Clock) returns (reply: Reply)
    modifies db
    ensures (db.View(), reply) == Dispatch(old(db.View()), authorized, body, clock)
  {
    if body.NotAnObject? {
      return Raised(AttributeError);
    }
    if !authorized {
      return Error(ERR_UNAUTHORIZED);
    }
    if body.call !in METHODS {
      return Error(ERR_TRANSACTION_NOT_FOUND);
    }
    if body.params.None? {
      return Raised(AttributeError);
    }
    var params := body.params.value;
    if body.call == "CheckPerformTransaction" {
      reply := CheckPerform(db.View(), params);
    } else if body.call == "CreateTransaction" {
      reply := HandleCreate(db, params);
    } else if body.call == "PerformTransaction" {
      reply := HandlePerform(db, params, clock);
    } else if body.call == "CancelTransaction" {
      reply := HandleCancel(db, params, clock);
    } else {
      reply := CheckTransaction(db.View(), params);
    }
  }

  // ---- when an exception escapes ---------------------------------------------

  // The account names the payment `pid`, and the amount read is its own.
  ghost predicate Matches(t: Tables, params: Params, pid: nat) {
    pid < |t.payments| && params.account == Named(pid) && params.amount == Some(t.payments[pid].amount)
  }

  ghost predicate IsHeld(t: Tables, id: string) {
    exists pid | 0 <= pid < |t.payments| :: t.payments[pid].externalRef == Some(id)
  }

  // The parameters a method cannot cope with.
  ghost predicate RaisesOn(t: Tables, call: string, params: Params) {
    match call
    case "CheckPerformTransaction" =>
      params.account.Malformed?
      || (params.account.Named? && params.account.pid < |t.payments| && params.amount.None?)
    case "CreateTransaction" =>
      params.account.Malformed?
      || (params.account.Named? && params.account.pid < |t.payments| && params.amount.None?)
      || (params.id != "" && exists pid: nat ::
            Matches(t, params, pid)
            && ((!Attached(t.payments[pid]) && (RefTaken(t.payments, pid, params.id) || params.time.None?))
                || (t.payments[pid].externalRef == Some(params.id) && params.time.None?)))
    case "PerformTransaction" => params.id != "" && IsHeld(t, params.id) && params.time.None?
    case "CancelTransaction" => IsHeld(t, params.id) && params.time.None?
    case _ => false
  }

  lemma CallRaisesExactlyWhen(t: Tables, call: string, params: Params, clock: Clock)
    requires RefsUnique(t.payments) && call in METHODS
    ensures Call(t, call, params, clock).1.Raised? <==> RaisesOn(t, call, params)
    ensures Call(t, call, params, clock).1.Raised? ==> Call(t, call, params, clock).0 == t
  {
    var found := FindByRef(t.payments, params.id);
    FindByRefFinds(t.payments, params.id);
    if found.Some? {
      FindByRefIsThe(t.payments, params.id, found.value);
    }
    if params.account.Named? && params.account.pid < |t.payments| && params.amount.Some? {
      assert Matches(t, params, params.account.pid) <==> params.amount.value == t.payments[params.account.pid].amount;
    }
  }

  // The adapter promises to answer every protocol-level problem with an error envelope. What escapes
  // it instead, and then changes nothing: a body that is no object; for a known method, params that
  // are none; an account that is none; a number `int` refuses, where the method comes to read it;
  // and Create with an id attached to another payment.
  lemma DispatchRaisesExactlyWhen(t: Tables, authorized: bool, body: Body, clock: Clock)
    requires RefsUnique(t.payments)
    ensures Dispatch(t, authorized, body, clock).1.Raised?
            <==> body.NotAnObject?
                 || (authorized && body.call in METHODS
                     && (body.params.None? || RaisesOn(t, body.call, body.params.value)))
    ensures Dispatch(t, authorized, body, clock).1.Raised? ==> Dispatch(t, authorized, body, clock).0 == t
  {
    if body.Rpc? && body.call in METHODS && body.params.Some? {
      CallRaisesExactlyWhen(t, body.call, body.params.value, clock);
    }
  }

  // A body all of whose parts can be read. On these one call alone breaks the promise.
  ghost predicate WellFormed(body: Body) {
    body.Rpc? && body.params.Some?
    && !body.params.value.account.Malformed? && body.params.value.amount.Some? && body.params.value.time.Some?
  }

  lemma WellFormedRaisesExactlyWhen(t: Tables, authorized: bool, body: Body, clock: Clock)
    requires RefsUnique(t.payments) && WellFormed(body)
    ensures Dispatch(t, authorized, body, clock).1.Raised?
            <==> authorized && body.call == "CreateTransaction" && body.params.value.id != ""
                 && exists pid: nat ::
                      Matches(t, body.params.value, pid) && !Attached(t.payments[pid])
                      && RefTaken(t.payments, pid, body.params.value.id)
  {
    DispatchRaisesExactlyWhen(t, authorized, body, clock);
  }

  // Perform and Cancel never meet the reference-mismatch error, nor any other of the webhook's.
  lemma FinaliseNeverMismatches(t: Tables, params: Params, clock: Clock)
    requires RefsUnique(t.payments)
    ensures !(PerformTransaction(t, params, clock).1.Raised? && PerformTransaction(t, params, clock).1.cause.Billing?)
    ensures !(CancelTransaction(t, params, clock).1.Raised? && CancelTransaction(t, params, clock).1.cause.Billing?)
    ensures PerformTransaction(t, params, clock).1.Performed? ==>
              var pid := PerformTransaction(t, params, clock).1.transaction;
              pid < |t.payments| && t.payments[pid].externalRef == Some(params.id)
              && (t.payments[pid].status.Refunded? || PerformTransaction(t, params, clock).0.payments[pid].status.Paid?)
  {
    var found := FindByRef(t.payments, params.id);
    FindByRefFinds(t.payments, params.id);
    if found.Some? {
      FindByRefIsThe(t.payments, params.id, found.value);
    }
  }

  // ---- what each call is answered ------------------------------------------------

  // An authorised call of this method, with params that are an object.
  predicate Calls(authorized: bool, body: Body, call: string) {
    authorized && body.Rpc? && body.call == call && body.params.Some?
  }

  // Who is not authorised is told so, whatever is asked, and nothing changes; so is who asks for a
  // method there is not.
  lemma StrangersAreRefused(t: Tables, authorized: bool, body: Body, clock: Clock)
    ensures var (t', reply) := Dispatch(t, authorized, body, clock);
            var known := body.Rpc? && (body.call == "CheckPerformTransaction" || body.call == "CreateTransaction"
                                       || body.call == "PerformTransaction" || body.call == "CancelTransaction"
                                       || body.call == "CheckTransaction");
            && (reply == Error(-32504) <==> !authorized && body.Rpc?)
            && (!authorized ==> t' == t)
            && (authorized && body.Rpc? && !known ==> (t', reply) == (t, Error(-31003)))
  {}

  ghost predicate Unknown(t: Tables, account: Account) {
    account.Unnamed? || (account.Named? && |t.payments| <= account.pid)
  }

  ghost predicate AmountDiffers(t: Tables, params: Params) {
    params.account.Named? && params.account.pid < |t.payments|
    && params.amount.Some? && params.amount.value != t.payments[params.account.pid].amount
  }

  // "Allow" is said exactly about a pending payment whose amount is the one asked for; -31001 means
  // another amount; -31050 no such payment, or one no longer pending.
  lemma AllowedExactlyWhenPayable(t: Tables, authorized: bool, body: Body, clock: Clock)
    ensures var (t', reply) := Dispatch(t, authorized, body, clock);
            && (reply == Allow <==>
                  Calls(authorized, body, "CheckPerformTransaction")
                  && exists pid: nat :: Matches(t, body.params.value, pid) && t.payments[pid].status.Pending?)
            && (Calls(authorized, body, "CheckPerformTransaction") ==>
                  && t' == t
                  && (reply == Error(-31001) <==> AmountDiffers(t, body.params.value))
                  && (reply == Error(-31050) <==>
                        Unknown(t, body.params.value.account)
                        || exists pid: nat :: Matches(t, body.params.value, pid) && !t.payments[pid].status.Pending?))
  {
    if Calls(authorized, body, "CheckPerformTransaction") && body.params.value.account.Named? {
      var pid := body.params.value.account.pid;
      assert Matches(t, body.params.value, pid)
        <==> pid < |t.payments| && body.params.value.amount == Some(t.payments[pid].amount);
    }
  }

  // Create can put the id on this payment, or finds it there.
  ghost predicate Attachable(t: Tables, pid: nat, id: string)
    requires pid < |t.payments|
  {
    t.payments[pid].externalRef == Some(id)
    || (!Attached(t.payments[pid]) && forall q | 0 <= q < |t.payments| :: t.payments[q].externalRef != Some(id))
  }

  // Create succeeds exactly for a payment of that amount that holds the id or can take it.
  lemma CreateAnswersExactlyWhen(t: Tables, authorized: bool, body: Body, clock: Clock)
    ensures var (t', reply) := Dispatch(t, authorized, body, clock);
            && (reply.Created? <==>
                  Calls(authorized, body, "CreateTransaction")
                  && body.params.value.id != "" && body.params.value.time.Some?
                  && exists pid: nat :: Matches(t, body.params.value, pid)
                                        && Attachable(t, pid, body.params.value.id))
            && (reply.Created? ==>
                  body.params.value.account.Named?
                  && reply == Created(body.params.value.time.value, body.params.value.account.pid, 1))
            && (Calls(authorized, body, "CreateTransaction") ==>
                  && (reply == Error(-31001) <==> AmountDiffers(t, body.params.value))
                  && (reply == Error(-31003) <==>
                        body.params.value.id == "" && exists pid: nat :: Matches(t, body.params.value, pid))
                  && (reply == Error(-31050) <==>
                        Unknown(t, body.params.value.account)
                        || (body.params.value.id != "" && exists pid: nat ::
                              Matches(t, body.params.value, pid)
                              && HeldByAnother(t.payments[pid], body.params.value.id))))
  {
    if Calls(authorized, body, "CreateTransaction") && body.params.value.account.Named? {
      var pid := body.params.value.account.pid;
      assert Matches(t, body.params.value, pid)
        <==> pid < |t.payments| && body.params.value.amount == Some(t.payments[pid].amount);
    }
  }

  // The payment then holds the id, nothing else changes, and asking again changes nothing and
  // answers the same.
  lemma CreateAttaches(t: Tables, body: Body, clock: Clock)
    requires body.Rpc? && body.call == "CreateTransaction"
    ensures var (t', reply) := Dispatch(t, true, body, clock);
            && (!reply.Created? ==> t' == t)
            && (reply.Created? ==>
                  && reply.transaction < |t.payments| && body.params.Some?
                  && t'.payments == t.payments[reply.transaction :=
                                     t.payments[reply.transaction].(externalRef := Some(body.params.value.id))]
                  && t' == t.(payments := t'.payments)
                  && Dispatch(t', true, body, clock) == (t', reply))
  {
    var (t', reply) := Dispatch(t, true, body, clock);
    if reply.Created? {
      var row := t'.payments[reply.transaction];
      assert row.externalRef == Some(body.params.value.id) && t'.payments[reply.transaction := row] == t'.payments;
    }
  }

  // Perform and Cancel answer for the one payment that holds the id, after handing it to the
  // webhook as paid or as failed.
  lemma PerformAnswersExactlyWhen(t: Tables, authorized: bool, body: Body, clock: Clock)
    requires RefsUnique(t.payments)
    ensures var (t', reply) := Dispatch(t, authorized, body, clock);
            && (reply.Performed? <==>
                  Calls(authorized, body, "PerformTransaction") && body.params.value.id != ""
                  && body.params.value.time.Some? && IsHeld(t, body.params.value.id))
            && (reply.Performed? ==>
                  && reply == Performed(body.params.value.time.value, reply.transaction, 2)
                  && reply.transaction < |t.payments|
                  && t.payments[reply.transaction].externalRef == Some(body.params.value.id)
                  && Webhook(t, reply.transaction, body.params.value.id, AsPaid, clock) == (t', Applied))
            && (Calls(authorized, body, "PerformTransaction") ==>
                  (reply == Error(-31003) <==> body.params.value.id == "" || !IsHeld(t, body.params.value.id))
                  && (!reply.Performed? ==> t' == t))
  {
    if Calls(authorized, body, "PerformTransaction") {
      HolderIsFound(t, body.params.value.id);
    }
  }

  lemma CancelAnswersExactlyWhen(t: Tables, authorized: bool, body: Body, clock: Clock)
    requires RefsUnique(t.payments)
    ensures var (t', reply) := Dispatch(t, authorized, body, clock);
            && (reply.Cancelled? <==>
                  Calls(authorized, body, "CancelTransaction")
                  && body.params.value.time.Some? && IsHeld(t, body.params.value.id))
            && (reply.Cancelled? ==>
                  && reply == Cancelled(body.params.value.time.value, reply.transaction, -2)
                  && reply.transaction < |t.payments|
                  && t.payments[reply.transaction].externalRef == Some(body.params.value.id)
                  && Webhook(t, reply.transaction, body.params.value.id, AsFailed, clock) == (t', Applied))
            && (Calls(authorized, body, "CancelTransaction") ==>
                  (reply == Error(-31003) <==> !IsHeld(t, body.params.value.id))
                  && (!reply.Cancelled? ==> t' == t))
  {
    if Calls(authorized, body, "CancelTransaction") {
      HolderIsFound(t, body.params.value.id);
    }
  }

  lemma HolderIsFound(t: Tables, id: string)
    requires RefsUnique(t.payments)
    ensures FindByRef(t.payments, id).Some? <==> IsHeld(t, id)
    ensures forall pid | 0 <= pid < |t.payments| && t.payments[pid].externalRef == Some(id) ::
              FindByRef(t.payments, id) == Some(pid) && !RefTaken(t.payments, pid, id)
  {
    FindByRefFinds(t.payments, id);
    forall pid | 0 <= pid < |t.payments| && t.payments[pid].externalRef == Some(id)
      ensures FindByRef(t.payments, id) == Some(pid) && !RefTaken(t.payments, pid, id)
    {
      FindByRefIsThe(t.payments, id, pid);
    }
  }

  // Check answers, for the one payment that holds the id, 1 while it is pending, 2 when it is paid
  // and -2 when it failed or was refunded; -31003 when no payment holds it. It changes nothing.
  lemma CheckReadsTheStatus(t: Tables, authorized: bool, body: Body, clock: Clock)
    requires RefsUnique(t.payments)
    ensures var (t', reply) := Dispatch(t, authorized, body, clock);
            && (reply.Current? <==>
                  Calls(authorized, body, "CheckTransaction") && IsHeld(t, body.params.value.id))
            && (reply.Current? ==>
                  && reply.transaction < |t.payments|
                  && t.payments[reply.transaction].externalRef == Some(body.params.value.id)
                  && var status := t.payments[reply.transaction].status;
                     && (reply.state == 1 <==> status.Pending?)
                     && (reply.state == 2 <==> status.Paid?)
                     && (reply.state == -2 <==> status.Failed? || status.Refunded?))
            && (Calls(authorized, body, "CheckTransaction") ==>
                  t' == t && (reply == Error(-31003) <==> !IsHeld(t, body.params.value.id)))
  {
    if Calls(authorized, body, "CheckTransaction") {
      HolderIsFound(t, body.params.value.id);
    }
  }

  // ---- the conversation ---------------------------------------------------------

  function Ask(t: Tables, call: string, params: Params, clock: Clock): (Tables, Reply) {
    Dispatch(t, true, Rpc(call, Some(params)), clock)
  }

  // `pid` is open and held by the transaction `id`, as a first Create leaves it.
  ghost predicate HeldOpen(t: Tables, pid: nat, id: string) {
    && RefsUnique(t.payments) && pid < |t.payments|
    && t.payments[pid].status.Pending? && id != "" && t.payments[pid].externalRef == Some(id)
  }

  lemma HeldOpenSettles(t: Tables, params: Params, clock: Clock, pid: nat, outcome: Outcome)
    requires HeldOpen(t, pid, params.id) && params.time.Some?
    ensures var (t', reply) := Ask(t, if outcome.AsPaid? then "PerformTransaction" else "CancelTransaction", params, clock);
            && reply == (if outcome.AsPaid? then Performed(params.time.value, pid, 2)
                         else Cancelled(params.time.value, pid, -2))
            && pid < |t'.payments|
            && t'.payments[pid] == t.payments[pid].(
                                     status := if outcome.AsPaid? then Paid else Failed,
                                     paidAt := if outcome.AsPaid? then Some(clock.paidAt) else t.payments[pid].paidAt)
            && Ask(t', "CheckTransaction", params, clock) == (t', Current(pid, if outcome.AsPaid? then 2 else -2))
  {
    FindByRefIsThe(t.payments, params.id, pid);
    var t' := Webhook(t, pid, params.id, outcome, clock).0;
    assert t'.payments[pid].externalRef == Some(params.id);
    assert forall q | 0 <= q < |t.payments| && q != pid :: t'.payments[q] == t.payments[q];
    FindByRefFinds(t'.payments, params.id);
  }

  // Once allowed, Create and Perform under an unused id carry the payment through to paid, and
  // Check then reports it performed; a Cancel instead of the Perform leaves it failed.
  lemma AllowedPaymentsGoThrough(t: Tables, pid: nat, params: Params, clock: Clock)
    requires RefsUnique(t.payments) && params.account == Named(pid) && params.id != "" && params.time.Some?
    requires Ask(t, "CheckPerformTransaction", params, clock).1 == Allow
    requires pid < |t.payments| ==> !Attached(t.payments[pid])
    requires forall q | 0 <= q < |t.payments| :: t.payments[q].externalRef != Some(params.id)
    ensures var (t1, created) := Ask(t, "CreateTransaction", params, clock);
            var (t2, performed) := Ask(t1, "PerformTransaction", params, clock);
            var (t3, cancelled) := Ask(t1, "CancelTransaction", params, clock);
            && created == Created(params.time.value, pid, 1)
            && performed == Performed(params.time.value, pid, 2)
            && Ask(t1, "CheckTransaction", params, clock) == (t1, Current(pid, 1))
            && Ask(t2, "CheckTransaction", params, clock) == (t2, Current(pid, 2))
            && cancelled == Cancelled(params.time.value, pid, -2)
            && Ask(t3, "CheckTransaction", params, clock) == (t3, Current(pid, -2))
  {
    var t1 := Ask(t, "CreateTransaction", params, clock).0;
    assert HeldOpen(t1, pid, params.id);
    FindByRefIsThe(t1.payments, params.id, pid);
    HeldOpenSettles(t1, params, clock, pid, AsPaid);
    HeldOpenSettles(t1, params, clock, pid, AsFailed);
  }
}

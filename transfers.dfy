/**
 * The money transfer of app/Http/Controllers/Transaction/StoreController.php
 * as a function of the ledger state: validation (lines 18-30), commission and
 * total debit (32-34), the balance check (37-39 and again under lock, 46-48),
 * debit and credit (54-55) and the `completed` record (58-64), all inside one
 * database transaction (42-70) whose failure leaves nothing behind.
 */
module Transfers {
  import opened Wrappers
  import opened Money
  import opened TransactionsTable
  import opened Database

  /** A request field that failed validation. */
  datatype Field = ReceiverField | AmountField

  datatype TransferError =
    | ValidationFailed(fields: set<Field>)  // the request rules, every failing field reported
    | SelfTransfer                          // "You cannot send money to yourself."
    | InsufficientBalance                   // "Insufficient balance."
    | TransactionFailed                     // any other exception in the database transaction

  /** The submitted form. `receiverId` is None when missing or not a user id,
      `amount` is None when missing or not numeric. */
  datatype TransferRequest = TransferRequest(receiverId: Option<UserId>, amount: Option<Decimal>)

  /** `receiver_id` must be present and name an existing user. */
  predicate ReceiverValid(users: set<UserId>, req: TransferRequest) {
    req.receiverId.Some? && req.receiverId.value in users
  }

  /** `amount` must be present, numeric and greater than zero as submitted. */
  predicate AmountValid(req: TransferRequest) {
    req.amount.Some? && req.amount.value.digits > 0
  }

  /** Every field whose rules fail. */
  function InvalidFields(users: set<UserId>, req: TransferRequest): (fields: set<Field>)
    ensures ReceiverField in fields <==> !ReceiverValid(users, req)
    ensures AmountField in fields <==> !AmountValid(req)
    ensures fields == {} <==> ReceiverValid(users, req) && AmountValid(req)
  {
    (if ReceiverValid(users, req) then {} else {ReceiverField})
    + (if AmountValid(req) then {} else {AmountField})
  }

  /** Debit the sender by the total, then credit the receiver by the amount. */
  function Settle(balances: map<UserId, int>, senderId: UserId, receiverId: UserId, amount: int, total: int)
    : (settled: map<UserId, int>)
    requires senderId in balances && receiverId in balances && senderId != receiverId
    ensures settled.Keys == balances.Keys
    ensures settled[senderId] == balances[senderId] - total
    ensures settled[receiverId] == balances[receiverId] + amount
    ensures forall u :: u in balances && u != senderId && u != receiverId ==> settled[u] == balances[u]
  {
    var debited := balances[senderId := balances[senderId] - total];
    debited[receiverId := debited[receiverId] + amount]
  }

  datatype StepResult = StepResult(next: LedgerState, outcome: Result<TransactionRecord, TransferError>)

  /** One transfer request from the authenticated user `senderId`, at clock
      reading `now`. `dbFault` stands for any exception raised inside the
      database transaction's closure (lost connection, lock timeout, a failing
      event dispatch); it rolls the transaction back.
      Every rejection leaves balances, log and id counter as they were, and a
      transfer succeeds exactly when the request is valid, names another user,
      the sender covers amount plus commission, the row fits its columns and
      nothing raises. */
  function TransferStep(s: LedgerState, senderId: UserId, req: TransferRequest, now: int, dbFault: bool)
    : (r: StepResult)
    requires senderId in s.balances
    ensures r.outcome.Failure? ==> r.next == s
    ensures r.outcome.Success? <==>
      && ReceiverValid(s.balances.Keys, req) && AmountValid(req)
      && req.receiverId.value != senderId
      && s.balances[senderId] >= TotalDebit(ToCents(req.amount.value))
      && FitsDecimal(TotalDebit(ToCents(req.amount.value)))
      && !dbFault
  {
    var invalid := InvalidFields(s.balances.Keys, req);
    if invalid != {} then StepResult(s, Failure(ValidationFailed(invalid)))
    else
      var receiverId := req.receiverId.value;
      if receiverId == senderId then StepResult(s, Failure(SelfTransfer))
      else
        var amount := ToCents(req.amount.value);
        var commission := Commission(amount);
        var totalDebit := TotalDebit(amount);
        if s.balances[senderId] < totalDebit then StepResult(s, Failure(InsufficientBalance))
        else
          var row := NewRow(s.nextId, senderId, receiverId, amount, Some(commission), Some(Completed), now);
          if dbFault || row.None? then StepResult(s, Failure(TransactionFailed))
          else
            var balances := Settle(s.balances, senderId, receiverId, amount, totalDebit);
            StepResult(LedgerState(balances, s.log + [row.value], s.nextId + 1), Success(row.value))
  }

  // ----- Rejections -----

  /** A missing or unknown receiver, or a missing, non-numeric or non-positive
      amount, is rejected naming exactly the failing fields. */
  lemma InvalidRequestRejected(s: LedgerState, senderId: UserId, req: TransferRequest, now: int, dbFault: bool)
    requires senderId in s.balances
    requires !ReceiverValid(s.balances.Keys, req) || !AmountValid(req)
    ensures var r := TransferStep(s, senderId, req, now, dbFault);
      && r.next == s
      && r.outcome.Failure? && r.outcome.error.ValidationFailed?
      && (ReceiverField in r.outcome.error.fields <==> !ReceiverValid(s.balances.Keys, req))
      && (AmountField in r.outcome.error.fields <==> !AmountValid(req))
  {
    if ReceiverValid(s.balances.Keys, req) {
      assert AmountField in InvalidFields(s.balances.Keys, req);
    } else {
      assert ReceiverField in InvalidFields(s.balances.Keys, req);
    }
  }

  /** Sending to oneself is always rejected, whatever the amount and balance. */
  lemma SelfTransferRejected(s: LedgerState, senderId: UserId, req: TransferRequest, now: int, dbFault: bool)
    requires senderId in s.balances
    requires req.receiverId == Some(senderId)
    ensures var r := TransferStep(s, senderId, req, now, dbFault);
      r.next == s && r.outcome.Failure?
      && (r.outcome.error == SelfTransfer || r.outcome.error.ValidationFailed?)
      && (AmountValid(req) ==> r.outcome.error == SelfTransfer)
  {
  }

  /** A sender whose balance is below amount plus commission is refused. */
  lemma InsufficientBalanceRejected(s: LedgerState, senderId: UserId, req: TransferRequest, now: int, dbFault: bool)
    requires senderId in s.balances
    requires ReceiverValid(s.balances.Keys, req) && AmountValid(req)
    requires req.receiverId.value != senderId
    requires s.balances[senderId] < TotalDebit(ToCents(req.amount.value))
    ensures var r := TransferStep(s, senderId, req, now, dbFault);
      r.next == s && r.outcome == Failure(InsufficientBalance)
  {
    assert InvalidFields(s.balances.Keys, req) == {};
  }

  // ----- Success -----

  /** On success the sender loses amount plus commission, the receiver gains
      the amount, nobody else's balance moves and no account appears or
      disappears. */
  lemma TransferMovesMoney(s: LedgerState, senderId: UserId, req: TransferRequest, now: int, dbFault: bool)
    requires senderId in s.balances
    requires TransferStep(s, senderId, req, now, dbFault).outcome.Success?
    ensures var r := TransferStep(s, senderId, req, now, dbFault);
      var receiverId := req.receiverId.value;
      var amount := ToCents(req.amount.value);
      && r.next.balances.Keys == s.balances.Keys
      && r.next.balances[senderId] == s.balances[senderId] - amount - Commission(amount)
      && r.next.balances[receiverId] == s.balances[receiverId] + amount
      && forall u :: u in s.balances && u != senderId && u != receiverId ==>
           r.next.balances[u] == s.balances[u]
  {
  }

  /** On success exactly one row is appended: sender, receiver, the rounded
      amount, its commission, status `completed`, the next id and the clock
      reading; its total debited is what left the sender's account. */
  lemma TransferAppendsRecord(s: LedgerState, senderId: UserId, req: TransferRequest, now: int, dbFault: bool)
    requires senderId in s.balances
    requires TransferStep(s, senderId, req, now, dbFault).outcome.Success?
    ensures var r := TransferStep(s, senderId, req, now, dbFault);
      var t := r.outcome.value;
      && r.next.log == s.log + [t]
      && r.next.nextId == s.nextId + 1
      && t.id == s.nextId && t.createdAt == now
      && t.senderId == senderId && t.receiverId == req.receiverId.value
      && t.amount == ToCents(req.amount.value)
      && t.commissionFee == Commission(t.amount)
      && t.status == Completed
      && t.TotalDebited() == s.balances[senderId] - r.next.balances[senderId]
  {
  }

  /** The sum of all balances drops by exactly the commission, which is
      credited to no account. */
  lemma TransferConservation(s: LedgerState, senderId: UserId, req: TransferRequest, now: int, dbFault: bool)
    requires senderId in s.balances
    requires TransferStep(s, senderId, req, now, dbFault).outcome.Success?
    ensures var r := TransferStep(s, senderId, req, now, dbFault);
      Total(r.next.balances) == Total(s.balances) - r.outcome.value.commissionFee
  {
    var receiverId := req.receiverId.value;
    var amount := ToCents(req.amount.value);
    var total := TotalDebit(amount);
    var debited := s.balances[senderId := s.balances[senderId] - total];
    TotalUpdate(s.balances, senderId, s.balances[senderId] - total);
    TotalUpdate(debited, receiverId, debited[receiverId] + amount);
  }

  /** After a successful transfer the sender's balance is not negative, and
      a ledger without negative balances stays so. */
  lemma TransferKeepsBalancesNonNegative(s: LedgerState, senderId: UserId, req: TransferRequest, now: int, dbFault: bool)
    requires senderId in s.balances
    ensures var r := TransferStep(s, senderId, req, now, dbFault);
      r.outcome.Success? ==> r.next.balances[senderId] >= 0
    ensures NonNegative(s.balances) ==> NonNegative(TransferStep(s, senderId, req, now, dbFault).next.balances)
  {
  }

  /** A transfer keeps the schema's constraints. */
  lemma TransferWellFormed(s: LedgerState, senderId: UserId, req: TransferRequest, now: int, dbFault: bool)
    requires senderId in s.balances && WellFormed(s)
    ensures WellFormed(TransferStep(s, senderId, req, now, dbFault).next)
  {
    var r := TransferStep(s, senderId, req, now, dbFault);
    if r.outcome.Success? {
      var log := r.next.log;
      assert log == s.log + [r.outcome.value];
      forall i, j | 0 <= i < j < |log| ensures log[i].id < log[j].id {
        if j == |log| - 1 {
          assert log[i] == s.log[i];
        } else {
          assert log[i] == s.log[i] && log[j] == s.log[j];
        }
      }
    }
  }

  // ----- Examples -----

  /** 1000.00 and 500.00; 100.00 from the first to the second leaves 898.50
      and 600.00 and records a commission of 1.50. */
  lemma ExampleTransfer()
    ensures var s := LedgerState(map[1 := 100000, 2 := 50000], [], 1);
      var r := TransferStep(s, 1, TransferRequest(Some(2), Some(Decimal(10000, 2))), 0, false);
      && r.outcome.Success?
      && r.next.balances == map[1 := 89850, 2 := 60000]
      && r.outcome.value == TransactionRecord(1, 1, 2, 10000, 150, Completed, 0)
  {
    CommissionExample();
    assert ToCents(Decimal(10000, 2)) == 10000 by { ToCentsExamples(); }
  }

  /** 10.00 does not cover 100.00 plus commission: nothing changes. */
  lemma ExampleInsufficient()
    ensures var s := LedgerState(map[1 := 1000, 2 := 50000], [], 1);
      var r := TransferStep(s, 1, TransferRequest(Some(2), Some(Decimal(10000, 2))), 0, false);
      r.outcome == Failure(InsufficientBalance) && r.next == s
  {
    CommissionExample();
    assert ToCents(Decimal(10000, 2)) == 10000 by { ToCentsExamples(); }
  }

  /** Positivity is checked before rounding: 0.004 passes validation, rounds
      to 0.00, and a zero-amount `completed` row is written. */
  lemma SubCentAmountRecordedAsZero(s: LedgerState, senderId: UserId, receiverId: UserId, now: int)
    requires senderId in s.balances && receiverId in s.balances && senderId != receiverId
    requires s.balances[senderId] >= 0
    ensures var r := TransferStep(s, senderId, TransferRequest(Some(receiverId), Some(Decimal(4, 3))), now, false);
      r.outcome.Success? && r.outcome.value.amount == 0 && r.outcome.value.commissionFee == 0
      && r.next.balances == s.balances
  {
    ToCentsExamples();
    var req := TransferRequest(Some(receiverId), Some(Decimal(4, 3)));
    assert InvalidFields(s.balances.Keys, req) == {};
  }
}

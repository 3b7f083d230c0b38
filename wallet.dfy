/**
 * The ledger as the controllers see it: one object holding the balances of
 * the `users` table and the rows of the `transactions` table, updated in place
 * by a transfer (app/Http/Controllers/Transaction/StoreController.php), read
 * by the history page (app/Http/Controllers/Transaction/IndexController.php)
 * and pruned by the cascading delete of the transactions migration.
 */
module Wallet {
  import opened Wrappers
  import opened Money
  import opened TransactionsTable
  import opened Database
  import opened Transfers
  import opened History

  class Ledger {
    var balances: map<UserId, int>
    var log: seq<TransactionRecord>
    var nextId: nat

    ghost function State(): LedgerState
      reads this
    {
      LedgerState(balances, log, nextId)
    }

    ghost predicate Valid()
      reads this
    {
      WellFormed(State())
    }

    /** A ledger over the given users and their balances, with no transactions yet. */
    constructor (users: map<UserId, int>)
      ensures Valid()
      ensures balances == users && log == [] && nextId == 1
    {
      balances := users;
      log := [];
      nextId := 1;
    }

    /** A transfer request from the authenticated user `senderId`. The steps
        run in the controller's order; the balance updates are undone when the
        insert of the row fails, as the database transaction rolls back. */
    method Transfer(senderId: UserId, req: TransferRequest, now: int, dbFault: bool)
      returns (outcome: Result<TransactionRecord, TransferError>)
      requires Valid() && senderId in balances
      modifies this
      ensures Valid()
      ensures StepResult(State(), outcome) == TransferStep(old(State()), senderId, req, now, dbFault)
      ensures outcome.Failure? ==>
        balances == old(balances) && log == old(log) && nextId == old(nextId)
      ensures outcome.Success? ==>
        var amount := outcome.value.amount;
        var receiverId := outcome.value.receiverId;
        && balances.Keys == old(balances).Keys
        && balances[senderId] == old(balances)[senderId] - amount - Commission(amount)
        && balances[receiverId] == old(balances)[receiverId] + amount
        && (forall u :: u in balances && u != senderId && u != receiverId ==>
              balances[u] == old(balances)[u])
        && log == old(log) + [outcome.value]
        && outcome.value.status == Completed
        && Total(balances) == Total(old(balances)) - outcome.value.commissionFee
    {
      ghost var before := State();
      var invalid := InvalidFields(balances.Keys, req);
      if invalid != {} {
        return Failure(ValidationFailed(invalid));
      }
      var receiverId := req.receiverId.value;
      if receiverId == senderId {
        return Failure(SelfTransfer);
      }
      var amount := ToCents(req.amount.value);
      var commission := Commission(amount);
      var totalDebit := TotalDebit(amount);
      // The unlocked pre-check and the re-check under the sender's row lock
      // read the same balance in a sequential ledger.
      if balances[senderId] < totalDebit {
        return Failure(InsufficientBalance);
      }
      var snapshot := balances;
      balances := balances[senderId := balances[senderId] - totalDebit];
      balances := balances[receiverId := balances[receiverId] + amount];
      var row := NewRow(nextId, senderId, receiverId, amount, Some(commission), Some(Completed), now);
      if dbFault || row.None? {
        balances := snapshot;
        return Failure(TransactionFailed);
      }
      log := log + [row.value];
      nextId := nextId + 1;
      outcome := Success(row.value);
      TransferWellFormed(before, senderId, req, now, dbFault);
      TransferMovesMoney(before, senderId, req, now, dbFault);
      TransferConservation(before, senderId, req, now, dbFault);
    }

    /** The history page: the user's current balance and every transaction the
        user sent or received, newest first. Reading changes nothing. */
    method Index(userId: UserId) returns (balance: int, transactions: seq<TransactionRecord>)
      requires userId in balances
      ensures balance == balances[userId]
      ensures NewestFirst(transactions)
      ensures forall t :: t in transactions <==> t in log && t.Involves(userId)
      ensures forall t :: multiset(transactions)[t] == if t.Involves(userId) then multiset(log)[t] else 0
    {
      balance := balances[userId];
      transactions := HistoryOf(log, userId);
    }

    /** Deleting a user removes the user's balance and, through the cascading
        foreign keys, every transaction naming the user. */
    method DeleteUser(u: UserId)
      requires Valid()
      modifies this
      ensures Valid()
      ensures State() == Database.DeleteUser(old(State()), u)
      ensures forall t :: t in log ==> !t.Involves(u)
    {
      DeleteUserWellFormed(State(), u);
      balances := balances - {u};
      log := Unrelated(log, u);
    }
  }
}

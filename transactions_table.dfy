/**
 * The `transactions` table as its migration declares it
 * (database/migrations/2025_10_03_125624_create_transactions_table.php):
 * the row shape, the fixed-point columns, the generated `total_debited`,
 * the defaults, and the selections by participant that the foreign keys
 * and the history read rely on.
 */
module TransactionsTable {
  import opened Wrappers

  /** Users are identified by their auto-increment primary key. */
  type UserId = nat

  /** The `status` enum column. */
  datatype Status = Pending | Completed | Failed

  /** Largest magnitude a decimal(16, 2) column holds, in cents (99999999999999.99). */
  const MaxCents: int := 9999999999999999

  predicate FitsDecimal(cents: int) {
    -MaxCents <= cents <= MaxCents
  }

  /** One row; `amount` and `commissionFee` are in cents, `createdAt` is the
      `created_at` timestamp as a clock reading. */
  datatype TransactionRecord = TransactionRecord(
    id: nat,
    senderId: UserId,
    receiverId: UserId,
    amount: int,
    commissionFee: int,
    status: Status,
    createdAt: int)
  {
    /** `total_debited`, stored as `amount + commission_fee` by the database. */
    function TotalDebited(): int {
      amount + commissionFee
    }

    /** Every decimal column, the generated one included, is in range. */
    predicate Fits() {
      FitsDecimal(amount) && FitsDecimal(commissionFee) && FitsDecimal(TotalDebited())
    }

    /** The user is this row's sender or its receiver. */
    predicate Involves(u: UserId) {
      senderId == u || receiverId == u
    }
  }

  /** Inserting a row. An unsupplied `commission_fee` is 0 and an unsupplied
      `status` is `pending`; the insert is refused (None) when a decimal column,
      the generated total included, is out of range. */
  function NewRow(id: nat, senderId: UserId, receiverId: UserId, amount: int,
                  commissionFee: Option<int>, status: Option<Status>, createdAt: int)
    : Option<TransactionRecord>
  {
    var fee := match commissionFee case Some(f) => f case None => 0;
    var st := match status case Some(s) => s case None => Pending;
    var row := TransactionRecord(id, senderId, receiverId, amount, fee, st, createdAt);
    if row.Fits() then Some(row) else None
  }

  /** A row inserted with neither fee nor status is a pending, fee-free row
      whose total debited is its amount. */
  lemma DefaultsApply(id: nat, senderId: UserId, receiverId: UserId, amount: int, createdAt: int)
    requires FitsDecimal(amount)
    ensures var r := NewRow(id, senderId, receiverId, amount, None, None, createdAt);
      r.Some? && r.value.status == Pending && r.value.commissionFee == 0
      && r.value.TotalDebited() == amount
  {
  }

  /** A supplied fee and status are stored as given, beside the other columns,
      and the generated total is their sum; an inserted row always fits. */
  lemma SuppliedValuesStored(id: nat, senderId: UserId, receiverId: UserId, amount: int,
                             fee: int, status: Status, createdAt: int)
    ensures var r := NewRow(id, senderId, receiverId, amount, Some(fee), Some(status), createdAt);
      r.Some? ==>
        && r.value == TransactionRecord(id, senderId, receiverId, amount, fee, status, createdAt)
        && r.value.TotalDebited() == amount + fee
        && r.value.Fits()
  {
  }

  /** For non-negative amount and fee, the generated `total_debited` is the
      column that binds: the insert is refused exactly when amount plus fee
      exceeds the decimal(16, 2) range. */
  lemma TotalDebitedBinds(id: nat, senderId: UserId, receiverId: UserId, amount: int,
                          fee: int, status: Option<Status>, createdAt: int)
    requires 0 <= amount && 0 <= fee
    ensures NewRow(id, senderId, receiverId, amount, Some(fee), status, createdAt).None?
      <==> amount + fee > MaxCents
  {
  }

  /** Row ids strictly increase along the table (auto-increment primary key). */
  predicate IdsIncreasing(log: seq<TransactionRecord>) {
    forall i, j :: 0 <= i < j < |log| ==> log[i].id < log[j].id
  }

  /** The rows in which `u` takes part, in table order. */
  function Involving(log: seq<TransactionRecord>, u: UserId): (r: seq<TransactionRecord>)
    ensures forall t :: t in r <==> t in log && t.Involves(u)
    ensures forall t :: multiset(r)[t] == if t.Involves(u) then multiset(log)[t] else 0
  {
    if log == [] then []
    else
      assert log == [log[0]] + log[1..];
      (if log[0].Involves(u) then [log[0]] else []) + Involving(log[1..], u)
  }

  /** The rows in which `u` takes no part, in table order. */
  function Unrelated(log: seq<TransactionRecord>, u: UserId): (r: seq<TransactionRecord>)
    ensures forall t :: t in r <==> t in log && !t.Involves(u)
    ensures forall t :: multiset(r)[t] == if t.Involves(u) then 0 else multiset(log)[t]
  {
    if log == [] then []
    else
      assert log == [log[0]] + log[1..];
      (if log[0].Involves(u) then [] else [log[0]]) + Unrelated(log[1..], u)
  }

  /** Dropping rows keeps the survivors in id order. */
  lemma {:induction false} UnrelatedIdsIncreasing(log: seq<TransactionRecord>, u: UserId)
    requires IdsIncreasing(log)
    ensures IdsIncreasing(Unrelated(log, u))
  {
    if log != [] {
      var tail := log[1..];
      assert log == [log[0]] + tail;
      assert IdsIncreasing(tail) by {
        forall i, j | 0 <= i < j < |tail| ensures tail[i].id < tail[j].id {
          assert tail[i] == log[i + 1] && tail[j] == log[j + 1];
        }
      }
      UnrelatedIdsIncreasing(tail, u);
      if !log[0].Involves(u) {
        var rest := Unrelated(tail, u);
        assert Unrelated(log, u) == [log[0]] + rest;
        PrependSmallerId(log[0], tail, rest);
      }
    }
  }

  /** A row whose id is below every later row can be put in front of any
      id-ordered selection of those later rows. */
  lemma PrependSmallerId(first: TransactionRecord, tail: seq<TransactionRecord>, rest: seq<TransactionRecord>)
    requires IdsIncreasing([first] + tail) && IdsIncreasing(rest)
    requires forall t :: t in rest ==> t in tail
    ensures IdsIncreasing([first] + rest)
  {
    var log := [first] + tail;
    forall j | 0 <= j < |rest| ensures first.id < rest[j].id {
      assert rest[j] in tail;
      var k :| 0 <= k < |tail| && tail[k] == rest[j];
      assert log[0] == first && log[k + 1] == tail[k];
      assert log[0].id < log[k + 1].id;
    }
    var r := [first] + rest;
    forall i, j | 0 <= i < j < |r| ensures r[i].id < r[j].id {
      assert r[j] == rest[j - 1];
      if i > 0 {
        assert r[i] == rest[i - 1];
      }
    }
  }
}

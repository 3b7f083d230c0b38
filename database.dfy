/**
 * The two tables the core touches, as one value: user balances (the
 * `users.balance` column, in cents) and the `transactions` table, with the
 * foreign keys and the cascading delete its migration declares.
 */
module Database {
  import opened TransactionsTable

  datatype LedgerState = LedgerState(
    balances: map<UserId, int>,          // users.id -> users.balance
    log: seq<TransactionRecord>,         // transactions, in insertion order
    nextId: nat)                         // next auto-increment id

  /** The constraints the schema enforces: both foreign keys of every row
      reference an existing user, every decimal column is in range, and ids
      are strictly increasing and below the next id. */
  ghost predicate WellFormed(s: LedgerState) {
    && (forall i :: 0 <= i < |s.log| ==>
          s.log[i].senderId in s.balances && s.log[i].receiverId in s.balances)
    && (forall i :: 0 <= i < |s.log| ==> s.log[i].Fits())
    && (forall i :: 0 <= i < |s.log| ==> s.log[i].id < s.nextId)
    && IdsIncreasing(s.log)
  }

  /** No balance is negative. */
  ghost predicate NonNegative(balances: map<UserId, int>) {
    forall u :: u in balances ==> balances[u] >= 0
  }

  /** The sum of all balances. */
  ghost function Total(m: map<UserId, int>): int
    decreases |m|
  {
    if m == map[] then 0
    else
      var k :| k in m;
      assert |m - {k}| < |m| by { assert (m - {k}).Keys == m.Keys - {k}; }
      m[k] + Total(m - {k})
  }

  /** The sum splits off any one balance, whichever one the definition picked. */
  lemma {:induction false} TotalRemove(m: map<UserId, int>, k: UserId)
    requires k in m
    ensures Total(m) == m[k] + Total(m - {k})
    decreases |m|
  {
    var j :| j in m && Total(m) == m[j] + Total(m - {j});
    if j != k {
      assert (m - {j}).Keys == m.Keys - {j};
      assert (m - {k}).Keys == m.Keys - {k};
      TotalRemove(m - {j}, k);
      TotalRemove(m - {k}, j);
      assert m - {j} - {k} == m - {k} - {j};
    }
  }

  /** Replacing one balance changes the sum by exactly the difference. */
  lemma TotalUpdate(m: map<UserId, int>, k: UserId, v: int)
    requires k in m
    ensures Total(m[k := v]) == Total(m) - m[k] + v
  {
    TotalRemove(m, k);
    TotalRemove(m[k := v], k);
    assert m[k := v] - {k} == m - {k};
  }

  /** Deleting a user: the user's row goes, and with it, by the cascading
      foreign keys on `sender_id` and `receiver_id`, every transaction in which
      the user is sender or receiver. */
  function DeleteUser(s: LedgerState, u: UserId): (t: LedgerState)
    ensures t.balances.Keys == s.balances.Keys - {u}
    ensures forall v :: v in t.balances ==> t.balances[v] == s.balances[v]
    ensures forall r :: r in t.log <==> r in s.log && !r.Involves(u)
    ensures t.nextId == s.nextId
  {
    LedgerState(s.balances - {u}, Unrelated(s.log, u), s.nextId)
  }

  /** The cascade keeps the schema's constraints: no row is left pointing at
      the deleted user. */
  lemma DeleteUserWellFormed(s: LedgerState, u: UserId)
    requires WellFormed(s)
    ensures WellFormed(DeleteUser(s, u))
  {
    var t := DeleteUser(s, u);
    UnrelatedIdsIncreasing(s.log, u);
    forall i | 0 <= i < |t.log|
      ensures t.log[i].senderId in t.balances && t.log[i].receiverId in t.balances
      ensures t.log[i].Fits() && t.log[i].id < t.nextId
    {
      assert t.log[i] in s.log;
    }
  }

  /** Deleting a user as the migration's chained calls leave the schema: the
      foreign-key command is renamed by `->name(...)` and so never compiled,
      hence no cascade. Only the user's own row goes; the transactions stay. */
  function DeleteUserWithoutCascade(s: LedgerState, u: UserId): (t: LedgerState)
    ensures t.balances.Keys == s.balances.Keys - {u}
    ensures forall v :: v in t.balances ==> t.balances[v] == s.balances[v]
    ensures t.log == s.log && t.nextId == s.nextId
  {
    LedgerState(s.balances - {u}, s.log, s.nextId)
  }

  /** Without the cascade, deleting the sender of a transaction leaves a row
      whose `sender_id` names no user: the schema's constraints are broken. */
  lemma OrphanedRowAfterDelete()
    ensures var s := LedgerState(map[1 := 0, 2 := 0], [TransactionRecord(1, 1, 2, 100, 2, Completed, 0)], 2);
      && WellFormed(s)
      && !WellFormed(DeleteUserWithoutCascade(s, 1))
      && WellFormed(DeleteUser(s, 1))
  {
    var s := LedgerState(map[1 := 0, 2 := 0], [TransactionRecord(1, 1, 2, 100, 2, Completed, 0)], 2);
    assert s.log[0].senderId == 1;
    DeleteUserWellFormed(s, 1);
  }
}

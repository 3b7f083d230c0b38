/**
 * The history read of app/Http/Controllers/Transaction/IndexController.php:
 * the transactions in which the user is sender or receiver (lines 20-22),
 * newest first by creation time (line 23).
 */
module History {
  import opened TransactionsTable

  /** Creation times never increase along the sequence. */
  predicate NewestFirst(s: seq<TransactionRecord>) {
    forall i, j :: 0 <= i < j < |s| ==> s[i].createdAt >= s[j].createdAt
  }

  /** Puts `t` into a newest-first sequence, before every row no newer than it. */
  function InsertByDate(t: TransactionRecord, s: seq<TransactionRecord>): (r: seq<TransactionRecord>)
    requires NewestFirst(s)
    ensures NewestFirst(r)
    ensures multiset(r) == multiset(s) + multiset{t}
  {
    if s == [] || s[0].createdAt <= t.createdAt then
      PrependNewest(t, s);
      [t] + s
    else
      assert s == [s[0]] + s[1..];
      var rest := InsertByDate(t, s[1..]);
      assert forall x :: x in rest ==> x in multiset(s[1..]) + multiset{t};
      PrependNewest(s[0], rest);
      [s[0]] + rest
  }

  /** A row no older than any row of a newest-first sequence may lead it. */
  lemma PrependNewest(x: TransactionRecord, s: seq<TransactionRecord>)
    requires NewestFirst(s)
    requires forall y :: y in s ==> y.createdAt <= x.createdAt
    ensures NewestFirst([x] + s)
  {
    var r := [x] + s;
    forall i, j | 0 <= i < j < |r| ensures r[i].createdAt >= r[j].createdAt {
      assert r[j] == s[j - 1];
      if i > 0 {
        assert r[i] == s[i - 1];
      }
    }
  }

  /** The rows ordered newest first: `->latest()`, i.e. ORDER BY created_at DESC. */
  function Latest(s: seq<TransactionRecord>): (r: seq<TransactionRecord>)
    ensures NewestFirst(r)
    ensures multiset(r) == multiset(s)
  {
    if s == [] then []
    else
      assert s == [s[0]] + s[1..];
      InsertByDate(s[0], Latest(s[1..]))
  }

  /** The user's transaction history: exactly the rows in which the user is
      sender or receiver, each as often as it is stored, newest first. */
  function HistoryOf(log: seq<TransactionRecord>, u: UserId): (r: seq<TransactionRecord>)
    ensures NewestFirst(r)
    ensures forall t :: t in r <==> t in log && t.Involves(u)
    ensures forall t :: multiset(r)[t] == if t.Involves(u) then multiset(log)[t] else 0
  {
    var r := Latest(Involving(log, u));
    assert forall t :: t in r <==> t in multiset(r);
    r
  }
}

/** The transaction gate of `SecurityService.validateTransaction`: a burst
    check over the account's stored transactions, then a high-value check that
    defers to a step-up (biometric) authentication. The signed-in user, the
    fetched transaction list, the clock and the outcome of the step-up
    challenge are parameters. */
module TransactionRisk {
  import opened Wrappers
  import opened Transactions

  const BurstWindow: real := 300.0          // s, five minutes
  const BurstLimit: nat := 5                // more than this many is a burst
  const HighValueThreshold: real := 10000.0 // currency units

  /** A transaction dated less than five minutes before `now`; one dated in the
      future counts as recent too. */
  predicate IsRecent(t: Transaction, now: real) { now - t.date < BurstWindow }

  /** The number of recent transactions in `txs`. */
  function RecentCount(txs: seq<Transaction>, now: real): (n: nat)
    ensures n <= |txs|
    ensures n == 0 <==> forall i :: 0 <= i < |txs| ==> !IsRecent(txs[i], now)
    ensures n == |txs| <==> forall i :: 0 <= i < |txs| ==> IsRecent(txs[i], now)
  {
    if txs == [] then 0
    else (if IsRecent(txs[0], now) then 1 else 0) + RecentCount(txs[1..], now)
  }

  /** Counting splits over concatenation. */
  lemma {:induction false} RecentCountConcat(a: seq<Transaction>, b: seq<Transaction>, now: real)
    ensures RecentCount(a + b, now) == RecentCount(a, now) + RecentCount(b, now)
  {
    if a == [] {
      assert a + b == b;
    } else {
      assert (a + b)[0] == a[0];
      assert (a + b)[1..] == a[1..] + b;
      RecentCountConcat(a[1..], b, now);
    }
  }

  /** The gate. Returns whether the transaction may proceed. */
  function ValidateTransaction(currentUserId: Option<string>,
                               fetched: Option<seq<Transaction>>,
                               transaction: Transaction,
                               now: real,
                               stepUpPassed: bool): (allowed: bool)
    ensures currentUserId == None ==> !allowed
    ensures fetched.Some? && RecentCount(fetched.value, now) > BurstLimit ==> !allowed
    ensures allowed && fetched.Some? && transaction.amount > HighValueThreshold ==> stepUpPassed
  {
    if currentUserId.None? then false
    else if fetched.Some? then
      var transactions := fetched.value;
      var recentCount := RecentCount(transactions, now);
      if recentCount > BurstLimit then false
      else if transaction.amount > HighValueThreshold then stepUpPassed
      else true
    else
      true
  }

  /** A signed-in user whose transactions could not be fetched is allowed
      through without either check: no burst check and no step-up, whatever
      the amount. */
  lemma FailedFetchAllows(userId: string, transaction: Transaction, now: real, stepUpPassed: bool)
    ensures ValidateTransaction(Some(userId), None, transaction, now, stepUpPassed)
  {
  }

  /** With a signed-in user and a fetched list that is not a burst, a
      high-value transaction yields exactly the step-up outcome, and any other
      transaction is allowed. */
  lemma HighValueDefersToStepUp(userId: string, txs: seq<Transaction>, transaction: Transaction,
                                now: real, stepUpPassed: bool)
    requires RecentCount(txs, now) <= BurstLimit
    ensures ValidateTransaction(Some(userId), Some(txs), transaction, now, stepUpPassed)
            == (transaction.amount <= HighValueThreshold || stepUpPassed)
  {
  }

  /** Six or more transactions, all dated within the last five minutes (or in
      the future), block any candidate transaction, whatever its amount and
      whatever the step-up outcome would be. */
  lemma {:induction false} BurstBlocksRegardlessOfAmount(currentUserId: Option<string>,
                                                         txs: seq<Transaction>,
                                                         transaction: Transaction,
                                                         now: real, stepUpPassed: bool)
    requires |txs| > BurstLimit
    requires forall i :: 0 <= i < |txs| ==> IsRecent(txs[i], now)
    ensures !ValidateTransaction(currentUserId, Some(txs), transaction, now, stepUpPassed)
  {
    assert RecentCount(txs, now) == |txs|;
  }

  /** More stored transactions never turn a burst block into an allow. */
  lemma MoreHistoryNeverUnblocks(currentUserId: Option<string>, txs: seq<Transaction>,
                                 more: seq<Transaction>, transaction: Transaction,
                                 now: real, stepUpPassed: bool)
    requires RecentCount(txs, now) > BurstLimit
    ensures !ValidateTransaction(currentUserId, Some(txs + more), transaction, now, stepUpPassed)
    ensures !ValidateTransaction(currentUserId, Some(more + txs), transaction, now, stepUpPassed)
  {
    RecentCountConcat(txs, more, now);
    RecentCountConcat(more, txs, now);
  }

  /** The step-up outcome only matters for a high-value transaction. */
  lemma StepUpIrrelevantBelowThreshold(currentUserId: Option<string>,
                                       fetched: Option<seq<Transaction>>,
                                       transaction: Transaction, now: real)
    requires transaction.amount <= HighValueThreshold
    ensures ValidateTransaction(currentUserId, fetched, transaction, now, true)
            == ValidateTransaction(currentUserId, fetched, transaction, now, false)
  {
  }
}

/** The balance invariant: an account's balance is the signed sum of its
    transactions (deposits count up, withdrawals down), plus whatever part of
    its opening balance no transaction records. */
module Ledger {
  import opened Models

  function Signed(t: Transaction): int {
    if t.kind == Consignacion then t.amount else -t.amount
  }

  /** What transaction `k`, if it exists and belongs to `acc`, adds to `acc`'s balance. */
  function Contrib(txs: map<int, Transaction>, acc: string, k: int): int {
    if k in txs && txs[k].accountId == acc then Signed(txs[k]) else 0
  }

  /** Signed sum over the transactions of `acc` whose ids are below `n`. */
  function Net(txs: map<int, Transaction>, acc: string, n: nat): int {
    if n == 0 then 0 else Net(txs, acc, n - 1) + Contrib(txs, acc, n - 1)
  }

  /** The part of the balance that the recorded transactions do not explain. */
  function Drift(db: Db, id: string): int
    requires id in db.accounts
  {
    db.accounts[id].balance - Net(db.txs, id, db.nextTxId)
  }

  /** Two transaction tables that agree on every contribution below `n` have the same sum. */
  lemma {:induction false} NetFrame(txs: map<int, Transaction>, txs': map<int, Transaction>, acc: string, n: nat)
    requires forall k: int :: 0 <= k < n ==> Contrib(txs, acc, k) == Contrib(txs', acc, k)
    ensures Net(txs, acc, n) == Net(txs', acc, n)
  {
    if n > 0 {
      NetFrame(txs, txs', acc, n - 1);
    }
  }

  /** An account that no transaction references sums to zero. */
  lemma {:induction false} NetNone(txs: map<int, Transaction>, acc: string, n: nat)
    requires forall k :: k in txs ==> txs[k].accountId != acc
    ensures Net(txs, acc, n) == 0
  {
    if n > 0 {
      NetNone(txs, acc, n - 1);
    }
  }

  /** The ledger invariant over a whole store: integrity holds, and every
      account's drift is its recorded opening part. */
  ghost predicate Balanced(db: Db, opening: map<string, int>) {
    && Valid(db)
    && opening.Keys == db.accounts.Keys
    && forall id :: id in db.accounts ==> Drift(db, id) == opening[id]
  }

  /** Recording transaction `t` under the next id moves `t`'s own account by
      `Signed(t)` and leaves every other account's sum where it was. */
  lemma NetAppend(txs: map<int, Transaction>, acc: string, n: nat, t: Transaction)
    requires forall k :: k in txs ==> k < n
    ensures Net(txs[n := t], acc, n + 1)
         == Net(txs, acc, n) + (if t.accountId == acc then Signed(t) else 0)
  {
    NetFrame(txs, txs[n := t], acc, n);
  }
}

/** CTxDB (src/txdb-leveldb.h): a committed store and an optional batch of pending writes that
    reads look through. */
module TxDb {
  import opened Basics
  import opened Ledger

  class TxDB {
    var txIndex: TxMap
    var bestHash: Hash
    var active: bool
    /** The last Put (Some) or Delete (None) of each key in the batch. */
    var pending: map<Hash, Option<TxIndex>>
    var pendingBest: Option<Hash>

    constructor (best: Hash)
      ensures Clean() && txIndex == map[] && bestHash == best
    {
      txIndex, bestHash, active, pending, pendingBest := map[], best, false, map[], None;
    }

    /** What reads see. */
    function View(): TxMap
      reads this
    {
      (map k | k in txIndex && k !in pending :: txIndex[k])
      + (map k | k in pending && pending[k].Some? :: pending[k].value)
    }

    ghost predicate Clean()
      reads this
    {
      !active && pending == map[] && pendingBest == None
    }

    method TxnBegin()
      requires Clean()
      modifies this
      ensures active && pending == map[] && pendingBest == None
      ensures txIndex == old(txIndex) && bestHash == old(bestHash) && View() == txIndex
    {
      active, pending, pendingBest := true, map[], None;
    }

    /** The batch is written whole or, if the store refuses, not at all; either way it is gone. */
    method TxnCommit(accepts: bool) returns (ok: bool)
      requires active
      modifies this
      ensures ok == accepts
      ensures Clean() && View() == txIndex
      ensures txIndex == if ok then old(View()) else old(txIndex)
      ensures bestHash == if ok && old(pendingBest).Some? then old(pendingBest).value else old(bestHash)
    {
      ok := accepts;
      if ok {
        txIndex := View();
        if pendingBest.Some? {
          bestHash := pendingBest.value;
        }
      }
      active, pending, pendingBest := false, map[], None;
    }

    method TxnAbort()
      modifies this
      ensures Clean() && View() == txIndex
      ensures txIndex == old(txIndex) && bestHash == old(bestHash)
    {
      active, pending, pendingBest := false, map[], None;
    }

    method ReadTxIndex(h: Hash) returns (r: Option<TxIndex>)
      ensures r == if h in View() then Some(View()[h]) else None
    {
      if h in pending {
        return pending[h];
      }
      return if h in txIndex then Some(txIndex[h]) else None;
    }

    method UpdateTxIndex(h: Hash, e: TxIndex)
      requires active
      modifies this`pending
      ensures View() == old(View())[h := e]
    {
      pending := pending[h := Some(e)];
    }

    method EraseTxIndex(h: Hash)
      requires active
      modifies this`pending
      ensures View() == old(View()) - {h}
    {
      pending := pending[h := None];
    }

    method WriteHashBestChain(h: Hash)
      requires active
      modifies this`pendingBest
      ensures pendingBest == Some(h) && View() == old(View())
    {
      pendingBest := Some(h);
    }
  }
}

/** Undoing a transaction that a chain reorganisation evicted
    (`RollbackLendingItems`, tomoxlending/tomoxlending.go:443-478). */
module Rollback {
  import opened Types
  import opened History

  /** `item` with exactly the four journalled fields taken from `snap`. */
  function Restore(item: LendingItem, snap: HistoryItem): (r: LendingItem)
    requires snap.Snapshot?
    ensures SnapshotOf(r) == snap
    ensures r.hash == item.hash && KeyOf(r) == KeyOf(item)
  {
    item.(txHash := snap.txHash, status := snap.status,
          filledAmount := snap.filledAmount, updatedAt := snap.updatedAt)
  }

  /** The snapshot rollback restores `item` from, or `None` when the record is
      to be deleted: no bucket, no entry for its key, or the zero item. */
  function SnapshotFor(cache: Cache, txHash: Hash, item: LendingItem): (r: Option<HistoryItem>)
    ensures r.Some? <==> Recorded(cache, txHash, KeyOf(item)).Some?
                         && Recorded(cache, txHash, KeyOf(item)).value != NoPrior
    ensures r.Some? ==> r.value.Snapshot? && r == Recorded(cache, txHash, KeyOf(item))
  {
    if txHash !in cache then None
    else
      var bucket := cache[txHash];
      var key := KeyOf(item);
      if key !in bucket || bucket[key] == NoPrior then None else Some(bucket[key])
  }

  /** What rollback of `txHash` leaves of `item`: the item itself when another
      transaction stamped it, the item restored from its snapshot, or `None`
      when it is deleted. */
  function RolledBack(cache: Cache, txHash: Hash, item: LendingItem): (r: Option<LendingItem>)
    ensures item.txHash != txHash ==> r == Some(item)
    ensures item.txHash == txHash ==> (r.Some? <==> SnapshotFor(cache, txHash, item).Some?)
    ensures item.txHash == txHash && r.Some? ==>
              && SnapshotOf(r.value) == SnapshotFor(cache, txHash, item).value
              && Restore(r.value, SnapshotOf(item)) == item
    ensures r.Some? ==> r.value.hash == item.hash
  {
    if item.txHash != txHash then Some(item)
    else match SnapshotFor(cache, txHash, item)
      case None => None
      case Some(snap) => Some(Restore(item, snap))
  }

  function RollbackItems(items: Items, cache: Cache, txHash: Hash): (r: Items)
    ensures forall h :: h in r <==> h in items && RolledBack(cache, txHash, items[h]).Some?
    ensures forall h :: h in r ==> Some(r[h]) == RolledBack(cache, txHash, items[h])
  {
    map h | h in items && RolledBack(cache, txHash, items[h]).Some? :: RolledBack(cache, txHash, items[h]).value
  }

  function RollbackTrades(trades: Trades, txHash: Hash): (r: Trades)
    ensures forall h :: h in r <==> h in trades && trades[h].txHash != txHash
    ensures forall h :: h in r ==> r[h] == trades[h]
  {
    map h | h in trades && trades[h].txHash != txHash :: trades[h]
  }

  /** Every record stamped with `txHash` is restored from its snapshot or
      deleted, every trade stamped with `txHash` is deleted, and the bucket of
      `txHash` is dropped from the cache. */
  function RollbackLendingItems(store: Store, cache: Cache, txHash: Hash): (r: (Store, Cache))
    ensures forall h :: h in r.0.items <==>
              h in store.items &&
              (store.items[h].txHash != txHash || SnapshotFor(cache, txHash, store.items[h]).Some?)
    ensures forall h :: h in r.0.items && store.items[h].txHash != txHash ==>
              r.0.items[h] == store.items[h]
    ensures forall h :: h in r.0.items && store.items[h].txHash == txHash ==>
              && SnapshotOf(r.0.items[h]) == SnapshotFor(cache, txHash, store.items[h]).value
              && Restore(r.0.items[h], SnapshotOf(store.items[h])) == store.items[h]
    ensures forall h :: h in r.0.trades <==> h in store.trades && store.trades[h].txHash != txHash
    ensures forall h :: h in r.0.trades ==> r.0.trades[h] == store.trades[h]
    ensures txHash !in r.1
    ensures forall t :: t != txHash ==> (t in r.1 <==> t in cache)
    ensures forall t :: t in r.1 ==> r.1[t] == cache[t]
  {
    (Store(RollbackItems(store.items, cache, txHash), RollbackTrades(store.trades, txHash)), cache - {txHash})
  }

  /** Rolling back a transaction hash no record or trade carries changes no
      record or trade; only the (unused) bucket is dropped. */
  lemma RollbackUnsyncedIsNoop(store: Store, cache: Cache, txHash: Hash)
    requires forall h :: h in store.items ==> store.items[h].txHash != txHash
    requires forall h :: h in store.trades ==> store.trades[h].txHash != txHash
    ensures RollbackLendingItems(store, cache, txHash).0 == store
  {
    var r := RollbackLendingItems(store, cache, txHash).0;
    assert r.items == store.items;
    assert r.trades == store.trades;
  }
}

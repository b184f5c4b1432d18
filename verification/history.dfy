/** The lending-item history cache: per transaction hash, a bucket of the
    values each touched order had before that transaction first touched it
    (tomoxlending/tomoxlending.go:427-441). The LRU bound of the program is
    not modelled: the cache is an unbounded map. */
module History {
  import opened Types

  /** A pre-update snapshot. `NoPrior` is the zero `LendingItemHistoryItem{}`:
      the taker starts from it when the store holds no record for it. A real
      snapshot always carries a (non-nil) filled amount, so it never equals the
      zero item, even when all of its values are zero. */
  datatype HistoryItem =
    | NoPrior
    | Snapshot(txHash: Hash, filledAmount: nat, status: Status, updatedAt: Time)

  /** The key `GetLendingItemHistoryKey(LendingToken, CollateralToken, hash)`. */
  datatype HistoryKey = HistoryKey(lendingToken: Address, collateralToken: Address, hash: Hash)

  type Bucket = map<HistoryKey, HistoryItem>

  type Cache = map<Hash, Bucket>

  function SnapshotOf(item: LendingItem): HistoryItem {
    Snapshot(item.txHash, item.filledAmount, item.status, item.updatedAt)
  }

  function KeyOf(item: LendingItem): HistoryKey {
    HistoryKey(item.lendingToken, item.collateralToken, item.hash)
  }

  /** The bucket of `txHash`, empty when the cache has none. */
  function BucketAt(cache: Cache, txHash: Hash): Bucket {
    if txHash in cache then cache[txHash] else map[]
  }

  /** What the cache recorded for `key` under `txHash`, if anything. */
  function Recorded(cache: Cache, txHash: Hash, key: HistoryKey): Option<HistoryItem> {
    var bucket := BucketAt(cache, txHash);
    if key in bucket then Some(bucket[key]) else None
  }

  /** Record `lastState` for the order key in the bucket of `txHash`, unless the
      bucket already holds an entry for that key: the first touch wins. */
  function UpdateLendingItemCache(cache: Cache, lendingToken: Address, collateralToken: Address,
                                  hash: Hash, txHash: Hash, lastState: HistoryItem): (r: Cache)
    ensures txHash in r
    ensures forall t :: t in r <==> t in cache || t == txHash
    ensures forall t :: t in cache && t != txHash ==> r[t] == cache[t]
    ensures Recorded(r, txHash, HistoryKey(lendingToken, collateralToken, hash))
            == if Recorded(cache, txHash, HistoryKey(lendingToken, collateralToken, hash)).Some?
               then Recorded(cache, txHash, HistoryKey(lendingToken, collateralToken, hash))
               else Some(lastState)
    ensures forall k :: k != HistoryKey(lendingToken, collateralToken, hash) ==>
              Recorded(r, txHash, k) == Recorded(cache, txHash, k)
  {
    var bucket := BucketAt(cache, txHash);
    var key := HistoryKey(lendingToken, collateralToken, hash);
    if key in bucket then cache[txHash := bucket] else cache[txHash := bucket[key := lastState]]
  }

  /** Once a key is recorded under a transaction hash, recording it again, with
      any value, changes nothing. */
  lemma RecordedKeyIsFinal(cache: Cache, lendingToken: Address, collateralToken: Address,
                           hash: Hash, txHash: Hash, lastState: HistoryItem)
    requires Recorded(cache, txHash, HistoryKey(lendingToken, collateralToken, hash)).Some?
    ensures UpdateLendingItemCache(cache, lendingToken, collateralToken, hash, txHash, lastState) == cache
  {
    var r := UpdateLendingItemCache(cache, lendingToken, collateralToken, hash, txHash, lastState);
    assert r.Keys == cache.Keys;
    forall t | t in r ensures r[t] == cache[t] {
      if t == txHash {
        assert r[t] == BucketAt(cache, txHash);
      }
    }
  }

  /** Two recordings of one key under one transaction: the second is lost. */
  lemma FirstTouchWins(cache: Cache, lendingToken: Address, collateralToken: Address,
                       hash: Hash, txHash: Hash, first: HistoryItem, second: HistoryItem)
    requires Recorded(cache, txHash, HistoryKey(lendingToken, collateralToken, hash)).None?
    ensures var once := UpdateLendingItemCache(cache, lendingToken, collateralToken, hash, txHash, first);
            && UpdateLendingItemCache(once, lendingToken, collateralToken, hash, txHash, second) == once
            && Recorded(once, txHash, HistoryKey(lendingToken, collateralToken, hash)) == Some(first)
  {
    var once := UpdateLendingItemCache(cache, lendingToken, collateralToken, hash, txHash, first);
    RecordedKeyIsFinal(once, lendingToken, collateralToken, hash, txHash, second);
  }
}

/** Synchronising a transaction and then rolling it back restores the
    secondary store and the history cache (tomoxlending/tomoxlending.go:204-396
    against :443-478). The one field rollback cannot restore is the taker's
    back-filled creation time, which the history item does not carry. */
module RoundTrip {
  import opened Types
  import opened History
  import opened Rollback
  import opened SdkSync
  import opened SyncProperties

  /** `w` differs from the stored record under its hash, if there is one,
      only in the four journalled fields and in a back-filled creation time. */
  predicate Agrees(w: LendingItem, entry: Items) {
    w.hash in entry ==>
      && w == entry[w.hash].(txHash := w.txHash, status := w.status, filledAmount := w.filledAmount,
                             updatedAt := w.updatedAt, createdAt := w.createdAt)
      && (w.createdAt == entry[w.hash].createdAt || entry[w.hash].createdAt == 0)
  }

  /** A buffered record rollback can undo: stamped with the transaction, its
      key journalled under it, otherwise agreeing with the stored record. */
  predicate Undoable(w: LendingItem, cache: Cache, entry: Items, txHash: Hash) {
    && w.txHash == txHash
    && Recorded(cache, txHash, KeyOf(w)).Some?
    && Agrees(w, entry)
  }

  /** The invariant every pass of a call keeps, relative to the store
      `entry`/`entryTrades` and the cache `cache0` the call started from:
      only the bucket of `txHash` changes, every entry in it is the stored
      state of its order (the zero item when there was none), every buffered
      record can be undone, and every buffered trade is new and stamped. */
  ghost predicate Journaled(s: Session, entry: Items, entryTrades: Trades, cache0: Cache, txHash: Hash) {
    && (forall t :: t != txHash ==> (t in s.cache <==> t in cache0))
    && (forall t :: t != txHash && t in s.cache ==> s.cache[t] == cache0[t])
    && (forall k :: Recorded(s.cache, txHash, k).Some? ==> Recorded(s.cache, txHash, k).value == PriorOf(entry, k.hash))
    && (forall h :: h in s.items ==> Undoable(s.items[h], s.cache, entry, txHash))
    && (forall h :: h in s.trades ==> s.trades[h].txHash == txHash && h !in entryTrades)
  }

  /** Journalling the stored state of an order keeps the invariant, records
      the order's key and forgets no recorded key. */
  lemma JournalKeeps(s: Session, m: LendingItem, entry: Items, entryTrades: Trades, cache0: Cache, txHash: Hash)
    requires Journaled(s, entry, entryTrades, cache0, txHash)
    requires Recorded(s.cache, txHash, KeyOf(m)).None? ==> SnapshotOf(m) == PriorOf(entry, m.hash)
    ensures var s1 := Journal(s, m, txHash, SnapshotOf(m));
            && Journaled(s1, entry, entryTrades, cache0, txHash)
            && Recorded(s1.cache, txHash, KeyOf(m)).Some?
            && (forall k :: Recorded(s.cache, txHash, k).Some? ==> Recorded(s1.cache, txHash, k).Some?)
  {
    var s1 := Journal(s, m, txHash, SnapshotOf(m));
    JournalCache(s.cache, m, txHash, entry);
    forall h | h in s1.items ensures Undoable(s1.items[h], s1.cache, entry, txHash) {
      assert Recorded(s.cache, txHash, KeyOf(s.items[h])).Some?;
    }
  }

  /** Journalling into a bucket whose entries are the stored states keeps
      them so, and loses no recorded key. */
  lemma JournalCache(cache: Cache, m: LendingItem, txHash: Hash, entry: Items)
    requires forall k :: Recorded(cache, txHash, k).Some? ==> Recorded(cache, txHash, k).value == PriorOf(entry, k.hash)
    requires Recorded(cache, txHash, KeyOf(m)).None? ==> SnapshotOf(m) == PriorOf(entry, m.hash)
    ensures var c := UpdateLendingItemCache(cache, m.lendingToken, m.collateralToken, m.hash, txHash, SnapshotOf(m));
            && Recorded(c, txHash, KeyOf(m)).Some?
            && (forall k :: Recorded(cache, txHash, k).Some? ==> Recorded(c, txHash, k).Some?)
            && (forall k :: Recorded(c, txHash, k).Some? ==> Recorded(c, txHash, k).value == PriorOf(entry, k.hash))
  {
  }

  lemma PutItemKeeps(s: Session, faults: set<Hash>, w: LendingItem, entry: Items, entryTrades: Trades,
                     cache0: Cache, txHash: Hash)
    requires Journaled(s, entry, entryTrades, cache0, txHash)
    requires s.failed.None? ==> Undoable(w, s.cache, entry, txHash)
    ensures Journaled(PutItem(s, faults, w), entry, entryTrades, cache0, txHash)
    ensures PutItem(s, faults, w).cache == s.cache
  {
    var s' := PutItem(s, faults, w);
    if s.failed.None? && w.hash !in faults {
      forall h | h in s'.items ensures Undoable(s'.items[h], s'.cache, entry, txHash) {
        if h != w.hash {
          assert s'.items[h] == s.items[h];
        }
      }
    }
  }

  lemma PutTradeKeeps(s: Session, faults: set<Hash>, t: LendingTrade, entry: Items, entryTrades: Trades,
                      cache0: Cache, txHash: Hash)
    requires Journaled(s, entry, entryTrades, cache0, txHash)
    requires t.txHash == txHash && t.hash !in entryTrades
    ensures Journaled(PutTrade(s, faults, t), entry, entryTrades, cache0, txHash)
  {
    var s' := PutTrade(s, faults, t);
    if s.failed.None? && t.hash !in faults {
      forall h | h in s'.trades ensures s'.trades[h].txHash == txHash && h !in entryTrades {
        if h != t.hash {
          assert s'.trades[h] == s.trades[h];
        }
      }
    }
  }

  lemma {:induction false} FoldKeeps(f: Fold, trades: seq<LendingTrade>, faults: set<Hash>, txMatchTime: Time,
                                     entry: Items, entryTrades: Trades, cache0: Cache, txHash: Hash)
    requires Journaled(f.session, entry, entryTrades, cache0, txHash)
    requires forall i :: 0 <= i < |trades| ==> trades[i].txHash == txHash && trades[i].hash !in entryTrades
    ensures Journaled(FoldTrades(f, trades, faults, txMatchTime).session, entry, entryTrades, cache0, txHash)
    decreases |trades|
  {
    if |trades| > 0 && f.session.failed.None? {
      var t := Backfilled(trades[0], txMatchTime);
      var s := PutTrade(f.session, faults, t);
      PutTradeKeeps(f.session, faults, t, entry, entryTrades, cache0, txHash);
      if s.failed.None? {
        FoldKeeps(FoldStep(f, s, t), trades[1..], faults, txMatchTime, entry, entryTrades, cache0, txHash);
      }
    }
  }

  /** The maker and rejected-record passes keep the invariant and forget no
      recorded key. */
  lemma {:induction false} TouchKeeps(s: Session, entry: Items, hs: seq<Hash>, fills: map<Hash, nat>, txHash: Hash,
                                      txMatchTime: Time, faults: set<Hash>, role: Role, entryTrades: Trades,
                                      cache0: Cache)
    requires forall h :: h in hs ==> h in entry
    requires Journaled(s, entry, entryTrades, cache0, txHash)
    ensures var r := TouchStored(s, entry, hs, fills, txHash, txMatchTime, faults, role);
            && Journaled(r, entry, entryTrades, cache0, txHash)
            && (forall k :: Recorded(s.cache, txHash, k).Some? ==> Recorded(r.cache, txHash, k).Some?)
    decreases |hs|
  {
    if |hs| > 0 && s.failed.None? {
      var m := entry[hs[0]];
      if txMatchTime < m.updatedAt {
        TouchKeeps(s, entry, hs[1..], fills, txHash, txMatchTime, faults, role, entryTrades, cache0);
      } else {
        var s1 := Journal(s, m, txHash, SnapshotOf(m));
        JournalKeeps(s, m, entry, entryTrades, cache0, txHash);
        var w := Touched(role, m, FillOf(fills, m.hash), txHash, txMatchTime);
        assert KeyOf(w) == KeyOf(m);
        PutItemKeeps(s1, faults, w, entry, entryTrades, cache0, txHash);
        TouchKeeps(PutItem(s1, faults, w), entry, hs[1..], fills, txHash, txMatchTime, faults, role,
                   entryTrades, cache0);
      }
    }
  }

  /** The rejected-taker pass writes nothing but the rejected taker. */
  lemma {:induction false} RejectFrame(s: Session, u: LendingItem, rejects: seq<LendingItem>, txHash: Hash,
                                       txMatchTime: Time, faults: set<Hash>)
    ensures var r := RejectTaker(s, u, rejects, txHash, txMatchTime, faults).0;
            forall h :: h in r.items ==>
              (h in s.items && r.items[h] == s.items[h]) || (h == u.hash && r.items[h] == RejectedTaker(u, txHash, txMatchTime))
    decreases |rejects|
  {
    if |rejects| > 0 && s.failed.None? {
      var rj := rejects[0];
      if u.hash == rj.hash && txMatchTime >= rj.updatedAt {
        var u' := RejectedTaker(u, txHash, txMatchTime);
        var s' := PutItem(Journal(s, u, txHash, SnapshotOf(u)), faults, u');
        assert RejectTaker(s, u, rejects, txHash, txMatchTime, faults)
            == RejectTaker(s', u', rejects[1..], txHash, txMatchTime, faults);
        assert s'.items == s.items || s'.items == s.items[u.hash := u'];
        RejectFrame(s', u', rejects[1..], txHash, txMatchTime, faults);
        assert RejectedTaker(u', txHash, txMatchTime) == u';
      } else {
        assert RejectTaker(s, u, rejects, txHash, txMatchTime, faults)
            == RejectTaker(s, u, rejects[1..], txHash, txMatchTime, faults);
        RejectFrame(s, u, rejects[1..], txHash, txMatchTime, faults);
      }
    }
  }

  lemma RejectKeeps(s: Session, u: LendingItem, rejects: seq<LendingItem>, txHash: Hash,
                    txMatchTime: Time, faults: set<Hash>, entry: Items, entryTrades: Trades, cache0: Cache)
    requires Journaled(s, entry, entryTrades, cache0, txHash)
    requires Undoable(u, s.cache, entry, txHash)
    ensures Journaled(RejectTaker(s, u, rejects, txHash, txMatchTime, faults).0, entry, entryTrades, cache0, txHash)
  {
    RejectFrame(s, u, rejects, txHash, txMatchTime, faults);
    assert KeyOf(RejectedTaker(u, txHash, txMatchTime)) == KeyOf(u);
  }

  /** The state the trade loop starts from keeps the invariant, and its
      taker can be undone. */
  lemma StartKeeps(store: Store, cache: Cache, taker: LendingItem, txHash: Hash, txMatchTime: Time)
    requires txHash !in cache
    ensures var f := FoldStart(store, cache, taker, txHash, txMatchTime);
            && Journaled(f.session, store.items, store.trades, cache, txHash)
            && Undoable(f.taker, f.session.cache, store.items, txHash)
  {
    var f := FoldStart(store, cache, taker, txHash, txMatchTime);
    var u0 := Prepared(store, taker, txHash, txMatchTime);
    assert KeyOf(f.taker) == KeyOf(u0) && u0.hash == taker.hash;
    forall k | Recorded(f.session.cache, txHash, k).Some?
      ensures Recorded(f.session.cache, txHash, k).value == PriorOf(store.items, k.hash)
    {
      assert Recorded(cache, txHash, k).None?;
    }
  }

  /** Every session a call passes through keeps the invariant. */
  lemma TraceKeeps(store: Store, cache: Cache, faults: set<Hash>, taker: LendingItem, txHash: Hash,
                   txMatchTime: Time, trades: seq<LendingTrade>, rejects: seq<LendingItem>, t: Trace)
    requires t == TraceOf(store, cache, faults, taker, txHash, txMatchTime, trades, rejects)
    requires txHash !in cache
    requires forall i :: 0 <= i < |trades| ==> trades[i].txHash == txHash && trades[i].hash !in store.trades
    ensures Journaled(t.last, store.items, store.trades, cache, txHash)
  {
    var E, ET := store.items, store.trades;
    var f0 := FoldStart(store, cache, taker, txHash, txMatchTime);
    TraceShape(store, cache, faults, taker, txHash, txMatchTime, trades, rejects, t);
    TraceStart(store, cache, faults, taker, txHash, txMatchTime, trades, rejects, t);
    StartKeeps(store, cache, taker, txHash, txMatchTime);
    FoldKeeps(f0, trades, faults, txMatchTime, E, ET, cache, txHash);
    var f := t.fold;
    assert f.session.failed.None? ==> KeyOf(t.marketed) == KeyOf(f0.taker) && Agrees(t.marketed, E);
    PutItemKeeps(f.session, faults, t.marketed, E, ET, cache, txHash);
    var s2 := PutItem(f.session, faults, t.marketed);
    TouchKeeps(s2, E, Present(E, f.makers), f.fills, txHash, txMatchTime, faults, AsMaker, ET, cache);
    if t.afterMakers.failed.None? {
      RejectKeeps(t.afterMakers, t.marketed, rejects, txHash, txMatchTime, faults, E, ET, cache);
    }
    TouchKeeps(t.afterRejectedTaker.0, E, Present(E, RejectedHashes(rejects)), f.fills, txHash, txMatchTime,
               faults, AsRejected, ET, cache);
  }

  /** One record of the overlaid store after rollback. */
  lemma UndoRecord(store: Store, s: Session, cache0: Cache, txHash: Hash, h: Hash)
    requires Journaled(s, store.items, store.trades, cache0, txHash)
    requires forall h :: h in store.items ==> store.items[h].txHash != txHash
    requires h in Commit(store, s).items
    ensures var back := RollbackItems(Commit(store, s).items, s.cache, txHash);
            && (h in back <==> h in store.items)
            && (h in store.items ==>
                  && back[h] == store.items[h].(createdAt := back[h].createdAt)
                  && (back[h].createdAt == store.items[h].createdAt || store.items[h].createdAt == 0))
  {
    if h in s.items {
      assert Recorded(s.cache, txHash, KeyOf(s.items[h])).value == PriorOf(store.items, h);
    }
  }

  /** Rolling back `txHash` over `store` overlaid with a journalled session
      gives back `store` (but for back-filled creation times) and `cache0`. */
  lemma UndoJournaled(store: Store, s: Session, cache0: Cache, txHash: Hash)
    requires Journaled(s, store.items, store.trades, cache0, txHash)
    requires txHash !in cache0
    requires forall h :: h in store.items ==> store.items[h].txHash != txHash
    requires forall h :: h in store.trades ==> store.trades[h].txHash != txHash
    ensures Restored(RollbackLendingItems(Commit(store, s), s.cache, txHash), store, cache0)
  {
    UndoBuckets(s, cache0, txHash);
    UndoTrades(store, s, cache0, txHash);
    UndoItems(store, s, cache0, txHash);
  }

  /** The records after rollback: the stored ones, but for back-filled
      creation times. */
  lemma UndoItems(store: Store, s: Session, cache0: Cache, txHash: Hash)
    requires Journaled(s, store.items, store.trades, cache0, txHash)
    requires forall h :: h in store.items ==> store.items[h].txHash != txHash
    ensures var back := RollbackItems(Commit(store, s).items, s.cache, txHash);
            && back.Keys == store.items.Keys
            && (forall h :: h in store.items ==>
                  && back[h] == store.items[h].(createdAt := back[h].createdAt)
                  && (back[h].createdAt == store.items[h].createdAt || store.items[h].createdAt == 0))
  {
    forall h | h in Commit(store, s).items {
      UndoRecord(store, s, cache0, txHash, h);
    }
    var back := RollbackItems(Commit(store, s).items, s.cache, txHash);
    assert back.Keys == store.items.Keys;
  }

  lemma UndoBuckets(s: Session, cache0: Cache, txHash: Hash)
    requires forall t :: t != txHash ==> (t in s.cache <==> t in cache0)
    requires forall t :: t != txHash && t in s.cache ==> s.cache[t] == cache0[t]
    requires txHash !in cache0
    ensures s.cache - {txHash} == cache0
  {
  }

  lemma UndoTrades(store: Store, s: Session, cache0: Cache, txHash: Hash)
    requires Journaled(s, store.items, store.trades, cache0, txHash)
    requires forall h :: h in store.trades ==> store.trades[h].txHash != txHash
    ensures RollbackTrades(Commit(store, s).trades, txHash) == store.trades
  {
  }

  /** The store and cache after rollback are the ones before the call, except
      that a record whose stored creation time was zero may keep the
      back-filled one. */
  ghost predicate Restored(back: (Store, Cache), store: Store, cache: Cache) {
    && back.1 == cache
    && back.0.trades == store.trades
    && back.0.items.Keys == store.items.Keys
    && (forall h :: h in store.items ==>
          && back.0.items[h] == store.items[h].(createdAt := back.0.items[h].createdAt)
          && (back.0.items[h].createdAt == store.items[h].createdAt || store.items[h].createdAt == 0))
  }

  /** An outcome whose store is either untouched or overlaid with a
      journalled session, and whose cache is that session's, rolls back to
      the starting store and cache. */
  lemma UndoOutcome(store: Store, cache: Cache, txHash: Hash, r: SyncResult, s: Session)
    requires Journaled(s, store.items, store.trades, cache, txHash)
    requires txHash !in cache
    requires forall h :: h in store.items ==> store.items[h].txHash != txHash
    requires forall h :: h in store.trades ==> store.trades[h].txHash != txHash
    requires r.cache == s.cache
    requires r.store == store || r.store == Commit(store, s)
    ensures Restored(RollbackLendingItems(r.store, r.cache, txHash), store, cache)
  {
    if r.store == store {
      var e := s.(items := map[], trades := map[]);
      EmptiedKeeps(store, s, cache, txHash);
      UndoJournaled(store, e, cache, txHash);
    } else {
      UndoJournaled(store, s, cache, txHash);
    }
  }

  /** Dropping a session's buffered writes keeps its journal valid and
      leaves nothing to commit. */
  lemma EmptiedKeeps(store: Store, s: Session, cache: Cache, txHash: Hash)
    requires Journaled(s, store.items, store.trades, cache, txHash)
    ensures var e := s.(items := map[], trades := map[]);
            Journaled(e, store.items, store.trades, cache, txHash) && Commit(store, e) == store
  {
    var e := s.(items := map[], trades := map[]);
    assert Commit(store, e).items == store.items;
    assert Commit(store, e).trades == store.trades;
  }

  /** Whatever a call does — ignored as stale, failed part-way, or
      committed — rolling its transaction back afterwards restores the store
      and the cache it started from, provided the transaction is new: no
      bucket, stored record or stored trade carries its hash yet, and every
      trade it produced carries it and is new. */
  lemma SyncThenRollbackRestores(store: Store, cache: Cache, faults: set<Hash>, taker: LendingItem, txHash: Hash,
                                 txMatchTime: Time, trades: seq<LendingTrade>, rejects: seq<LendingItem>,
                                 dirtyCount: u64)
    requires txHash !in cache
    requires forall h :: h in store.items ==> store.items[h].txHash != txHash
    requires forall h :: h in store.trades ==> store.trades[h].txHash != txHash
    requires forall i :: 0 <= i < |trades| ==> trades[i].txHash == txHash && trades[i].hash !in store.trades
    ensures var r := SyncDataToSDKNode(store, cache, faults, taker, txHash, txMatchTime, trades, rejects, dirtyCount);
            Restored(RollbackLendingItems(r.store, r.cache, txHash), store, cache)
  {
    var r := SyncDataToSDKNode(store, cache, faults, taker, txHash, txMatchTime, trades, rejects, dirtyCount);
    if IsStale(txMatchTime, Prepared(store, taker, txHash, txMatchTime).updatedAt, dirtyCount) {
      var s := Session(map[], map[], cache, None);
      assert forall k :: Recorded(s.cache, txHash, k).None?;
      UndoOutcome(store, cache, txHash, r, s);
    } else {
      var t := TraceOf(store, cache, faults, taker, txHash, txMatchTime, trades, rejects);
      SyncReadsTrace(store, cache, faults, taker, txHash, txMatchTime, trades, rejects, dirtyCount);
      TraceKeeps(store, cache, faults, taker, txHash, txMatchTime, trades, rejects, t);
      UndoOutcome(store, cache, txHash, r, t.last);
    }
  }
}

/** What one call of `SyncDataToSDKNode` does to the taker, maker and
    rejected records it touches, and what a replay of it does. */
module SyncProperties {
  import opened Types
  import opened History
  import opened SdkSync

  lemma {:induction false} RejectedHashesCover(rejects: seq<LendingItem>, h: Hash, txMatchTime: Time)
    requires RejectsTaker(h, rejects, txMatchTime)
    ensures h in RejectedHashes(rejects)
    decreases |rejects|
  {
    if rejects[0].hash != h || txMatchTime < rejects[0].updatedAt {
      var k :| 0 <= k < |rejects| && rejects[k].hash == h && txMatchTime >= rejects[k].updatedAt;
      assert rejects[1..][k - 1] == rejects[k];
      RejectedHashesCover(rejects[1..], h, txMatchTime);
    }
  }

  lemma {:induction false} NoMakerNoFill(trades: seq<LendingTrade>, h: Hash)
    requires h !in MakerHashes(trades)
    ensures MakerFill(trades, h) == 0
    decreases |trades|
  {
    if |trades| > 0 {
      NoMakerNoFill(trades[1..], h);
    }
  }

  /** What the buffered writes hold under `h` after the maker pass. */
  function AfterMakers(entry: Items, u2: LendingItem, makers: seq<Hash>, fills: map<Hash, nat>,
                       txHash: Hash, txMatchTime: Time, h: Hash): Option<LendingItem>
  {
    if h in entry && h in makers && txMatchTime >= entry[h].updatedAt then
      Some(Touched(AsMaker, entry[h], FillOf(fills, h), txHash, txMatchTime))
    else if h == u2.hash then Some(u2)
    else None
  }

  /** ... after the rejected-taker pass. */
  function AfterRejectedTaker(entry: Items, u2: LendingItem, makers: seq<Hash>, fills: map<Hash, nat>,
                              rejects: seq<LendingItem>, txHash: Hash, txMatchTime: Time, h: Hash): Option<LendingItem>
  {
    if h == u2.hash && RejectsTaker(h, rejects, txMatchTime) then Some(RejectedTaker(u2, txHash, txMatchTime))
    else AfterMakers(entry, u2, makers, fills, txHash, txMatchTime, h)
  }

  /** ... and after the rejected-record pass: the record a successful run
      leaves under `h`. */
  function FinalRecord(entry: Items, u2: LendingItem, makers: seq<Hash>, fills: map<Hash, nat>,
                       rejects: seq<LendingItem>, txHash: Hash, txMatchTime: Time, h: Hash): Option<LendingItem>
  {
    if h in entry && h in RejectedHashes(rejects) && txMatchTime >= entry[h].updatedAt then
      Some(Touched(AsRejected, entry[h], FillOf(fills, h), txHash, txMatchTime))
    else AfterRejectedTaker(entry, u2, makers, fills, rejects, txHash, txMatchTime, h)
  }

  predicate HoldsAt(s: Session, h: Hash, expected: Option<LendingItem>) {
    (h in s.items <==> expected.Some?) && (h in s.items ==> s.items[h] == expected.value)
  }

  /** The maker pass over a session holding only the taker. */
  lemma MakerLayer(entry: Items, s1: Session, u2: LendingItem, makers: seq<Hash>, fills: map<Hash, nat>,
                   txHash: Hash, txMatchTime: Time, faults: set<Hash>, h: Hash)
    requires s1.items == map[]
    ensures var s3 := TouchStored(PutItem(s1, faults, u2), entry, Present(entry, makers), fills, txHash,
                                  txMatchTime, faults, AsMaker);
            s3.failed.None? ==> s1.failed.None? && HoldsAt(s3, h, AfterMakers(entry, u2, makers, fills, txHash, txMatchTime, h))
  {
    PutIntoEmpty(s1, faults, u2);
  }

  /** The rejected-taker pass replaces the taker's record and nothing else. */
  lemma RejectedTakerLayer(s3: Session, u2: LendingItem, rejects: seq<LendingItem>, txHash: Hash,
                           txMatchTime: Time, faults: set<Hash>, h: Hash, before: Option<LendingItem>)
    ensures var p := RejectTaker(s3, u2, rejects, txHash, txMatchTime, faults);
            p.0.failed.None? ==>
              && s3.failed.None?
              && p.1 == (if RejectsTaker(u2.hash, rejects, txMatchTime) then RejectedTaker(u2, txHash, txMatchTime) else u2)
              && (HoldsAt(s3, h, before) ==>
                    HoldsAt(p.0, h, if h == u2.hash && RejectsTaker(h, rejects, txMatchTime)
                                    then Some(RejectedTaker(u2, txHash, txMatchTime)) else before))
  {
  }

  /** The rejected-record pass replaces the stored records it touches. */
  lemma RejectedLayer(entry: Items, s4: Session, fills: map<Hash, nat>, rejects: seq<LendingItem>, txHash: Hash,
                      txMatchTime: Time, faults: set<Hash>, h: Hash, before: Option<LendingItem>)
    ensures var s5 := TouchStored(s4, entry, Present(entry, RejectedHashes(rejects)), fills, txHash,
                                  txMatchTime, faults, AsRejected);
            s5.failed.None? ==>
              && s4.failed.None?
              && (HoldsAt(s4, h, before) ==>
                    HoldsAt(s5, h, if h in entry && h in RejectedHashes(rejects) && txMatchTime >= entry[h].updatedAt
                                   then Some(Touched(AsRejected, entry[h], FillOf(fills, h), txHash, txMatchTime))
                                   else before))
  {
  }

  /** Past the gate, the call's result is read off its trace. */
  lemma SyncReadsTrace(store: Store, cache: Cache, faults: set<Hash>, taker: LendingItem, txHash: Hash,
                       txMatchTime: Time, trades: seq<LendingTrade>, rejects: seq<LendingItem>, dirtyCount: u64)
    requires !IsStale(txMatchTime, Prepared(store, taker, txHash, txMatchTime).updatedAt, dirtyCount)
    ensures var r := SyncDataToSDKNode(store, cache, faults, taker, txHash, txMatchTime, trades, rejects, dirtyCount);
            var t := TraceOf(store, cache, faults, taker, txHash, txMatchTime, trades, rejects);
            && r.cache == t.last.cache
            && (r.error.None? <==> t.last.failed.None?)
            && (r.error.None? ==> r.store == Commit(store, t.last))
            && r.callerTaker == (if taker.hash in store.items then taker else TakerAtReturn(t))
  {
    SyncCommitsTrace(store, cache, faults, taker, txHash, txMatchTime, trades, rejects, dirtyCount);
    SyncReturnsTaker(store, cache, faults, taker, txHash, txMatchTime, trades, rejects, dirtyCount);
  }

  lemma SyncCommitsTrace(store: Store, cache: Cache, faults: set<Hash>, taker: LendingItem, txHash: Hash,
                         txMatchTime: Time, trades: seq<LendingTrade>, rejects: seq<LendingItem>, dirtyCount: u64)
    requires !IsStale(txMatchTime, Prepared(store, taker, txHash, txMatchTime).updatedAt, dirtyCount)
    ensures var r := SyncDataToSDKNode(store, cache, faults, taker, txHash, txMatchTime, trades, rejects, dirtyCount);
            var t := TraceOf(store, cache, faults, taker, txHash, txMatchTime, trades, rejects);
            && r.cache == t.last.cache
            && (r.error.None? <==> t.last.failed.None?)
            && (r.error.None? ==> r.store == Commit(store, t.last))
  {
  }

  lemma SyncReturnsTaker(store: Store, cache: Cache, faults: set<Hash>, taker: LendingItem, txHash: Hash,
                         txMatchTime: Time, trades: seq<LendingTrade>, rejects: seq<LendingItem>, dirtyCount: u64)
    requires !IsStale(txMatchTime, Prepared(store, taker, txHash, txMatchTime).updatedAt, dirtyCount)
    ensures var r := SyncDataToSDKNode(store, cache, faults, taker, txHash, txMatchTime, trades, rejects, dirtyCount);
            r.callerTaker == (if taker.hash in store.items then taker
                              else TakerAtReturn(TraceOf(store, cache, faults, taker, txHash, txMatchTime, trades, rejects)))
  {
  }

  /** How the passes of a trace feed one another. */
  lemma TraceShape(store: Store, cache: Cache, faults: set<Hash>, taker: LendingItem, txHash: Hash,
                   txMatchTime: Time, trades: seq<LendingTrade>, rejects: seq<LendingItem>, t: Trace)
    requires t == TraceOf(store, cache, faults, taker, txHash, txMatchTime, trades, rejects)
    ensures t.fold.session.items == map[]
    ensures t.marketed == MarketStatus(t.fold.taker)
    ensures t.fold.session.failed.None? ==> t.marketed.hash == taker.hash
    ensures t.afterMakers == TouchStored(PutItem(t.fold.session, faults, t.marketed), store.items,
                                         Present(store.items, t.fold.makers), t.fold.fills, txHash,
                                         txMatchTime, faults, AsMaker)
    ensures t.afterRejectedTaker == RejectTaker(t.afterMakers, t.marketed, rejects, txHash, txMatchTime, faults)
    ensures t.last == TouchStored(t.afterRejectedTaker.0, store.items, Present(store.items, RejectedHashes(rejects)),
                                  t.fold.fills, txHash, txMatchTime, faults, AsRejected)
  {
  }

  lemma PutIntoEmpty(s: Session, faults: set<Hash>, item: LendingItem)
    requires s.items == map[]
    ensures PutItem(s, faults, item).failed.None? ==>
              s.failed.None? && PutItem(s, faults, item).items == map[item.hash := item]
  {
  }

  /** The record a successful trace leaves buffered under `h`. */
  lemma TraceRecord(entry: Items, faults: set<Hash>, txHash: Hash, txMatchTime: Time,
                    rejects: seq<LendingItem>, h: Hash, t: Trace)
    requires t.fold.session.items == map[]
    requires t.afterMakers == TouchStored(PutItem(t.fold.session, faults, t.marketed), entry,
                                          Present(entry, t.fold.makers), t.fold.fills, txHash,
                                          txMatchTime, faults, AsMaker)
    requires t.afterRejectedTaker == RejectTaker(t.afterMakers, t.marketed, rejects, txHash, txMatchTime, faults)
    requires t.last == TouchStored(t.afterRejectedTaker.0, entry, Present(entry, RejectedHashes(rejects)),
                                   t.fold.fills, txHash, txMatchTime, faults, AsRejected)
    requires t.last.failed.None?
    ensures t.fold.session.failed.None?
    ensures t.afterRejectedTaker.1 == (if RejectsTaker(t.marketed.hash, rejects, txMatchTime)
                                       then RejectedTaker(t.marketed, txHash, txMatchTime) else t.marketed)
    ensures HoldsAt(t.last, h, FinalRecord(entry, t.marketed, t.fold.makers, t.fold.fills, rejects,
                                           txHash, txMatchTime, h))
  {
    var u2, makers, fills := t.marketed, t.fold.makers, t.fold.fills;
    MakerLayer(entry, t.fold.session, u2, makers, fills, txHash, txMatchTime, faults, h);
    RejectedTakerLayer(t.afterMakers, u2, rejects, txHash, txMatchTime, faults, h,
                       AfterMakers(entry, u2, makers, fills, txHash, txMatchTime, h));
    RejectedLayer(entry, t.afterRejectedTaker.0, fills, rejects, txHash, txMatchTime, faults, h,
                  AfterRejectedTaker(entry, u2, makers, fills, rejects, txHash, txMatchTime, h));
  }

  lemma TraceStart(store: Store, cache: Cache, faults: set<Hash>, taker: LendingItem, txHash: Hash,
                   txMatchTime: Time, trades: seq<LendingTrade>, rejects: seq<LendingItem>, t: Trace)
    requires t == TraceOf(store, cache, faults, taker, txHash, txMatchTime, trades, rejects)
    ensures t.fold == FoldTrades(FoldStart(store, cache, taker, txHash, txMatchTime), trades, faults, txMatchTime)
  {
  }

  /** What the trade loop of a trace computes, when none of its writes failed. */
  lemma TraceFold(store: Store, cache: Cache, faults: set<Hash>, taker: LendingItem, txHash: Hash,
                  txMatchTime: Time, trades: seq<LendingTrade>, rejects: seq<LendingItem>, t: Trace)
    requires t == TraceOf(store, cache, faults, taker, txHash, txMatchTime, trades, rejects)
    ensures t.fold.session.failed.None? ==> FoldComputes(t.fold, Prepared(store, taker, txHash, txMatchTime), trades, txMatchTime)
  {
    TraceStart(store, cache, faults, taker, txHash, txMatchTime, trades, rejects, t);
    FoldFromStart(store, cache, faults, taker, txHash, txMatchTime, trades, t.fold);
  }

  /** The trade loop run from the call's starting state. */
  lemma FoldFromStart(store: Store, cache: Cache, faults: set<Hash>, taker: LendingItem, txHash: Hash,
                      txMatchTime: Time, trades: seq<LendingTrade>, f: Fold)
    requires f == FoldTrades(FoldStart(store, cache, taker, txHash, txMatchTime), trades, faults, txMatchTime)
    ensures f.session.failed.None? ==> FoldComputes(f, Prepared(store, taker, txHash, txMatchTime), trades, txMatchTime)
  {
    var f0 := FoldStart(store, cache, taker, txHash, txMatchTime);
    FoldTaker(f0, Prepared(store, taker, txHash, txMatchTime), trades, faults, txMatchTime, f);
    FoldMakers(f0, trades, faults, txMatchTime);
    FoldAllFills(f0, trades, faults, txMatchTime, f);
  }

  /** From a fold whose taker is `u0` stamped with the match time. */
  lemma FoldTaker(f0: Fold, u0: LendingItem, trades: seq<LendingTrade>, faults: set<Hash>, txMatchTime: Time, f: Fold)
    requires f0.taker == u0.(updatedAt := txMatchTime)
    requires f == FoldTrades(f0, trades, faults, txMatchTime)
    ensures f.session.failed.None? ==>
              && f.taker == u0.(updatedAt := txMatchTime, filledAmount := f.taker.filledAmount, status := f.taker.status)
              && f.taker.filledAmount == u0.filledAmount + TotalAmount(trades)
              && f.taker.status == (if |trades| == 0 then u0.status
                                    else if f.taker.filledAmount < f.taker.quantity && f.taker.orderType == Limit
                                    then PartialFilled else Filled)
  {
  }

  /** From a fold with no fills yet. */
  lemma FoldAllFills(f0: Fold, trades: seq<LendingTrade>, faults: set<Hash>, txMatchTime: Time, f: Fold)
    requires f0.fills == map[]
    requires f == FoldTrades(f0, trades, faults, txMatchTime)
    ensures f.session.failed.None? ==> forall h :: FillOf(f.fills, h) == MakerFill(trades, h)
  {
    forall h ensures f.session.failed.None? ==> FillOf(f.fills, h) == MakerFill(trades, h) {
      FoldFills(f0, trades, faults, txMatchTime, h);
    }
  }

  /** The trade loop started from the prepared taker `u0` accumulated
      everything `trades` carries. */
  ghost predicate FoldComputes(f: Fold, u0: LendingItem, trades: seq<LendingTrade>, txMatchTime: Time) {
    && f.taker == u0.(updatedAt := txMatchTime, filledAmount := f.taker.filledAmount, status := f.taker.status)
    && f.taker.filledAmount == u0.filledAmount + TotalAmount(trades)
    && f.taker.status == (if |trades| == 0 then u0.status
                          else if f.taker.filledAmount < f.taker.quantity && f.taker.orderType == Limit
                          then PartialFilled else Filled)
    && (forall h :: FillOf(f.fills, h) == MakerFill(trades, h))
    && f.makers == MakerHashes(trades)
  }

  /** The store after a successful call holds `expected` under `h` when there
      is one, and the record it held before otherwise. */
  predicate CommitsAt(store: Store, r: SyncResult, h: Hash, expected: Option<LendingItem>) {
    && (expected.Some? || h in store.items <==> h in r.store.items)
    && (h in r.store.items ==> r.store.items[h] == if expected.Some? then expected.value else store.items[h])
  }

  /** On success, the committed record under `h` is what `FinalRecord` says
      of the call's trace. */
  lemma CommittedRecord(store: Store, cache: Cache, faults: set<Hash>, taker: LendingItem, txHash: Hash,
                        txMatchTime: Time, trades: seq<LendingTrade>, rejects: seq<LendingItem>, dirtyCount: u64,
                        h: Hash)
    requires !IsStale(txMatchTime, Prepared(store, taker, txHash, txMatchTime).updatedAt, dirtyCount)
    ensures var r := SyncDataToSDKNode(store, cache, faults, taker, txHash, txMatchTime, trades, rejects, dirtyCount);
            var t := TraceOf(store, cache, faults, taker, txHash, txMatchTime, trades, rejects);
            r.error.None? ==>
              && t.fold.session.failed.None?
              && t.marketed.hash == taker.hash
              && t.afterRejectedTaker.1 == (if RejectsTaker(taker.hash, rejects, txMatchTime)
                                            then RejectedTaker(t.marketed, txHash, txMatchTime) else t.marketed)
              && r.callerTaker == (if taker.hash in store.items then taker else t.afterRejectedTaker.1)
              && CommitsAt(store, r, h, FinalRecord(store.items, t.marketed, t.fold.makers, t.fold.fills, rejects,
                                                    txHash, txMatchTime, h))
  {
    var r := SyncDataToSDKNode(store, cache, faults, taker, txHash, txMatchTime, trades, rejects, dirtyCount);
    var t := TraceOf(store, cache, faults, taker, txHash, txMatchTime, trades, rejects);
    SyncReadsTrace(store, cache, faults, taker, txHash, txMatchTime, trades, rejects, dirtyCount);
    if r.error.None? {
      TraceShape(store, cache, faults, taker, txHash, txMatchTime, trades, rejects, t);
      TraceRecord(store.items, faults, txHash, txMatchTime, rejects, h, t);
    }
  }

  /** The taker record after a successful call: the stored (or incoming)
      amount plus every trade amount, unclamped, with the status the
      lending-order rules give, stamped with the transaction and its time. */
  lemma TakerFillAndStatus(store: Store, cache: Cache, faults: set<Hash>, taker: LendingItem, txHash: Hash,
                           txMatchTime: Time, trades: seq<LendingTrade>, rejects: seq<LendingItem>, dirtyCount: u64)
    requires !IsStale(txMatchTime, Prepared(store, taker, txHash, txMatchTime).updatedAt, dirtyCount)
    requires taker.hash !in MakerHashes(trades) && taker.hash !in RejectedHashes(rejects)
    ensures var r := SyncDataToSDKNode(store, cache, faults, taker, txHash, txMatchTime, trades, rejects, dirtyCount);
            r.error.None? ==> TakerWritten(store, r, taker, txHash, txMatchTime, trades)
  {
    var r := SyncDataToSDKNode(store, cache, faults, taker, txHash, txMatchTime, trades, rejects, dirtyCount);
    var t := TraceOf(store, cache, faults, taker, txHash, txMatchTime, trades, rejects);
    CommittedRecord(store, cache, faults, taker, txHash, txMatchTime, trades, rejects, dirtyCount, taker.hash);
    if r.error.None? {
      TraceShape(store, cache, faults, taker, txHash, txMatchTime, trades, rejects, t);
      TraceFold(store, cache, faults, taker, txHash, txMatchTime, trades, rejects, t);
      TakerRecord(store, taker, txHash, txMatchTime, trades, rejects, t, r);
    }
  }

  /** The taker record `r` committed: the stored (or incoming) record with
      every trade amount added and the status the lending-order rules give. */
  predicate TakerWritten(store: Store, r: SyncResult, taker: LendingItem, txHash: Hash, txMatchTime: Time,
                         trades: seq<LendingTrade>) {
    var base := if taker.hash in store.items then store.items[taker.hash] else taker;
    && taker.hash in r.store.items
    && var u := r.store.items[taker.hash];
    && u.filledAmount == base.filledAmount + TotalAmount(trades)
    && u.status == ExpectedTakerStatus(base.orderType, taker.status, u.filledAmount, base.quantity, |trades| > 0)
    && u.txHash == txHash
    && u.updatedAt == txMatchTime
    && u.createdAt == (if base.createdAt == 0 then txMatchTime else base.createdAt)
    && u == base.(filledAmount := u.filledAmount, status := u.status, txHash := txHash,
                  updatedAt := txMatchTime, createdAt := u.createdAt)
  }

  lemma TakerRecord(store: Store, taker: LendingItem, txHash: Hash, txMatchTime: Time,
                    trades: seq<LendingTrade>, rejects: seq<LendingItem>, t: Trace, r: SyncResult)
    requires CommitsAt(store, r, taker.hash, FinalRecord(store.items, t.marketed, t.fold.makers, t.fold.fills,
                                                         rejects, txHash, txMatchTime, taker.hash))
    requires FoldComputes(t.fold, Prepared(store, taker, txHash, txMatchTime), trades, txMatchTime)
    requires t.marketed == MarketStatus(t.fold.taker) && t.marketed.hash == taker.hash
    requires taker.hash !in MakerHashes(trades) && taker.hash !in RejectedHashes(rejects)
    ensures TakerWritten(store, r, taker, txHash, txMatchTime, trades)
  {
    assert !RejectsTaker(taker.hash, rejects, txMatchTime) by {
      if RejectsTaker(taker.hash, rejects, txMatchTime) {
        RejectedHashesCover(rejects, taker.hash, txMatchTime);
      }
    }
    assert r.store.items[taker.hash] == t.marketed;
  }

  /** A fetched maker that is not also the taker or a rejected order: left
      alone when newer than the match, otherwise its fill grows by the sum of
      the trades naming it and its status follows the limit rule, whatever its
      order type. */
  lemma MakerUpdate(store: Store, cache: Cache, faults: set<Hash>, taker: LendingItem, txHash: Hash,
                    txMatchTime: Time, trades: seq<LendingTrade>, rejects: seq<LendingItem>, dirtyCount: u64,
                    h: Hash)
    requires !IsStale(txMatchTime, Prepared(store, taker, txHash, txMatchTime).updatedAt, dirtyCount)
    requires h in store.items && h in MakerHashes(trades)
    requires h != taker.hash && h !in RejectedHashes(rejects)
    ensures var r := SyncDataToSDKNode(store, cache, faults, taker, txHash, txMatchTime, trades, rejects, dirtyCount);
            r.error.None? ==> MakerWritten(store, r, h, txHash, txMatchTime, trades)
  {
    var r := SyncDataToSDKNode(store, cache, faults, taker, txHash, txMatchTime, trades, rejects, dirtyCount);
    var t := TraceOf(store, cache, faults, taker, txHash, txMatchTime, trades, rejects);
    CommittedRecord(store, cache, faults, taker, txHash, txMatchTime, trades, rejects, dirtyCount, h);
    if r.error.None? {
      TraceFold(store, cache, faults, taker, txHash, txMatchTime, trades, rejects, t);
      MakerRecord(store, taker, txHash, txMatchTime, trades, rejects, t, r, h);
    }
  }

  /** The maker record `r` committed under `h`. */
  predicate MakerWritten(store: Store, r: SyncResult, h: Hash, txHash: Hash, txMatchTime: Time,
                         trades: seq<LendingTrade>)
    requires h in store.items
  {
    var m := store.items[h];
    && h in r.store.items
    && (txMatchTime < m.updatedAt ==> r.store.items[h] == m)
    && (txMatchTime >= m.updatedAt ==>
          var filled := m.filledAmount + MakerFill(trades, h);
          r.store.items[h] == m.(filledAmount := filled,
                                 status := if filled < m.quantity then PartialFilled else Filled,
                                 txHash := txHash, updatedAt := txMatchTime))
  }

  lemma MakerRecord(store: Store, taker: LendingItem, txHash: Hash, txMatchTime: Time,
                    trades: seq<LendingTrade>, rejects: seq<LendingItem>, t: Trace, r: SyncResult, h: Hash)
    requires CommitsAt(store, r, h, FinalRecord(store.items, t.marketed, t.fold.makers, t.fold.fills,
                                                rejects, txHash, txMatchTime, h))
    requires FoldComputes(t.fold, Prepared(store, taker, txHash, txMatchTime), trades, txMatchTime)
    requires t.marketed.hash == taker.hash
    requires h in store.items && h in MakerHashes(trades)
    requires h != taker.hash && h !in RejectedHashes(rejects)
    ensures MakerWritten(store, r, h, txHash, txMatchTime, trades)
  {
    assert FillOf(t.fold.fills, h) == MakerFill(trades, h);
  }

  /** Every stored rejected record not newer than the match ends as Reject,
      stamped with the transaction, its fill grown once by what it received as
      a maker in this call (reads inside the call see the store as it was
      when the call began). */
  lemma RejectedRecords(store: Store, cache: Cache, faults: set<Hash>, taker: LendingItem, txHash: Hash,
                        txMatchTime: Time, trades: seq<LendingTrade>, rejects: seq<LendingItem>, dirtyCount: u64,
                        h: Hash)
    requires !IsStale(txMatchTime, Prepared(store, taker, txHash, txMatchTime).updatedAt, dirtyCount)
    requires h in store.items && h in RejectedHashes(rejects)
    ensures var r := SyncDataToSDKNode(store, cache, faults, taker, txHash, txMatchTime, trades, rejects, dirtyCount);
            r.error.None? ==> RejectedWritten(store, r, taker, h, txHash, txMatchTime, trades)
  {
    var r := SyncDataToSDKNode(store, cache, faults, taker, txHash, txMatchTime, trades, rejects, dirtyCount);
    var t := TraceOf(store, cache, faults, taker, txHash, txMatchTime, trades, rejects);
    CommittedRecord(store, cache, faults, taker, txHash, txMatchTime, trades, rejects, dirtyCount, h);
    if r.error.None? {
      TraceFold(store, cache, faults, taker, txHash, txMatchTime, trades, rejects, t);
      RejectedRecord(store, taker, txHash, txMatchTime, trades, rejects, t, r, h);
    }
  }

  /** A rejected taker that already had a stored record ends as that stored
      record, re-read after the taker was written: marked Reject, stamped, and
      grown only by what it received as a maker, so the fill the taker
      gained from this call's own trades is not kept. */
  lemma RejectedStoredTaker(store: Store, cache: Cache, faults: set<Hash>, taker: LendingItem, txHash: Hash,
                            txMatchTime: Time, trades: seq<LendingTrade>, rejects: seq<LendingItem>, dirtyCount: u64)
    requires !IsStale(txMatchTime, Prepared(store, taker, txHash, txMatchTime).updatedAt, dirtyCount)
    requires taker.hash in store.items && taker.hash in RejectedHashes(rejects)
    ensures var r := SyncDataToSDKNode(store, cache, faults, taker, txHash, txMatchTime, trades, rejects, dirtyCount);
            var m := store.items[taker.hash];
            r.error.None? ==>
              && taker.hash in r.store.items
              && r.store.items[taker.hash] == m.(filledAmount := m.filledAmount + MakerFill(trades, taker.hash),
                                                 status := Reject, txHash := txHash, updatedAt := txMatchTime)
  {
    RejectedRecords(store, cache, faults, taker, txHash, txMatchTime, trades, rejects, dirtyCount, taker.hash);
  }

  /** The rejected record `r` committed under `h`. */
  predicate RejectedWritten(store: Store, r: SyncResult, taker: LendingItem, h: Hash, txHash: Hash,
                            txMatchTime: Time, trades: seq<LendingTrade>)
    requires h in store.items
  {
    var m := store.items[h];
    && h in r.store.items
    && (txMatchTime >= m.updatedAt ==>
          r.store.items[h] == m.(filledAmount := m.filledAmount + MakerFill(trades, h),
                                 status := Reject, txHash := txHash, updatedAt := txMatchTime))
    && (txMatchTime < m.updatedAt && h != taker.hash ==>
          r.store.items[h] == m)
  }

  lemma RejectedRecord(store: Store, taker: LendingItem, txHash: Hash, txMatchTime: Time,
                       trades: seq<LendingTrade>, rejects: seq<LendingItem>, t: Trace, r: SyncResult, h: Hash)
    requires CommitsAt(store, r, h, FinalRecord(store.items, t.marketed, t.fold.makers, t.fold.fills,
                                                rejects, txHash, txMatchTime, h))
    requires FoldComputes(t.fold, Prepared(store, taker, txHash, txMatchTime), trades, txMatchTime)
    requires t.marketed.hash == taker.hash
    requires h in store.items && h in RejectedHashes(rejects)
    ensures RejectedWritten(store, r, taker, h, txHash, txMatchTime, trades)
  {
    assert FillOf(t.fold.fills, h) == MakerFill(trades, h);
  }

  /** When the store held no record of the taker, the caller's taker object
      is the one the call wrote: the in-place updates alias it. */
  lemma TakerAliasing(store: Store, cache: Cache, faults: set<Hash>, taker: LendingItem, txHash: Hash,
                      txMatchTime: Time, trades: seq<LendingTrade>, rejects: seq<LendingItem>, dirtyCount: u64)
    requires taker.hash !in store.items
    requires !IsStale(txMatchTime, Prepared(store, taker, txHash, txMatchTime).updatedAt, dirtyCount)
    ensures var r := SyncDataToSDKNode(store, cache, faults, taker, txHash, txMatchTime, trades, rejects, dirtyCount);
            r.error.None? ==> taker.hash in r.store.items && r.store.items[taker.hash] == r.callerTaker
  {
    CommittedRecord(store, cache, faults, taker, txHash, txMatchTime, trades, rejects, dirtyCount, taker.hash);
  }

  /** After a successful call the taker record carries the match time. */
  lemma TakerStamped(store: Store, taker: LendingItem, txHash: Hash, txMatchTime: Time,
                     trades: seq<LendingTrade>, rejects: seq<LendingItem>, t: Trace, r: SyncResult)
    requires CommitsAt(store, r, taker.hash, FinalRecord(store.items, t.marketed, t.fold.makers, t.fold.fills,
                                                         rejects, txHash, txMatchTime, taker.hash))
    requires FoldComputes(t.fold, Prepared(store, taker, txHash, txMatchTime), trades, txMatchTime)
    requires t.marketed == MarketStatus(t.fold.taker) && t.marketed.hash == taker.hash
    ensures taker.hash in r.store.items && r.store.items[taker.hash].updatedAt == txMatchTime
  {
  }

  /** Replaying a successful call on the store and cache it produced: with
      the dirty counter at zero the replay is ignored whatever it carries;
      with any other counter value it passes the gate and is applied again. */
  lemma ReplayIsIgnored(store: Store, cache: Cache, faults: set<Hash>, taker: LendingItem, txHash: Hash,
                        txMatchTime: Time, trades: seq<LendingTrade>, rejects: seq<LendingItem>, dirtyCount: u64,
                        faults': set<Hash>, trades': seq<LendingTrade>, rejects': seq<LendingItem>, dirtyCount': u64)
    requires !IsStale(txMatchTime, Prepared(store, taker, txHash, txMatchTime).updatedAt, dirtyCount)
    requires SyncDataToSDKNode(store, cache, faults, taker, txHash, txMatchTime, trades, rejects, dirtyCount).error.None?
    ensures var r := SyncDataToSDKNode(store, cache, faults, taker, txHash, txMatchTime, trades, rejects, dirtyCount);
            var again := SyncDataToSDKNode(r.store, r.cache, faults', taker, txHash, txMatchTime, trades', rejects', dirtyCount');
            && (dirtyCount' == 0 ==> again == SyncResult(None, r.store, r.cache, 0, taker))
            && (dirtyCount' != 0 ==> again.dirtyCount == (dirtyCount' + 1) % U64Modulus)
  {
    var r := SyncDataToSDKNode(store, cache, faults, taker, txHash, txMatchTime, trades, rejects, dirtyCount);
    var t := TraceOf(store, cache, faults, taker, txHash, txMatchTime, trades, rejects);
    CommittedRecord(store, cache, faults, taker, txHash, txMatchTime, trades, rejects, dirtyCount, taker.hash);
    TraceShape(store, cache, faults, taker, txHash, txMatchTime, trades, rejects, t);
    TraceFold(store, cache, faults, taker, txHash, txMatchTime, trades, rejects, t);
    TakerStamped(store, taker, txHash, txMatchTime, trades, rejects, t, r);
    assert Prepared(r.store, taker, txHash, txMatchTime).updatedAt == txMatchTime;
  }
}

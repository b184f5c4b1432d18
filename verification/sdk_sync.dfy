/** Mirroring one matched taker order into the secondary (SDK) store
    (`SyncDataToSDKNode`, tomoxlending/tomoxlending.go:204-396).

    Store semantics chosen for the bulk-write session: every read inside one
    call sees the store as it was when the call began, and writes are
    buffered in issue order, a later write to a hash replacing an earlier
    one, until the session commits. A failed write ends the call: the
    session is never committed, so the store is unchanged, while the history
    cache and the dirty counter keep what was done to them before the
    failure. */
module SdkSync {
  import opened Types
  import opened History

  /** The open bulk session: buffered writes, the (non-transactional)
      history cache, and the hash whose write failed, if one did. */
  datatype Session = Session(items: Items, trades: Trades, cache: Cache, failed: Option<Hash>)

  /** The outcome of one call. `error` is the hash whose write failed;
      `callerTaker` is the caller's taker object after the call, which the
      call mutates in place when the store held no record for it. */
  datatype SyncResult = SyncResult(error: Option<Hash>, store: Store, cache: Cache,
                                   dirtyCount: u64, callerTaker: LendingItem)

  /** Which of the two stored-record passes is touching a record. */
  datatype Role = AsMaker | AsRejected

  /** The snapshot a record's first touch records: its stored state, or the
      zero item when the store has no record under `h`. */
  function PriorOf(items: Items, h: Hash): HistoryItem {
    if h in items then SnapshotOf(items[h]) else NoPrior
  }

  /** The status rule of a limit order. */
  function LimitStatus(filled: nat, quantity: nat): Status {
    if filled < quantity then PartialFilled else Filled
  }

  /** The taker status an update aims at, written from the lending-order
      status rules: a market order is Filled when anything filled and
      Reject otherwise; an order of any other type with no trade keeps its
      incoming Cancelled or becomes Open; a traded limit order follows
      `LimitStatus`, and a traded order of an unknown type is Filled. */
  function ExpectedTakerStatus(orderType: OrderType, incoming: Status, filled: nat,
                               quantity: nat, traded: bool): Status {
    match orderType
    case Market => if filled > 0 then Filled else Reject
    case Limit =>
      if !traded then (if incoming == Cancelled then Cancelled else Open)
      else LimitStatus(filled, quantity)
    case Other =>
      if !traded then (if incoming == Cancelled then Cancelled else Open)
      else Filled
  }

  function FillOf(fills: map<Hash, nat>, h: Hash): nat {
    if h in fills then fills[h] else 0
  }

  /** Sum of the amounts of `trades`. */
  function TotalAmount(trades: seq<LendingTrade>): nat {
    if |trades| == 0 then 0 else trades[0].amount + TotalAmount(trades[1..])
  }

  /** Sum of the amounts of the trades whose maker order is `h`. */
  function MakerFill(trades: seq<LendingTrade>, h: Hash): nat {
    if |trades| == 0 then 0
    else (if trades[0].makerOrderHash == h then trades[0].amount else 0) + MakerFill(trades[1..], h)
  }

  function MakerHashes(trades: seq<LendingTrade>): seq<Hash> {
    if |trades| == 0 then [] else [trades[0].makerOrderHash] + MakerHashes(trades[1..])
  }

  function RejectedHashes(rejects: seq<LendingItem>): seq<Hash> {
    if |rejects| == 0 then [] else [rejects[0].hash] + RejectedHashes(rejects[1..])
  }

  /** The records `GetListLendingItemByHashes` returns: each hash of `hs`
      that the store holds, once, in order of first appearance. */
  function Present(items: Items, hs: seq<Hash>): (r: seq<Hash>)
    ensures forall h :: h in r <==> h in hs && h in items
    ensures forall i, j :: 0 <= i < j < |r| ==> r[i] != r[j]
  {
    if |hs| == 0 then []
    else
      var p := Present(items, hs[..|hs| - 1]);
      assert hs == hs[..|hs| - 1] + [hs[|hs| - 1]];
      if hs[|hs| - 1] in items && hs[|hs| - 1] !in p then p + [hs[|hs| - 1]] else p
  }

  /** Buffer a write of `item`; a no-op once a write has failed. */
  function PutItem(s: Session, faults: set<Hash>, item: LendingItem): Session {
    if s.failed.Some? then s
    else if item.hash in faults then s.(failed := Some(item.hash))
    else s.(items := s.items[item.hash := item])
  }

  function PutTrade(s: Session, faults: set<Hash>, trade: LendingTrade): Session {
    if s.failed.Some? then s
    else if trade.hash in faults then s.(failed := Some(trade.hash))
    else s.(trades := s.trades[trade.hash := trade])
  }

  /** Record `last` as the pre-update state of `item`'s key (first touch wins). */
  function Journal(s: Session, item: LendingItem, txHash: Hash, last: HistoryItem): Session {
    s.(cache := UpdateLendingItemCache(s.cache, item.lendingToken, item.collateralToken,
                                       item.hash, txHash, last))
  }

  /** The taker record the call starts from: the stored one, or the
      caller's, with its status reset, `txHash` stamped and `CreatedAt`
      back-filled (the steps before the staleness gate). */
  function Prepared(store: Store, taker: LendingItem, txHash: Hash, txMatchTime: Time): (r: LendingItem)
    ensures var base := if taker.hash in store.items then store.items[taker.hash] else taker;
            && r == base.(status := r.status, txHash := txHash, createdAt := r.createdAt)
            && r.hash == taker.hash
            && (r.status == Cancelled <==> taker.status == Cancelled)
            && (r.status == Open <==> taker.status != Cancelled)
            && (base.createdAt != 0 ==> r.createdAt == base.createdAt)
            && (base.createdAt == 0 ==> r.createdAt == txMatchTime)
  {
    var base := if taker.hash in store.items then store.items[taker.hash] else taker;
    base.(status := if taker.status != Cancelled then Open else Cancelled,
          txHash := txHash,
          createdAt := if base.createdAt == 0 then txMatchTime else base.createdAt)
  }

  /** The staleness gate: older than the stored update, or equal to it while
      no record of this transaction batch has been written yet. */
  function IsStale(txMatchTime: Time, updatedAt: Time, dirtyCount: u64): (r: bool)
    ensures txMatchTime < updatedAt ==> r
    ensures txMatchTime > updatedAt ==> !r
    ensures txMatchTime == updatedAt ==> (r <==> dirtyCount == 0)
  {
    txMatchTime < updatedAt || (txMatchTime == updatedAt && dirtyCount == 0)
  }

  function Backfilled(trade: LendingTrade, txMatchTime: Time): LendingTrade {
    trade.(createdAt := if trade.createdAt == 0 then txMatchTime else trade.createdAt,
           updatedAt := txMatchTime)
  }

  /** State carried through the trade loop. */
  datatype Fold = Fold(session: Session, taker: LendingItem, fills: map<Hash, nat>, makers: seq<Hash>)

  /** The trade loop (:256-290): store each trade, accumulate each maker's
      fill, add the amount to the taker and recompute its status. */
  function FoldTrades(f: Fold, trades: seq<LendingTrade>, faults: set<Hash>, txMatchTime: Time): (r: Fold)
    ensures r.session.items == f.session.items && r.session.cache == f.session.cache
    ensures f.session.failed.Some? ==> r == f
    ensures r.session.failed.None? ==>
              && f.session.failed.None?
              && r.taker == f.taker.(filledAmount := r.taker.filledAmount, status := r.taker.status)
              && r.taker.filledAmount == f.taker.filledAmount + TotalAmount(trades)
              && r.taker.status == (if |trades| == 0 then f.taker.status
                                    else if r.taker.filledAmount < r.taker.quantity && r.taker.orderType == Limit
                                    then PartialFilled else Filled)
    decreases |trades|
  {
    if |trades| == 0 || f.session.failed.Some? then f
    else
      var t := Backfilled(trades[0], txMatchTime);
      var s := PutTrade(f.session, faults, t);
      if s.failed.Some? then f.(session := s)
      else FoldTrades(FoldStep(f, s, t), trades[1..], faults, txMatchTime)
  }

  /** One stored trade: the taker gains its amount and its status is
      recomputed, its maker gains its amount, and its maker is listed. */
  function FoldStep(f: Fold, s: Session, t: LendingTrade): (r: Fold)
    ensures forall h :: FillOf(r.fills, h) == FillOf(f.fills, h) + (if t.makerOrderHash == h then t.amount else 0)
  {
    var filled := f.taker.filledAmount + t.amount;
    var u := f.taker.(filledAmount := filled,
                      status := if filled < f.taker.quantity && f.taker.orderType == Limit
                                then PartialFilled else Filled);
    Fold(s, u, f.fills[t.makerOrderHash := FillOf(f.fills, t.makerOrderHash) + t.amount], f.makers + [t.makerOrderHash])
  }

  /** The trade loop adds each trade's amount to the fill of its maker. */
  lemma {:induction false} FoldFills(f: Fold, trades: seq<LendingTrade>, faults: set<Hash>, txMatchTime: Time, h: Hash)
    ensures var r := FoldTrades(f, trades, faults, txMatchTime);
            r.session.failed.None? ==> FillOf(r.fills, h) == FillOf(f.fills, h) + MakerFill(trades, h)
    decreases |trades|
  {
    if |trades| > 0 && f.session.failed.None? {
      var t := Backfilled(trades[0], txMatchTime);
      var s := PutTrade(f.session, faults, t);
      if s.failed.None? {
        FoldFills(FoldStep(f, s, t), trades[1..], faults, txMatchTime, h);
      }
    }
  }

  /** The trade loop lists the maker of every trade, in trade order. */
  lemma {:induction false} FoldMakers(f: Fold, trades: seq<LendingTrade>, faults: set<Hash>, txMatchTime: Time)
    ensures var r := FoldTrades(f, trades, faults, txMatchTime);
            r.session.failed.None? ==> r.makers == f.makers + MakerHashes(trades)
    decreases |trades|
  {
    if |trades| > 0 && f.session.failed.None? {
      var t := Backfilled(trades[0], txMatchTime);
      var s := PutTrade(f.session, faults, t);
      if s.failed.None? {
        FoldMakers(FoldStep(f, s, t), trades[1..], faults, txMatchTime);
        assert MakerHashes(trades) == [t.makerOrderHash] + MakerHashes(trades[1..]);
        assert f.makers + [t.makerOrderHash] + MakerHashes(trades[1..]) == f.makers + MakerHashes(trades);
      }
    }
  }

  /** The market-order rule applied after the trade loop (:293-299). */
  function MarketStatus(u: LendingItem): (r: LendingItem)
    ensures u.orderType != Market ==> r == u
    ensures r == u.(status := r.status)
    ensures u.orderType == Market ==> (r.status == Filled <==> u.filledAmount > 0)
    ensures u.orderType == Market ==> (r.status == Reject <==> u.filledAmount == 0)
  {
    if u.orderType == Market then u.(status := if u.filledAmount > 0 then Filled else Reject) else u
  }

  /** A stored record after this transaction touched it as a maker (:322-329)
      or as a rejected order (:379-385). */
  function Touched(role: Role, m: LendingItem, fill: nat, txHash: Hash, txMatchTime: Time): (r: LendingItem)
    ensures r == m.(filledAmount := r.filledAmount, status := r.status, txHash := txHash, updatedAt := txMatchTime)
    ensures r.filledAmount == m.filledAmount + fill
    ensures role == AsRejected ==> r.status == Reject
    ensures role == AsMaker ==> (r.status == PartialFilled <==> r.filledAmount < m.quantity)
    ensures role == AsMaker ==> (r.status == Filled <==> r.filledAmount >= m.quantity)
  {
    var filled := m.filledAmount + fill;
    m.(txHash := txHash, updatedAt := txMatchTime, filledAmount := filled,
       status := match role case AsMaker => LimitStatus(filled, m.quantity) case AsRejected => Reject)
  }

  /** The maker loop (:310-337) and the rejected-record loop (:366-389): for
      each fetched record not newer than the match, journal its stored state,
      then write it touched. */
  function TouchStored(s: Session, entry: Items, hs: seq<Hash>, fills: map<Hash, nat>, txHash: Hash,
                       txMatchTime: Time, faults: set<Hash>, role: Role): (r: Session)
    requires forall h :: h in hs ==> h in entry
    ensures r.trades == s.trades
    ensures s.failed.Some? ==> r == s
    ensures r.failed.None? ==> s.failed.None? && TouchedFrom(r, s, entry, hs, fills, txHash, txMatchTime, role)
    decreases |hs|
  {
    if |hs| == 0 || s.failed.Some? then s
    else
      var m := entry[hs[0]];
      var s2 := if txMatchTime < m.updatedAt then s
                else PutItem(Journal(s, m, txHash, SnapshotOf(m)), faults,
                             Touched(role, m, FillOf(fills, m.hash), txHash, txMatchTime));
      var r := TouchStored(s2, entry, hs[1..], fills, txHash, txMatchTime, faults, role);
      assert r.failed.None? ==> TouchedFrom(r, s, entry, hs, fills, txHash, txMatchTime, role) by {
        if r.failed.None? {
          TouchedFromStep(r, s, s2, entry, hs, fills, txHash, txMatchTime, role);
        }
      }
      r
  }

  /** Every record `s` holds or `hs` names and not newer than the match is
      in `r`; those `hs` names hold their touched stored record, the rest
      what `s` held. */
  ghost predicate TouchedFrom(r: Session, s: Session, entry: Items, hs: seq<Hash>, fills: map<Hash, nat>, txHash: Hash,
                              txMatchTime: Time, role: Role)
    requires forall h :: h in hs ==> h in entry
  {
    && (forall h :: h in r.items <==> h in s.items || (h in hs && txMatchTime >= entry[h].updatedAt))
    && (forall h :: h in r.items ==>
          r.items[h] == if h in hs && txMatchTime >= entry[h].updatedAt
                        then Touched(role, entry[h], FillOf(fills, h), txHash, txMatchTime)
                        else s.items[h])
  }

  /** One step of the touch loop: touching the first hash, or skipping it. */
  lemma TouchedFromStep(r: Session, s: Session, s2: Session, entry: Items, hs: seq<Hash>, fills: map<Hash, nat>,
                        txHash: Hash, txMatchTime: Time, role: Role)
    requires |hs| > 0 && forall h :: h in hs ==> h in entry
    requires TouchedFrom(r, s2, entry, hs[1..], fills, txHash, txMatchTime, role)
    requires txMatchTime < entry[hs[0]].updatedAt ==> s2.items == s.items
    requires txMatchTime >= entry[hs[0]].updatedAt ==>
               s2.items == s.items[hs[0] := Touched(role, entry[hs[0]], FillOf(fills, hs[0]), txHash, txMatchTime)]
    ensures TouchedFrom(r, s, entry, hs, fills, txHash, txMatchTime, role)
  {
    assert forall h :: h in hs <==> h == hs[0] || h in hs[1..];
  }

  /** Some rejected order names `h` and is not newer than the match. */
  predicate RejectsTaker(h: Hash, rejects: seq<LendingItem>, txMatchTime: Time) {
    exists k :: 0 <= k < |rejects| && rejects[k].hash == h && txMatchTime >= rejects[k].updatedAt
  }

  /** The taker marked rejected. */
  function RejectedTaker(u: LendingItem, txHash: Hash, txMatchTime: Time): LendingItem {
    u.(status := Reject, txHash := txHash, updatedAt := txMatchTime)
  }

  /** The first rejected-order loop (:345-364): a rejected order naming the
      taker journals the in-memory taker and writes it as Reject. */
  function RejectTaker(s: Session, u: LendingItem, rejects: seq<LendingItem>, txHash: Hash,
                       txMatchTime: Time, faults: set<Hash>): (r: (Session, LendingItem))
    ensures r.0.trades == s.trades
    ensures s.failed.Some? ==> r == (s, u)
    ensures r.0.failed.None? ==> s.failed.None? && TakerRejected(r, s, u, rejects, txHash, txMatchTime)
    ensures Recorded(s.cache, txHash, KeyOf(u)).Some? ==> r.0.cache == s.cache
    decreases |rejects|
  {
    if |rejects| == 0 || s.failed.Some? then (s, u)
    else
      var rj := rejects[0];
      if u.hash == rj.hash && txMatchTime >= rj.updatedAt then
        var s1 := Journal(s, u, txHash, SnapshotOf(u));
        var u' := RejectedTaker(u, txHash, txMatchTime);
        RecordedKeyIsFinalWhen(s, u, txHash);
        var s2 := PutItem(s1, faults, u');
        var r := RejectTaker(s2, u', rejects[1..], txHash, txMatchTime, faults);
        RejectMatchStep(s, u, rejects, txHash, txMatchTime, s2, r);
        r
      else
        var r := RejectTaker(s, u, rejects[1..], txHash, txMatchTime, faults);
        RejectSkipStep(s, u, rejects, txHash, txMatchTime, r);
        r
  }

  /** The taker comes out rejected exactly when some rejected order names it
      and is not newer than the match; only its record is written, and it
      holds the returned taker. */
  ghost predicate TakerRejected(r: (Session, LendingItem), s: Session, u: LendingItem, rejects: seq<LendingItem>,
                                txHash: Hash, txMatchTime: Time) {
    && r.1 == (if RejectsTaker(u.hash, rejects, txMatchTime) then RejectedTaker(u, txHash, txMatchTime) else u)
    && (forall h :: h in r.0.items <==> h in s.items || (h == u.hash && RejectsTaker(u.hash, rejects, txMatchTime)))
    && (forall h :: h in r.0.items && h != u.hash ==> r.0.items[h] == s.items[h])
    && (u.hash in r.0.items ==> r.0.items[u.hash] == if RejectsTaker(u.hash, rejects, txMatchTime) then r.1 else s.items[u.hash])
  }

  /** A first rejected order naming the taker: the rest of the loop starts
      from the rejected taker, already written. */
  lemma RejectMatchStep(s: Session, u: LendingItem, rejects: seq<LendingItem>, txHash: Hash, txMatchTime: Time,
                        s2: Session, r: (Session, LendingItem))
    requires |rejects| > 0 && u.hash == rejects[0].hash && txMatchTime >= rejects[0].updatedAt
    requires s2.failed.None? ==> s2.items == s.items[u.hash := RejectedTaker(u, txHash, txMatchTime)]
    requires r.0.failed.None? ==>
               s2.failed.None? && TakerRejected(r, s2, RejectedTaker(u, txHash, txMatchTime), rejects[1..], txHash, txMatchTime)
    ensures r.0.failed.None? ==> TakerRejected(r, s, u, rejects, txHash, txMatchTime)
  {
    if r.0.failed.None? {
      var u' := RejectedTaker(u, txHash, txMatchTime);
      assert RejectsTaker(u.hash, rejects, txMatchTime) by {
        assert rejects[0].hash == u.hash && txMatchTime >= rejects[0].updatedAt;
      }
      assert RejectedTaker(u', txHash, txMatchTime) == u';
      assert r.1 == u' && u'.hash == u.hash;
      assert u.hash in s2.items;
      assert forall h :: h in r.0.items <==> h in s.items || h == u.hash;
      assert r.0.items[u.hash] == u';
    }
  }

  /** A first rejected order not naming the taker, or newer than the match,
      changes nothing. */
  lemma RejectSkipStep(s: Session, u: LendingItem, rejects: seq<LendingItem>, txHash: Hash, txMatchTime: Time,
                       r: (Session, LendingItem))
    requires |rejects| > 0 && !(u.hash == rejects[0].hash && txMatchTime >= rejects[0].updatedAt)
    requires r.0.failed.None? ==> TakerRejected(r, s, u, rejects[1..], txHash, txMatchTime)
    ensures r.0.failed.None? ==> TakerRejected(r, s, u, rejects, txHash, txMatchTime)
  {
    assert RejectsTaker(u.hash, rejects, txMatchTime) <==> RejectsTaker(u.hash, rejects[1..], txMatchTime) by {
      if RejectsTaker(u.hash, rejects, txMatchTime) {
        var k :| 0 <= k < |rejects| && rejects[k].hash == u.hash && txMatchTime >= rejects[k].updatedAt;
        assert k > 0 && rejects[1..][k - 1] == rejects[k];
      }
      if RejectsTaker(u.hash, rejects[1..], txMatchTime) {
        var k :| 0 <= k < |rejects[1..]| && rejects[1..][k].hash == u.hash && txMatchTime >= rejects[1..][k].updatedAt;
        assert rejects[k + 1] == rejects[1..][k];
      }
    }
  }

  lemma RecordedKeyIsFinalWhen(s: Session, u: LendingItem, txHash: Hash)
    ensures Recorded(s.cache, txHash, KeyOf(u)).Some? ==> Journal(s, u, txHash, SnapshotOf(u)) == s
  {
    if Recorded(s.cache, txHash, KeyOf(u)).Some? {
      RecordedKeyIsFinal(s.cache, u.lendingToken, u.collateralToken, u.hash, txHash, SnapshotOf(u));
    }
  }

  /** The state the trade loop starts from: nothing buffered, the taker's
      key journalled, the prepared taker stamped with the match time. */
  function FoldStart(store: Store, cache: Cache, taker: LendingItem, txHash: Hash, txMatchTime: Time): Fold {
    var u0 := Prepared(store, taker, txHash, txMatchTime);
    var cache1 := UpdateLendingItemCache(cache, u0.lendingToken, u0.collateralToken, u0.hash,
                                         txHash, PriorOf(store.items, taker.hash));
    Fold(Session(map[], map[], cache1, None), u0.(updatedAt := txMatchTime), map[], [])
  }

  /** The values a call that passed the staleness gate computes, in order
      (:250-389): the prepared taker, the trade loop, the taker after the
      market rule, and the session after the maker pass, the rejected-taker
      pass and the rejected-record pass. A failed write makes every later
      pass a no-op, which is how the early returns of the program read
      here. */
  datatype Trace = Trace(prepared: LendingItem, fold: Fold, marketed: LendingItem, afterMakers: Session,
                         afterRejectedTaker: (Session, LendingItem), last: Session)

  function TraceOf(store: Store, cache: Cache, faults: set<Hash>, taker: LendingItem, txHash: Hash,
                   txMatchTime: Time, trades: seq<LendingTrade>, rejects: seq<LendingItem>): Trace
  {
    var u0 := Prepared(store, taker, txHash, txMatchTime);
    var f := FoldTrades(FoldStart(store, cache, taker, txHash, txMatchTime), trades, faults, txMatchTime);
    var u2 := MarketStatus(f.taker);
    var s3 := TouchStored(PutItem(f.session, faults, u2), store.items, Present(store.items, f.makers),
                          f.fills, txHash, txMatchTime, faults, AsMaker);
    var p := RejectTaker(s3, u2, rejects, txHash, txMatchTime, faults);
    var s5 := TouchStored(p.0, store.items, Present(store.items, RejectedHashes(rejects)),
                          f.fills, txHash, txMatchTime, faults, AsRejected);
    Trace(u0, f, u2, s3, p, s5)
  }

  /** The in-memory taker at the point the call returns. */
  function TakerAtReturn(t: Trace): LendingItem {
    if t.fold.session.failed.Some? then t.fold.taker else t.afterRejectedTaker.1
  }

  /** Apply the buffered writes: a buffered record or trade replaces the
      stored one under its hash, and everything else stays. */
  function Commit(store: Store, s: Session): (r: Store)
    ensures forall h :: h in r.items <==> h in store.items || h in s.items
    ensures forall h :: h in r.items ==> r.items[h] == if h in s.items then s.items[h] else store.items[h]
    ensures forall h :: h in r.trades <==> h in store.trades || h in s.trades
    ensures forall h :: h in r.trades ==> r.trades[h] == if h in s.trades then s.trades[h] else store.trades[h]
  {
    Store(store.items + s.items, store.trades + s.trades)
  }

  /** Synchronise one taker order, its trades and its rejected orders into
      the secondary store. `faults` are the hashes whose write the store
      refuses; `dirtyCount` is the caller's uint64 counter of records this
      transaction batch has written. */
  function SyncDataToSDKNode(store: Store, cache: Cache, faults: set<Hash>, taker: LendingItem,
                             txHash: Hash, txMatchTime: Time, trades: seq<LendingTrade>,
                             rejects: seq<LendingItem>, dirtyCount: u64): (r: SyncResult)
    ensures IsStale(txMatchTime, Prepared(store, taker, txHash, txMatchTime).updatedAt, dirtyCount) ==>
              r.error.None? && r.store == store && r.cache == cache && r.dirtyCount == dirtyCount
    ensures !IsStale(txMatchTime, Prepared(store, taker, txHash, txMatchTime).updatedAt, dirtyCount) ==>
              r.dirtyCount == (dirtyCount + 1) % U64Modulus
    ensures r.error.Some? ==> r.store == store
    ensures taker.hash in store.items ==> r.callerTaker == taker
    ensures IsStale(txMatchTime, Prepared(store, taker, txHash, txMatchTime).updatedAt, dirtyCount) && taker.hash !in store.items ==>
              r.callerTaker == Prepared(store, taker, txHash, txMatchTime)
  {
    var u0 := Prepared(store, taker, txHash, txMatchTime);
    var alias := taker.hash !in store.items;
    if IsStale(txMatchTime, u0.updatedAt, dirtyCount) then
      SyncResult(None, store, cache, dirtyCount, if alias then u0 else taker)
    else
      var count := (dirtyCount + 1) % U64Modulus;
      var t := TraceOf(store, cache, faults, taker, txHash, txMatchTime, trades, rejects);
      var caller := if alias then TakerAtReturn(t) else taker;
      if t.last.failed.Some? then SyncResult(t.last.failed, store, t.last.cache, count, caller)
      else SyncResult(None, Commit(store, t.last), t.last.cache, count, caller)
  }
}

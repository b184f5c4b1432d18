/** The liquidation scanner (`ProcessLiquidationData`,
    tomoxlending/tomoxlending.go:480-519): a price pass per trading pair that
    repeatedly takes the lowest liquidation-price bucket strictly below the
    pair's liquidation price and removes every trading id in it, and a time
    pass per lending book over liquidation times.

    Both indices are modelled as sequences of entries, each read as a set:
    every query and removal below depends only on which entries are present.
    The price index keeps an entry per (order book, price, lending book,
    trading id), the time index one per (lending book, time, trading-id
    hash). */
module Liquidation {
  import opened Types
  import opened Bytes

  /** An index entry: the book it belongs to, its level (a liquidation price
      or a liquidation time) and the key stored at that level. */
  datatype Entry<K> = Entry(book: Hash, level: nat, key: K)

  /** An entry of `book` whose level is crossed: positive and strictly below `bound`. */
  predicate Crossed<K>(e: Entry<K>, book: Hash, bound: nat) {
    e.book == book && 0 < e.level < bound
  }

  /** The lowest crossed level of `book`, or 0 when nothing is crossed: what
      `GetLowestLiquidationPriceData` and `GetLowestLiquidationTime` are
      taken to return. */
  function Lowest<K>(idx: seq<Entry<K>>, book: Hash, bound: nat): (r: nat)
    ensures r == 0 <==> forall i :: 0 <= i < |idx| ==> !Crossed(idx[i], book, bound)
    ensures r > 0 ==> exists i :: 0 <= i < |idx| && Crossed(idx[i], book, bound) && idx[i].level == r
    ensures forall i :: 0 <= i < |idx| && Crossed(idx[i], book, bound) ==> r <= idx[i].level
  {
    if |idx| == 0 then 0
    else
      var rest := Lowest(idx[1..], book, bound);
      assert forall i :: 1 <= i < |idx| ==> idx[1..][i - 1] == idx[i];
      if Crossed(idx[0], book, bound) && (rest == 0 || idx[0].level < rest) then idx[0].level
      else
        assert rest > 0 ==> exists i :: 0 <= i < |idx| && Crossed(idx[i], book, bound) && idx[i].level == rest by {
          if rest > 0 {
            var i :| 0 <= i < |idx[1..]| && Crossed(idx[1..][i], book, bound) && idx[1..][i].level == rest;
            assert idx[i + 1] == idx[1..][i];
          }
        }
        rest
  }

  /** The keys stored at `level` of `book`. */
  function KeysAt<K(==,!new)>(idx: seq<Entry<K>>, book: Hash, level: nat): (r: seq<K>)
    ensures forall k :: k in r <==> Entry(book, level, k) in idx
  {
    if |idx| == 0 then []
    else
      var rest := KeysAt(idx[1..], book, level);
      assert forall e :: e in idx <==> e == idx[0] || e in idx[1..];
      if idx[0].book == book && idx[0].level == level then [idx[0].key] + rest else rest
  }

  /** `RemoveLiquidationPrice` / `RemoveLiquidationData`: drop `target`. */
  function Without<K(==,!new)>(idx: seq<Entry<K>>, target: Entry<K>): (r: seq<Entry<K>>)
    ensures forall e :: e in r <==> e in idx && e != target
    ensures |r| <= |idx|
    ensures target in idx ==> |r| < |idx|
  {
    if |idx| == 0 then []
    else
      var rest := Without(idx[1..], target);
      assert forall e :: e in idx <==> e == idx[0] || e in idx[1..];
      if idx[0] == target then rest else [idx[0]] + rest
  }

  /** The inner loop: remove the entry of every key in `keys` at `level` of `book`. */
  function RemoveEach<K(==,!new)>(idx: seq<Entry<K>>, book: Hash, level: nat, keys: seq<K>): (r: seq<Entry<K>>)
    ensures forall e :: e in r <==> e in idx && !(e.book == book && e.level == level && e.key in keys)
    ensures |r| <= |idx|
    ensures forall e :: e in idx && e !in r ==> |r| < |idx|
    decreases |keys|
  {
    if |keys| == 0 then idx
    else
      var first := Without(idx, Entry(book, level, keys[0]));
      var r := RemoveEach(first, book, level, keys[1..]);
      assert forall k :: k in keys <==> k == keys[0] || k in keys[1..];
      r
  }

  // ---------------------------------------------------------------- prices

  /** A price-index key: the lending book and the trading id. */
  type PriceKey = (Hash, u64)

  /** `liquidationData` as the query returns it: per lending book, the
      trading ids at the lowest price, each as its 32-byte hash. */
  function LiquidationData(idx: seq<Entry<PriceKey>>, orderbook: Hash, price: nat): seq<(Hash, Hash)> {
    EncodeIds(KeysAt(idx, orderbook, price))
  }

  function EncodeIds(keys: seq<PriceKey>): (r: seq<(Hash, Hash)>)
    ensures |r| == |keys|
  {
    if |keys| == 0 then [] else [(keys[0].0, U64ToHash(keys[0].1))] + EncodeIds(keys[1..])
  }

  /** The trading ids the loop at :494-498 recovers from the hashes. */
  function DecodeIds(data: seq<(Hash, Hash)>): (r: seq<PriceKey>)
    ensures |r| == |data|
  {
    if |data| == 0 then [] else [(data[0].0, HashToU64(data[0].1))] + DecodeIds(data[1..])
  }

  /** Decoding the query's data gives back the stored keys. */
  lemma {:induction false} DecodeEncodeIds(keys: seq<PriceKey>)
    ensures DecodeIds(EncodeIds(keys)) == keys
    decreases |keys|
  {
    if |keys| > 0 {
      TradingIdRoundTrip(keys[0].1);
      DecodeEncodeIds(keys[1..]);
    }
  }

  /** One round of the price loop: the ids at `price`, decoded and removed. */
  function RemoveLiquidationBucket(idx: seq<Entry<PriceKey>>, orderbook: Hash, price: nat): (r: seq<Entry<PriceKey>>)
    ensures forall e :: e in r <==> e in idx && !(e.book == orderbook && e.level == price)
    ensures forall e :: e in idx && e !in r ==> |r| < |idx|
  {
    DecodeEncodeIds(KeysAt(idx, orderbook, price));
    RemoveEach(idx, orderbook, price, DecodeIds(LiquidationData(idx, orderbook, price)))
  }

  /** The price loop for one order book (:489-503): while the lowest price
      is positive and below `liquidationPrice`, remove its bucket and query
      again. */
  function PricePass(idx: seq<Entry<PriceKey>>, orderbook: Hash, liquidationPrice: nat): (r: seq<Entry<PriceKey>>)
    ensures forall e :: e in r <==> e in idx && !Crossed(e, orderbook, liquidationPrice)
    decreases |idx|
  {
    var lowest := Lowest(idx, orderbook, liquidationPrice);
    if 0 < lowest < liquidationPrice then
      var next := RemoveLiquidationBucket(idx, orderbook, lowest);
      var i :| 0 <= i < |idx| && Crossed(idx[i], orderbook, liquidationPrice) && idx[i].level == lowest;
      assert idx[i] in idx && idx[i] !in next;
      PricePass(next, orderbook, liquidationPrice)
    else idx
  }

  /** A second price pass finds nothing left to liquidate. */
  lemma PricePassIdempotent(idx: seq<Entry<PriceKey>>, orderbook: Hash, liquidationPrice: nat)
    ensures PricePass(PricePass(idx, orderbook, liquidationPrice), orderbook, liquidationPrice)
            == PricePass(idx, orderbook, liquidationPrice)
  {
    var once := PricePass(idx, orderbook, liquidationPrice);
    assert forall i :: 0 <= i < |once| ==> once[i] in once;
  }

  /** The price half of `ProcessLiquidationData`: nothing when the trading
      pairs cannot be read, otherwise the price loop for every pair with its
      own liquidation price. */
  function ProcessLiquidationPrices(idx: seq<Entry<PriceKey>>, pairs: Option<seq<Hash>>,
                                    liquidationPrice: Hash -> nat): (r: seq<Entry<PriceKey>>)
    ensures pairs.None? ==> r == idx
    ensures pairs.Some? ==>
              forall e :: e in r <==> e in idx && !(e.book in pairs.value && Crossed(e, e.book, liquidationPrice(e.book)))
  {
    match pairs
    case None => idx
    case Some(books) => PriceAll(idx, books, liquidationPrice)
  }

  function PriceAll(idx: seq<Entry<PriceKey>>, books: seq<Hash>, liquidationPrice: Hash -> nat): (r: seq<Entry<PriceKey>>)
    ensures forall e :: e in r <==> e in idx && !(e.book in books && Crossed(e, e.book, liquidationPrice(e.book)))
    decreases |books|
  {
    if |books| == 0 then idx
    else
      var r := PriceAll(PricePass(idx, books[0], liquidationPrice(books[0])), books[1..], liquidationPrice);
      assert forall b :: b in books <==> b == books[0] || b in books[1..];
      r
  }

  // ----------------------------------------------------------------- times

  /** The time loop for one lending book as written (:508-517): the lowest
      time and its ids are read once, before the loop, and never again, so
      the guard never changes. `fuel` bounds the iterations; `None` means
      the fuel ran out with the loop still going. */
  function TimePassAsWritten(idx: seq<Entry<Hash>>, lendingBook: Hash, time: nat, fuel: nat): (r: Option<seq<Entry<Hash>>>)
    ensures r.Some? <==> forall i :: 0 <= i < |idx| ==> !Crossed(idx[i], lendingBook, time)
    ensures r.Some? ==> r.value == idx
  {
    var lowest := Lowest(idx, lendingBook, time);
    var ids := KeysAt(idx, lendingBook, lowest);
    if lowest > 0 then
      SweepNeverEnds(idx, lendingBook, lowest, ids, time, fuel);
      RepeatSweep(idx, lendingBook, lowest, ids, time, fuel)
    else RepeatSweep(idx, lendingBook, lowest, ids, time, fuel)
  }

  function RepeatSweep(idx: seq<Entry<Hash>>, lendingBook: Hash, lowest: nat, ids: seq<Hash>, time: nat,
                       fuel: nat): Option<seq<Entry<Hash>>>
    decreases fuel
  {
    if !(0 < lowest < time) then Some(idx)
    else if fuel == 0 then None
    else RepeatSweep(RemoveEach(idx, lendingBook, lowest % U64Modulus, ids), lendingBook, lowest, ids, time, fuel - 1)
  }

  /** As written, the time loop never ends once some entry of the book is
      crossed: no amount of fuel suffices. */
  lemma TimePassNeverEnds(idx: seq<Entry<Hash>>, lendingBook: Hash, time: nat, fuel: nat)
    requires exists i :: 0 <= i < |idx| && Crossed(idx[i], lendingBook, time)
    ensures TimePassAsWritten(idx, lendingBook, time, fuel).None?
  {
    var lowest := Lowest(idx, lendingBook, time);
    SweepNeverEnds(idx, lendingBook, lowest, KeysAt(idx, lendingBook, lowest), time, fuel);
  }

  lemma {:induction false} SweepNeverEnds(idx: seq<Entry<Hash>>, lendingBook: Hash, lowest: nat, ids: seq<Hash>,
                                          time: nat, fuel: nat)
    requires 0 < lowest < time
    ensures RepeatSweep(idx, lendingBook, lowest, ids, time, fuel).None?
    decreases fuel
  {
    if fuel > 0 {
      SweepNeverEnds(RemoveEach(idx, lendingBook, lowest % U64Modulus, ids), lendingBook, lowest, ids, time, fuel - 1);
    }
  }

  /** Every liquidation time is a uint64, as the time index stores it. */
  predicate TimesFit(idx: seq<Entry<Hash>>) {
    forall i :: 0 <= i < |idx| ==> idx[i].level < U64Modulus
  }

  /** One round of the time loop: the ids at `lowest`, removed at the
      lowest time converted to uint64, which keeps it when it fits. */
  function RemoveLiquidationTime(idx: seq<Entry<Hash>>, lendingBook: Hash, lowest: nat): (r: seq<Entry<Hash>>)
    requires lowest < U64Modulus
    ensures forall e :: e in r <==> e in idx && !(e.book == lendingBook && e.level == lowest)
    ensures forall e :: e in idx && e !in r ==> |r| < |idx|
  {
    assert lowest % U64Modulus == lowest;
    RemoveEach(idx, lendingBook, lowest % U64Modulus, KeysAt(idx, lendingBook, lowest))
  }

  /** The time loop as evidently intended: query the lowest time again
      after each sweep, as the price loop does. Times are stored as uint64,
      which the requirement on `idx` records. */
  function TimePass(idx: seq<Entry<Hash>>, lendingBook: Hash, time: nat): (r: seq<Entry<Hash>>)
    requires TimesFit(idx)
    ensures forall e :: e in r <==> e in idx && !Crossed(e, lendingBook, time)
    ensures TimesFit(r)
    decreases |idx|
  {
    var lowest := Lowest(idx, lendingBook, time);
    if 0 < lowest < time then
      var i :| 0 <= i < |idx| && Crossed(idx[i], lendingBook, time) && idx[i].level == lowest;
      var next := RemoveLiquidationTime(idx, lendingBook, lowest);
      assert idx[i] in idx && idx[i] !in next;
      assert TimesFit(next) by {
        forall j | 0 <= j < |next| ensures next[j].level < U64Modulus {
          assert next[j] in next;
          var k :| 0 <= k < |idx| && idx[k] == next[j];
        }
      }
      TimePass(next, lendingBook, time)
    else
      assert TimesFit(idx);
      idx
  }

  /** The corrected time loop ends where one sweep of the as-written loop
      was meant to lead: after it, the as-written loop has nothing crossed
      to spin on and returns at once. */
  lemma TimePassSettles(idx: seq<Entry<Hash>>, lendingBook: Hash, time: nat, fuel: nat)
    requires TimesFit(idx)
    ensures var r := TimePass(idx, lendingBook, time);
            TimePassAsWritten(r, lendingBook, time, fuel) == Some(r)
  {
    var r := TimePass(idx, lendingBook, time);
    assert forall i :: 0 <= i < |r| ==> r[i] in r;
  }

  function TimeAll(idx: seq<Entry<Hash>>, books: seq<Hash>, time: nat): (r: seq<Entry<Hash>>)
    requires TimesFit(idx)
    ensures TimesFit(r)
    ensures forall e :: e in r <==> e in idx && !(e.book in books && Crossed(e, e.book, time))
    decreases |books|
  {
    if |books| == 0 then idx
    else
      var r := TimeAll(TimePass(idx, books[0], time), books[1..], time);
      assert forall b :: b in books <==> b == books[0] || b in books[1..];
      r
  }

  /** `ProcessLiquidationData` with the time loop corrected: when the
      trading pairs cannot be read neither index changes (the early return
      skips the time half too); otherwise every crossed price entry of a
      listed pair and every crossed time entry of a listed lending book is
      removed, and nothing else. */
  function ProcessLiquidationData(prices: seq<Entry<PriceKey>>, times: seq<Entry<Hash>>, pairs: Option<seq<Hash>>,
                                  liquidationPrice: Hash -> nat, lendingBooks: seq<Hash>, time: nat)
    : (r: (seq<Entry<PriceKey>>, seq<Entry<Hash>>))
    requires TimesFit(times)
    ensures pairs.None? ==> r == (prices, times)
    ensures pairs.Some? ==>
              (forall e :: e in r.0 <==> e in prices && !(e.book in pairs.value && Crossed(e, e.book, liquidationPrice(e.book))))
              && (forall e :: e in r.1 <==> e in times && !(e.book in lendingBooks && Crossed(e, e.book, time)))
  {
    match pairs
    case None => (prices, times)
    case Some(_) => (ProcessLiquidationPrices(prices, pairs, liquidationPrice), TimeAll(times, lendingBooks, time))
  }

  /** A scan right after a scan removes nothing. */
  lemma ProcessLiquidationDataIdempotent(prices: seq<Entry<PriceKey>>, times: seq<Entry<Hash>>, pairs: Option<seq<Hash>>,
                                         liquidationPrice: Hash -> nat, lendingBooks: seq<Hash>, time: nat)
    requires TimesFit(times)
    ensures var once := ProcessLiquidationData(prices, times, pairs, liquidationPrice, lendingBooks, time);
            TimesFit(once.1)
            && ProcessLiquidationData(once.0, once.1, pairs, liquidationPrice, lendingBooks, time) == once
  {
    var once := ProcessLiquidationData(prices, times, pairs, liquidationPrice, lendingBooks, time);
    if pairs.Some? {
      assert forall i :: 0 <= i < |once.0| ==> once.0[i] in once.0;
      assert forall i :: 0 <= i < |once.1| ==> once.1[i] in once.1;
      PriceAllSettled(once.0, pairs.value, liquidationPrice);
      TimeAllSettled(once.1, lendingBooks, time);
    }
  }

  /** With nothing crossed in the listed books, the price passes return the index as it is. */
  lemma {:induction false} PriceAllSettled(idx: seq<Entry<PriceKey>>, books: seq<Hash>, liquidationPrice: Hash -> nat)
    requires forall i :: 0 <= i < |idx| ==> !(idx[i].book in books && Crossed(idx[i], idx[i].book, liquidationPrice(idx[i].book)))
    ensures PriceAll(idx, books, liquidationPrice) == idx
    decreases |books|
  {
    if |books| > 0 {
      assert Lowest(idx, books[0], liquidationPrice(books[0])) == 0;
      PriceAllSettled(idx, books[1..], liquidationPrice);
    }
  }

  /** With nothing crossed in the listed books, the time passes return the index as it is. */
  lemma {:induction false} TimeAllSettled(idx: seq<Entry<Hash>>, books: seq<Hash>, time: nat)
    requires TimesFit(idx)
    requires forall i :: 0 <= i < |idx| ==> !(idx[i].book in books && Crossed(idx[i], idx[i].book, time))
    ensures TimeAll(idx, books, time) == idx
    decreases |books|
  {
    if |books| > 0 {
      assert Lowest(idx, books[0], time) == 0;
      TimeAllSettled(idx, books[1..], time);
    }
  }
}

/** Locating the lending state root a block commits to
    (`GetLendingStateRoot`, tomoxlending/tomoxlending.go:416-425). */
module StateRoot {
  import opened Types
  import opened Bytes

  /** The two parts of a block transaction the lookup reads: its recipient
      (`None` for a contract creation) and its payload. */
  datatype Transaction = Transaction(to: Option<Address>, data: seq<byte>)

  /** A transaction addressed to the state address whose payload holds more
      than the 32-byte prefix. */
  predicate CarriesRoot(tx: Transaction, stateAddr: Address) {
    tx.to == Some(stateAddr) && |tx.data| > 32
  }

  /** The root in the first transaction that carries one, read from the
      payload past its first 32 bytes; `emptyRoot` when none does. */
  function GetLendingStateRoot(txs: seq<Transaction>, stateAddr: Address, emptyRoot: Hash): (r: Hash)
    ensures (forall k :: 0 <= k < |txs| ==> !CarriesRoot(txs[k], stateAddr)) ==> r == emptyRoot
    ensures forall k :: 0 <= k < |txs| && CarriesRoot(txs[k], stateAddr)
                        && (forall j :: 0 <= j < k ==> !CarriesRoot(txs[j], stateAddr))
                        ==> r == BytesToHash(txs[k].data[32..])
  {
    if |txs| == 0 then emptyRoot
    else if CarriesRoot(txs[0], stateAddr) then BytesToHash(txs[0].data[32..])
    else
      var r := GetLendingStateRoot(txs[1..], stateAddr, emptyRoot);
      assert forall k :: 1 <= k < |txs| ==> txs[1..][k - 1] == txs[k];
      r
  }

  /** Transactions after the first root-carrying one are never consulted. */
  lemma FirstCarrierWins(txs: seq<Transaction>, more: seq<Transaction>, stateAddr: Address, emptyRoot: Hash)
    requires exists k :: 0 <= k < |txs| && CarriesRoot(txs[k], stateAddr)
    ensures GetLendingStateRoot(txs + more, stateAddr, emptyRoot) == GetLendingStateRoot(txs, stateAddr, emptyRoot)
  {
    var k := FirstCarrier(txs, stateAddr);
    assert forall j :: 0 <= j <= k ==> (txs + more)[j] == txs[j];
  }

  /** Removing a transaction that carries no root changes nothing. */
  lemma NonCarrierIgnored(txs: seq<Transaction>, i: nat, stateAddr: Address, emptyRoot: Hash)
    requires i < |txs| && !CarriesRoot(txs[i], stateAddr)
    ensures GetLendingStateRoot(txs[..i] + txs[i + 1..], stateAddr, emptyRoot)
            == GetLendingStateRoot(txs, stateAddr, emptyRoot)
  {
    if exists k :: 0 <= k < |txs| && CarriesRoot(txs[k], stateAddr) {
      CarrierKept(txs, i, stateAddr, emptyRoot);
    } else {
      NoCarrierLeft(txs, i, stateAddr, txs[..i] + txs[i + 1..]);
    }
  }

  /** The first carrier survives the removal, still first. */
  lemma CarrierKept(txs: seq<Transaction>, i: nat, stateAddr: Address, emptyRoot: Hash)
    requires i < |txs| && !CarriesRoot(txs[i], stateAddr)
    requires exists k :: 0 <= k < |txs| && CarriesRoot(txs[k], stateAddr)
    ensures GetLendingStateRoot(txs[..i] + txs[i + 1..], stateAddr, emptyRoot)
            == GetLendingStateRoot(txs, stateAddr, emptyRoot)
  {
    var rest := txs[..i] + txs[i + 1..];
    var k := FirstCarrier(txs, stateAddr);
    var k' := if k < i then k else k - 1;
    assert rest[k'] == txs[k];
    forall j | 0 <= j < k' ensures !CarriesRoot(rest[j], stateAddr) {
      if j < i { assert rest[j] == txs[j]; } else { assert rest[j] == txs[j + 1]; }
    }
    RootAt(txs, k, stateAddr, emptyRoot);
    RootAt(rest, k', stateAddr, emptyRoot);
  }

  /** The root is read from the first carrier. */
  lemma RootAt(txs: seq<Transaction>, k: nat, stateAddr: Address, emptyRoot: Hash)
    requires k < |txs| && CarriesRoot(txs[k], stateAddr)
    requires forall j :: 0 <= j < k ==> !CarriesRoot(txs[j], stateAddr)
    ensures GetLendingStateRoot(txs, stateAddr, emptyRoot) == BytesToHash(txs[k].data[32..])
  {
  }

  /** Without a carrier, removing a transaction leaves none. */
  lemma NoCarrierLeft(txs: seq<Transaction>, i: nat, stateAddr: Address, rest: seq<Transaction>)
    requires i < |txs| && rest == txs[..i] + txs[i + 1..]
    requires forall k :: 0 <= k < |txs| ==> !CarriesRoot(txs[k], stateAddr)
    ensures forall k :: 0 <= k < |rest| ==> !CarriesRoot(rest[k], stateAddr)
  {
    forall k | 0 <= k < |rest| ensures !CarriesRoot(rest[k], stateAddr) {
      if k < i { assert rest[k] == txs[k]; } else { assert rest[k] == txs[k + 1]; }
    }
  }

  /** The index of the first root-carrying transaction. */
  function FirstCarrier(txs: seq<Transaction>, stateAddr: Address): (k: nat)
    requires exists k :: 0 <= k < |txs| && CarriesRoot(txs[k], stateAddr)
    ensures k < |txs| && CarriesRoot(txs[k], stateAddr)
    ensures forall j :: 0 <= j < k ==> !CarriesRoot(txs[j], stateAddr)
  {
    if CarriesRoot(txs[0], stateAddr) then 0
    else
      assert exists k :: 0 <= k < |txs[1..]| && CarriesRoot(txs[1..][k], stateAddr) by {
        var k :| 0 <= k < |txs| && CarriesRoot(txs[k], stateAddr);
        assert txs[1..][k - 1] == txs[k];
      }
      1 + FirstCarrier(txs[1..], stateAddr)
  }
}

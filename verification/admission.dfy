/** The order admission loop (`ProcessOrderPending`,
    tomoxlending/tomoxlending.go:104-197): pending order transactions are
    taken least nonce first across accounts, turned into lending items,
    committed through the matching engine, and sorted by the commit's
    verdict into accepted orders, skipped transactions and abandoned
    accounts. */
module Admission {
  import opened Types
  import opened Bytes

  /** The fields of a pending order transaction the loop reads. The
      signature's `R` and `S` are kept as the hashes they are converted to. */
  datatype OrderTx = OrderTx(
    nonce: u64,
    quantity: nat,
    price: nat,
    exchange: Address,
    user: Address,
    baseToken: Address,
    quoteToken: Address,
    status: Status,
    side: Side,
    orderType: OrderType,
    orderHash: Hash,
    orderId: u64,
    v: int,
    r: Hash,
    s: Hash)

  // ------------------------------------------------------------ decoding

  /** Parsing the decimal form of `V` as an 8-bit signed integer and
      converting it to a byte: only values in [-128, 127] parse, and the
      conversion keeps the low eight bits. */
  function ParseV(v: int): (r: Option<byte>)
    ensures r.Some? <==> -128 <= v <= 127
    ensures r.Some? ==> r.value as int % 256 == v % 256
  {
    if -128 <= v <= 127 then Some((v % 256) as byte) else None
  }

  /** The signed 8-bit value a byte stands for. */
  function SignedOf(b: byte): (r: int)
    ensures -128 <= r <= 127
  {
    if b < 128 then b as int else b as int - 256
  }

  /** A parsed `V` reads back as the value it was parsed from, and every
      byte is the parse of its signed value. */
  lemma ParseVRoundTrip(v: int, b: byte)
    ensures ParseV(v).Some? ==> SignedOf(ParseV(v).value) == v
    ensures ParseV(SignedOf(b)) == Some(b)
  {
  }

  /** `int64(n)` for a uint64 `n`: the same 64 bits read as two's complement. */
  function Int64Of(n: u64): (r: int)
    ensures -0x8000_0000_0000_0000 <= r < 0x8000_0000_0000_0000
    ensures r % U64Modulus == n
  {
    if n < 0x8000_0000_0000_0000 then n else n - U64Modulus
  }

  /** Distinct nonces stay distinct once reinterpreted. */
  lemma Int64OfInjective(m: u64, n: u64)
    requires Int64Of(m) == Int64Of(n)
    ensures m == n
  {
  }

  /** The lending item built from a transaction (:124-142): fresh, with no
      fill, no timestamps and no transaction hash; the term is not taken
      from the transaction. */
  function Build(tx: OrderTx, v: byte): (r: LendingItem)
    ensures r.hash == tx.orderHash && r.lendingId == tx.orderId && r.nonce % U64Modulus == tx.nonce
    ensures r.filledAmount == 0 && r.term == 0 && r.createdAt == 0 && r.updatedAt == 0 && r.txHash == Zeros(32)
  {
    LendingItem(
      hash := tx.orderHash,
      lendingId := tx.orderId,
      userAddress := tx.user,
      relayer := tx.exchange,
      lendingToken := tx.baseToken,
      collateralToken := tx.quoteToken,
      quantity := tx.quantity,
      interest := tx.price,
      filledAmount := 0,
      term := 0,
      side := tx.side,
      orderType := tx.orderType,
      status := tx.status,
      signature := Signature(v, tx.r, tx.s),
      nonce := Int64Of(tx.nonce),
      createdAt := 0,
      updatedAt := 0,
      txHash := Zeros(32))
  }

  // ------------------------------------------------------------- queues

  /** Pending transactions, one nonce-ordered queue per account. */
  type Queues = seq<seq<OrderTx>>

  /** The account whose head transaction has the least nonce, the lowest
      such account on a tie; `None` once every queue is empty. */
  function Peek(q: Queues): (r: Option<nat>)
    ensures r.None? <==> forall a :: 0 <= a < |q| ==> |q[a]| == 0
    ensures r.Some? ==> r.value < |q| && |q[r.value]| > 0
    ensures r.Some? ==> forall a :: 0 <= a < |q| && |q[a]| > 0 ==> q[r.value][0].nonce <= q[a][0].nonce
    ensures r.Some? ==> forall a :: 0 <= a < r.value && |q[a]| > 0 ==> q[r.value][0].nonce < q[a][0].nonce
  {
    if |q| == 0 then None
    else
      var last := |q| - 1;
      var rest := Peek(q[..last]);
      assert forall a :: 0 <= a < last ==> q[..last][a] == q[a];
      if |q[last]| == 0 then rest
      else if rest.None? || q[last][0].nonce < q[rest.value][0].nonce then Some(last)
      else rest
  }

  /** `Shift`: drop the account's head transaction. */
  function Shift(q: Queues, a: nat): (r: Queues)
    requires a < |q| && |q[a]| > 0
    ensures |r| == |q| && r[a] == q[a][1..]
    ensures forall b :: 0 <= b < |q| && b != a ==> r[b] == q[b]
  {
    q[a := q[a][1..]]
  }

  /** `Pop`: drop the account's whole queue. */
  function Pop(q: Queues, a: nat): (r: Queues)
    requires a < |q|
    ensures |r| == |q| && r[a] == []
    ensures forall b :: 0 <= b < |q| && b != a ==> r[b] == q[b]
  {
    q[a := []]
  }

  /** The number of pending transactions. */
  function Size(q: Queues): nat {
    if |q| == 0 then 0 else Size(q[..|q| - 1]) + |q[|q| - 1]|
  }

  /** Replacing one queue changes the size by the difference in lengths. */
  lemma {:induction false} SizeUpdate(q: Queues, a: nat, x: seq<OrderTx>)
    requires a < |q|
    ensures Size(q[a := x]) + |q[a]| == Size(q) + |x|
    decreases |q|
  {
    var last := |q| - 1;
    assert q[a := x][..last] == if a == last then q[..last] else q[..last][a := x];
    if a < last {
      SizeUpdate(q[..last], a, x);
    }
  }

  // ------------------------------------------------------------- commit

  /** The verdicts the loop distinguishes; `OtherError` is any other error. */
  datatype CommitError = NoError | NonceTooLow | NonceTooHigh | OtherError

  /** What `CommitOrder` hands back: the state after the attempt, its
      verdict, the lending id it assigned and the orders it rejected. */
  datatype CommitReply<S> = CommitReply(state: S, err: CommitError, lendingId: u64, rejects: seq<LendingItem>)

  /** What happened to one transaction: its `V` did not parse, or it was
      committed with a verdict. */
  datatype Outcome =
    | Unparsable
    | Committed(v: byte, err: CommitError, lendingId: u64, rejects: seq<LendingItem>)

  datatype Step = Step(account: nat, tx: OrderTx, outcome: Outcome)

  /** The loop's accumulated results and the log of every step it took. */
  datatype Admitted<S> = Admitted(
    state: S,
    accepted: seq<LendingItem>,
    results: map<Hash, seq<LendingItem>>,
    log: seq<Step>)

  predicate Accepts(s: Step) {
    s.outcome.Committed? && s.outcome.err == NoError
  }

  /** The item an accepted step contributes: the pre-commit order with the
      committed lending id. */
  function AcceptedItem(s: Step): LendingItem
    requires Accepts(s)
  {
    Build(s.tx, s.outcome.v).(lendingId := s.outcome.lendingId)
  }

  /** Reference: the accepted items of a log, in log order. */
  function AcceptedOf(log: seq<Step>): seq<LendingItem> {
    if |log| == 0 then []
    else AcceptedOf(log[..|log| - 1]) + (if Accepts(log[|log| - 1]) then [AcceptedItem(log[|log| - 1])] else [])
  }

  /** Reference: each accepted order's rejects, a later acceptance of the
      same order hash replacing an earlier one. */
  function ResultsOf(log: seq<Step>): map<Hash, seq<LendingItem>> {
    if |log| == 0 then map[]
    else
      var s := log[|log| - 1];
      if Accepts(s) then ResultsOf(log[..|log| - 1])[s.tx.orderHash := s.outcome.rejects]
      else ResultsOf(log[..|log| - 1])
  }

  /** The next queues after a step: a nonce-too-high verdict abandons the
      account, anything else moves past the transaction. */
  function Next(q: Queues, a: nat, outcome: Outcome): (r: Queues)
    requires a < |q| && |q[a]| > 0
    ensures Size(r) < Size(q)
    ensures |r| == |q| && forall b :: 0 <= b < |q| && b != a ==> r[b] == q[b]
    ensures r[a] == if outcome.Committed? && outcome.err == NonceTooHigh then [] else q[a][1..]
  {
    if outcome.Committed? && outcome.err == NonceTooHigh then
      SizeUpdate(q, a, []);
      Pop(q, a)
    else
      SizeUpdate(q, a, q[a][1..]);
      Shift(q, a)
  }

  /** Record one step in the accumulator: the step is logged, and the
      accepted list grows by one exactly when the step accepted an order. */
  function Record<S>(acc: Admitted<S>, state: S, s: Step): (r: Admitted<S>)
    ensures r.state == state && r.log == acc.log + [s]
    ensures |r.accepted| == |acc.accepted| + (if Accepts(s) then 1 else 0)
  {
    if Accepts(s) then
      Admitted(state, acc.accepted + [AcceptedItem(s)], acc.results[s.tx.orderHash := s.outcome.rejects], acc.log + [s])
    else Admitted(state, acc.accepted, acc.results, acc.log + [s])
  }

  /** One transaction: parse `V`, build the order, commit it. A `V` that
      does not parse commits nothing; otherwise the order committed is the
      one built with the parsed `V`, and the outcome carries the commit's
      verdict, lending id and rejects. */
  function Attempt<S>(tx: OrderTx, state: S, commit: (S, LendingItem) -> CommitReply<S>): (r: (S, Outcome))
    ensures r.1.Unparsable? <==> ParseV(tx.v).None?
    ensures r.1.Unparsable? ==> r.0 == state
    ensures r.1.Committed? ==>
              && ParseV(tx.v) == Some(r.1.v)
              && var reply := commit(state, Build(tx, r.1.v));
                 r.0 == reply.state && r.1.err == reply.err && r.1.lendingId == reply.lendingId && r.1.rejects == reply.rejects
  {
    match ParseV(tx.v)
    case None => (state, Unparsable)
    case Some(v) =>
      var reply := commit(state, Build(tx, v));
      (reply.state, Committed(v, reply.err, reply.lendingId, reply.rejects))
  }

  /** The admission loop with a transaction whose `V` does not parse
      skipped like any other failed transaction. */
  function Admit<S>(q: Queues, state: S, commit: (S, LendingItem) -> CommitReply<S>, acc: Admitted<S>): (r: Admitted<S>)
    ensures |acc.log| <= |r.log| <= |acc.log| + Size(q) && r.log[..|acc.log|] == acc.log
    ensures Peek(q).Some? ==> |r.log| > |acc.log|
    ensures |r.accepted| - |acc.accepted| <= |r.log| - |acc.log|
    decreases Size(q)
  {
    match Peek(q)
    case None => acc.(state := state)
    case Some(a) =>
      var (state', outcome) := Attempt(q[a][0], state, commit);
      Admit(Next(q, a, outcome), state', commit, Record(acc, state', Step(a, q[a][0], outcome)))
  }

  /** `ProcessOrderPending` over the pending queues, starting from `state`:
      one step per transaction taken, at least one when anything is pending,
      never more steps than pending transactions, and at most one accepted
      order per step. */
  function ProcessOrderPending<S>(q: Queues, state: S, commit: (S, LendingItem) -> CommitReply<S>): (r: Admitted<S>)
    ensures |r.log| <= Size(q)
    ensures Peek(q).Some? ==> |r.log| > 0
    ensures |r.accepted| <= |r.log|
  {
    Admit(q, state, commit, Admitted(state, [], map[], []))
  }

  /** The loop as written: a transaction whose `V` does not parse is peeked
      again with nothing changed. `fuel` bounds the iterations; `None`
      means the fuel ran out. */
  function AdmitAsWritten<S>(q: Queues, state: S, commit: (S, LendingItem) -> CommitReply<S>, acc: Admitted<S>,
                             fuel: nat): (r: Option<Admitted<S>>)
    ensures r.Some? ==> |acc.log| <= |r.value.log| <= |acc.log| + Size(q) && r.value.log[..|acc.log|] == acc.log
    ensures Peek(q).None? ==> r.Some?
    decreases fuel
  {
    match Peek(q)
    case None => Some(acc.(state := state))
    case Some(a) =>
      if fuel == 0 then None
      else if ParseV(q[a][0].v).None? then AdmitAsWritten(q, state, commit, acc, fuel - 1)
      else
        var (state', outcome) := Attempt(q[a][0], state, commit);
        AdmitAsWritten(Next(q, a, outcome), state', commit, Record(acc, state', Step(a, q[a][0], outcome)), fuel - 1)
  }

  /** As written, the loop never finishes once the least-nonce transaction
      carries a `V` outside [-128, 127]. */
  lemma {:induction false} AsWrittenStalls<S>(q: Queues, state: S, commit: (S, LendingItem) -> CommitReply<S>,
                                              acc: Admitted<S>, fuel: nat)
    requires Peek(q).Some? && ParseV(q[Peek(q).value][0].v).None?
    ensures AdmitAsWritten(q, state, commit, acc, fuel).None?
    decreases fuel
  {
    if fuel > 0 {
      AsWrittenStalls(q, state, commit, acc, fuel - 1);
    }
  }

  /** Every pending transaction carries a parsable `V`. */
  predicate AllParse(q: Queues) {
    forall a, k :: 0 <= a < |q| && 0 <= k < |q[a]| ==> ParseV(q[a][k].v).Some?
  }

  /** When every `V` parses, the loop as written and the corrected loop agree. */
  lemma {:induction false} AsWrittenAgrees<S>(q: Queues, state: S, commit: (S, LendingItem) -> CommitReply<S>,
                                              acc: Admitted<S>, fuel: nat)
    requires AllParse(q) && fuel >= Size(q)
    ensures AdmitAsWritten(q, state, commit, acc, fuel) == Some(Admit(q, state, commit, acc))
    decreases Size(q)
  {
    match Peek(q)
    case None =>
    case Some(a) =>
      var attempt := Attempt(q[a][0], state, commit);
      var state', outcome := attempt.0, attempt.1;
      var q', acc' := Next(q, a, outcome), Record(acc, state', Step(a, q[a][0], outcome));
      NextKeepsParse(q, a, outcome);
      AsWrittenAgrees(q', state', commit, acc', fuel - 1);
      AsWrittenStep(q, state, commit, acc, fuel, a, state', outcome);
  }

  /** With a parsable `V` at the head, the loop as written takes the same
      step as the corrected loop, so the two agree on `q` once they agree on
      what is left after the step. */
  lemma AsWrittenStep<S>(q: Queues, state: S, commit: (S, LendingItem) -> CommitReply<S>, acc: Admitted<S>,
                         fuel: nat, a: nat, state': S, outcome: Outcome)
    requires fuel > 0 && Peek(q) == Some(a) && ParseV(q[a][0].v).Some?
    requires (state', outcome) == Attempt(q[a][0], state, commit)
    requires var acc' := Record(acc, state', Step(a, q[a][0], outcome));
             AdmitAsWritten(Next(q, a, outcome), state', commit, acc', fuel - 1) == Some(Admit(Next(q, a, outcome), state', commit, acc'))
    ensures AdmitAsWritten(q, state, commit, acc, fuel) == Some(Admit(q, state, commit, acc))
  {
    var q', acc' := Next(q, a, outcome), Record(acc, state', Step(a, q[a][0], outcome));
    assert AdmitAsWritten(q, state, commit, acc, fuel) == AdmitAsWritten(q', state', commit, acc', fuel - 1);
    assert Admit(q, state, commit, acc) == Admit(q', state', commit, acc');
  }

  lemma NextKeepsParse(q: Queues, a: nat, outcome: Outcome)
    requires AllParse(q) && a < |q| && |q[a]| > 0
    ensures AllParse(Next(q, a, outcome))
  {
    var q': Queues := Next(q, a, outcome);
    forall b: int, k: int | 0 <= b < |q'| && 0 <= k < |q'[b]| ensures ParseV(q'[b][k].v).Some? {
      if b == a { assert q'[b][k] == q[a][k + 1]; }
    }
  }
}

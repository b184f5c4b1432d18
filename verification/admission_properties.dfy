/** What the admission loop (tomoxlending/tomoxlending.go:104-197) promises
    about its results, stated over the log of steps it took. */
module AdmissionProperties {
  import opened Types
  import opened Admission

  // ------------------------------------------------------- bookkeeping

  lemma AppendLast<T>(log: seq<T>, s: T)
    ensures (log + [s])[..|log|] == log && (log + [s])[|log|] == s
  {
  }

  /** Recording a step keeps an accumulator in agreement with the reference
      definitions over its log. */
  lemma RecordAgrees<S>(acc: Admitted<S>, state: S, s: Step)
    requires acc.accepted == AcceptedOf(acc.log) && acc.results == ResultsOf(acc.log)
    ensures var r := Record(acc, state, s);
            r.accepted == AcceptedOf(r.log) && r.results == ResultsOf(r.log)
  {
    AppendLast(acc.log, s);
  }

  /** The accepted list and the matching results are the reference
      definitions applied to the log, whatever the commits did. */
  lemma {:induction false} AdmitBookkeeping<S>(q: Queues, state: S, commit: (S, LendingItem) -> CommitReply<S>,
                                               acc: Admitted<S>)
    requires acc.accepted == AcceptedOf(acc.log) && acc.results == ResultsOf(acc.log)
    ensures var r := Admit(q, state, commit, acc);
            r.accepted == AcceptedOf(r.log) && r.results == ResultsOf(r.log)
    decreases Size(q)
  {
    match Peek(q)
    case None =>
    case Some(a) =>
      var (state', outcome) := Attempt(q[a][0], state, commit);
      var s := Step(a, q[a][0], outcome);
      RecordAgrees(acc, state', s);
      AdmitBookkeeping(Next(q, a, outcome), state', commit, Record(acc, state', s));
  }

  /** Reference: `log` is what attempting its transactions one after another
      from `state` produces. Each step's outcome is the attempt of its
      transaction in the state the steps before it left, and `final` is the
      state after the last step. */
  ghost predicate Replays<S>(log: seq<Step>, state: S, commit: (S, LendingItem) -> CommitReply<S>, final: S)
    decreases |log|
  {
    if |log| == 0 then final == state
    else
      var attempt := Attempt(log[0].tx, state, commit);
      log[0].outcome == attempt.1 && Replays(log[1..], attempt.0, commit, final)
  }

  /** The steps the loop adds to the log replay the commits: each outcome is
      the commit's reply to its order in the state the earlier commits left,
      and the loop ends in the state the last commit left. */
  lemma {:induction false} AdmitReplays<S>(q: Queues, state: S, commit: (S, LendingItem) -> CommitReply<S>,
                                           acc: Admitted<S>)
    ensures var r := Admit(q, state, commit, acc);
            |acc.log| <= |r.log| && Replays(r.log[|acc.log|..], state, commit, r.state)
    decreases Size(q)
  {
    match Peek(q)
    case None =>
      assert Admit(q, state, commit, acc).log[|acc.log|..] == [];
    case Some(a) =>
      var attempt := Attempt(q[a][0], state, commit);
      var s := Step(a, q[a][0], attempt.1);
      var acc' := Record(acc, attempt.0, s);
      AdmitReplays(Next(q, a, attempt.1), attempt.0, commit, acc');
      var r := Admit(q, state, commit, acc);
      assert r == Admit(Next(q, a, attempt.1), attempt.0, commit, acc');
      var added := r.log[|acc.log|..];
      assert |acc'.log| == |acc.log| + 1 && r.log[..|acc'.log|] == acc.log + [s];
      assert added[0] == r.log[..|acc'.log|][|acc.log|];
      assert added[0] == s;
      assert added[1..] == r.log[|acc'.log|..];
      ReplaysStep(added, state, commit, r.state);
  }

  /** A log replays from `state` when its first step is the attempt in
      `state` and the rest replays from the state that attempt leaves. */
  lemma ReplaysStep<S>(log: seq<Step>, state: S, commit: (S, LendingItem) -> CommitReply<S>, final: S)
    requires |log| > 0 && log[0].outcome == Attempt(log[0].tx, state, commit).1
    requires Replays(log[1..], Attempt(log[0].tx, state, commit).0, commit, final)
    ensures Replays(log, state, commit, final)
  {
  }

  /** An order is accepted exactly when its commit reported no error: the
      accepted list holds, in order, the pre-commit copy of each such order
      with its committed lending id, and the results map each such order
      hash to the rejects of its last acceptance. The log's outcomes are the
      commit's replies, each in the state the commits before it left. */
  lemma Bookkeeping<S>(q: Queues, state: S, commit: (S, LendingItem) -> CommitReply<S>)
    ensures var r := ProcessOrderPending(q, state, commit);
            && r.accepted == AcceptedOf(r.log) && r.results == ResultsOf(r.log)
            && Replays(r.log, state, commit, r.state)
  {
    var acc := Admitted(state, [], map[], []);
    AdmitBookkeeping(q, state, commit, acc);
    AdmitReplays(q, state, commit, acc);
    assert Admit(q, state, commit, acc).log[|acc.log|..] == Admit(q, state, commit, acc).log;
  }

  /** The hashes of a list of orders. */
  function HashesOf(items: seq<LendingItem>): set<Hash> {
    set x | x in items :: x.hash
  }

  /** The matching results are keyed by exactly the accepted order hashes. */
  lemma {:induction false} ResultsKeys(log: seq<Step>)
    ensures ResultsOf(log).Keys == HashesOf(AcceptedOf(log))
    decreases |log|
  {
    if |log| > 0 {
      var init, s := log[..|log| - 1], log[|log| - 1];
      ResultsKeys(init);
      if Accepts(s) {
        var items := AcceptedOf(init) + [AcceptedItem(s)];
        assert AcceptedItem(s).hash == s.tx.orderHash;
        assert forall x :: x in items <==> x in AcceptedOf(init) || x == AcceptedItem(s);
        assert HashesOf(items) == HashesOf(AcceptedOf(init)) + {s.tx.orderHash};
      }
    }
  }

  // ---------------------------------------------------------- accounts

  /** The steps the loop took for account `a`, in order. */
  function StepsOf(log: seq<Step>, a: nat): seq<Step> {
    if |log| == 0 then []
    else StepsOf(log[..|log| - 1], a) + (if log[|log| - 1].account == a then [log[|log| - 1]] else [])
  }

  function TxsOf(steps: seq<Step>): (r: seq<OrderTx>)
    ensures |r| == |steps|
  {
    if |steps| == 0 then [] else TxsOf(steps[..|steps| - 1]) + [steps[|steps| - 1].tx]
  }

  predicate TooHigh(s: Step) {
    s.outcome.Committed? && s.outcome.err == NonceTooHigh
  }

  predicate NoneTooHigh(steps: seq<Step>) {
    forall i :: 0 <= i < |steps| ==> !TooHigh(steps[i])
  }

  /** How an account's queue stands against the steps taken for it: either
      still live, its steps having consumed a prefix of the queue with no
      nonce-too-high verdict, or abandoned right after the first such
      verdict. */
  predicate AccountStands(q0: seq<OrderTx>, rest: seq<OrderTx>, steps: seq<Step>) {
    (NoneTooHigh(steps) && TxsOf(steps) + rest == q0)
    || (|steps| > 0 && |steps| <= |q0| && NoneTooHigh(steps[..|steps| - 1]) && TooHigh(steps[|steps| - 1])
        && rest == [] && TxsOf(steps) == q0[..|steps|])
  }

  predicate AccountsStand(q0: Queues, q: Queues, log: seq<Step>) {
    |q| == |q0|
    && (forall i :: 0 <= i < |log| ==> log[i].account < |q0|)
    && forall a :: 0 <= a < |q0| ==> AccountStands(q0[a], q[a], StepsOf(log, a))
  }

  lemma StepsOfAppend(log: seq<Step>, s: Step, a: nat)
    ensures StepsOf(log + [s], a) == StepsOf(log, a) + (if s.account == a then [s] else [])
  {
    AppendLast(log, s);
  }

  /** One step keeps every account standing. */
  lemma StepKeepsAccounts(q0: Queues, q: Queues, log: seq<Step>, a: nat, s: Step)
    requires AccountsStand(q0, q, log)
    requires a < |q| && |q[a]| > 0 && s.account == a && s.tx == q[a][0]
    ensures AccountsStand(q0, Next(q, a, s.outcome), log + [s])
  {
    var q' := Next(q, a, s.outcome);
    AppendLast(log, s);
    forall b | 0 <= b < |q0| ensures AccountStands(q0[b], q'[b], StepsOf(log + [s], b)) {
      OneAccount(q0[b], q[b], q'[b], log, s, a, b);
    }
  }

  /** The step for account `a` advances `a` and leaves account `b != a` as it stood. */
  lemma OneAccount(q0: seq<OrderTx>, rest: seq<OrderTx>, rest': seq<OrderTx>, log: seq<Step>, s: Step, a: nat, b: nat)
    requires AccountStands(q0, rest, StepsOf(log, b))
    requires s.account == a
    requires b == a ==> |rest| > 0 && s.tx == rest[0] && rest' == if TooHigh(s) then [] else rest[1..]
    requires b != a ==> rest' == rest
    ensures AccountStands(q0, rest', StepsOf(log + [s], b))
  {
    StepsOfAppend(log, s, b);
    if b == a {
      AccountAdvances(q0, rest, StepsOf(log, a), s, rest');
    } else {
      assert StepsOf(log, b) + [] == StepsOf(log, b);
    }
  }

  lemma AccountAdvances(q0: seq<OrderTx>, rest: seq<OrderTx>, steps: seq<Step>, s: Step, rest': seq<OrderTx>)
    requires AccountStands(q0, rest, steps) && |rest| > 0 && s.tx == rest[0]
    requires rest' == if TooHigh(s) then [] else rest[1..]
    ensures AccountStands(q0, rest', steps + [s])
  {
    var steps' := steps + [s];
    assert steps'[..|steps|] == steps;
    assert TxsOf(steps') == TxsOf(steps) + [rest[0]];
    assert TxsOf(steps) + rest == q0;
    if TooHigh(s) {
      assert q0[..|steps'|] == TxsOf(steps) + [rest[0]];
    } else {
      assert TxsOf(steps') + rest[1..] == TxsOf(steps) + rest;
    }
  }

  /** Where the loop leaves an account once every queue is empty. */
  predicate AccountTreated(q0: seq<OrderTx>, steps: seq<Step>) {
    (NoneTooHigh(steps) && TxsOf(steps) == q0)
    || (|steps| > 0 && |steps| <= |q0| && NoneTooHigh(steps[..|steps| - 1]) && TooHigh(steps[|steps| - 1])
        && TxsOf(steps) == q0[..|steps|])
  }

  lemma {:induction false} AdmitAccounts<S>(q0: Queues, q: Queues, state: S, commit: (S, LendingItem) -> CommitReply<S>,
                                            acc: Admitted<S>)
    requires AccountsStand(q0, q, acc.log)
    ensures var r := Admit(q, state, commit, acc);
            (forall i :: 0 <= i < |r.log| ==> r.log[i].account < |q0|)
            && forall a :: 0 <= a < |q0| ==> AccountTreated(q0[a], StepsOf(r.log, a))
    decreases Size(q)
  {
    match Peek(q)
    case None =>
      forall a | 0 <= a < |q0| ensures AccountTreated(q0[a], StepsOf(acc.log, a)) {
        assert q[a] == [];
        assert TxsOf(StepsOf(acc.log, a)) + [] == TxsOf(StepsOf(acc.log, a));
      }
    case Some(a) =>
      var (state', outcome) := Attempt(q[a][0], state, commit);
      var s := Step(a, q[a][0], outcome);
      StepKeepsAccounts(q0, q, acc.log, a, s);
      AdmitAccounts(q0, Next(q, a, outcome), state', commit, Record(acc, state', s));
  }

  /** Each account's transactions are taken in queue order. Either the
      whole queue is taken and no verdict was nonce-too-high, or a prefix is
      taken whose last verdict, and only that one, was nonce-too-high: the
      account is abandoned there, while nonce-too-low, a failed parse and
      any other error move on to the account's next transaction. */
  lemma AccountsTreated<S>(q: Queues, state: S, commit: (S, LendingItem) -> CommitReply<S>)
    ensures var r := ProcessOrderPending(q, state, commit);
            (forall i :: 0 <= i < |r.log| ==> r.log[i].account < |q|)
            && forall a :: 0 <= a < |q| ==> AccountTreated(q[a], StepsOf(r.log, a))
  {
    var log: seq<Step> := [];
    forall a | 0 <= a < |q| ensures AccountStands(q[a], q[a], StepsOf(log, a)) {
      assert TxsOf([]) + q[a] == q[a];
    }
    AdmitAccounts(q, q, state, commit, Admitted(state, [], map[], []));
  }

  // -------------------------------------------------------- merge order

  /** Every queue lists strictly increasing nonces. */
  predicate QueuesSorted(q: Queues) {
    forall a, j, k :: 0 <= a < |q| && 0 <= j < k < |q[a]| ==> q[a][j].nonce < q[a][k].nonce
  }

  /** No step taken so far has a nonce above any transaction still pending. */
  predicate Below(log: seq<Step>, q: Queues) {
    forall i, a, k :: 0 <= i < |log| && 0 <= a < |q| && 0 <= k < |q[a]| ==> log[i].tx.nonce <= q[a][k].nonce
  }

  predicate NoncesAscend(log: seq<Step>) {
    forall i, j :: 0 <= i < j < |log| ==> log[i].tx.nonce <= log[j].tx.nonce
  }

  /** The transaction taken has the least nonce of all pending ones. */
  lemma PeekIsLeast(q: Queues, a: nat)
    requires QueuesSorted(q) && Peek(q) == Some(a)
    ensures forall b, k :: 0 <= b < |q| && 0 <= k < |q[b]| ==> q[a][0].nonce <= q[b][k].nonce
  {
    forall b, k | 0 <= b < |q| && 0 <= k < |q[b]| ensures q[a][0].nonce <= q[b][k].nonce {
      assert q[a][0].nonce <= q[b][0].nonce;
      assert k > 0 ==> q[b][0].nonce < q[b][k].nonce;
    }
  }

  /** The queues after a step hold only transactions that were pending. */
  lemma NextIsSuffix(q: Queues, a: nat, outcome: Outcome)
    requires a < |q| && |q[a]| > 0
    ensures var q' := Next(q, a, outcome);
            |q'| == |q| && forall b, k :: 0 <= b < |q'| && 0 <= k < |q'[b]| ==>
                                         (b == a && k + 1 < |q[a]| && q'[b][k] == q[a][k + 1])
                                         || (b != a && q'[b][k] == q[b][k])
  {
  }

  lemma StepKeepsOrder(q: Queues, log: seq<Step>, a: nat, s: Step)
    requires QueuesSorted(q) && Below(log, q) && NoncesAscend(log)
    requires Peek(q) == Some(a) && s.tx == q[a][0]
    ensures var q' := Next(q, a, s.outcome);
            QueuesSorted(q') && Below(log + [s], q') && NoncesAscend(log + [s])
  {
    PeekIsLeast(q, a);
    NextStaysSorted(q, a, s.outcome);
    NextStaysAbove(q, log, a, s);
    AppendLast(log, s);
    var log': seq<Step> := log + [s];
    forall i, j | 0 <= i < j < |log'| ensures log'[i].tx.nonce <= log'[j].tx.nonce {
      assert log'[i] == log[i];
      if j < |log| { assert log'[j] == log[j]; }
    }
  }

  lemma NextStaysSorted(q: Queues, a: nat, outcome: Outcome)
    requires QueuesSorted(q) && a < |q| && |q[a]| > 0
    ensures QueuesSorted(Next(q, a, outcome))
  {
    var q': Queues := Next(q, a, outcome);
    forall b: int, j: int, k: int | 0 <= b < |q'| && 0 <= j < k < |q'[b]| ensures q'[b][j].nonce < q'[b][k].nonce {
      if b == a { assert q'[b][j] == q[a][j + 1] && q'[b][k] == q[a][k + 1]; }
    }
  }

  lemma NextStaysAbove(q: Queues, log: seq<Step>, a: nat, s: Step)
    requires Below(log, q) && a < |q| && |q[a]| > 0 && s.tx == q[a][0]
    requires forall b, k :: 0 <= b < |q| && 0 <= k < |q[b]| ==> q[a][0].nonce <= q[b][k].nonce
    ensures Below(log + [s], Next(q, a, s.outcome))
  {
    var q': Queues := Next(q, a, s.outcome);
    NextIsSuffix(q, a, s.outcome);
    AppendLast(log, s);
    var log': seq<Step> := log + [s];
    forall i: int, b: int, k: int | 0 <= i < |log'| && 0 <= b < |q'| && 0 <= k < |q'[b]|
      ensures log'[i].tx.nonce <= q'[b][k].nonce
    {
      var k0 := if b == a then k + 1 else k;
      assert q'[b][k] == q[b][k0];
      if i < |log| { assert log'[i] == log[i]; }
    }
  }

  lemma {:induction false} AdmitOrder<S>(q: Queues, state: S, commit: (S, LendingItem) -> CommitReply<S>, acc: Admitted<S>)
    requires QueuesSorted(q) && Below(acc.log, q) && NoncesAscend(acc.log)
    ensures NoncesAscend(Admit(q, state, commit, acc).log)
    decreases Size(q)
  {
    match Peek(q)
    case None =>
    case Some(a) =>
      var (state', outcome) := Attempt(q[a][0], state, commit);
      var s := Step(a, q[a][0], outcome);
      StepKeepsOrder(q, acc.log, a, s);
      AdmitOrder(Next(q, a, outcome), state', commit, Record(acc, state', s));
  }

  /** The merge takes transactions least nonce first: with every account's
      queue in increasing nonce order, the nonces of the steps taken never
      decrease. */
  lemma LeastNonceFirst<S>(q: Queues, state: S, commit: (S, LendingItem) -> CommitReply<S>)
    requires QueuesSorted(q)
    ensures NoncesAscend(ProcessOrderPending(q, state, commit).log)
  {
    AdmitOrder(q, state, commit, Admitted(state, [], map[], []));
  }
}

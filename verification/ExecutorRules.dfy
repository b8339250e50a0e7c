/** The rules of one transaction, in terms of its own fields: when it is refused, who
    pays, when its body succeeds, and what that does to every balance and stake. They
    hold of anything that executes a transaction as `Executes` says, and so of the
    executor. */
module ExecutorRules {
  import opened Wrappers
  import opened Executor

  function Least(a: nat, b: nat): nat { if a <= b then a else b }

  /** A transaction without the newer fee fields offers its gas price for both. */
  ghost predicate Legacy(tx: Tx) { tx.maxFeePerGas == 0 && tx.maxPriorityFeePerGas == 0 }

  /** What is paid per unit of gas: the base fee, and on top of it what the sender offers
      as far as the fee cap allows. */
  lemma FeeIs(l: Ledger, tx: Tx, baseFee: nat, collector: Option<Address>, env: Env, r: Receipt, l': Ledger)
    requires baseFee <= MAX_UINT64 && Executes(l, tx, baseFee, collector, env, r, l') && r.Executed?
    ensures var cap := if Legacy(tx) then tx.gasPrice else tx.maxFeePerGas;
            var tip := if Legacy(tx) then tx.gasPrice else tx.maxPriorityFeePerGas;
            && baseFee <= cap && tip <= cap
            && r.fee.burned == r.gasUsed * baseFee
            && r.fee.priority == r.gasUsed * Least(tip, cap - baseFee)
            && r.fee.total == r.fee.burned + r.fee.priority
  {
    hide OnlyCharged, Moved, Ends, TransferEnds, ContractEnds, Admissible, Total;
  }

  /** The paymaster pays; without one, the guardian who signs a recovery step; otherwise
      the sender. */
  ghost predicate Pays(tx: Tx, t: Address) {
    if tx.paymaster.Some? then tx.paymaster == Some(t)
    else if tx.body.Recovery? && tx.body.guardian.Some? then tx.body.guardian == Some(t)
    else tx.from == t
  }

  /** What a body takes from `t` and gives to it. */
  ghost function Takes(tx: Tx, t: Address): nat {
    if t != tx.from then 0
    else
      match tx.body
      case Transfer(_, value) => value
      case Batch(ops) => SumPaid(ops)
      case Stake(value) => value
      case _ => 0
  }

  ghost function Gives(tx: Tx, t: Address): nat {
    match tx.body
    case Transfer(dest, value) => if t == dest then value else 0
    case Batch(ops) => SumTo(ops, t)
    case Unstake(value) => if t == tx.from then value else 0
    case _ => 0
  }

  /** Every balance after an executed transaction. */
  lemma BalanceIs(l: Ledger, tx: Tx, baseFee: nat, collector: Option<Address>, env: Env, r: Receipt, l': Ledger,
                  t: Address)
    requires baseFee <= MAX_UINT64 && Executes(l, tx, baseFee, collector, env, r, l') && r.Executed?
    ensures At(l'.balances, t) == At(l.balances, t)
              + (if r.success then Gives(tx, t) - Takes(tx, t) else 0)
              + (if collector == Some(t) then r.fee.priority else 0)
              - (if Pays(tx, t) then r.fee.total else 0)
  {
    hide Charged, Ends, TransferEnds, ContractEnds, Admissible, SumTo, SumPaid;
  }

  /** Every stake after an executed transaction. */
  lemma StakeIs(l: Ledger, tx: Tx, baseFee: nat, collector: Option<Address>, env: Env, r: Receipt, l': Ledger,
                t: Address)
    requires baseFee <= MAX_UINT64 && Executes(l, tx, baseFee, collector, env, r, l') && r.Executed?
    ensures At(l'.stakes, t) == At(l.stakes, t) +
              if !r.success then 0
              else if tx.body.Stake? && t == tx.from then tx.body.value
              else if tx.body.Unstake? && t == tx.from then 0 - tx.body.value
              else if tx.body.Slash? && t == tx.body.target then 0 - At(l.stakes, t)
              else 0
  {
    hide TransferEnds, ContractEnds, Admissible, BodyFine, BodyGas, CalculateFee, Total;
  }

  /** A paymaster who is nobody else in the transaction pays the whole fee and nothing
      more, and the sender then pays for the body alone. */
  lemma PaymasterPays(l: Ledger, tx: Tx, baseFee: nat, collector: Option<Address>, env: Env, r: Receipt, l': Ledger)
    requires baseFee <= MAX_UINT64 && Executes(l, tx, baseFee, collector, env, r, l') && r.Executed?
    requires tx.paymaster.Some? && tx.paymaster.value != tx.from && tx.paymaster != collector
    requires collector != Some(tx.from) && Gives(tx, tx.paymaster.value) == 0
    ensures At(l'.balances, tx.paymaster.value) == At(l.balances, tx.paymaster.value) - r.fee.total
    ensures At(l'.balances, tx.from) ==
            At(l.balances, tx.from) + if r.success then Gives(tx, tx.from) - Takes(tx, tx.from) else 0
  {
    hide Executes, Gives;
    BalanceIs(l, tx, baseFee, collector, env, r, l', tx.paymaster.value);
    BalanceIs(l, tx, baseFee, collector, env, r, l', tx.from);
  }

  /** What the operations of a batch need in order to go through. */
  ghost predicate Goes(l: Ledger, tx: Tx, start: nat, env: Env, ops: seq<Op>) {
    && (forall t :: t != tx.from ==> At(l.balances, t) + SumTo(ops, t) <= MAX_UINT64)
    && (forall i :: 0 <= i < |ops| && ops[i].CallOp? ==> env.runs(i).outcome == Succeeded)
    && start + CallGas(ops, env) <= tx.gasLimit
  }

  /** What a body needs in order to do what it says. */
  ghost predicate Can(l: Ledger, tx: Tx, start: nat, env: Env) {
    if tx.body.Transfer? then
      && (tx.body.dest == tx.from || At(l.balances, tx.body.dest) + tx.body.value <= MAX_UINT64)
      && (env.usage.NoSession? || env.usage.Recorded?)
    else if tx.body.Batch? then Goes(l, tx, start, env, tx.body.ops)
    else if tx.body.Stake? then
      0 < tx.body.value && At(l.stakes, tx.from) + tx.body.value <= MAX_UINT64
    else if tx.body.Unstake? then
      && 0 < tx.body.value <= At(l.stakes, tx.from) && !env.locked
      && At(l.balances, tx.from) + tx.body.value <= MAX_UINT64
    else if tx.body.Slash? then env.slashAllowed && At(l.stakes, tx.body.target) > 0
    else if tx.body.Contract? then
      env.runs(0).outcome == Succeeded && start + SumOf(env.runs(0).charges) <= tx.gasLimit
    else env.runs(0).outcome == Succeeded
  }

  /** A transaction that passes the checks before it succeeds exactly then. */
  lemma SucceedsIff(l: Ledger, tx: Tx, baseFee: nat, collector: Option<Address>, env: Env, r: Receipt, l': Ledger)
    requires Good(l) && baseFee <= MAX_UINT64 && Executes(l, tx, baseFee, collector, env, r, l') && r != Rejected
    ensures env.intrinsic.Some? && (r.Executed? && r.success <==> Can(l, tx, env.intrinsic.value, env))
  {
    hide Charged, OnlyCharged, Moved, TransferEnds, ContractEnds, CalculateFee, Incoming, Tip, FeeCap, SumTo, CallGas,
      SumOf;
  }

  /** A batch comes to its end after `k` operations: all of them if they go through, or up
      to the first that does not. */
  ghost predicate Reaches(l: Ledger, tx: Tx, start: nat, env: Env, k: nat)
    requires tx.body.Batch?
  {
    && k <= |tx.body.ops|
    && (k > 0 ==> Goes(l, tx, start, env, tx.body.ops[..k - 1]))
    && (Goes(l, tx, start, env, tx.body.ops[..k]) ==> k == |tx.body.ops|)
  }

  /** The gas an executed transaction uses: a batch that of its calls up to its end, a
      contract its charges, both at most the limit; everything else the intrinsic gas. */
  lemma GasIs(l: Ledger, tx: Tx, baseFee: nat, collector: Option<Address>, env: Env, r: Receipt, l': Ledger)
    requires Good(l) && baseFee <= MAX_UINT64 && Executes(l, tx, baseFee, collector, env, r, l') && r.Executed?
    ensures env.intrinsic.Some?
    ensures var start := env.intrinsic.value;
            if tx.body.Batch? then
              exists k: nat :: Reaches(l, tx, start, env, k)
                               && r.gasUsed == Least(start + CallGas(tx.body.ops[..k], env), tx.gasLimit)
            else r.gasUsed ==
                 if tx.body.Contract? then Least(start + SumOf(env.runs(0).charges), tx.gasLimit) else start
  {
    hide Charged, OnlyCharged, Moved, TransferEnds, Admissible, BodyFine, BodyGas, CanFault, CallGas, SumOf, SumTo;
    if tx.body.Batch? {
      var start := env.intrinsic.value;
      var k: nat :| StopsAt(tx, l, start, env, k) && EndsAt(tx, start, env, k, Some(r.gasUsed));
      assert Reaches(l, tx, start, env, k);
    }
  }

  /** A transaction faults, and then changes nothing, exactly when the record of a session
      key is malformed, or the call it makes, in a batch the call that ends it, faults
      within its gas. */
  lemma FaultsIff(l: Ledger, tx: Tx, baseFee: nat, collector: Option<Address>, env: Env, r: Receipt, l': Ledger)
    requires Good(l) && baseFee <= MAX_UINT64 && Executes(l, tx, baseFee, collector, env, r, l')
    requires r.Executed? || r == ContractFault
    ensures env.intrinsic.Some? && (r == ContractFault <==> Faults(l, tx, env.intrinsic.value, env))
    ensures r == ContractFault ==> l' == l
  {
    hide Charged, OnlyCharged, Moved, Admissible, BodyFine, BodyGas, CanFault, CallGas, SumOf, SumTo;
    var start := env.intrinsic.value;
    if tx.body.Batch? {
      var gas := if r.Executed? then Some(r.gasUsed) else None;
      var k: nat :| StopsAt(tx, l, start, env, k) && EndsAt(tx, start, env, k, gas);
      assert Reaches(l, tx, start, env, k);
      forall k': nat | Reaches(l, tx, start, env, k')
        ensures k' == k
      {
        ReachesOnce(l, tx, start, env, k, k');
        ReachesOnce(l, tx, start, env, k', k);
      }
    }
  }

  ghost predicate Faults(l: Ledger, tx: Tx, start: nat, env: Env) {
    if tx.body.Transfer? then
      && env.usage.Malformed?
      && (tx.body.dest == tx.from || At(l.balances, tx.body.dest) + tx.body.value <= MAX_UINT64)
    else if tx.body.Batch? then
      exists k: nat :: Reaches(l, tx, start, env, k) && k > 0 && tx.body.ops[k - 1].CallOp?
                       && env.runs(k - 1).outcome == Faulted
                       && start + CallGas(tx.body.ops[..k], env) <= tx.gasLimit
    else if tx.body.Contract? then
      env.runs(0).outcome == Faulted && start + SumOf(env.runs(0).charges) <= tx.gasLimit
    else if tx.body.Recovery? || tx.body.Other? then env.runs(0).outcome == Faulted
    else false
  }

  lemma ReachesOnce(l: Ledger, tx: Tx, start: nat, env: Env, k: nat, k': nat)
    requires tx.body.Batch? && Reaches(l, tx, start, env, k) && Reaches(l, tx, start, env, k')
    ensures k >= k'
  {
    hide CallGas, SumTo;
    if k < k' {
      var part := tx.body.ops[..k' - 1];
      assert part[..k] == tx.body.ops[..k];
      if !BatchFine(tx, l, start, env, part[..k]) {
        BatchStuck(tx, l, start, env, part, k);
      }
    }
  }

  /** A transaction is refused exactly when one of the checks before it fails. */
  lemma AdmittedIff(l: Ledger, tx: Tx, baseFee: nat, collector: Option<Address>, env: Env, r: Receipt, l': Ledger,
                    payer: Address)
    requires Good(l) && TxWords(tx) && baseFee <= MAX_UINT64 && Executes(l, tx, baseFee, collector, env, r, l')
    requires Pays(tx, payer)
    ensures var cap := if Legacy(tx) then tx.gasPrice else tx.maxFeePerGas;
            var tip := if Legacy(tx) then tx.gasPrice else tx.maxPriorityFeePerGas;
            var maximum, from := tx.gasLimit * cap, tx.from;
            r != Rejected <==>
              && env.chainOk && env.intrinsic.Some? && env.intrinsic.value <= tx.gasLimit && env.authorised
              && At(l.nonces, from) == tx.nonce && tx.nonce < MAX_UINT64
              && baseFee <= cap && tip <= cap
              && maximum <= MAX_UINT64 && maximum <= At(l.balances, payer)
              && Takes(tx, from) <= MAX_UINT64
              && Takes(tx, from) + (if payer == from then maximum else 0) <= At(l.balances, from)
              && At(l.balances, payer) + Received(tx, payer) <= MAX_UINT64
              && (collector.Some? && collector.value != payer ==>
                    At(l.balances, collector.value) + Received(tx, collector.value)
                    + tx.gasLimit * Least(tip, cap - baseFee) <= MAX_UINT64)
  {
    hide Charged, OnlyCharged, Moved, TransferEnds, ContractEnds, Ends, SumTo, SumPaid;
    FeeOfNothing(tx, baseFee);
    hide CalculateFee;
    assert payer == Payer(tx);
  }

  /** What others send to `t`. What a sender sends to itself needs no room. */
  ghost function Received(tx: Tx, t: Address): nat {
    if t == tx.from && !tx.body.Unstake? then 0 else Gives(tx, t)
  }

  lemma FeeOfNothing(tx: Tx, baseFee: nat)
    requires TxWords(tx) && baseFee <= MAX_UINT64
    ensures CalculateFee(tx, 0, baseFee).Some? <==> baseFee <= FeeCap(tx) && PriorityCap(tx) <= FeeCap(tx)
  {
  }
}

/** A block as its transactions: what the loop of block building and checking takes
    is accounted for, transaction by transaction, by the executor. */
module BlockExecution {
  import opened Wrappers
  import opened Executor
  import opened Proposal

  /** How raw bytes become transactions, and what each meets when it runs. */
  datatype Rules = Rules(
    decode: Raw -> Option<Tx>,
    env: (Ledger, Raw) -> Env,
    baseFee: nat,
    collector: Option<Address>)

  ghost predicate ValidRules(rules: Rules) {
    && rules.baseFee <= MAX_UINT64
    && forall raw :: rules.decode(raw).Some? ==> TxWords(rules.decode(raw).value)
  }

  /** One outcome of the loop is one run of the executor. */
  ghost predicate RunsAs(rules: Rules, l: Ledger, raw: Raw, o: Outcome)
    requires ValidRules(rules)
  {
    match rules.decode(raw)
    case None => o == Undecodable
    case Some(tx) =>
      match o
      case Undecodable => false
      case Refused => !Admissible(l, tx, rules.baseFee, rules.collector, rules.env(l, raw))
      case Fatal => CanFault(rules.env(l, raw))
      case Done(l', r, gas, _) =>
        r.Executed? && gas == r.gasUsed && Good(l')
        && Executes(l, tx, rules.baseFee, rules.collector, rules.env(l, raw), r, l')
  }

  ghost predicate Follows(rules: Rules, c: Chain)
    requires ValidRules(rules)
  {
    forall l, raw {:trigger c.exec(l, raw)} :: Good(l) ==> RunsAs(rules, l, raw, c.exec(l, raw))
  }

  /** Everything that a list of receipts says has left the store. */
  ghost function LostIn(receipts: seq<Receipt>, collector: Option<Address>): nat {
    if receipts == [] then 0
    else
      var r := receipts[|receipts| - 1];
      LostIn(receipts[..|receipts| - 1], collector) + if r.Executed? then Lost(r, collector) else 0
  }

  ghost function GasIn(receipts: seq<Receipt>): nat {
    if receipts == [] then 0
    else
      var r := receipts[|receipts| - 1];
      GasIn(receipts[..|receipts| - 1]) + if r.Executed? then r.gasUsed else 0
  }

  /** How many of the transactions are from `a`. */
  ghost function SentBy(rules: Rules, raws: seq<Raw>, a: Address): nat {
    if raws == [] then 0
    else
      var tx := rules.decode(raws[|raws| - 1]);
      SentBy(rules, raws[..|raws| - 1], a) + if tx.Some? && tx.value.from == a then 1 else 0
  }

  /** What is true of everything the loop has taken so far. */
  ghost predicate Accounted(rules: Rules, base: Ledger, x: Execution) {
    && Good(x.store)
    && Total(x.store) == Total(base) - LostIn(x.receipts, rules.collector)
    && x.gasUsed == GasIn(x.receipts)
    && |x.receipts| == |x.raws|
    && (forall r :: r in x.receipts ==> r.Executed?)
    && (forall a :: At(x.store.nonces, a) == At(base.nonces, a) + SentBy(rules, x.raws, a))
  }

  lemma TakenIsAccounted(rules: Rules, c: Chain, base: Ledger, x: Execution, raw: Raw, maxBytes: nat)
    requires ValidRules(rules) && Follows(rules, c) && Accounted(rules, base, x)
    requires Consider(c, x, raw, maxBytes).Took?
    ensures Accounted(rules, base, Consider(c, x, raw, maxBytes).execution)
  {
    hide Good, Total, Admissible, CanFault, OnlyCharged, Moved, TransferEnds, ContractEnds, TxSize;
    var o, x' := c.exec(x.store, raw), Consider(c, x, raw, maxBytes).execution;
    assert RunsAs(rules, x.store, raw, o);
    var tx := rules.decode(raw).value;
    assert x'.receipts[..|x.receipts|] == x.receipts && x'.raws[..|x.raws|] == x.raws;
    assert Charged(x.store, tx, rules.baseFee, rules.collector, o.receipt, o.store);
    forall r | r in x'.receipts
      ensures r.Executed?
    {
      assert r in x.receipts || r == o.receipt;
    }
  }

  /** A block that the strict pass accepts: the value in the store falls by exactly
      the base fees, uncollected tips and slashed stakes of its receipts, its gas is
      the gas of its receipts, and each account's nonce rises by its transactions. */
  lemma {:induction false} BlockIsAccounted(rules: Rules, c: Chain, base: Ledger, raws: seq<Raw>, maxBytes: nat)
    requires ValidRules(rules) && Follows(rules, c) && Good(base)
    requires Strict(c, base, raws, maxBytes).Some?
    ensures Accounted(rules, base, Strict(c, base, raws, maxBytes).value)
    decreases |raws|
  {
    hide Good, Total, Consider, Follows;
    if raws != [] {
      BlockIsAccounted(rules, c, base, raws[..|raws| - 1], maxBytes);
      TakenIsAccounted(rules, c, base, Strict(c, base, raws[..|raws| - 1], maxBytes).value, raws[|raws| - 1], maxBytes);
    }
  }

  /** What a proposer builds is accounted for in the same way, since every validator
      accepts it with the same result. */
  lemma ProposalIsAccounted(rules: Rules, c: Chain, base: Ledger, raws: seq<Raw>, maxBytes: nat)
    requires ValidRules(rules) && Follows(rules, c) && Good(base) && maxBytes <= MAX_TX_BYTES
    requires Select(c, Start(base), raws, 0, maxBytes).Some?
    ensures Accounted(rules, base, Select(c, Start(base), raws, 0, maxBytes).value)
  {
    PreparedIsAccepted(c, base, raws, maxBytes);
    BlockIsAccounted(rules, c, base, Select(c, Start(base), raws, 0, maxBytes).value.raws, MAX_TX_BYTES);
  }
}

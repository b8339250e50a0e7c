/** Execution of one transaction: pre-checks, a fee escrow reserved from the payer,
    the body on a working copy, and settlement. Contracts change storage but no
    balances, stakes or nonces, so their effect is one opaque value; what they
    charge goes through the gas meter. */
module Executor {
  import opened Wrappers
  import opened Arithmetic
  import opened Sums

  type Address = nat

  const MAX_UINT64: nat := 0xFFFF_FFFF_FFFF_FFFF

  // ---- The store ----

  datatype Ledger = Ledger(balances: map<Address, int>, stakes: map<Address, int>, nonces: map<Address, int>, rest: nat)

  function At(m: map<Address, int>, a: Address): int { if a in m then m[a] else 0 }

  ghost predicate Words(m: map<Address, int>) { forall a :: a in m ==> 0 <= m[a] <= MAX_UINT64 }

  ghost predicate Good(l: Ledger) { Words(l.balances) && Words(l.stakes) && Words(l.nonces) }

  ghost function Total(l: Ledger): int { Sum(l.balances) + Sum(l.stakes) }

  function Credit(l: Ledger, a: Address, n: nat): Option<Ledger> {
    if MAX_UINT64 - At(l.balances, a) < n then None else Some(l.(balances := l.balances[a := At(l.balances, a) + n]))
  }

  function Debit(l: Ledger, a: Address, n: nat): Option<Ledger> {
    if At(l.balances, a) < n then None else Some(l.(balances := l.balances[a := At(l.balances, a) - n]))
  }

  function Bond(l: Ledger, a: Address, n: nat): Option<Ledger> {
    if MAX_UINT64 - At(l.stakes, a) < n then None else Some(l.(stakes := l.stakes[a := At(l.stakes, a) + n]))
  }

  function Unbond(l: Ledger, a: Address, n: nat): Option<Ledger> {
    if At(l.stakes, a) < n then None else Some(l.(stakes := l.stakes[a := At(l.stakes, a) - n]))
  }

  function Move(l: Ledger, from: Address, dest: Address, n: nat): Option<Ledger> {
    if n == 0 then Some(l)
    else
      match Debit(l, from, n)
      case None => None
      case Some(l') => Credit(l', dest, n)
  }

  lemma CreditTotal(l: Ledger, a: Address, n: nat)
    requires Good(l) && Credit(l, a, n).Some?
    ensures var l' := Credit(l, a, n).value;
            && Good(l') && Total(l') == Total(l) + n && l' == l.(balances := l'.balances)
            && forall t :: At(l'.balances, t) == At(l.balances, t) + if t == a then n else 0
  {
    hide Sum;
    SumUpdate(l.balances, a, At(l.balances, a) + n);
  }

  lemma DebitTotal(l: Ledger, a: Address, n: nat)
    requires Good(l) && Debit(l, a, n).Some?
    ensures Good(Debit(l, a, n).value) && Total(Debit(l, a, n).value) == Total(l) - n
  {
    hide Sum;
    SumUpdate(l.balances, a, At(l.balances, a) - n);
  }

  lemma BondTotal(l: Ledger, a: Address, n: nat)
    requires Good(l) && Bond(l, a, n).Some?
    ensures Good(Bond(l, a, n).value) && Total(Bond(l, a, n).value) == Total(l) + n
  {
    hide Sum;
    SumUpdate(l.stakes, a, At(l.stakes, a) + n);
  }

  lemma UnbondTotal(l: Ledger, a: Address, n: nat)
    requires Good(l) && Unbond(l, a, n).Some?
    ensures Good(Unbond(l, a, n).value) && Total(Unbond(l, a, n).value) == Total(l) - n
  {
    hide Sum;
    SumUpdate(l.stakes, a, At(l.stakes, a) - n);
  }

  lemma MoveTotal(l: Ledger, from: Address, dest: Address, n: nat)
    requires Good(l) && Move(l, from, dest, n).Some?
    ensures var l' := Move(l, from, dest, n).value;
            && Good(l') && Total(l') == Total(l)
            && l' == l.(balances := l'.balances)
            && forall t ::
              At(l'.balances, t) == At(l.balances, t) - (if t == from then n else 0) + (if t == dest then n else 0)
  {
    hide Sum;
    if n > 0 {
      DebitTotal(l, from, n);
      CreditTotal(Debit(l, from, n).value, dest, n);
    }
  }

  // ---- The gas meter ----

  class Meter {
    var gasUsed: nat
    const gasLimit: nat
    var exhausted: bool

    ghost predicate Valid()
      reads this
    {
      gasUsed <= gasLimit
    }

    constructor (gasLimit: nat)
      ensures Valid() && gasUsed == 0 && this.gasLimit == gasLimit && !exhausted
    {
      gasUsed, this.gasLimit, exhausted := 0, gasLimit, false;
    }

    /** A charge that does not fit uses up everything that is left. */
    method Charge(amount: nat) returns (ok: bool)
      requires Valid()
      modifies this
      ensures Valid() && gasUsed >= old(gasUsed)
      ensures ok <==> !old(exhausted) && old(gasUsed) + amount <= gasLimit
      ensures ok ==> gasUsed == old(gasUsed) + amount && !exhausted
      ensures !ok ==> exhausted && (old(exhausted) || gasUsed == gasLimit)
    {
      if exhausted {
        return false;
      }
      if amount == 0 {
        return true;
      }
      if amount > gasLimit - gasUsed {
        gasUsed, exhausted := gasLimit, true;
        return false;
      }
      gasUsed := gasUsed + amount;
      ok := true;
    }
  }

  ghost function SumOf(charges: seq<nat>): nat {
    if charges == [] then 0 else SumOf(charges[..|charges| - 1]) + charges[|charges| - 1]
  }

  /** A contract run: its charges, in order, until one does not fit. */
  method Metered(charges: seq<nat>, limit: nat) returns (used: nat, fits: bool)
    ensures used <= limit
    ensures fits <==> SumOf(charges) <= limit
    ensures fits ==> used == SumOf(charges)
    ensures !fits ==> used == limit
  {
    var m := new Meter(limit);
    var i := 0;
    while i < |charges|
      invariant 0 <= i <= |charges| && m.Valid() && m.gasLimit == limit && !m.exhausted
      invariant m.gasUsed == SumOf(charges[..i])
    {
      assert charges[..i + 1][..i] == charges[..i];
      var ok := m.Charge(charges[i]);
      if !ok {
        SumGrows(charges, i + 1);
        return m.gasUsed, false;
      }
      i := i + 1;
    }
    assert charges[..i] == charges;
    used, fits := m.gasUsed, true;
  }

  lemma {:induction false} SumGrows(charges: seq<nat>, i: nat)
    requires i <= |charges|
    ensures SumOf(charges[..i]) <= SumOf(charges)
    decreases |charges| - i
  {
    if i == |charges| {
      assert charges[..i] == charges;
    } else {
      assert charges[..i + 1][..i] == charges[..i];
      SumGrows(charges, i + 1);
    }
  }

  // ---- Transactions and fees ----

  datatype Op = PayOp(dest: Address, value: nat) | CallOp

  datatype Body =
    | Transfer(dest: Address, value: nat)
    | Batch(ops: seq<Op>)
    | Stake(value: nat)
    | Unstake(value: nat)
    | Slash(target: Address)
    | Contract
    | Recovery(guardian: Option<Address>)
    | Other

  /** Any transaction may name a paymaster. A recovery step is signed by a guardian
      when it approves or executes. */
  datatype Tx = Tx(from: Address, nonce: nat, gasLimit: nat, gasPrice: nat, maxFeePerGas: nat,
                   maxPriorityFeePerGas: nat,
                   paymaster: Option<Address>, body: Body)

  function Payer(tx: Tx): Address {
    if tx.paymaster.Some? then tx.paymaster.value
    else if tx.body.Recovery? && tx.body.guardian.Some? then tx.body.guardian.value
    else tx.from
  }

  function FeeCap(tx: Tx): nat {
    if tx.maxFeePerGas == 0 && tx.maxPriorityFeePerGas == 0 then tx.gasPrice else tx.maxFeePerGas
  }

  function PriorityCap(tx: Tx): nat {
    if tx.maxFeePerGas == 0 && tx.maxPriorityFeePerGas == 0 then tx.gasPrice else tx.maxPriorityFeePerGas
  }

  function CheckedAdd(a: nat, b: nat): (r: Option<nat>)
    requires a <= MAX_UINT64
    ensures r == if a + b <= MAX_UINT64 then Some(a + b) else None
  {
    if MAX_UINT64 - a < b then None else Some(a + b)
  }

  function CheckedMul(a: nat, b: nat): (r: Option<nat>)
    ensures r == if a * b <= MAX_UINT64 then Some(a * b) else None
  {
    if a != 0 then
      FitsExactly(b, a, MAX_UINT64);
      assert a * b == b * a;
      if b > MAX_UINT64 / a then None else Some(a * b)
    else
      assert a * b == 0;
      Some(0)
  }

  datatype Fee = Fee(burned: nat, priority: nat, total: nat)

  function CalculateFee(tx: Tx, gas: nat, baseFee: nat): Option<Fee>
    requires baseFee <= MAX_UINT64
  {
    if FeeCap(tx) < baseFee || PriorityCap(tx) > FeeCap(tx) then None
    else
      var available := FeeCap(tx) - baseFee;
      var tip := if PriorityCap(tx) > available then available else PriorityCap(tx);
      match CheckedAdd(baseFee, tip)
      case None => None
      case Some(price) =>
        match CheckedMul(gas, price)
        case None => None
        case Some(total) =>
          match CheckedMul(gas, baseFee)
          case None => None
          case Some(burned) =>
            match CheckedMul(gas, tip)
            case None => None
            case Some(priority) => Some(Fee(burned, priority, total))
  }

  /** What the transaction pays per unit of gas on top of the base fee. */
  function Tip(tx: Tx, baseFee: nat): nat
    requires baseFee <= FeeCap(tx)
  {
    if PriorityCap(tx) > FeeCap(tx) - baseFee then FeeCap(tx) - baseFee else PriorityCap(tx)
  }

  /** Once the caps and the largest possible fee are accepted, no fee of a smaller
      gas use can fail, exceed the escrow, or pay the collector more than planned. */
  lemma FeeFits(tx: Tx, gas: nat, baseFee: nat)
    requires baseFee <= MAX_UINT64 && FeeCap(tx) <= MAX_UINT64 && CalculateFee(tx, 0, baseFee).Some?
    requires gas <= tx.gasLimit && tx.gasLimit * FeeCap(tx) <= MAX_UINT64
    ensures CalculateFee(tx, gas, baseFee).Some?
    ensures var fee := CalculateFee(tx, gas, baseFee).value;
            && fee.burned + fee.priority == fee.total <= tx.gasLimit * FeeCap(tx)
            && fee.burned == gas * baseFee && fee.priority == gas * Tip(tx, baseFee)
            && fee.priority <= tx.gasLimit * Tip(tx, baseFee)
  {
    FeeProducts(gas, tx.gasLimit, baseFee, Tip(tx, baseFee), FeeCap(tx));
  }

  lemma FeeProducts(gas: nat, limit: nat, base: nat, tip: nat, cap: nat)
    requires gas <= limit && base + tip <= cap
    ensures gas * (base + tip) == gas * base + gas * tip <= limit * cap
    ensures 0 <= gas * base && 0 <= gas * tip <= limit * tip
  {
    MulBounds(gas, base, base);
    MulBounds(gas, tip, tip);
    MulBounds(gas, base + tip, cap);
    MulBounds(cap, gas, limit);
    MulBounds(tip, gas, limit);
    assert gas * cap == cap * gas && cap * limit == limit * cap;
    assert tip * gas == gas * tip && tip * limit == limit * tip;
  }

  // ---- What a transaction moves ----

  function SumTo(ops: seq<Op>, t: Address): nat {
    if ops == [] then 0
    else
      var op := ops[|ops| - 1];
      SumTo(ops[..|ops| - 1], t) + if op.PayOp? && op.dest == t then op.value else 0
  }

  function SumPaid(ops: seq<Op>): nat {
    if ops == [] then 0
    else
      var op := ops[|ops| - 1];
      SumPaid(ops[..|ops| - 1]) + if op.PayOp? then op.value else 0
  }

  /** The most a successful body can add to a balance. */
  ghost function Incoming(tx: Tx, t: Address): nat {
    match tx.body
    case Transfer(dest, value) => if t != tx.from && t == dest then value else 0
    case Batch(ops) => if t == tx.from then 0 else SumTo(ops, t)
    case Unstake(value) => if t == tx.from then value else 0
    case _ => 0
  }

  /** The most it can take from the sender. */
  ghost function Exposure(tx: Tx): nat {
    match tx.body
    case Transfer(_, value) => value
    case Stake(value) => value
    case Batch(ops) => SumPaid(ops)
    case _ => 0
  }

  /** What a successful body does to a balance and to a stake. */
  ghost function BalanceChange(tx: Tx, t: Address): int {
    match tx.body
    case Transfer(dest, value) => (if t == dest then value else 0) - (if t == tx.from then value else 0)
    case Batch(ops) => SumTo(ops, t) - (if t == tx.from then SumPaid(ops) else 0)
    case Stake(value) => if t == tx.from then 0 - value else 0
    case Unstake(value) => if t == tx.from then value else 0
    case _ => 0
  }

  ghost function StakeChange(tx: Tx, slashed: nat, t: Address): int {
    match tx.body
    case Stake(value) => if t == tx.from then value else 0
    case Unstake(value) => if t == tx.from then 0 - value else 0
    case Slash(target) => if t == target then 0 - slashed else 0
    case _ => 0
  }

  lemma ChangeIsIncomingAtMost(tx: Tx, t: Address)
    ensures BalanceChange(tx, t) <= Incoming(tx, t)
  {
    if tx.body.Batch? {
      PaidCovers(tx.body.ops, t);
    }
  }

  lemma {:induction false} PaidCovers(ops: seq<Op>, t: Address)
    ensures SumTo(ops, t) <= SumPaid(ops)
    decreases |ops|
  {
    if ops != [] {
      PaidCovers(ops[..|ops| - 1], t);
    }
  }

  ghost predicate TxWords(tx: Tx) {
    && tx.gasLimit <= MAX_UINT64 && FeeCap(tx) <= MAX_UINT64
    && match tx.body
       case Transfer(_, value) => value <= MAX_UINT64
       case Stake(value) => value <= MAX_UINT64
       case Unstake(value) => value <= MAX_UINT64
       case _ => true
  }

  lemma {:induction false} SumToGrows(ops: seq<Op>, i: nat, t: Address)
    requires i <= |ops|
    ensures SumTo(ops[..i], t) <= SumTo(ops, t) && SumPaid(ops[..i]) <= SumPaid(ops)
    decreases |ops| - i
  {
    if i == |ops| {
      assert ops[..i] == ops;
    } else {
      assert ops[..i + 1][..i] == ops[..i];
      SumToGrows(ops, i + 1, t);
    }
  }

  method IncomingValue(tx: Tx, t: Address) returns (r: Option<nat>)
    requires TxWords(tx)
    ensures r == if Incoming(tx, t) <= MAX_UINT64 then Some(Incoming(tx, t)) else None
  {
    match tx.body {
      case Transfer(dest, value) => r := Some(if t != tx.from && t == dest then value else 0);
      case Unstake(value) => r := Some(if t == tx.from then value else 0);
      case Batch(ops) =>
        if t == tx.from {
          return Some(0);
        }
        var incoming: nat := 0;
        var i := 0;
        while i < |ops|
          invariant 0 <= i <= |ops| && incoming == SumTo(ops[..i], t) <= MAX_UINT64
        {
          assert ops[..i + 1][..i] == ops[..i];
          SumToGrows(ops, i + 1, t);
          if ops[i].PayOp? && ops[i].dest == t {
            var next := CheckedAdd(incoming, ops[i].value);
            if next.None? {
              return None;
            }
            incoming := next.value;
          }
          i := i + 1;
        }
        assert ops[..i] == ops;
        r := Some(incoming);
      case _ => r := Some(0);
    }
  }

  method ValueExposure(tx: Tx) returns (r: Option<nat>)
    requires TxWords(tx)
    ensures r == if Exposure(tx) <= MAX_UINT64 then Some(Exposure(tx)) else None
  {
    match tx.body {
      case Transfer(_, value) => r := Some(value);
      case Stake(value) => r := Some(value);
      case Batch(ops) =>
        var total: nat := 0;
        var i := 0;
        while i < |ops|
          invariant 0 <= i <= |ops| && total == SumPaid(ops[..i]) <= MAX_UINT64
        {
          assert ops[..i + 1][..i] == ops[..i];
          SumToGrows(ops, i + 1, 0);
          if ops[i].PayOp? {
            var next := CheckedAdd(total, ops[i].value);
            if next.None? {
              return None;
            }
            total := next.value;
          }
          i := i + 1;
        }
        assert ops[..i] == ops;
        r := Some(total);
      case _ => r := Some(0);
    }
  }

  /** The fee checks made before anything is touched. */
  ghost predicate CapacityOk(l: Ledger, tx: Tx, baseFee: nat, collector: Option<Address>)
    requires baseFee <= MAX_UINT64
  {
    var payer, maximum := Payer(tx), tx.gasLimit * FeeCap(tx);
    && CalculateFee(tx, 0, baseFee).Some?
    && maximum <= MAX_UINT64 && At(l.balances, payer) >= maximum
    && Exposure(tx) <= MAX_UINT64
    && Exposure(tx) <= (if payer == tx.from then At(l.balances, payer) - maximum else At(l.balances, tx.from))
    && At(l.balances, payer) + Incoming(tx, payer) <= MAX_UINT64
    && (collector.Some? && collector.value != payer ==>
         At(l.balances, collector.value) + Incoming(tx, collector.value) + tx.gasLimit * Tip(tx, baseFee) <= MAX_UINT64)
  }

  method CreditCapacity(l: Ledger, tx: Tx, t: Address, additional: nat) returns (ok: bool)
    requires Good(l) && TxWords(tx)
    ensures ok <==> At(l.balances, t) + Incoming(tx, t) + additional <= MAX_UINT64
  {
    var incoming := IncomingValue(tx, t);
    if incoming.None? {
      return false;
    }
    var total := CheckedAdd(incoming.value, additional);
    ok := total.Some? && total.value <= MAX_UINT64 - At(l.balances, t);
  }

  method ValidateFeeCapacity(l: Ledger, tx: Tx, baseFee: nat, collector: Option<Address>) returns (ok: bool)
    requires Good(l) && TxWords(tx) && baseFee <= MAX_UINT64
    ensures ok <==> CapacityOk(l, tx, baseFee, collector)
  {
    hide CalculateFee, Incoming, Exposure;
    if CalculateFee(tx, 0, baseFee).None? {
      return false;
    }
    assert FeeCap(tx) >= baseFee by { FeeCapCovers(tx, baseFee); }
    var maximum := CheckedMul(tx.gasLimit, FeeCap(tx));
    if maximum.None? || At(l.balances, Payer(tx)) < maximum.value {
      return false;
    }
    var exposure := ValueExposure(tx);
    if exposure.None? {
      return false;
    }
    if Payer(tx) == tx.from {
      if exposure.value > At(l.balances, Payer(tx)) - maximum.value {
        return false;
      }
    } else if At(l.balances, tx.from) < exposure.value {
      return false;
    }
    ok := CreditCapacity(l, tx, Payer(tx), 0);
    if !ok {
      return;
    }
    if collector.Some? && collector.value != Payer(tx) {
      FeeFits(tx, tx.gasLimit, baseFee);
      var largest := CalculateFee(tx, tx.gasLimit, baseFee);
      ok := CreditCapacity(l, tx, collector.value, largest.value.priority);
    }
  }

  lemma FeeCapCovers(tx: Tx, baseFee: nat)
    requires baseFee <= MAX_UINT64 && CalculateFee(tx, 0, baseFee).Some?
    ensures FeeCap(tx) >= baseFee
  {
  }

  // ---- The body ----

  datatype RunOutcome = Succeeded | Reverted | Faulted

  /** What a contract run does: its charges, how it ends, and the storage it leaves. */
  datatype Run = Run(charges: seq<nat>, outcome: RunOutcome, after: nat)

  /** What a transfer does to the session key that signed it: nothing, if no session
      key did; otherwise the spent amount is written, which fails when the storage of
      the account is full and is a fault when the stored policy is malformed. */
  datatype Usage = NoSession | Recorded(after: nat) | StorageFull | Malformed

  datatype Env = Env(chainOk: bool, intrinsic: Option<nat>, authorised: bool, locked: bool, slashAllowed: bool,
                     usage: Usage, runs: nat -> Run)

  datatype Status = BodyDone | BodyFailed(outOfGas: bool) | BodyFatal

  /** A working copy `w` that body `tx` can have produced from `l`. */
  ghost predicate Produced(tx: Tx, l: Ledger, w: Ledger, slashed: nat) {
    && Good(w) && Total(w) == Total(l) - slashed && w.nonces == l.nonces
    && (slashed > 0 ==> tx.body.Slash? && slashed == At(l.stakes, tx.body.target))
    && (forall t :: At(w.balances, t) == At(l.balances, t) + BalanceChange(tx, t))
    && (forall t :: At(w.stakes, t) == At(l.stakes, t) + StakeChange(tx, slashed, t))
  }

  function Ended(outcome: RunOutcome): Status {
    match outcome case Succeeded => BodyDone case Reverted => BodyFailed(false) case Faulted => BodyFatal
  }

  /** How a contract run ends: out of gas when its charges do not fit, whatever it
      would have done otherwise. */
  ghost function RunStatus(run: Run, limit: nat): Status {
    if SumOf(run.charges) > limit then BodyFailed(true) else Ended(run.outcome)
  }

  method RunContract(run: Run, limit: nat) returns (status: Status, used: nat)
    ensures status == RunStatus(run, limit)
    ensures used == if SumOf(run.charges) <= limit then SumOf(run.charges) else limit
  {
    var fits;
    used, fits := Metered(run.charges, limit);
    if !fits {
      return BodyFailed(true), used;
    }
    status := Ended(run.outcome);
  }

  /** What the calls of a batch charge. */
  ghost function CallGas(ops: seq<Op>, env: Env): nat {
    if ops == [] then 0
    else
      CallGas(ops[..|ops| - 1], env) + if ops[|ops| - 1].CallOp? then SumOf(env.runs(|ops| - 1).charges) else 0
  }

  function Capped(gas: nat, limit: nat): nat { if gas <= limit then gas else limit }

  /** When a batch goes through: every recipient has room for all it gets, every call
      succeeds, and the gas covers all the calls. */
  ghost predicate BatchFine(tx: Tx, l: Ledger, start: nat, env: Env, ops: seq<Op>) {
    && (forall t :: t != tx.from ==> At(l.balances, t) + SumTo(ops, t) <= MAX_UINT64)
    && (forall i :: 0 <= i < |ops| && ops[i].CallOp? ==> env.runs(i).outcome == Succeeded)
    && start + CallGas(ops, env) <= tx.gasLimit
  }

  /** A batch stops after its first `k` operations: the others before the last of them
      went through, and this one did not, or it is the end. */
  ghost predicate StopsAt(tx: Tx, l: Ledger, start: nat, env: Env, k: nat)
    requires tx.body.Batch?
  {
    && k <= |tx.body.ops|
    && (k > 0 ==> BatchFine(tx, l, start, env, tx.body.ops[..k - 1]))
    && (BatchFine(tx, l, start, env, tx.body.ops[..k]) ==> k == |tx.body.ops|)
  }

  /** The last of the first `k` operations is a call that faults within its gas. */
  ghost predicate FaultsAt(tx: Tx, start: nat, env: Env, k: nat)
    requires tx.body.Batch? && k <= |tx.body.ops|
  {
    && k > 0 && tx.body.ops[k - 1].CallOp? && env.runs(k - 1).outcome == Faulted
    && start + CallGas(tx.body.ops[..k], env) <= tx.gasLimit
  }

  /** How a batch ends: it faults, or it uses the gas of the calls up to where it stops,
      or the whole limit when that is less. */
  ghost predicate BatchEnds(tx: Tx, l: Ledger, start: nat, env: Env, gas: Option<nat>)
    requires tx.body.Batch?
  {
    exists k: nat :: StopsAt(tx, l, start, env, k) && EndsAt(tx, start, env, k, gas)
  }

  ghost predicate EndsAt(tx: Tx, start: nat, env: Env, k: nat, gas: Option<nat>)
    requires tx.body.Batch? && k <= |tx.body.ops|
  {
    && (gas.None? <==> FaultsAt(tx, start, env, k))
    && (gas.Some? ==> gas.value == Capped(start + CallGas(tx.body.ops[..k], env), tx.gasLimit))
  }

  lemma BatchStep(tx: Tx, l: Ledger, start: nat, env: Env, ops: seq<Op>, i: nat)
    requires i < |ops| && Good(l) && BatchFine(tx, l, start, env, ops[..i])
    ensures match ops[i]
            case PayOp(dest, value) =>
              BatchFine(tx, l, start, env, ops[..i + 1]) <==>
                dest == tx.from || At(l.balances, dest) + SumTo(ops[..i], dest) + value <= MAX_UINT64
            case CallOp =>
              BatchFine(tx, l, start, env, ops[..i + 1]) <==>
                && env.runs(i).outcome == Succeeded
                && start + CallGas(ops[..i], env) + SumOf(env.runs(i).charges) <= tx.gasLimit
  {
    var rest, more := ops[..i], ops[..i + 1];
    assert more[..i] == rest && more[i] == ops[i];
    forall t
      ensures SumTo(more, t) == SumTo(rest, t) + if ops[i].PayOp? && ops[i].dest == t then ops[i].value else 0
    {
    }
    assert CallGas(more, env) == CallGas(rest, env) + if ops[i].CallOp? then SumOf(env.runs(i).charges) else 0;
    forall k | 0 <= k < i
      ensures more[k] == rest[k]
    {
    }
    if ops[i].PayOp? {
      assert SumTo(more, ops[i].dest) == SumTo(rest, ops[i].dest) + ops[i].value;
    } else {
      assert more[i].CallOp?;
    }
  }

  lemma {:induction false} BatchStuck(tx: Tx, l: Ledger, start: nat, env: Env, ops: seq<Op>, i: nat)
    requires i <= |ops| && !BatchFine(tx, l, start, env, ops[..i])
    ensures !BatchFine(tx, l, start, env, ops)
    decreases |ops| - i
  {
    if i == |ops| {
      assert ops[..i] == ops;
    } else {
      var rest, more := ops[..i], ops[..i + 1];
      assert more[..i] == rest;
      assert CallGas(more, env) >= CallGas(rest, env);
      if exists t :: t != tx.from && At(l.balances, t) + SumTo(rest, t) > MAX_UINT64 {
        var t :| t != tx.from && At(l.balances, t) + SumTo(rest, t) > MAX_UINT64;
        assert SumTo(more, t) >= SumTo(rest, t);
      } else if exists k :: 0 <= k < |rest| && rest[k].CallOp? && env.runs(k).outcome != Succeeded {
        var k :| 0 <= k < |rest| && rest[k].CallOp? && env.runs(k).outcome != Succeeded;
        assert more[k] == rest[k];
      }
      BatchStuck(tx, l, start, env, ops, i + 1);
    }
  }

  /** The working copy after the operations in `done`. */
  ghost predicate Paid(tx: Tx, l: Ledger, w: Ledger, done: seq<Op>) {
    && Good(w) && Total(w) == Total(l) && w.nonces == l.nonces && w.stakes == l.stakes
    && forall t :: At(w.balances, t) ==
                   At(l.balances, t) + SumTo(done, t) - if t == tx.from then SumPaid(done) else 0
  }

  lemma SumsOfOneMore(done: seq<Op>, op: Op)
    ensures forall t :: SumTo(done + [op], t) == SumTo(done, t) + if op.PayOp? && op.dest == t then op.value else 0
    ensures SumPaid(done + [op]) == SumPaid(done) + if op.PayOp? then op.value else 0
  {
    assert (done + [op])[..|done|] == done;
  }

  /** A payment out of what the sender has left fails only for lack of room. */
  lemma PaysIff(tx: Tx, l: Ledger, w: Ledger, done: seq<Op>, dest: Address, value: nat)
    requires Good(l) && Paid(tx, l, w, done)
    ensures Move(w, tx.from, dest, value).Some? ==>
              && (dest == tx.from || At(l.balances, dest) + SumTo(done, dest) + value <= MAX_UINT64)
              && Paid(tx, l, Move(w, tx.from, dest, value).value, done + [PayOp(dest, value)])
    ensures Move(w, tx.from, dest, value).None? && SumPaid(done) + value <= At(l.balances, tx.from) ==>
              dest != tx.from && At(l.balances, dest) + SumTo(done, dest) + value > MAX_UINT64
  {
    hide Sum, SumTo, SumPaid;
    SumsOfOneMore(done, PayOp(dest, value));
    assert At(w.balances, dest) <= MAX_UINT64;
    if Move(w, tx.from, dest, value).Some? {
      MoveTotal(w, tx.from, dest, value);
    }
  }

  lemma CalledOne(tx: Tx, l: Ledger, w: Ledger, done: seq<Op>, after: nat)
    requires Paid(tx, l, w, done)
    ensures Paid(tx, l, w.(rest := after), done + [CallOp])
  {
    hide Sum, SumTo, SumPaid;
    SumsOfOneMore(done, CallOp);
  }

  lemma PaidIsProduced(tx: Tx, l: Ledger, w: Ledger)
    requires tx.body.Batch? && Paid(tx, l, w, tx.body.ops)
    ensures Produced(tx, l, w, 0)
  {
  }

  /** One operation of a batch, on top of those before it. */
  method RunOp(tx: Tx, ghost l: Ledger, w: Ledger, ghost start: nat, env: Env, i: nat, gas: nat)
      returns (status: Status, w': Ledger, gas': nat)
    requires Good(l) && tx.body.Batch? && i < |tx.body.ops|
    requires Paid(tx, l, w, tx.body.ops[..i]) && BatchFine(tx, l, start, env, tx.body.ops[..i])
    requires gas == start + CallGas(tx.body.ops[..i], env) <= tx.gasLimit
    ensures start <= gas' == Capped(start + CallGas(tx.body.ops[..i + 1], env), tx.gasLimit) <= tx.gasLimit
    ensures status == BodyFatal <==> FaultsAt(tx, start, env, i + 1)
    ensures status == BodyFailed(true) ==> gas' == tx.gasLimit
    ensures status == BodyDone ==>
              && Paid(tx, l, w', tx.body.ops[..i + 1]) && BatchFine(tx, l, start, env, tx.body.ops[..i + 1])
              && gas' == start + CallGas(tx.body.ops[..i + 1], env)
    ensures status != BodyDone && SumPaid(tx.body.ops) <= At(l.balances, tx.from) ==>
              !BatchFine(tx, l, start, env, tx.body.ops[..i + 1])
  {
    hide Sum, BatchFine, Paid, Good, Total, Move, CallGas, SumTo, SumPaid, SumOf;
    var ops := tx.body.ops;
    assert ops[..i + 1] == ops[..i] + [ops[i]];
    BatchStep(tx, l, start, env, ops, i);
    CallGasStep(ops, i, env);
    w', gas' := w, gas;
    match ops[i] {
      case PayOp(dest, value) =>
        PaysIff(tx, l, w, ops[..i], dest, value);
        SumToGrows(ops, i + 1, tx.from);
        SumsOfOneMore(ops[..i], ops[i]);
        var moved := Move(w, tx.from, dest, value);
        if moved.None? {
          return BodyFailed(false), w, gas;
        }
        status, w' := BodyDone, moved.value;
      case CallOp =>
        CalledOne(tx, l, w, ops[..i], env.runs(i).after);
        var used;
        status, used := RunContract(env.runs(i), tx.gasLimit - gas);
        w', gas' := w.(rest := env.runs(i).after), gas + used;
    }
  }

  /** The operations of a batch in order, until one does not go through. */
  method RunOps(tx: Tx, l: Ledger, start: nat, env: Env)
      returns (status: Status, w: Ledger, gasUsed: nat, ghost k: nat)
    requires Good(l) && tx.body.Batch? && start <= tx.gasLimit
    ensures start <= gasUsed <= tx.gasLimit && k <= |tx.body.ops|
    ensures gasUsed == Capped(start + CallGas(tx.body.ops[..k], env), tx.gasLimit)
    ensures status == BodyDone ==>
              && k == |tx.body.ops| && Paid(tx, l, w, tx.body.ops) && BatchFine(tx, l, start, env, tx.body.ops)
              && gasUsed == start + CallGas(tx.body.ops, env)
    ensures status != BodyDone ==>
              && k > 0 && BatchFine(tx, l, start, env, tx.body.ops[..k - 1])
              && (status == BodyFatal <==> FaultsAt(tx, start, env, k))
              && (SumPaid(tx.body.ops) <= At(l.balances, tx.from) ==> !BatchFine(tx, l, start, env, tx.body.ops[..k]))
    ensures status == BodyFailed(true) ==> gasUsed == tx.gasLimit
  {
    hide Sum, BatchFine, Paid, Good, Total, CallGas, SumTo, SumPaid, FaultsAt, SumOf, At, Capped;
    var ops := tx.body.ops;
    w, gasUsed, k := l, start, 0;
    NothingYet(tx, l, start, env, ops);
    var i := 0;
    while i < |ops|
      invariant 0 <= i <= |ops| && start <= gasUsed <= tx.gasLimit && gasUsed == start + CallGas(ops[..i], env)
      invariant Paid(tx, l, w, ops[..i]) && BatchFine(tx, l, start, env, ops[..i])
    {
      status, w, gasUsed := RunOp(tx, l, w, start, env, i, gasUsed);
      i := i + 1;
      k := i;
      if status != BodyDone {
        return;
      }
    }
    k := i;
    assert ops[..i] == ops;
    CappedFits(gasUsed, tx.gasLimit);
    status := BodyDone;
  }

  method RunBatch(tx: Tx, l: Ledger, start: nat, env: Env) returns (status: Status, w: Ledger, gasUsed: nat)
    requires Good(l) && tx.body.Batch? && start <= tx.gasLimit
    ensures start <= gasUsed <= tx.gasLimit
    ensures status == BodyFatal ==> exists i :: env.runs(i).outcome == Faulted
    ensures status == BodyDone ==> Produced(tx, l, w, 0) && gasUsed == start + CallGas(tx.body.ops, env)
    ensures status == BodyDone ==> BatchFine(tx, l, start, env, tx.body.ops)
    ensures status == BodyFailed(true) ==> gasUsed == tx.gasLimit
    ensures SumPaid(tx.body.ops) <= At(l.balances, tx.from) ==>
              BatchEnds(tx, l, start, env, if status == BodyFatal then None else Some(gasUsed))
    ensures SumPaid(tx.body.ops) <= At(l.balances, tx.from) && BatchFine(tx, l, start, env, tx.body.ops) ==>
              status == BodyDone
  {
    hide Sum, BatchFine, Paid, Produced, Good, Total, CallGas, SumTo, SumPaid, FaultsAt, BatchEnds, SumOf, At;
    ghost var k;
    status, w, gasUsed, k := RunOps(tx, l, start, env);
    assert tx.body.ops[..|tx.body.ops|] == tx.body.ops;
    if status == BodyDone {
      PaidIsProduced(tx, l, w);
      FineNeverFaults(tx, l, start, env);
    } else {
      FaultedSome(tx, start, env, k);
      if SumPaid(tx.body.ops) <= At(l.balances, tx.from) {
        BatchStuck(tx, l, start, env, tx.body.ops, k);
      }
      w := l;
    }
    if status == BodyDone || SumPaid(tx.body.ops) <= At(l.balances, tx.from) {
      EndsFrom(tx, l, start, env, k, if status == BodyFatal then None else Some(gasUsed));
    }
  }

  lemma CappedFits(gas: nat, limit: nat)
    requires gas <= limit
    ensures Capped(gas, limit) == gas
  {
  }

  lemma EndsFrom(tx: Tx, l: Ledger, start: nat, env: Env, k: nat, gas: Option<nat>)
    requires tx.body.Batch? && k <= |tx.body.ops| && (k > 0 ==> BatchFine(tx, l, start, env, tx.body.ops[..k - 1]))
    requires BatchFine(tx, l, start, env, tx.body.ops[..k]) ==> k == |tx.body.ops|
    requires gas.None? <==> FaultsAt(tx, start, env, k)
    requires gas.Some? ==> gas.value == Capped(start + CallGas(tx.body.ops[..k], env), tx.gasLimit)
    ensures BatchEnds(tx, l, start, env, gas)
  {
    hide BatchFine, FaultsAt, CallGas;
    assert StopsAt(tx, l, start, env, k) && EndsAt(tx, start, env, k, gas);
  }

  lemma FaultedSome(tx: Tx, start: nat, env: Env, k: nat)
    requires tx.body.Batch? && k <= |tx.body.ops|
    ensures FaultsAt(tx, start, env, k) ==> exists i :: env.runs(i).outcome == Faulted
  {
  }

  lemma FineNeverFaults(tx: Tx, l: Ledger, start: nat, env: Env)
    requires tx.body.Batch? && BatchFine(tx, l, start, env, tx.body.ops)
    ensures !FaultsAt(tx, start, env, |tx.body.ops|)
    ensures tx.body.ops != [] ==> BatchFine(tx, l, start, env, tx.body.ops[..|tx.body.ops| - 1])
  {
    hide BatchFine;
    if tx.body.ops != [] && !BatchFine(tx, l, start, env, tx.body.ops[..|tx.body.ops| - 1]) {
      BatchStuck(tx, l, start, env, tx.body.ops, |tx.body.ops| - 1);
    }
    CallsSucceed(tx, l, start, env);
  }

  lemma CallsSucceed(tx: Tx, l: Ledger, start: nat, env: Env)
    requires tx.body.Batch? && BatchFine(tx, l, start, env, tx.body.ops)
    ensures forall i :: 0 <= i < |tx.body.ops| && tx.body.ops[i].CallOp? ==> env.runs(i).outcome == Succeeded
  {
  }

  lemma CallGasStep(ops: seq<Op>, i: nat, env: Env)
    requires i < |ops|
    ensures CallGas(ops[..i + 1], env) ==
            CallGas(ops[..i], env) + if ops[i].CallOp? then SumOf(env.runs(i).charges) else 0
  {
    assert ops[..i + 1][..i] == ops[..i];
  }

  lemma NothingYet(tx: Tx, l: Ledger, start: nat, env: Env, ops: seq<Op>)
    requires Good(l) && start <= tx.gasLimit
    ensures BatchFine(tx, l, start, env, ops[..0]) && Paid(tx, l, l, ops[..0]) && CallGas(ops[..0], env) == 0
  {
  }

  /** When a staking body goes through. */
  ghost predicate StakingFine(tx: Tx, l: Ledger, env: Env) {
    match tx.body
    case Stake(value) =>
      0 < value <= At(l.balances, tx.from) && At(l.stakes, tx.from) + value <= MAX_UINT64
    case Unstake(value) =>
      0 < value <= At(l.stakes, tx.from) && !env.locked && At(l.balances, tx.from) + value <= MAX_UINT64
    case Slash(target) => env.slashAllowed && At(l.stakes, target) > 0
    case _ => true
  }

  /** Stake, unstake and slash move value between a balance and a stake, or burn a stake. */
  method RunStaking(tx: Tx, l: Ledger, env: Env) returns (status: Status, w: Ledger, slashed: nat)
    requires Good(l) && (tx.body.Stake? || tx.body.Unstake? || tx.body.Slash?)
    ensures status != BodyFatal && status != BodyFailed(true)
    ensures status == BodyDone ==> Produced(tx, l, w, slashed) && w.rest == l.rest
    ensures status == BodyDone <==> StakingFine(tx, l, env)
    ensures status == BodyDone && tx.body.Slash? ==> slashed == At(l.stakes, tx.body.target)
  {
    hide Sum;
    w, slashed := l, 0;
    match tx.body {
      case Stake(value) =>
        var paid := Debit(l, tx.from, value);
        if value == 0 || paid.None? {
          return BodyFailed(false), l, 0;
        }
        DebitTotal(l, tx.from, value);
        var staked := Bond(paid.value, tx.from, value);
        if staked.None? {
          return BodyFailed(false), l, 0;
        }
        BondTotal(paid.value, tx.from, value);
        w := staked.value;
      case Unstake(value) =>
        if value == 0 || env.locked {
          return BodyFailed(false), l, 0;
        }
        var freed := Unbond(l, tx.from, value);
        if freed.None? {
          return BodyFailed(false), l, 0;
        }
        UnbondTotal(l, tx.from, value);
        var paid := Credit(freed.value, tx.from, value);
        if paid.None? {
          return BodyFailed(false), l, 0;
        }
        CreditTotal(freed.value, tx.from, value);
        w := paid.value;
      case Slash(target) =>
        var stake := At(l.stakes, target);
        if !env.slashAllowed || stake == 0 {
          return BodyFailed(false), l, 0;
        }
        UnbondTotal(l, target, stake);
        w, slashed := Unbond(l, target, stake).value, stake;
    }
    status := BodyDone;
  }

  /** The recipient has no room for the value. */
  ghost predicate NoRoom(l: Ledger, tx: Tx)
    requires tx.body.Transfer?
  {
    tx.body.dest != tx.from && At(l.balances, tx.body.dest) + tx.body.value > MAX_UINT64
  }

  /** How a transfer ends: it fails when there is too little to send, no room to
      receive, or no storage for the session key's spent amount. */
  ghost function TransferStatus(l: Ledger, tx: Tx, env: Env): Status
    requires tx.body.Transfer?
  {
    if At(l.balances, tx.from) < tx.body.value || NoRoom(l, tx) || env.usage.StorageFull? then BodyFailed(false)
    else if env.usage.Malformed? then BodyFatal
    else BodyDone
  }

  /** When the body of a transaction goes through, for a sender who has what it spends. */
  ghost predicate BodyFine(tx: Tx, l: Ledger, start: nat, env: Env) {
    match tx.body
    case Transfer(_, _) => !NoRoom(l, tx) && !env.usage.StorageFull? && !env.usage.Malformed?
    case Batch(ops) => BatchFine(tx, l, start, env, ops)
    case Contract => env.runs(0).outcome == Succeeded && start + SumOf(env.runs(0).charges) <= tx.gasLimit
    case Recovery(_) => env.runs(0).outcome == Succeeded
    case Other => env.runs(0).outcome == Succeeded
    case _ => StakingFine(tx, l, env)
  }

  ghost function BodyGas(tx: Tx, env: Env): nat {
    match tx.body
    case Batch(ops) => CallGas(ops, env)
    case Contract => SumOf(env.runs(0).charges)
    case _ => 0
  }

  ghost predicate CanFault(env: Env) {
    env.usage.Malformed? || exists i :: env.runs(i).outcome == Faulted
  }

  /** The gas of a contract run on top of `start`; running out takes the whole limit. */
  ghost function Metering(start: nat, run: Run, limit: nat): nat {
    if start + SumOf(run.charges) <= limit then start + SumOf(run.charges) else limit
  }

  method RunTransfer(tx: Tx, l: Ledger, env: Env) returns (status: Status, w: Ledger)
    requires Good(l) && tx.body.Transfer?
    ensures status == TransferStatus(l, tx, env)
    ensures status == BodyDone ==> Produced(tx, l, w, 0)
  {
    hide Sum;
    w := l;
    var moved := Move(l, tx.from, tx.body.dest, tx.body.value);
    if moved.None? {
      return BodyFailed(false), l;
    }
    MoveTotal(l, tx.from, tx.body.dest, tx.body.value);
    status, w := BodyDone, moved.value;
    match env.usage {
      case NoSession =>
      case Recorded(after) => w := w.(rest := after);
      case StorageFull => return BodyFailed(false), l;
      case Malformed => return BodyFatal, l;
    }
  }

  method RunBody(tx: Tx, l: Ledger, start: nat, env: Env)
      returns (status: Status, w: Ledger, gasUsed: nat, slashed: nat)
    requires Good(l) && start <= tx.gasLimit
    ensures start <= gasUsed <= tx.gasLimit
    ensures status == BodyFatal ==> CanFault(env)
    ensures status == BodyDone ==> Produced(tx, l, w, slashed) && gasUsed == start + BodyGas(tx, env)
    ensures status == BodyDone ==> BodyFine(tx, l, start, env)
    ensures BodyFine(tx, l, start, env) && Exposure(tx) <= At(l.balances, tx.from) ==> status == BodyDone
    ensures status == BodyDone && tx.body.Slash? ==> slashed == At(l.stakes, tx.body.target)
    ensures !tx.body.Batch? && !tx.body.Contract? ==> gasUsed == start && status != BodyFailed(true)
    ensures tx.body.Batch? && Exposure(tx) <= At(l.balances, tx.from) ==>
              BatchEnds(tx, l, start, env, if status == BodyFatal then None else Some(gasUsed))
    ensures tx.body.Stake? || tx.body.Unstake? || tx.body.Slash? ==> status != BodyFatal
    ensures tx.body.Recovery? || tx.body.Other? ==> (status == BodyFatal <==> env.runs(0).outcome == Faulted)
    ensures tx.body.Batch? && status == BodyFailed(true) ==> gasUsed == tx.gasLimit
    ensures tx.body.Transfer? ==> status == TransferStatus(l, tx, env)
    ensures tx.body.Contract? ==>
              && status == RunStatus(env.runs(0), tx.gasLimit - start)
              && gasUsed == Metering(start, env.runs(0), tx.gasLimit)
  {
    hide Sum, BatchFine, StakingFine, SumOf, CallGas, SumPaid, SumTo, BatchEnds;
    w, gasUsed, slashed := l, start, 0;
    match tx.body {
      case Transfer(_, _) => status, w := RunTransfer(tx, l, env);
      case Batch(_) => status, w, gasUsed := RunBatch(tx, l, start, env);
      case Contract =>
        var used;
        status, used := RunContract(env.runs(0), tx.gasLimit - gasUsed);
        gasUsed, w := gasUsed + used, l.(rest := env.runs(0).after);
      case Recovery(_) =>
        status := Ended(env.runs(0).outcome);
        w := l.(rest := env.runs(0).after);
      case Other =>
        status := Ended(env.runs(0).outcome);
        w := l.(rest := env.runs(0).after);
      case _ => status, w, slashed := RunStaking(tx, l, env);
    }
  }

  // ---- Settlement ----

  /** Refund what the escrow did not need and pay the collector; `None` is a fault. */
  function Settle(l: Ledger, payer: Address, maximum: nat, fee: Fee, collector: Option<Address>): Option<Ledger> {
    if fee.total > maximum then None
    else
      match Credit(l, payer, maximum - fee.total)
      case None => None
      case Some(l') => if collector.None? || fee.priority == 0 then Some(l')
        else Credit(l', collector.value, fee.priority)
  }

  /** What a settlement does when it does not fault. */
  ghost predicate Settled(w: Ledger, r: Ledger, payer: Address, maximum: nat, fee: Fee, collector: Option<Address>) {
    && Good(r) && r == w.(balances := r.balances)
    && Total(r) == Total(w) + maximum - fee.burned - (if collector.None? then fee.priority else 0)
    && forall t :: At(r.balances, t) == At(w.balances, t)
         + (if t == payer then maximum - fee.total else 0) + (if Some(t) == collector then fee.priority else 0)
  }

  lemma SettledBasics(w: Ledger, r: Ledger, payer: Address, maximum: nat, fee: Fee, collector: Option<Address>)
    requires Settled(w, r, payer, maximum, fee, collector)
    ensures Good(r)
  {
  }

  lemma SettleSucceeds(w: Ledger, payer: Address, maximum: nat, fee: Fee, collector: Option<Address>)
    requires Good(w) && fee.burned + fee.priority == fee.total <= maximum
    requires At(w.balances, payer) + maximum <= MAX_UINT64
    requires collector.Some? && collector.value != payer ==>
               At(w.balances, collector.value) + fee.priority <= MAX_UINT64
    ensures var r := Settle(w, payer, maximum, fee, collector);
            r.Some? && Settled(w, r.value, payer, maximum, fee, collector)
  {
    hide Sum, At, Words;
    CreditTotal(w, payer, maximum - fee.total);
    var w' := Credit(w, payer, maximum - fee.total).value;
    if collector.Some? && fee.priority != 0 {
      CreditTotal(w', collector.value, fee.priority);
    }
  }

  /** Settlement after the pre-checks cannot fault, for the escrowed ledger itself
      and for anything the body made of it. It destroys exactly the base fee and a
      tip nobody collects. */
  lemma SettleNeverFaults(l: Ledger, tx: Tx, maximum: nat, ante: Ledger, w: Ledger, slashed: nat, gas: nat,
                          baseFee: nat, collector: Option<Address>)
    requires Good(l) && TxWords(tx) && baseFee <= MAX_UINT64 && CapacityOk(l, tx, baseFee, collector)
             && gas <= tx.gasLimit
    requires maximum == tx.gasLimit * FeeCap(tx)
             && ante.balances == l.balances[Payer(tx) := At(l.balances, Payer(tx)) - maximum]
    requires Good(w) && (w.balances == ante.balances || Produced(tx, ante, w, slashed))
    ensures CalculateFee(tx, gas, baseFee).Some?
    ensures var fee := CalculateFee(tx, gas, baseFee).value;
            var r := Settle(w, Payer(tx), maximum, fee, collector);
            && fee.burned == gas * baseFee && fee.burned + fee.priority == fee.total <= maximum
            && r.Some? && Settled(w, r.value, Payer(tx), maximum, fee, collector)
  {
    hide Sum, Exposure, CalculateFee, Tip, Settle, Settled, Incoming, BalanceChange, StakeChange, FeeCap, Produced;
    FeeCapCovers(tx, baseFee);
    FeeFits(tx, gas, baseFee);
    var payer := Payer(tx);
    var fee := CalculateFee(tx, gas, baseFee).value;
    forall t
      ensures At(w.balances, t) <= At(l.balances, t) + Incoming(tx, t) - if t == payer then maximum else 0
    {
      if w.balances != ante.balances {
        ProducedBasics(tx, ante, w, slashed);
      }
      ChangeIsIncomingAtMost(tx, t);
    }
    SettleSucceeds(w, payer, maximum, fee, collector);
  }

  // ---- One transaction ----

  /** The checks that decide whether a transaction is executed at all. */
  ghost predicate Admissible(l: Ledger, tx: Tx, baseFee: nat, collector: Option<Address>, env: Env)
    requires baseFee <= MAX_UINT64
  {
    && env.chainOk && env.intrinsic.Some? && env.intrinsic.value <= tx.gasLimit && env.authorised
    && At(l.nonces, tx.from) == tx.nonce < MAX_UINT64
    && CapacityOk(l, tx, baseFee, collector)
  }

  datatype Receipt =
    | Rejected
    | EscrowFault
    | ContractFault
    | Executed(success: bool, gasUsed: nat, fee: Fee, slashed: nat)

  /** The value that a receipt says has left the store. */
  function Lost(r: Receipt, collector: Option<Address>): nat
    requires r.Executed?
  {
    r.fee.burned + (if collector.None? then r.fee.priority else 0) + r.slashed
  }

  /** What the fee does to the balance of `t`. */
  function FeeChange(tx: Tx, r: Receipt, collector: Option<Address>, t: Address): int
    requires r.Executed?
  {
    (if Some(t) == collector then r.fee.priority else 0) - (if t == Payer(tx) then r.fee.total else 0)
  }

  /** What one transaction does to the store. Pre-check errors and contract faults
      leave it alone; gas stays within the limit; the value in the store falls by
      exactly what is burned, uncollected or slashed; a failed body leaves nothing but
      the nonce and the fee; and the ways to fail are known for transfers and calls. */
  ghost predicate Executes(l: Ledger, tx: Tx, baseFee: nat, collector: Option<Address>, env: Env, r: Receipt,
                           l': Ledger)
    requires baseFee <= MAX_UINT64
  {
    && (r == Rejected <==> !Admissible(l, tx, baseFee, collector, env))
    && (r == ContractFault ==> CanFault(env))
    && (r == Rejected || r == ContractFault ==> l' == l)
    && (r.Executed? ==> Charged(l, tx, baseFee, collector, r, l'))
    && (r.Executed? && !r.success ==> OnlyCharged(l, tx, collector, r, l'))
    && (r.Executed? && r.success ==> Moved(l, tx, collector, r, l'))
    && (r != Rejected ==> Ends(l, tx, env, r))
    && (r != Rejected && tx.body.Transfer? ==> TransferEnds(l, tx, env, r))
    && (r != Rejected && tx.body.Contract? ==> ContractEnds(tx, env, r))
  }

  ghost predicate Charged(l: Ledger, tx: Tx, baseFee: nat, collector: Option<Address>, r: Receipt, l': Ledger)
    requires r.Executed?
  {
    && At(l.nonces, tx.from) == tx.nonce && r.gasUsed <= tx.gasLimit
    && baseFee <= MAX_UINT64 && CalculateFee(tx, r.gasUsed, baseFee) == Some(r.fee)
    && r.fee.burned == r.gasUsed * baseFee && r.fee.burned + r.fee.priority == r.fee.total
    && l'.nonces == l.nonces[tx.from := tx.nonce + 1]
    && Total(l') == Total(l) - Lost(r, collector)
    && (r.slashed > 0 ==> r.success && tx.body.Slash? && r.slashed == At(l.stakes, tx.body.target))
  }

  ghost predicate OnlyCharged(l: Ledger, tx: Tx, collector: Option<Address>, r: Receipt, l': Ledger)
    requires r.Executed?
  {
    && r.slashed == 0 && l'.stakes == l.stakes && l'.rest == l.rest
    && forall t :: At(l'.balances, t) == At(l.balances, t) + FeeChange(tx, r, collector, t)
  }

  ghost predicate Moved(l: Ledger, tx: Tx, collector: Option<Address>, r: Receipt, l': Ledger)
    requires r.Executed?
  {
    && (forall t :: At(l'.stakes, t) == At(l.stakes, t) + StakeChange(tx, r.slashed, t))
    && (forall t :: At(l'.balances, t) == At(l.balances, t) + BalanceChange(tx, t) + FeeChange(tx, r, collector, t))
  }

  /** Executed with success, which is exactly when the body goes through. */
  ghost predicate Ends(l: Ledger, tx: Tx, env: Env, r: Receipt) {
    && env.intrinsic.Some?
    && (r.Executed? && r.success <==> BodyFine(tx, l, env.intrinsic.value, env))
    && (r.Executed? && !tx.body.Batch? && !tx.body.Contract? ==> r.gasUsed == env.intrinsic.value)
    && (tx.body.Batch? && (r.Executed? || r == ContractFault) ==>
          BatchEnds(tx, l, env.intrinsic.value, env, if r.Executed? then Some(r.gasUsed) else None))
    && (tx.body.Stake? || tx.body.Unstake? || tx.body.Slash? ==> r != ContractFault)
    && (tx.body.Recovery? || tx.body.Other? ==> (r == ContractFault <==> env.runs(0).outcome == Faulted))
    && (r.Executed? && r.success ==>
          && r.gasUsed == env.intrinsic.value + BodyGas(tx, env)
          && (tx.body.Slash? ==> r.slashed == At(l.stakes, tx.body.target)))
  }

  /** A transfer that is executed succeeds exactly when the recipient has room and the
      session key's spent amount, if there is one, can be stored. */
  ghost predicate TransferEnds(l: Ledger, tx: Tx, env: Env, r: Receipt)
    requires tx.body.Transfer?
  {
    && (r == ContractFault <==> env.usage.Malformed? && !NoRoom(l, tx))
    && (r.Executed? ==> env.intrinsic == Some(r.gasUsed) && (r.success <==> !NoRoom(l, tx) && !env.usage.StorageFull?))
  }

  /** A call pays for its charges, or for the whole limit when they do not fit. */
  ghost predicate ContractEnds(tx: Tx, env: Env, r: Receipt) {
    && env.intrinsic.Some?
    && (r == ContractFault <==>
          env.runs(0).outcome == Faulted && env.intrinsic.value + SumOf(env.runs(0).charges) <= tx.gasLimit)
    && (r.Executed? ==>
          && r.gasUsed == Metering(env.intrinsic.value, env.runs(0), tx.gasLimit)
          && (r.success <==>
            env.intrinsic.value + SumOf(env.runs(0).charges) <= tx.gasLimit && env.runs(0).outcome == Succeeded))
  }

  class Store {
    var ledger: Ledger

    constructor (ledger: Ledger)
      ensures this.ledger == ledger
    {
      this.ledger := ledger;
    }

    /** Nothing is kept of a failed body but the nonce and the fee. */
    method CommitFailed(tx: Tx, ante: Ledger, maximum: nat, gas: nat, outOfGas: bool, baseFee: nat,
                        collector: Option<Address>) returns (r: Receipt)
      requires Good(ledger) && TxWords(tx) && baseFee <= MAX_UINT64 && CapacityOk(ledger, tx, baseFee, collector)
      requires maximum == tx.gasLimit * FeeCap(tx) && gas <= tx.gasLimit && Good(ante)
      requires ante.balances == ledger.balances[Payer(tx) := At(ledger.balances, Payer(tx)) - maximum]
      modifies this
      ensures r.Executed? && !r.success && r.gasUsed == (if outOfGas then tx.gasLimit else gas) && r.slashed == 0
      ensures CalculateFee(tx, r.gasUsed, baseFee) == Some(r.fee)
      ensures r.fee.burned == r.gasUsed * baseFee && r.fee.burned + r.fee.priority == r.fee.total <= maximum
      ensures Good(ledger) && Settled(ante, ledger, Payer(tx), maximum, r.fee, collector)
    {
      hide Sum, CapacityOk, CalculateFee, Settle, Settled, Produced;
      var gasUsed := if outOfGas || gas > tx.gasLimit then tx.gasLimit else gas;
      SettleNeverFaults(ledger, tx, maximum, ante, ante, 0, gasUsed, baseFee, collector);
      var fee := CalculateFee(tx, gasUsed, baseFee);
      var settled := Settle(ante, Payer(tx), maximum, fee.value, collector);
      SettledBasics(ante, settled.value, Payer(tx), maximum, fee.value, collector);
      ledger := settled.value;
      r := Executed(false, gasUsed, fee.value, 0);
    }

    /** A successful body is kept, and its fee settled. */
    method CommitBody(tx: Tx, ante: Ledger, working: Ledger, maximum: nat, gasUsed: nat, slashed: nat, baseFee: nat,
                      collector: Option<Address>)
        returns (r: Receipt)
      requires Good(ledger) && TxWords(tx) && baseFee <= MAX_UINT64 && CapacityOk(ledger, tx, baseFee, collector)
      requires maximum == tx.gasLimit * FeeCap(tx) && gasUsed <= tx.gasLimit && Produced(tx, ante, working, slashed)
      requires ante.balances == ledger.balances[Payer(tx) := At(ledger.balances, Payer(tx)) - maximum]
      modifies this
      ensures r.Executed? && r.success && r.gasUsed == gasUsed && r.slashed == slashed
      ensures CalculateFee(tx, r.gasUsed, baseFee) == Some(r.fee)
      ensures r.fee.burned == gasUsed * baseFee && r.fee.burned + r.fee.priority == r.fee.total <= maximum
      ensures Good(ledger) && Settled(working, ledger, Payer(tx), maximum, r.fee, collector)
    {
      hide Sum, CapacityOk, CalculateFee, Settle, Settled, Produced;
      ProducedBasics(tx, ante, working, slashed);
      SettleNeverFaults(ledger, tx, maximum, ante, working, slashed, gasUsed, baseFee, collector);
      var fee := CalculateFee(tx, gasUsed, baseFee);
      var settled := Settle(working, Payer(tx), maximum, fee.value, collector);
      SettledBasics(working, settled.value, Payer(tx), maximum, fee.value, collector);
      ledger := settled.value;
      r := Executed(true, gasUsed, fee.value, slashed);
    }

    /** Execute one transaction: what `Executes` says, and the escrow never faults. */
    method Execute(tx: Tx, baseFee: nat, collector: Option<Address>, env: Env) returns (r: Receipt)
      requires Good(ledger) && TxWords(tx) && baseFee <= MAX_UINT64
      modifies this
      ensures Good(ledger) && r != EscrowFault
      ensures Executes(old(ledger), tx, baseFee, collector, env, r, ledger)
    {
      hide Sum, CalculateFee, Settle, Settled, Produced, CapacityOk, Admissible, FeeCap, Charged, OnlyCharged, Moved,
        TransferEnds, ContractEnds, TransferStatus, RunStatus, Metering, CanFault, Debit, BodyFine, BodyGas, Ends,
        Exposure, BatchEnds;
      var prepared := Prepare(ledger, tx, baseFee, collector, env);
      if !prepared.Ready? {
        return if prepared.Refuse? then Rejected else EscrowFault;
      }
      AdmissibleBasics(ledger, tx, baseFee, collector, env);
      EscrowBasics(ledger, tx, prepared);
      var maximum, ante := prepared.maximum, prepared.ante;
      var status, working, gasUsed, slashed := RunBody(tx, ante, env.intrinsic.value, env);
      match status {
        case BodyFatal => r := ContractFault;
        case BodyFailed(outOfGas) =>
          r := CommitFailed(tx, ante, maximum, gasUsed, outOfGas, baseFee, collector);
          FailedIsCharged(old(ledger), tx, prepared, baseFee, collector, r, ledger);
        case BodyDone =>
          r := CommitBody(tx, ante, working, maximum, gasUsed, slashed, baseFee, collector);
          DoneIsCharged(old(ledger), tx, prepared, working, baseFee, collector, r, ledger);
          DoneIsMoved(old(ledger), tx, prepared, working, collector, r, ledger);
      }
      EndsAsItShould(old(ledger), tx, prepared, baseFee, collector, env, status, r);
      if tx.body.Transfer? {
        TransferEnded(old(ledger), tx, prepared, baseFee, collector, env, status, r);
      }
      if tx.body.Contract? {
        ContractEnded(tx, env, status, gasUsed, r);
      }
    }
  }

  /** The escrow is all that the pre-checks take. */
  ghost predicate Escrowed(l: Ledger, tx: Tx, p: Prepared) {
    && p.Ready? && p.maximum == tx.gasLimit * FeeCap(tx) && Debit(l, Payer(tx), p.maximum).Some?
    && p.ante == Debit(l, Payer(tx), p.maximum).value.(nonces := l.nonces[tx.from := tx.nonce + 1])
    && Good(p.ante) && Total(p.ante) == Total(l) - p.maximum
  }

  lemma EscrowBasics(l: Ledger, tx: Tx, p: Prepared)
    requires Escrowed(l, tx, p)
    ensures Good(p.ante) && p.maximum == tx.gasLimit * FeeCap(tx)
    ensures p.ante.balances == l.balances[Payer(tx) := At(l.balances, Payer(tx)) - p.maximum]
  {
  }

  lemma FailedIsCharged(l: Ledger, tx: Tx, p: Prepared, baseFee: nat, collector: Option<Address>, r: Receipt,
                        l': Ledger)
    requires Escrowed(l, tx, p) && At(l.nonces, tx.from) == tx.nonce
    requires r.Executed? && !r.success && r.slashed == 0 && r.gasUsed <= tx.gasLimit
    requires baseFee <= MAX_UINT64 && CalculateFee(tx, r.gasUsed, baseFee) == Some(r.fee)
    requires r.fee.burned == r.gasUsed * baseFee && r.fee.burned + r.fee.priority == r.fee.total
    requires Settled(p.ante, l', Payer(tx), p.maximum, r.fee, collector)
    ensures Charged(l, tx, baseFee, collector, r, l') && OnlyCharged(l, tx, collector, r, l')
  {
    hide Sum, FeeCap, CalculateFee;
  }

  lemma DoneIsCharged(l: Ledger, tx: Tx, p: Prepared, w: Ledger, baseFee: nat, collector: Option<Address>, r: Receipt,
                      l': Ledger)
    requires Escrowed(l, tx, p) && At(l.nonces, tx.from) == tx.nonce
    requires r.Executed? && r.success && r.gasUsed <= tx.gasLimit && Produced(tx, p.ante, w, r.slashed)
    requires baseFee <= MAX_UINT64 && CalculateFee(tx, r.gasUsed, baseFee) == Some(r.fee)
    requires r.fee.burned == r.gasUsed * baseFee && r.fee.burned + r.fee.priority == r.fee.total
    requires Settled(w, l', Payer(tx), p.maximum, r.fee, collector)
    ensures Charged(l, tx, baseFee, collector, r, l')
  {
    hide Sum, FeeCap, At, Words, BalanceChange, StakeChange, CalculateFee;
  }

  lemma DoneIsMoved(l: Ledger, tx: Tx, p: Prepared, w: Ledger, collector: Option<Address>, r: Receipt, l': Ledger)
    requires Escrowed(l, tx, p) && r.Executed? && Produced(tx, p.ante, w, r.slashed)
    requires Settled(w, l', Payer(tx), p.maximum, r.fee, collector)
    ensures Moved(l, tx, collector, r, l')
  {
    hide Sum, FeeCap, Produced, BalanceChange, StakeChange, Words, Total;
    ProducedBasics(tx, p.ante, w, r.slashed);
    EscrowBasics(l, tx, p);
  }

  /** What the escrow takes from the sender or the recipient never makes a transfer fail. */
  lemma TransferEnded(l: Ledger, tx: Tx, p: Prepared, baseFee: nat, collector: Option<Address>, env: Env,
                      status: Status, r: Receipt)
    requires baseFee <= MAX_UINT64 && CapacityOk(l, tx, baseFee, collector) && tx.body.Transfer? && env.intrinsic.Some?
    requires Escrowed(l, tx, p) && status == TransferStatus(p.ante, tx, env)
    requires status == BodyFatal ==> r == ContractFault
    requires status != BodyFatal ==> r.Executed? && (r.success <==> status == BodyDone)
    requires status != BodyFatal ==>
               r.gasUsed == if status == BodyFailed(true) then tx.gasLimit else env.intrinsic.value
    ensures TransferEnds(l, tx, env, r)
  {
    hide CalculateFee, FeeCap;
    SenderCanPay(l, tx, baseFee, collector);
  }

  /** The escrow changes neither whether a body goes through nor what it needs. */
  lemma EscrowKeepsFine(l: Ledger, tx: Tx, p: Prepared, baseFee: nat, collector: Option<Address>, start: nat, env: Env)
    requires Good(l) && baseFee <= MAX_UINT64 && CapacityOk(l, tx, baseFee, collector) && Escrowed(l, tx, p)
    ensures BodyFine(tx, p.ante, start, env) <==> BodyFine(tx, l, start, env)
    ensures Exposure(tx) <= At(p.ante.balances, tx.from)
  {
    hide CalculateFee, FeeCap, Tip, Sum, SumOf, CallGas, Total;
    EscrowBasics(l, tx, p);
    forall t
      ensures At(p.ante.balances, t) == At(l.balances, t) - if t == Payer(tx) then p.maximum else 0
    {
    }
  }

  /** So does a part of a batch, and a batch that stops stops at the same place. */
  lemma EscrowKeepsEnd(l: Ledger, tx: Tx, p: Prepared, baseFee: nat, collector: Option<Address>, start: nat, env: Env,
                       gas: Option<nat>)
    requires Good(l) && baseFee <= MAX_UINT64 && CapacityOk(l, tx, baseFee, collector) && Escrowed(l, tx, p)
    requires tx.body.Batch? && BatchEnds(tx, p.ante, start, env, gas)
    ensures BatchEnds(tx, l, start, env, gas)
  {
    hide BatchFine, CapacityOk, EndsAt, FaultsAt, CallGas;
    var k: nat :| StopsAt(tx, p.ante, start, env, k) && EndsAt(tx, start, env, k, gas);
    EscrowKeepsPart(l, tx, p, baseFee, collector, start, env, k);
    if k > 0 {
      EscrowKeepsPart(l, tx, p, baseFee, collector, start, env, k - 1);
    }
    assert StopsAt(tx, l, start, env, k);
  }

  lemma EscrowKeepsPart(l: Ledger, tx: Tx, p: Prepared, baseFee: nat, collector: Option<Address>, start: nat, env: Env,
                        k: nat)
    requires Good(l) && baseFee <= MAX_UINT64 && CapacityOk(l, tx, baseFee, collector) && Escrowed(l, tx, p)
    requires tx.body.Batch? && k <= |tx.body.ops|
    ensures BatchFine(tx, p.ante, start, env, tx.body.ops[..k]) <==> BatchFine(tx, l, start, env, tx.body.ops[..k])
  {
    hide CalculateFee, FeeCap, Tip, Sum, SumOf, CallGas, Total, SumTo, SumPaid;
    EscrowBasics(l, tx, p);
    PartSums(tx.body.ops, k, Payer(tx));
    forall t
      ensures At(p.ante.balances, t) == At(l.balances, t) - if t == Payer(tx) then p.maximum else 0
    {
    }
  }

  lemma {:induction false} PartSums(ops: seq<Op>, k: nat, t: Address)
    requires k <= |ops|
    ensures SumTo(ops[..k], t) <= SumTo(ops, t)
    decreases |ops| - k
  {
    if k == |ops| {
      assert ops[..k] == ops;
    } else {
      PartSums(ops, k + 1, t);
      assert ops[..k + 1][..k] == ops[..k];
    }
  }

  lemma EndsAsItShould(l: Ledger, tx: Tx, p: Prepared, baseFee: nat, collector: Option<Address>, env: Env,
                       status: Status, r: Receipt)
    requires Good(l) && baseFee <= MAX_UINT64 && CapacityOk(l, tx, baseFee, collector) && Escrowed(l, tx, p)
    requires env.intrinsic.Some? && (r.Executed? && r.success <==> status == BodyDone)
    requires status == BodyDone ==> BodyFine(tx, p.ante, env.intrinsic.value, env)
    requires BodyFine(tx, p.ante, env.intrinsic.value, env) && Exposure(tx) <= At(p.ante.balances, tx.from) ==>
               status == BodyDone
    requires r.Executed? && !tx.body.Batch? && !tx.body.Contract? ==> r.gasUsed == env.intrinsic.value
    requires tx.body.Batch? && Exposure(tx) <= At(p.ante.balances, tx.from) && (r.Executed? || r == ContractFault) ==>
               BatchEnds(tx, p.ante, env.intrinsic.value, env, if r.Executed? then Some(r.gasUsed) else None)
    requires tx.body.Stake? || tx.body.Unstake? || tx.body.Slash? ==> r != ContractFault
    requires tx.body.Recovery? || tx.body.Other? ==> (r == ContractFault <==> env.runs(0).outcome == Faulted)
    requires status == BodyDone ==>
               && r.gasUsed == env.intrinsic.value + BodyGas(tx, env)
               && (tx.body.Slash? ==> r.slashed == At(p.ante.stakes, tx.body.target))
    ensures Ends(l, tx, env, r)
  {
    hide CapacityOk, BodyFine, BodyGas, Exposure, FeeCap, Total, Good, BatchEnds;
    EscrowKeepsFine(l, tx, p, baseFee, collector, env.intrinsic.value, env);
    if tx.body.Batch? && (r.Executed? || r == ContractFault) {
      EscrowKeepsEnd(l, tx, p, baseFee, collector, env.intrinsic.value, env,
                     if r.Executed? then Some(r.gasUsed) else None);
    }
  }

  lemma ContractEnded(tx: Tx, env: Env, status: Status, gas: nat, r: Receipt)
    requires env.intrinsic.Some? && env.intrinsic.value <= tx.gasLimit
    requires status == RunStatus(env.runs(0), tx.gasLimit - env.intrinsic.value)
    requires gas == Metering(env.intrinsic.value, env.runs(0), tx.gasLimit)
    requires status == BodyFatal ==> r == ContractFault
    requires status != BodyFatal ==> r.Executed? && (r.success <==> status == BodyDone)
    requires status != BodyFatal ==> r.gasUsed == if status == BodyFailed(true) then tx.gasLimit else gas
    ensures ContractEnds(tx, env, r)
  {
  }

  datatype Prepared = Refuse | Broken | Ready(maximum: nat, ante: Ledger)

  /** The pre-checks, the nonce and the reserved escrow. */
  method Prepare(l: Ledger, tx: Tx, baseFee: nat, collector: Option<Address>, env: Env) returns (r: Prepared)
    requires Good(l) && TxWords(tx) && baseFee <= MAX_UINT64
    ensures !r.Broken? && (r.Ready? <==> Admissible(l, tx, baseFee, collector, env))
    ensures r.Ready? ==> Escrowed(l, tx, r)
  {
    hide Sum, CalculateFee;
    if !env.chainOk || env.intrinsic.None? || tx.gasLimit < env.intrinsic.value || !env.authorised {
      return Refuse;
    }
    if At(l.nonces, tx.from) != tx.nonce {
      return Refuse;
    }
    var capable := ValidateFeeCapacity(l, tx, baseFee, collector);
    if !capable || tx.nonce == MAX_UINT64 {
      return Refuse;
    }
    var maximum := CheckedMul(tx.gasLimit, FeeCap(tx));
    if maximum.None? {
      return Broken;
    }
    var reserved := Debit(l, Payer(tx), maximum.value);
    if reserved.None? {
      return Broken;
    }
    DebitTotal(l, Payer(tx), maximum.value);
    assert At(l.nonces, tx.from) <= MAX_UINT64;
    r := Ready(maximum.value, reserved.value.(nonces := l.nonces[tx.from := tx.nonce + 1]));
  }

  lemma AdmissibleBasics(l: Ledger, tx: Tx, baseFee: nat, collector: Option<Address>, env: Env)
    requires baseFee <= MAX_UINT64 && Admissible(l, tx, baseFee, collector, env)
    ensures CapacityOk(l, tx, baseFee, collector) && At(l.nonces, tx.from) == tx.nonce
    ensures env.intrinsic.Some? && env.intrinsic.value <= tx.gasLimit
  {
  }

  /** The escrow leaves the sender what a transfer needs. */
  lemma SenderCanPay(l: Ledger, tx: Tx, baseFee: nat, collector: Option<Address>)
    requires baseFee <= MAX_UINT64 && CapacityOk(l, tx, baseFee, collector) && tx.body.Transfer?
    ensures Debit(l, Payer(tx), tx.gasLimit * FeeCap(tx)).Some?
    ensures var ante := Debit(l, Payer(tx), tx.gasLimit * FeeCap(tx)).value;
            && At(ante.balances, tx.from) >= tx.body.value
            && forall t :: At(ante.balances, t) <= At(l.balances, t)
  {
    hide CalculateFee, FeeCap, Tip, Incoming;
  }

  lemma ProducedBasics(tx: Tx, l: Ledger, w: Ledger, slashed: nat)
    requires Produced(tx, l, w, slashed)
    ensures Good(w) && Total(w) == Total(l) - slashed && w.nonces == l.nonces
    ensures slashed > 0 ==> tx.body.Slash? && slashed == At(l.stakes, tx.body.target)
    ensures forall t :: At(w.balances, t) == At(l.balances, t) + BalanceChange(tx, t)
    ensures forall t :: At(w.stakes, t) == At(l.stakes, t) + StakeChange(tx, slashed, t)
  {
  }
}

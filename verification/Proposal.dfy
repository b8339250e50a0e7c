/** Block building and block checking share one loop: the proposer's pass skips
    what does not fit, the strict pass refuses it. What the first pass selects the
    second accepts, with the same state, receipts and gas (Requirement 3,
    coherence, in the formal requirements of the ABCI 2.0 specification). */
module Proposal {
  import opened Wrappers
  import Executor

  type Store = Executor.Ledger
  type Raw = seq<nat>
  type Receipt = Executor.Receipt

  const MAX_TRANSACTIONS: nat := 4096
  const MAX_CANDIDATES: nat := 2 * MAX_TRANSACTIONS
  const MAX_TX_BYTES: nat := 12 * 1024 * 1024

  /** Decoding and executing one transaction is a function of the state and the bytes. */
  datatype Outcome =
    | Undecodable
    | Refused
    | Fatal
    | Done(store: Store, receipt: Receipt, gas: nat, encodable: bool)

  datatype Chain = Chain(exec: (Store, Raw) -> Outcome, blockGasLimit: nat)

  /** The tag, the length prefix and the bytes. */
  function TxSize(raw: Raw): nat { 1 + PrefixBytes(|raw|) + |raw| }

  function PrefixBytes(length: nat): nat { if length < 128 then 1 else 1 + PrefixBytes(length / 128) }

  datatype Execution = Execution(store: Store, gasUsed: nat, bytes: nat, raws: seq<Raw>, receipts: seq<Receipt>)

  datatype Pick = Took(execution: Execution) | Full | Skip | Abort

  /** One transaction on top of what was taken so far. */
  function Consider(c: Chain, x: Execution, raw: Raw, maxBytes: nat): Pick {
    if x.bytes + TxSize(raw) > maxBytes then Full
    else
      match c.exec(x.store, raw)
      case Undecodable => Skip
      case Refused => Skip
      case Fatal => Abort
      case Done(store, receipt, gas, encodable) =>
        if x.gasUsed + gas > Executor.MAX_UINT64 || x.gasUsed + gas > c.blockGasLimit then Skip
        else if !encodable then Abort
        else Took(Execution(store, x.gasUsed + gas, x.bytes + TxSize(raw), x.raws + [raw], x.receipts + [receipt]))
  }

  function Start(base: Store): Execution { Execution(base, 0, 0, [], []) }

  /** The strict pass: every transaction must be taken. */
  ghost function Strict(c: Chain, base: Store, raws: seq<Raw>, maxBytes: nat): Option<Execution> {
    if |raws| > MAX_TRANSACTIONS then None
    else if raws == [] then Some(Start(base))
    else
      match Strict(c, base, raws[..|raws| - 1], maxBytes)
      case None => None
      case Some(x) =>
        match Consider(c, x, raws[|raws| - 1], maxBytes)
        case Took(x') => Some(x')
        case _ => None
  }

  /** The proposer's pass over the candidates `raws[i..]`. */
  ghost function Select(c: Chain, x: Execution, raws: seq<Raw>, i: nat, maxBytes: nat): Option<Execution>
    requires i <= |raws|
    decreases |raws| - i
  {
    if i == |raws| || i >= MAX_CANDIDATES || |x.raws| >= MAX_TRANSACTIONS then Some(x)
    else
      match Consider(c, x, raws[i], maxBytes)
      case Full => Some(x)
      case Abort => None
      case Skip => Select(c, x, raws, i + 1, maxBytes)
      case Took(x') => Select(c, x', raws, i + 1, maxBytes)
  }

  /** Both passes, as the source runs them. */
  method ExecuteProposal(c: Chain, base: Store, raws: seq<Raw>, maxBytes: nat, strict: bool)
      returns (r: Option<Execution>)
    ensures r == if strict then Strict(c, base, raws, maxBytes) else Select(c, Start(base), raws, 0, maxBytes)
  {
    if strict && |raws| > MAX_TRANSACTIONS {
      return None;
    }
    var x := Start(base);
    var i := 0;
    while i < |raws|
      invariant 0 <= i <= |raws|
      invariant strict ==> Strict(c, base, raws[..i], maxBytes) == Some(x) && |x.raws| == i
      invariant !strict ==> Select(c, x, raws, i, maxBytes) == Select(c, Start(base), raws, 0, maxBytes)
    {
      if !strict && i >= MAX_CANDIDATES {
        return Some(x);
      }
      if |x.raws| >= MAX_TRANSACTIONS {
        return Some(x);
      }
      assert raws[..i + 1][..i] == raws[..i];
      match Consider(c, x, raws[i], maxBytes) {
        case Full =>
          if strict {
            StrictStuck(c, base, raws, i + 1, maxBytes);
            return None;
          }
          return Some(x);
        case Abort =>
          if strict {
            StrictStuck(c, base, raws, i + 1, maxBytes);
          }
          return None;
        case Skip =>
          if strict {
            StrictStuck(c, base, raws, i + 1, maxBytes);
            return None;
          }
        case Took(x') => x := x';
      }
      i := i + 1;
    }
    assert raws[..i] == raws;
    r := Some(x);
  }

  lemma {:induction false} StrictStuck(c: Chain, base: Store, raws: seq<Raw>, i: nat, maxBytes: nat)
    requires i <= |raws| && Strict(c, base, raws[..i], maxBytes).None?
    ensures Strict(c, base, raws, maxBytes).None?
    decreases |raws| - i
  {
    if i == |raws| {
      assert raws[..i] == raws;
    } else {
      assert raws[..i + 1][..i] == raws[..i];
      StrictStuck(c, base, raws, i + 1, maxBytes);
    }
  }

  // ---- Coherence ----

  /** What is taken under a smaller byte limit is taken in the same way under a larger one. */
  lemma LargerLimit(c: Chain, x: Execution, raw: Raw, small: nat, large: nat)
    requires small <= large && Consider(c, x, raw, small).Took?
    ensures Consider(c, x, raw, large) == Consider(c, x, raw, small)
  {
  }

  lemma {:induction false} SelectedIsStrict(c: Chain, base: Store, x: Execution, raws: seq<Raw>, i: nat, small: nat,
                                            large: nat)
    requires i <= |raws| && small <= large && |x.raws| <= MAX_TRANSACTIONS
    requires Strict(c, base, x.raws, large) == Some(x)
    requires Select(c, x, raws, i, small).Some?
    ensures var y := Select(c, x, raws, i, small).value;
            Strict(c, base, y.raws, large) == Some(y) && |y.raws| <= MAX_TRANSACTIONS
              && y.bytes <= (if x.bytes > small then x.bytes else small)
    decreases |raws| - i
  {
    if !(i == |raws| || i >= MAX_CANDIDATES || |x.raws| >= MAX_TRANSACTIONS) {
      match Consider(c, x, raws[i], small) {
        case Full =>
        case Abort =>
        case Skip => SelectedIsStrict(c, base, x, raws, i + 1, small, large);
        case Took(x') =>
          LargerLimit(c, x, raws[i], small, large);
          assert x'.raws[..|x.raws|] == x.raws;
          SelectedIsStrict(c, base, x', raws, i + 1, small, large);
      }
    }
  }

  /** A prepared block is accepted by the strict pass of every validator, which
      reaches the same store, receipts, bytes and gas. */
  lemma PreparedIsAccepted(c: Chain, base: Store, raws: seq<Raw>, maxBytes: nat)
    requires maxBytes <= MAX_TX_BYTES && Select(c, Start(base), raws, 0, maxBytes).Some?
    ensures var block := Select(c, Start(base), raws, 0, maxBytes).value;
            Strict(c, base, block.raws, MAX_TX_BYTES) == Some(block)
  {
    SelectedIsStrict(c, base, Start(base), raws, 0, maxBytes, MAX_TX_BYTES);
  }

  /** Conversely, preparing an acceptable block changes nothing. */
  lemma {:induction false} AcceptedIsSelected(c: Chain, base: Store, raws: seq<Raw>, i: nat, maxBytes: nat)
    requires i <= |raws| && Strict(c, base, raws, maxBytes).Some? && Strict(c, base, raws[..i], maxBytes).Some?
    ensures Select(c, Strict(c, base, raws[..i], maxBytes).value, raws, i, maxBytes) == Strict(c, base, raws, maxBytes)
    decreases |raws| - i
  {
    var x := Strict(c, base, raws[..i], maxBytes).value;
    StrictTakesAll(c, base, raws[..i], maxBytes);
    if i == |raws| {
      assert raws[..i] == raws;
    } else {
      assert raws[..i + 1][..i] == raws[..i];
      if Strict(c, base, raws[..i + 1], maxBytes).None? {
        StrictStuck(c, base, raws, i + 1, maxBytes);
      } else {
        AcceptedIsSelected(c, base, raws, i + 1, maxBytes);
      }
    }
  }

  lemma {:induction false} StrictTakesAll(c: Chain, base: Store, raws: seq<Raw>, maxBytes: nat)
    requires Strict(c, base, raws, maxBytes).Some?
    ensures Strict(c, base, raws, maxBytes).value.raws == raws && |raws| <= MAX_TRANSACTIONS
    ensures |Strict(c, base, raws, maxBytes).value.receipts| == |raws|
    ensures raws != [] ==>
              Strict(c, base, raws, maxBytes).value.bytes <= maxBytes
                && Strict(c, base, raws, maxBytes).value.gasUsed <= c.blockGasLimit
    decreases |raws|
  {
    if raws != [] {
      StrictTakesAll(c, base, raws[..|raws| - 1], maxBytes);
    }
  }

  // ---- What an accepted block is, without the loop ----

  /** The states a list of transactions goes through, if each of them executes. */
  ghost function StoreAfter(c: Chain, base: Store, raws: seq<Raw>): Option<Store> {
    if raws == [] then Some(base)
    else
      match StoreAfter(c, base, raws[..|raws| - 1])
      case None => None
      case Some(s) =>
        match c.exec(s, raws[|raws| - 1])
        case Done(s', _, _, true) => Some(s')
        case _ => None
  }

  ghost function GasOf(c: Chain, base: Store, raws: seq<Raw>): nat
    requires StoreAfter(c, base, raws).Some?
  {
    if raws == [] then 0
    else
      GasOf(c, base, raws[..|raws| - 1])
      + c.exec(StoreAfter(c, base, raws[..|raws| - 1]).value, raws[|raws| - 1]).gas
  }

  ghost function ReceiptsOf(c: Chain, base: Store, raws: seq<Raw>): seq<Receipt>
    requires StoreAfter(c, base, raws).Some?
  {
    if raws == [] then []
    else
      ReceiptsOf(c, base, raws[..|raws| - 1])
      + [c.exec(StoreAfter(c, base, raws[..|raws| - 1]).value, raws[|raws| - 1]).receipt]
  }

  ghost function BytesOf(raws: seq<Raw>): nat {
    if raws == [] then 0 else BytesOf(raws[..|raws| - 1]) + TxSize(raws[|raws| - 1])
  }

  /** What the execution of a whole list amounts to. */
  ghost function Replayed(c: Chain, base: Store, raws: seq<Raw>): Execution
    requires StoreAfter(c, base, raws).Some?
  {
    Execution(StoreAfter(c, base, raws).value, GasOf(c, base, raws), BytesOf(raws), raws, ReceiptsOf(c, base, raws))
  }

  ghost predicate WithinLimits(c: Chain, base: Store, raws: seq<Raw>, maxBytes: nat)
    requires StoreAfter(c, base, raws).Some?
  {
    raws != [] ==> BytesOf(raws) <= maxBytes && GasOf(c, base, raws) <= c.blockGasLimit
  }

  lemma ReplayStep(c: Chain, base: Store, rest: seq<Raw>, raw: Raw)
    ensures StoreAfter(c, base, rest + [raw]).Some? <==>
              StoreAfter(c, base, rest).Some? && c.exec(StoreAfter(c, base, rest).value, raw).Done?
                && c.exec(StoreAfter(c, base, rest).value, raw).encodable
    ensures StoreAfter(c, base, rest + [raw]).Some? ==>
              var x, done := Replayed(c, base, rest), c.exec(StoreAfter(c, base, rest).value, raw);
              Replayed(c, base, rest + [raw]) ==
                Execution(done.store, x.gasUsed + done.gas, x.bytes + TxSize(raw), rest + [raw],
                          x.receipts + [done.receipt])
  {
    hide TxSize;
    assert (rest + [raw])[..|rest|] == rest;
  }

  /** The strict pass accepts exactly the blocks whose transactions all execute in
      order within the count, byte and gas limits, and returns what they produce. */
  lemma {:induction false} StrictIsReplay(c: Chain, base: Store, raws: seq<Raw>, maxBytes: nat)
    requires c.blockGasLimit <= Executor.MAX_UINT64
    ensures Strict(c, base, raws, maxBytes).Some? <==>
              |raws| <= MAX_TRANSACTIONS && StoreAfter(c, base, raws).Some? && WithinLimits(c, base, raws, maxBytes)
    ensures Strict(c, base, raws, maxBytes).Some? ==> Strict(c, base, raws, maxBytes).value == Replayed(c, base, raws)
    decreases |raws|
  {
    hide TxSize, StoreAfter, GasOf, BytesOf, ReceiptsOf;
    if raws == [] {
      NothingReplayed(c, base);
    } else {
      var rest, raw := raws[..|raws| - 1], raws[|raws| - 1];
      assert raws == rest + [raw];
      StrictIsReplay(c, base, rest, maxBytes);
      ReplayStep(c, base, rest, raw);
    }
  }

  lemma NothingReplayed(c: Chain, base: Store)
    ensures StoreAfter(c, base, []).Some? && Replayed(c, base, []) == Start(base)
  {
  }

  // ---- What the proposer selects, without the loop ----

  /** Behind `taken`, `raw` does not decode, is refused, or needs too much gas. */
  ghost predicate LeftOut(c: Chain, base: Store, taken: seq<Raw>, raw: Raw) {
    && StoreAfter(c, base, taken).Some?
    && var outcome := c.exec(StoreAfter(c, base, taken).value, raw);
       || outcome.Undecodable? || outcome.Refused?
       || (outcome.Done? && GasOf(c, base, taken) + outcome.gas > c.blockGasLimit)
  }

  /** Exactly `k` of the places `at` come before `j`, and `j` is none of them. */
  ghost predicate Before(at: seq<nat>, j: nat, k: nat) {
    k <= |at| && (k > 0 ==> at[k - 1] < j) && (k < |at| ==> j < at[k])
  }

  /** Of the first `i` candidates the ones at the places `at` are taken, in order, and
      every other one is left out behind those taken before it. */
  ghost predicate Greedy(c: Chain, base: Store, raws: seq<Raw>, i: nat, taken: seq<Raw>, at: seq<nat>) {
    && i <= |raws| && |at| == |taken|
    && (forall k :: 0 <= k < |at| ==> at[k] < i && raws[at[k]] == taken[k])
    && (forall k, l :: 0 <= k < l < |at| ==> at[k] < at[l])
    && (forall j: nat, k: nat {:trigger Before(at, j, k)} ::
          j < i && Before(at, j, k) ==> LeftOut(c, base, taken[..k], raws[j]))
  }

  lemma GreedySkip(c: Chain, base: Store, raws: seq<Raw>, i: nat, taken: seq<Raw>, at: seq<nat>)
    requires Greedy(c, base, raws, i, taken, at) && i < |raws| && LeftOut(c, base, taken, raws[i])
    ensures Greedy(c, base, raws, i + 1, taken, at)
  {
    hide LeftOut;
    assert taken[..|at|] == taken;
  }

  lemma GreedyTake(c: Chain, base: Store, raws: seq<Raw>, i: nat, taken: seq<Raw>, at: seq<nat>)
    requires Greedy(c, base, raws, i, taken, at) && i < |raws|
    ensures Greedy(c, base, raws, i + 1, taken + [raws[i]], at + [i])
  {
    hide LeftOut;
    var taken', at' := taken + [raws[i]], at + [i];
    forall j: nat, k: nat | j < i + 1 && Before(at', j, k)
      ensures LeftOut(c, base, taken'[..k], raws[j])
    {
      assert k < |at'| && j < i;
      assert Before(at, j, k) && taken'[..k] == taken[..k];
    }
  }

  /** The selection is greedy: going through the candidates in order it takes each one
      that executes within the gas limit behind those taken before, and stops at the
      end, after 8192 candidates, at 4096 transactions, or at the first candidate whose
      bytes no longer fit. */
  lemma {:induction false} SelectionIsGreedy(c: Chain, base: Store, x: Execution, raws: seq<Raw>, i: nat, maxBytes: nat,
                                             at: seq<nat>) returns (at': seq<nat>, stop: nat)
    requires c.blockGasLimit <= Executor.MAX_UINT64 && i <= |raws| && i <= 8192 && |x.raws| <= 4096
    requires Strict(c, base, x.raws, maxBytes) == Some(x) && Greedy(c, base, raws, i, x.raws, at)
    requires Select(c, x, raws, i, maxBytes).Some?
    ensures var block := Select(c, x, raws, i, maxBytes).value.raws;
            && i <= stop <= |raws| && stop <= 8192 && Greedy(c, base, raws, stop, block, at')
            && (stop == |raws| || stop == 8192 || |block| == 4096 || BytesOf(block) + TxSize(raws[stop]) > maxBytes)
    decreases |raws| - i
  {
    hide Greedy, TxSize, StoreAfter, GasOf, BytesOf, ReceiptsOf;
    at', stop := at, i;
    StrictIsReplay(c, base, x.raws, maxBytes);
    if i < |raws| && i < 8192 && |x.raws| < 4096 {
      match Consider(c, x, raws[i], maxBytes) {
        case Full =>
        case Skip =>
          GreedySkip(c, base, raws, i, x.raws, at);
          at', stop := SelectionIsGreedy(c, base, x, raws, i + 1, maxBytes, at);
        case Took(x') =>
          GreedyTake(c, base, raws, i, x.raws, at);
          assert x'.raws[..|x.raws|] == x.raws;
          at', stop := SelectionIsGreedy(c, base, x', raws, i + 1, maxBytes, at + [i]);
      }
    }
  }

  /** It fails only on a candidate whose execution fails for good or whose result cannot
      be encoded. */
  lemma {:induction false} SelectionFails(c: Chain, x: Execution, raws: seq<Raw>, i: nat, maxBytes: nat)
    requires i <= |raws| && Select(c, x, raws, i, maxBytes).None?
    ensures exists s, j :: i <= j < |raws| && (c.exec(s, raws[j]).Fatal? ||
              (c.exec(s, raws[j]).Done? && !c.exec(s, raws[j]).encodable))
    decreases |raws| - i
  {
    match Consider(c, x, raws[i], maxBytes) {
      case Abort =>
        assert c.exec(x.store, raws[i]).Fatal? || !c.exec(x.store, raws[i]).encodable;
      case Skip => SelectionFails(c, x, raws, i + 1, maxBytes);
      case Took(x') => SelectionFails(c, x', raws, i + 1, maxBytes);
    }
  }

  ghost function Groups(n: nat): nat {
    if n == 0 then 1 else 128 * Groups(n - 1)
  }

  /** The length prefix is the shortest varint: `n` bytes hold what is below 128 to the
      power `n`. */
  lemma {:induction false} PrefixIsShortest(length: nat, n: nat)
    requires n > 0
    ensures PrefixBytes(length) <= n <==> length < Groups(n)
    decreases n
  {
    if length >= 128 {
      if n == 1 {
        assert Groups(1) == 128;
      } else {
        PrefixIsShortest(length / 128, n - 1);
      }
    } else {
      GroupsGrow(n);
    }
  }

  /** A transaction takes its bytes, one byte for the tag and that prefix. */
  lemma SizeIs(raw: Raw, n: nat)
    requires n > 0
    ensures TxSize(raw) <= |raw| + 1 + n <==> |raw| < Groups(n)
  {
    PrefixIsShortest(|raw|, n);
  }

  lemma {:induction false} GroupsGrow(n: nat)
    requires n > 0
    ensures Groups(n) >= 128
    decreases n
  {
    if n > 1 {
      GroupsGrow(n - 1);
    }
  }
}

/** The node's transaction pool: submission, replacement, promotion, revalidation
    on a new head, and rollback when the pool cannot be persisted. */
module TxPoolNode {
  import opened Wrappers
  import opened TxPool

  ghost predicate PoolInv(m: Machine, head: Head, base: State, pending: seq<Tx>, queued: seq<Tx>, bytes: nat) {
    && Lawful(m) && Replay(m, head, base, pending).Some?
    && Steady(m, Replay(m, head, base, pending).value, queued)
    && Settled(m, head, Replay(m, head, base, pending).value, queued)
    && Limits(m, pending, queued) && bytes == Weigh(m.size, pending + queued)
  }

  /** No two transactions of the pool compete for a nonce. */
  lemma PoolNoncesAreUnique(m: Machine, head: Head, base: State, pending: seq<Tx>, queued: seq<Tx>, bytes: nat)
    requires PoolInv(m, head, base, pending, queued, bytes)
    ensures UniqueNonces(pending + queued)
  {
    hide Limits, Settled, Weigh;
    var all, s := pending + queued, Replay(m, head, base, pending).value;
    forall i, j | 0 <= i < j < |all|
      ensures !(all[i].from == all[j].from && all[i].nonce == all[j].nonce)
    {
      ReplayNonces(m, head, base, pending, all[i].from);
      if j >= |pending| {
        assert m.nonceOf(s, queued[j - |pending|].from) <= queued[j - |pending|].nonce;
        if i >= |pending| {
          assert all[i] == queued[i - |pending|];
        }
      }
    }
  }

  /** Replaying moves each nonce by the number of its transactions. */
  lemma {:induction false} ReplayCounts(m: Machine, head: Head, base: State, txs: seq<Tx>, a: Address)
    requires Lawful(m) && Replay(m, head, base, txs).Some?
    ensures m.nonceOf(Replay(m, head, base, txs).value, a) == m.nonceOf(base, a) + Weigh(From(a), txs)
    decreases |txs|
  {
    if txs != [] {
      var rest, last := txs[..|txs| - 1], txs[|txs| - 1];
      ReplayCounts(m, head, base, rest, a);
      var before := Replay(m, head, base, rest).value;
      assert NonceLaw(m, before, last, m.exec(head, before, last).state);
    }
  }

  lemma WeighUpdate(f: Tx -> nat, txs: seq<Tx>, i: nat, tx: Tx)
    requires i < |txs|
    ensures Weigh(f, txs[i := tx]) == Weigh(f, txs) - f(txs[i]) + f(tx)
  {
    WeighAt(f, txs, i);
    WeighAt(f, txs[i := tx], i);
    assert txs[i := tx][..i] + txs[i := tx][i + 1..] == txs[..i] + txs[i + 1..];
  }

  lemma WeighSame(f: Tx -> nat, a: seq<Tx>, b: seq<Tx>)
    requires multiset(a) == multiset(b)
    ensures Weigh(f, a) == Weigh(f, b)
  {
    WeighPart(f, a, b);
    WeighPart(f, b, a);
  }

  // ---- When a submission is accepted ----

  /** The first transaction that competes with `tx` for a nonce, or the length. */
  function Competitor(txs: seq<Tx>, tx: Tx): (i: nat)
    ensures i <= |txs|
    ensures i < |txs| ==> txs[i].from == tx.from && txs[i].nonce == tx.nonce
    ensures forall j :: 0 <= j < i ==> !(txs[j].from == tx.from && txs[j].nonce == tx.nonce)
  {
    if txs == [] || (txs[0].from == tx.from && txs[0].nonce == tx.nonce) then 0 else 1 + Competitor(txs[1..], tx)
  }

  /** The bytes allow `size` in place of `previous`. */
  ghost predicate Fits(bytes: nat, previous: nat, size: nat) {
    previous <= bytes && bytes - previous < MAX_BYTES && bytes - previous + size <= MAX_BYTES
  }

  /** There is room for one more transaction, by count, bytes and sender. */
  ghost predicate Room(m: Machine, p: seq<Tx>, q: seq<Tx>, tx: Tx) {
    && |p| + |q| < MAX_POOL
    && Fits(Weigh(m.size, p + q), 0, m.size(tx))
    && Weigh(From(tx.from), p + q) < MAX_PER_SENDER
  }

  /** A transaction that has to wait executes once its turn comes, as far as one can
      tell by putting the nonce forward. */
  ghost predicate Waits(m: Machine, head: Head, s: State, tx: Tx) {
    m.nonceOf(s, tx.from) < tx.nonce && m.exec(head, m.setNonce(s, tx.from, tx.nonce), tx).Executed?
  }

  ghost predicate ReplacementOk(m: Machine, head: Head, base: State, p: seq<Tx>, bytes: nat, i: nat, tx: Tx)
    requires i < |p|
  {
    Fits(bytes, m.size(p[i]), m.size(tx)) && Replay(m, head, base, p[i := tx]).Some?
  }

  ghost predicate SwapOk(m: Machine, head: Head, s: State, q: seq<Tx>, bytes: nat, j: nat, tx: Tx)
    requires j < |q|
  {
    && Fits(bytes, m.size(q[j]), m.size(tx))
    && (Waits(m, head, s, tx) || (tx.nonce == m.nonceOf(s, tx.from) && m.exec(head, s, tx).Executed?))
  }

  ghost predicate NewOk(m: Machine, head: Head, s: State, p: seq<Tx>, q: seq<Tx>, tx: Tx) {
    && Room(m, p, q, tx)
    && (|| (Waits(m, head, s, tx) && tx.nonce <= m.nonceOf(s, tx.from) + MAX_GAP && |q| < MAX_QUEUED)
        || m.exec(head, s, tx).Executed?)
  }

  /** A competitor is replaced if the fee rule and the bytes allow it and the pool still
      works with the new transaction; otherwise there must be room for a transaction
      that executes now or waits for a near nonce. */
  ghost predicate Acceptable(m: Machine, mayReplace: (Tx, Tx) -> bool, head: Head, base: State,
                             p: seq<Tx>, q: seq<Tx>, bytes: nat, tx: Tx)
    requires Replay(m, head, base, p).Some?
  {
    var i, j, s := Competitor(p, tx), Competitor(q, tx), Replay(m, head, base, p).value;
    if i < |p| then mayReplace(p[i], tx) && ReplacementOk(m, head, base, p, bytes, i, tx)
    else if j < |q| then mayReplace(q[j], tx) && SwapOk(m, head, s, q, bytes, j, tx)
    else NewOk(m, head, s, p, q, tx)
  }

  ghost predicate Rivals(a: Tx, b: Tx) { a.from == b.from && a.nonce == b.nonce }

  /** The same in figures: which competitor is replaced, the 128 MiB, 4096 transactions
      and 64 per sender of the whole pool, and the 2048 places and 64 nonces ahead of
      the queue. The next nonce is the account's plus its pending transactions. */
  lemma AcceptsIff(m: Machine, mayReplace: (Tx, Tx) -> bool, head: Head, base: State, p: seq<Tx>, q: seq<Tx>,
                   bytes: nat, tx: Tx)
    requires PoolInv(m, head, base, p, q, bytes)
    ensures var s, total := Replay(m, head, base, p).value, Weigh(m.size, p + q);
            var next := m.nonceOf(base, tx.from) + Weigh(From(tx.from), p);
            var later := m.exec(head, m.setNonce(s, tx.from, tx.nonce), tx).Executed?;
            Acceptable(m, mayReplace, head, base, p, q, bytes, tx) <==>
              if exists i :: 0 <= i < |p| && Rivals(p[i], tx) then
                forall i :: 0 <= i < |p| && Rivals(p[i], tx) ==>
                  && mayReplace(p[i], tx) && Replay(m, head, base, p[i := tx]).Some?
                  && total - m.size(p[i]) < 134_217_728 && total - m.size(p[i]) + m.size(tx) <= 134_217_728
              else if exists j :: 0 <= j < |q| && Rivals(q[j], tx) then
                forall j :: 0 <= j < |q| && Rivals(q[j], tx) ==>
                  && mayReplace(q[j], tx) && (if tx.nonce == next then m.exec(head, s, tx).Executed? else later)
                  && total - m.size(q[j]) < 134_217_728 && total - m.size(q[j]) + m.size(tx) <= 134_217_728
              else
                && total < 134_217_728 && total + m.size(tx) <= 134_217_728
                && |p| + |q| < 4096 && Weigh(From(tx.from), p + q) < 64
                && (|| (tx.nonce == next && m.exec(head, s, tx).Executed?)
                    || (next < tx.nonce <= next + 64 && later && |q| < 2048))
  {
    hide Weigh, Replay, Lawful, Limits, Settled;
    ReplayCounts(m, head, base, p, tx.from);
    var i, j, s := Competitor(p, tx), Competitor(q, tx), Replay(m, head, base, p).value;
    assert m.exec(head, s, tx).Executed? ==> tx.nonce == m.nonceOf(s, tx.from) by { DueIfExecuted(m, head, s, tx); }
    if i < |p| {
      OnlyRival(m, head, base, p, i, tx);
      assert (p + q)[i] == p[i];
      WeighAt(m.size, p + q, i);
    } else if j < |q| {
      assert (p + q)[|p| + j] == q[j];
      WeighAt(m.size, p + q, |p| + j);
    }
  }

  lemma DueIfExecuted(m: Machine, head: Head, s: State, tx: Tx)
    requires Lawful(m)
    ensures m.exec(head, s, tx).Executed? ==> tx.nonce == m.nonceOf(s, tx.from)
  {
  }

  /** A list that replays uses each nonce once. */
  lemma OnlyRival(m: Machine, head: Head, base: State, p: seq<Tx>, i: nat, tx: Tx)
    requires Lawful(m) && Replay(m, head, base, p).Some? && i < |p| && Rivals(p[i], tx)
    ensures forall k :: 0 <= k < |p| && Rivals(p[k], tx) ==> k == i
  {
    hide Replay, Lawful;
    ReplayNonces(m, head, base, p, tx.from);
  }

  /** The pending list that an accepted transaction leads to, before promotion. */
  ghost function Candidate(p: seq<Tx>, tx: Tx): seq<Tx> {
    var i := Competitor(p, tx);
    if i < |p| then p[i := tx] else p + [tx]
  }

  /** What an accepted transaction makes of the pool. A competitor on the pending list is
      replaced in its place. Otherwise a transaction whose turn it is goes to the end of
      the pending list, and one that waits takes its competitor's place in the queue or
      goes to the end of it. Then promotion runs. */
  ghost predicate Submitted(m: Machine, head: Head, base: State, p: seq<Tx>, q: seq<Tx>, tx: Tx,
                            p': seq<Tx>, q': seq<Tx>)
    requires Replay(m, head, base, p).Some?
  {
    var due := tx.nonce == m.nonceOf(Replay(m, head, base, p).value, tx.from);
    && (forall i :: 0 <= i < |p| && p[i].from == tx.from && p[i].nonce == tx.nonce ==>
          Promoted(m, head, base, p[i := tx], q, p', q'))
    && (!Holds(p, tx.from, tx.nonce) ==>
          && (forall j :: 0 <= j < |q| && q[j].from == tx.from && q[j].nonce == tx.nonce ==>
                if due then Promoted(m, head, base, p + [tx], q[..j] + q[j + 1..], p', q')
                else p' == p && q' == q[j := tx])
          && (!Holds(q, tx.from, tx.nonce) ==>
                if due then Promoted(m, head, base, p + [tx], q, p', q') else p' == p && q' == q + [tx]))
  }

  lemma FaultsMore(m: Machine, head: Head, base: State, p: seq<Tx>, q: seq<Tx>, q': seq<Tx>)
    requires FaultsAfter(m, head, base, p, q) && forall tx :: tx in q ==> tx in q'
    ensures FaultsAfter(m, head, base, p, q')
  {
    hide Replay;
  }

  // ---- The ways a pool changes on submission ----

  /** Putting the promoted lists in place: sizes and limits carry over. */
  lemma PromotedInv(m: Machine, head: Head, base: State, p: seq<Tx>, q: seq<Tx>, p': seq<Tx>, q': seq<Tx>)
    requires Lawful(m) && Replay(m, head, base, p').Some?
    requires Steady(m, Replay(m, head, base, p').value, q') && Settled(m, head, Replay(m, head, base, p').value, q')
    requires Limits(m, p, q) && multiset(p' + q') == multiset(p + q)
    ensures PoolInv(m, head, base, p', q', Weigh(m.size, p + q))
  {
    LimitsOf(m, p, q, p', q');
    WeighSame(m.size, p' + q', p + q);
  }

  /** Two lists with the same senders leave the same nonces. */
  lemma SameSendersSteady(m: Machine, head: Head, base: State, p: seq<Tx>, p': seq<Tx>, queued: seq<Tx>)
    requires Lawful(m) && Replay(m, head, base, p).Some? && Replay(m, head, base, p').Some?
    requires forall a :: Weigh(From(a), p) == Weigh(From(a), p')
    requires Steady(m, Replay(m, head, base, p).value, queued)
    ensures Steady(m, Replay(m, head, base, p').value, queued)
  {
    hide Weigh, Replay, Lawful;
    forall i | 0 <= i < |queued|
      ensures m.nonceOf(Replay(m, head, base, p').value, queued[i].from)
                == m.nonceOf(Replay(m, head, base, p).value, queued[i].from)
    {
      ReplayCounts(m, head, base, p, queued[i].from);
      ReplayCounts(m, head, base, p', queued[i].from);
    }
  }

  lemma ReplacedLimits(m: Machine, p: seq<Tx>, q: seq<Tx>, i: nat, tx: Tx)
    requires Limits(m, p, q) && i < |p| + |q| && (p + q)[i].from == tx.from
    requires Weigh(m.size, p + q) - m.size((p + q)[i]) + m.size(tx) <= MAX_BYTES
    ensures Weigh(m.size, (p + q)[i := tx]) == Weigh(m.size, p + q) - m.size((p + q)[i]) + m.size(tx)
    ensures forall a :: Weigh(From(a), (p + q)[i := tx]) == Weigh(From(a), p + q)
    ensures i < |p| ==> Limits(m, p[i := tx], q)
    ensures i >= |p| ==> Limits(m, p, q[i - |p| := tx])
  {
    WeighUpdate(m.size, p + q, i, tx);
    forall a
      ensures Weigh(From(a), (p + q)[i := tx]) == Weigh(From(a), p + q)
    {
      WeighUpdate(From(a), p + q, i, tx);
    }
    if i < |p| {
      assert (p + q)[i := tx] == p[i := tx] + q;
    } else {
      assert (p + q)[i := tx] == p + q[i - |p| := tx];
    }
  }

  method ReplacePending(m: Machine, head: Head, base: State, p: seq<Tx>, q: seq<Tx>, bytes: nat, i: nat, tx: Tx)
      returns (ok: bool, p': seq<Tx>, q': seq<Tx>, bytes': nat)
    requires PoolInv(m, head, base, p, q, bytes) && i < |p| && p[i].from == tx.from && p[i].nonce == tx.nonce
    ensures ok ==> PoolInv(m, head, base, p', q', bytes') && multiset(p' + q') == multiset(p[i := tx] + q)
    ensures ok ==> Promoted(m, head, base, p[i := tx], q, p', q')
    ensures ok ==> ReplacementOk(m, head, base, p, bytes, i, tx)
    ensures !ok && ReplacementOk(m, head, base, p, bytes, i, tx) ==> FaultsAfter(m, head, base, p[i := tx], q)
  {
    hide Weigh, Replay, Lawful, Steady, Settled, Limits, FaultsAfter, Promoted;
    ok, p', q', bytes' := false, p, q, bytes;
    var retained := bytes - m.size(p[i]);
    if retained < 0 || retained >= MAX_BYTES || m.size(tx) > MAX_BYTES - retained {
      return;
    }
    assert (p + q)[i] == p[i];
    ReplacedLimits(m, p, q, i, tx);
    var candidate := p[i := tx];
    assert candidate + q == (p + q)[i := tx];
    ok, p', q' := PromoteQueued(m, head, base, candidate, q);
    if !ok {
      return;
    }
    SendersUpdate(p, i, tx);
    SameSendersSteady(m, head, base, p, candidate, q);
    PromotedInv(m, head, base, candidate, q, p', q');
    bytes' := retained + m.size(tx);
  }

  lemma SendersUpdate(p: seq<Tx>, i: nat, tx: Tx)
    requires i < |p| && p[i].from == tx.from
    ensures forall a :: Weigh(From(a), p) == Weigh(From(a), p[i := tx])
  {
    forall a
      ensures Weigh(From(a), p) == Weigh(From(a), p[i := tx])
    {
      WeighUpdate(From(a), p, i, tx);
    }
  }

  /** One more transaction within the limits. */
  lemma AddedLimits(m: Machine, p: seq<Tx>, q: seq<Tx>, tx: Tx)
    requires Limits(m, p, q) && |p| + |q| < MAX_POOL && Weigh(m.size, p + q) + m.size(tx) <= MAX_BYTES
    requires Weigh(From(tx.from), p + q) < MAX_PER_SENDER
    ensures Limits(m, p + [tx], q) && (|q| < MAX_QUEUED ==> Limits(m, p, q + [tx]))
    ensures Weigh(m.size, (p + [tx]) + q) == Weigh(m.size, p + q) + m.size(tx) == Weigh(m.size, p + (q + [tx]))
  {
    var all := p + q + [tx];
    assert all == p + (q + [tx]);
    assert multiset((p + [tx]) + q) == multiset(all);
    WeighAdded(m.size, p + q, tx);
    WeighSame(m.size, (p + [tx]) + q, all);
    forall a
      ensures Weigh(From(a), all) <= MAX_PER_SENDER && Weigh(From(a), (p + [tx]) + q) <= MAX_PER_SENDER
    {
      WeighAdded(From(a), p + q, tx);
      WeighSame(From(a), (p + [tx]) + q, all);
    }
  }

  /** A queue stays steady when a nonce it does not hold is used up. */
  lemma UsedNonceSteady(m: Machine, head: Head, s: State, queued: seq<Tx>, tx: Tx, s': State)
    requires Lawful(m) && Steady(m, s, queued) && m.exec(head, s, tx) == Executed(s')
    requires !Holds(queued, tx.from, tx.nonce)
    ensures Steady(m, s', queued)
  {
    assert NonceLaw(m, s, tx, s');
    forall i | 0 <= i < |queued|
      ensures m.nonceOf(s', queued[i].from) <= queued[i].nonce <= m.nonceOf(s', queued[i].from) + MAX_GAP
    {
      assert !(queued[i].from == tx.from && queued[i].nonce == tx.nonce);
    }
  }

  /** A new transaction that executes now: append, then promote what waited for it. */
  method AppendPending(m: Machine, head: Head, base: State, p: seq<Tx>, q: seq<Tx>, tx: Tx, ghost s: State)
      returns (ok: bool, p': seq<Tx>, q': seq<Tx>)
    requires Lawful(m) && Replay(m, head, base, p) == Some(s) && Steady(m, s, q) && !Holds(q, tx.from, tx.nonce)
    requires Limits(m, p + [tx], q)
    ensures ok ==>
              PoolInv(m, head, base, p', q', Weigh(m.size, (p + [tx]) + q))
                && multiset(p' + q') == multiset((p + [tx]) + q)
    ensures ok ==> m.exec(head, s, tx).Executed? && Promoted(m, head, base, p + [tx], q, p', q')
    ensures !ok && m.exec(head, s, tx).Executed? ==> FaultsAfter(m, head, base, p + [tx], q)
  {
    hide Weigh, Replay, Lawful, Steady, Settled, Limits, Holds, FaultsAfter, Promoted;
    ReplayAppend(m, head, base, p, tx);
    ok, p', q' := PromoteQueued(m, head, base, p + [tx], q);
    if ok {
      UsedNonceSteady(m, head, s, q, tx, m.exec(head, s, tx).state);
      PromotedInv(m, head, base, p + [tx], q, p', q');
    }
  }

  /** A transaction with a future nonce goes to the queue. */
  lemma QueuedInv(m: Machine, head: Head, base: State, p: seq<Tx>, q: seq<Tx>, tx: Tx, bytes: nat)
    requires PoolInv(m, head, base, p, q, bytes) && !Holds(q, tx.from, tx.nonce)
    requires |q| < MAX_QUEUED && Limits(m, p, q + [tx])
    requires var n := m.nonceOf(Replay(m, head, base, p).value, tx.from); n < tx.nonce <= n + MAX_GAP
    ensures PoolInv(m, head, base, p, q + [tx], Weigh(m.size, p + (q + [tx])))
  {
    hide Weigh, Replay, Lawful, Limits;
    var q' := q + [tx];
    forall i, j | 0 <= i < j < |q'|
      ensures !(q'[i].from == q'[j].from && q'[i].nonce == q'[j].nonce)
    {
      assert j < |q| || q'[i] == q[i];
    }
  }

  lemma ReplacedInv(m: Machine, head: Head, base: State, p: seq<Tx>, q: seq<Tx>, i: nat, tx: Tx, bytes: nat)
    requires PoolInv(m, head, base, p, q, bytes) && i < |q| && q[i].from == tx.from && q[i].nonce == tx.nonce
    requires Replay(m, head, base, p).Some? && m.nonceOf(Replay(m, head, base, p).value, tx.from) < tx.nonce
    requires bytes - m.size(q[i]) + m.size(tx) <= MAX_BYTES
    ensures bytes >= m.size(q[i]) && PoolInv(m, head, base, p, q[i := tx], bytes - m.size(q[i]) + m.size(tx))
  {
    hide Weigh, Replay, Lawful, Limits;
    assert (p + q)[|p| + i] == q[i] && (p + q)[|p| + i := tx] == p + q[i := tx];
    ReplacedLimits(m, p, q, |p| + i, tx);
    WeighAt(m.size, p + q, |p| + i);
  }

  /** A replacement of the queued transaction that has become executable. */
  method PromoteReplacement(m: Machine, head: Head, base: State, p: seq<Tx>, q: seq<Tx>, bytes: nat, i: nat, tx: Tx)
      returns (ok: bool, p': seq<Tx>, q': seq<Tx>, bytes': nat)
    requires PoolInv(m, head, base, p, q, bytes) && i < |q| && q[i].from == tx.from && q[i].nonce == tx.nonce
    requires 0 <= bytes - m.size(q[i]) && bytes - m.size(q[i]) + m.size(tx) <= MAX_BYTES
    ensures ok ==> PoolInv(m, head, base, p', q', bytes') && multiset(p' + q') == multiset(p + q[i := tx])
    ensures ok ==> m.exec(head, Replay(m, head, base, p).value, tx).Executed?
    ensures ok ==> Promoted(m, head, base, p + [tx], q[..i] + q[i + 1..], p', q')
    ensures !ok && m.exec(head, Replay(m, head, base, p).value, tx).Executed? ==>
              FaultsAfter(m, head, base, p + [tx], q)
  {
    hide Weigh, Replay, Lawful, Steady, Settled, Limits, Holds, FaultsAfter, Promoted;
    bytes' := bytes - m.size(q[i]) + m.size(tx);
    ghost var s := Replay(m, head, base, p).value;
    var rest := q[..i] + q[i + 1..];
    ReplacementFits(m, p, q, i, tx, bytes);
    WithoutSteady(m, s, q, i);
    ok, p', q' := AppendPending(m, head, base, p, rest, tx, s);
    if !ok && m.exec(head, s, tx).Executed? {
      FaultsMore(m, head, base, p + [tx], rest, q);
    }
    assert multiset((p + [tx]) + rest) == multiset(p + q[i := tx]) by { Rearranged(p, q, i, tx); }
    WeighSame(m.size, (p + [tx]) + rest, p + q[i := tx]);
  }

  /** Replace a queued transaction; it is promoted if its nonce is due. */
  method SwapQueued(m: Machine, head: Head, base: State, p: seq<Tx>, q: seq<Tx>, bytes: nat, j: nat, tx: Tx)
      returns (ok: bool, p': seq<Tx>, q': seq<Tx>, bytes': nat)
    requires PoolInv(m, head, base, p, q, bytes) && j < |q| && q[j].from == tx.from && q[j].nonce == tx.nonce
    ensures ok ==> PoolInv(m, head, base, p', q', bytes') && multiset(p' + q') == multiset(p + q[j := tx])
    ensures ok ==>
              if tx.nonce == m.nonceOf(Replay(m, head, base, p).value, tx.from)
              then Promoted(m, head, base, p + [tx], q[..j] + q[j + 1..], p', q')
              else p' == p && q' == q[j := tx]
    ensures ok ==> SwapOk(m, head, Replay(m, head, base, p).value, q, bytes, j, tx)
    ensures !ok && SwapOk(m, head, Replay(m, head, base, p).value, q, bytes, j, tx) ==>
              FaultsAfter(m, head, base, p + [tx], q)
  {
    assert Replay(m, head, base, p).Some?;
    hide PoolInv, Replay, FaultsAfter, Promoted;
    ok, p', q', bytes' := false, p, q, bytes;
    var working := ReplayPending(m, head, base, p);
    var retained := bytes - m.size(q[j]);
    if working.None? || retained < 0 || retained >= MAX_BYTES || m.size(tx) > MAX_BYTES - retained {
      return;
    }
    var nonce := m.nonceOf(working.value, tx.from);
    if tx.nonce == nonce {
      ok, p', q', bytes' := PromoteReplacement(m, head, base, p, q, bytes, j, tx);
      return;
    }
    if tx.nonce < nonce || !m.exec(head, m.setNonce(working.value, tx.from, tx.nonce), tx).Executed? {
      return;
    }
    ReplacedInv(m, head, base, p, q, j, tx, bytes);
    ok, q', bytes' := true, q[j := tx], retained + m.size(tx);
  }

  lemma Rearranged(p: seq<Tx>, q: seq<Tx>, i: nat, tx: Tx)
    requires i < |q|
    ensures multiset((p + [tx]) + (q[..i] + q[i + 1..])) == multiset(p + q[i := tx])
  {
    assert q[i := tx] == q[..i] + [tx] + q[i + 1..];
  }

  lemma ReplacementFits(m: Machine, p: seq<Tx>, q: seq<Tx>, i: nat, tx: Tx, bytes: nat)
    requires Limits(m, p, q) && i < |q| && q[i].from == tx.from && bytes == Weigh(m.size, p + q)
    requires bytes - m.size(q[i]) + m.size(tx) <= MAX_BYTES
    ensures Weigh(m.size, p + q[i := tx]) == bytes - m.size(q[i]) + m.size(tx)
    ensures Limits(m, p + [tx], q[..i] + q[i + 1..])
  {
    hide Weigh;
    assert (p + q)[|p| + i] == q[i] && (p + q)[|p| + i := tx] == p + q[i := tx];
    ReplacedLimits(m, p, q, |p| + i, tx);
    Rearranged(p, q, i, tx);
    LimitsOf(m, p, q[i := tx], p + [tx], q[..i] + q[i + 1..]);
  }

  lemma WithoutSteady(m: Machine, s: State, q: seq<Tx>, i: nat)
    requires Steady(m, s, q) && i < |q|
    ensures Steady(m, s, q[..i] + q[i + 1..]) && !Holds(q[..i] + q[i + 1..], q[i].from, q[i].nonce)
  {
    var rest := q[..i] + q[i + 1..];
    forall j | 0 <= j < |rest|
      ensures rest[j] == q[if j < i then j else j + 1] && !(rest[j].from == q[i].from && rest[j].nonce == q[i].nonce)
    {
    }
  }

  // ---- Checks ----

  method ReplacementIndex(txs: seq<Tx>, tx: Tx) returns (i: nat)
    ensures i == Competitor(txs, tx)
    ensures i == |txs| ==> !Holds(txs, tx.from, tx.nonce)
  {
    i := 0;
    while i < |txs|
      invariant 0 <= i <= |txs|
      invariant forall j :: 0 <= j < i ==> !(txs[j].from == tx.from && txs[j].nonce == tx.nonce)
    {
      if txs[i].from == tx.from && txs[i].nonce == tx.nonce {
        return;
      }
      i := i + 1;
    }
  }

  method CountFrom(txs: seq<Tx>, a: Address) returns (count: nat)
    ensures count == Weigh(From(a), txs)
  {
    count := 0;
    var i := 0;
    while i < |txs|
      invariant 0 <= i <= |txs| && count == Weigh(From(a), txs[..i])
    {
      assert txs[..i + 1][..i] == txs[..i];
      if txs[i].from == a {
        count := count + 1;
      }
      i := i + 1;
    }
    assert txs[..i] == txs;
  }

  method NewCapacity(m: Machine, p: seq<Tx>, q: seq<Tx>, bytes: nat, tx: Tx) returns (ok: bool)
    requires bytes == Weigh(m.size, p + q)
    ensures ok <==> Room(m, p, q, tx)
  {
    if |p| + |q| >= MAX_POOL {
      return false;
    }
    if bytes >= MAX_BYTES || m.size(tx) > MAX_BYTES - bytes {
      return false;
    }
    var pendingCount := CountFrom(p, tx.from);
    var queuedCount := CountFrom(q, tx.from);
    WeighSplit(From(tx.from), p, q);
    ok := pendingCount + queuedCount < MAX_PER_SENDER;
  }

  // ---- A new head ----

  /** Everything in `a` is in `b`, as often. */
  ghost predicate Part(a: seq<Tx>, b: seq<Tx>) { multiset(a) <= multiset(b) }

  /** After the first `n` pending transactions `tx` does not execute, or would have to
      wait too long or in a full queue. */
  ghost predicate Rejected(m: Machine, head: Head, base: State, p: seq<Tx>, q: seq<Tx>, n: nat, tx: Tx) {
    && n <= |p| && Replay(m, head, base, p[..n]).Some?
    && var s := Replay(m, head, base, p[..n]).value;
       var nonce := m.nonceOf(s, tx.from);
       || (tx.nonce == nonce && !m.exec(head, s, tx).Executed?)
       || (tx.nonce > nonce && (!Waits(m, head, s, tx) || tx.nonce > nonce + MAX_GAP))
       || (tx.nonce >= nonce && |p| - n + |q| >= MAX_QUEUED)
  }

  /** The reasons why a transaction is not in the pool: its nonce is used up, its nonce
      is taken by another one, there is no room for it, or it is rejected behind some of
      the transactions that are pending. */
  ghost predicate Dropped(m: Machine, head: Head, base: State, p: seq<Tx>, q: seq<Tx>, tx: Tx) {
    || tx.nonce < m.nonceOf(base, tx.from)
    || Holds(p + q, tx.from, tx.nonce)
    || !Room(m, p, q, tx)
    || exists n: nat :: Rejected(m, head, base, p, q, n, tx)
  }

  ghost predicate Placed(m: Machine, head: Head, base: State, p: seq<Tx>, q: seq<Tx>, tx: Tx) {
    tx in p + q || Dropped(m, head, base, p, q, tx)
  }

  ghost predicate AllPlaced(m: Machine, head: Head, base: State, p: seq<Tx>, q: seq<Tx>, txs: seq<Tx>,
                            included: set<Tx>) {
    forall tx :: tx in txs && tx !in included ==> Placed(m, head, base, p, q, tx)
  }

  lemma HoldsMore(a: seq<Tx>, b: seq<Tx>, from: Address, nonce: nat)
    requires Part(a, b) && Holds(a, from, nonce)
    ensures Holds(b, from, nonce)
  {
    var i :| 0 <= i < |a| && a[i].from == from && a[i].nonce == nonce;
    assert a[i] in multiset(a) && a[i] in multiset(b);
    assert a[i] in b;
  }

  /** A reason stays a reason when the pool grows. */
  lemma PlacedGrows(m: Machine, head: Head, base: State, p: seq<Tx>, q: seq<Tx>, p': seq<Tx>, q': seq<Tx>, tx: Tx)
    requires Placed(m, head, base, p, q, tx) && p <= p' && Part(p + q, p' + q')
    ensures Placed(m, head, base, p', q', tx)
  {
    hide Replay, Weigh, Holds, Waits;
    if tx in p + q {
      assert tx in multiset(p + q) && tx in multiset(p' + q');
    } else if Holds(p + q, tx.from, tx.nonce) {
      HoldsMore(p + q, p' + q', tx.from, tx.nonce);
    } else if !Room(m, p, q, tx) {
      WeighPart(m.size, p + q, p' + q');
      WeighPart(From(tx.from), p + q, p' + q');
      PartSize(p + q, p' + q');
    } else if exists n: nat :: Rejected(m, head, base, p, q, n, tx) {
      var n: nat :| Rejected(m, head, base, p, q, n, tx);
      PartSize(p + q, p' + q');
      assert p'[..n] == p[..n];
      assert Rejected(m, head, base, p', q', n, tx);
    }
  }

  lemma AllPlacedGrows(m: Machine, head: Head, base: State, p: seq<Tx>, q: seq<Tx>, p': seq<Tx>, q': seq<Tx>,
                       txs: seq<Tx>, included: set<Tx>)
    requires AllPlaced(m, head, base, p, q, txs, included) && p <= p' && Part(p + q, p' + q')
    ensures AllPlaced(m, head, base, p', q', txs, included)
  {
    hide Placed, Part;
    forall tx | tx in txs && tx !in included
      ensures Placed(m, head, base, p', q', tx)
    {
      PlacedGrows(m, head, base, p, q, p', q', tx);
    }
  }

  lemma AllPlacedMore(m: Machine, head: Head, base: State, p: seq<Tx>, q: seq<Tx>, txs: seq<Tx>, tx: Tx,
                      included: set<Tx>)
    requires AllPlaced(m, head, base, p, q, txs, included) && (tx !in included ==> Placed(m, head, base, p, q, tx))
    ensures AllPlaced(m, head, base, p, q, txs + [tx], included)
  {
  }

  /** A nonce below the replayed one is used up on the chain or taken in the list. */
  lemma UsedUp(m: Machine, head: Head, base: State, p: seq<Tx>, q: seq<Tx>, tx: Tx)
    requires Lawful(m) && Replay(m, head, base, p).Some?
             && tx.nonce < m.nonceOf(Replay(m, head, base, p).value, tx.from)
    ensures Dropped(m, head, base, p, q, tx)
  {
    hide Replay, Room, Rejected;
    ReplayNonces(m, head, base, p, tx.from);
    if tx.nonce >= m.nonceOf(base, tx.from) {
      assert Holds(p, tx.from, tx.nonce);
      var i :| 0 <= i < |p| && p[i].from == tx.from && p[i].nonce == tx.nonce;
      assert (p + q)[i] == p[i];
    }
  }

  /** What is rejected behind the whole list is dropped. */
  lemma RejectedLast(m: Machine, head: Head, base: State, p: seq<Tx>, q: seq<Tx>, tx: Tx)
    requires Replay(m, head, base, p).Some?
    requires var s := Replay(m, head, base, p).value;
             var nonce := m.nonceOf(s, tx.from);
             || (tx.nonce == nonce && !m.exec(head, s, tx).Executed?)
             || (tx.nonce > nonce && (!Waits(m, head, s, tx) || tx.nonce > nonce + MAX_GAP))
             || (tx.nonce >= nonce && |q| >= MAX_QUEUED)
    ensures Dropped(m, head, base, p, q, tx)
  {
    hide Replay, Waits, Room, Holds;
    assert p[..|p|] == p;
    assert Rejected(m, head, base, p, q, |p|, tx);
  }

  ghost predicate AnyFaults(m: Machine, head: Head, txs: seq<Tx>) {
    exists s, tx :: tx in txs && m.exec(head, s, tx).Fatal?
  }

  /** What revalidation of the pending list has done with `txs`. */
  ghost predicate Sorted(m: Machine, head: Head, base: State, pending: seq<Tx>, demoted: seq<Tx>, txs: seq<Tx>) {
    forall tx :: tx in txs ==> tx in demoted || Placed(m, head, base, pending, [], tx)
  }

  lemma SortedStep(m: Machine, head: Head, base: State, pending: seq<Tx>, demoted: seq<Tx>,
                   pending': seq<Tx>, demoted': seq<Tx>, txs: seq<Tx>, tx: Tx)
    requires Sorted(m, head, base, pending, demoted, txs) && pending <= pending' && demoted <= demoted'
    requires tx in demoted' || Placed(m, head, base, pending', [], tx)
    ensures Sorted(m, head, base, pending', demoted', txs + [tx])
  {
    hide Placed;
    var extra := pending'[|pending|..];
    assert pending' == pending + extra;
    assert pending + [] == pending && pending' + [] == pending';
    forall x | x in txs + [tx]
      ensures x in demoted' || Placed(m, head, base, pending', [], x)
    {
      if x in txs && x !in demoted {
        PlacedGrows(m, head, base, pending, [], pending', [], x);
      }
    }
  }

  /** Keep what still executes in order; hand back what now lies in the future. What is
      neither kept nor handed back has a reason. */
  method RevalidateMempool(m: Machine, head: Head, base: State, txs: seq<Tx>)
      returns (ok: bool, pending: seq<Tx>, demoted: seq<Tx>)
    requires Lawful(m)
    ensures ok ==> Replay(m, head, base, pending).Some? && Part(pending + demoted, txs)
    ensures ok ==> Sorted(m, head, base, pending, demoted, txs)
    ensures !ok ==> AnyFaults(m, head, txs)
  {
    hide Replay, Part, Lawful, Sorted, Dropped;
    assert Sorted(m, head, base, [], [], []) by { SortedNothing(m, head, base); }
    pending, demoted := [], [];
    var s := base;
    PartOfNothing();
    assert txs[..0] == [] && pending + demoted == [];
    assert Replay(m, head, base, []) == Some(base) by { ReplayNothing(m, head, base); }
    var i := 0;
    while i < |txs|
      invariant 0 <= i <= |txs| && Replay(m, head, base, pending) == Some(s)
      invariant Part(pending + demoted, txs[..i]) && Sorted(m, head, base, pending, demoted, txs[..i])
    {
      var tx := txs[i];
      assert txs[..i + 1] == txs[..i] + [tx];
      Kept(pending, demoted, txs[..i], tx);
      ghost var pending0, demoted0 := pending, demoted;
      var nonce := m.nonceOf(s, tx.from);
      if tx.nonce > nonce {
        demoted := demoted + [tx];
      } else if tx.nonce == nonce {
        var result := m.exec(head, s, tx);
        if result.Fatal? {
          return false, pending, demoted;
        }
        if result.Executed? {
          ReplayAppend(m, head, base, pending, tx);
          pending, s := pending + [tx], result.state;
        } else {
          RejectedLast(m, head, base, pending, [], tx);
        }
      } else {
        UsedUp(m, head, base, pending, [], tx);
      }
      SortedStep(m, head, base, pending0, demoted0, pending, demoted, txs[..i], tx);
      i := i + 1;
    }
    assert txs[..i] == txs;
    ok := true;
  }

  lemma ReplayNothing(m: Machine, head: Head, base: State)
    ensures Replay(m, head, base, []) == Some(base)
  {
  }

  lemma SortedNothing(m: Machine, head: Head, base: State)
    ensures Sorted(m, head, base, [], [], [])
  {
  }

  lemma PartOfNothing()
    ensures Part([], [])
  {
  }

  lemma Kept(a: seq<Tx>, b: seq<Tx>, c: seq<Tx>, tx: Tx)
    requires Part(a + b, c)
    ensures Part(a + b, c + [tx]) && Part((a + [tx]) + b, c + [tx]) && Part(a + (b + [tx]), c + [tx])
  {
    assert a + (b + [tx]) == (a + b) + [tx];
    assert multiset((a + [tx]) + b) == multiset((a + b) + [tx]);
  }

  lemma PartOfItself(a: seq<Tx>)
    ensures Part(a, a)
  {
  }

  lemma SamePart(a: seq<Tx>, b: seq<Tx>, c: seq<Tx>)
    requires multiset(a) == multiset(b) && Part(b, c)
    ensures Part(a, c)
  {
  }

  lemma KeptOne(r: seq<Tx>, c: seq<Tx>, tx: Tx)
    requires Part(r, c)
    ensures Part(r, c + [tx]) && Part(r + [tx], c + [tx])
  {
  }

  /** Queue one transaction if it is not stale, not a duplicate and within the limits. */
  method TryQueue(m: Machine, head: Head, ghost base: State, s: State, pending: seq<Tx>, q: seq<Tx>, bytes: nat, tx: Tx)
      returns (ok: bool, q': seq<Tx>, bytes': nat)
    requires Lawful(m) && Replay(m, head, base, pending) == Some(s)
    requires Steady(m, s, q) && Limits(m, pending, q) && bytes == Weigh(m.size, pending + q)
    ensures Steady(m, s, q') && Limits(m, pending, q') && bytes' == Weigh(m.size, pending + q')
    ensures q' == q || q' == q + [tx]
    ensures ok ==> Placed(m, head, base, pending, q', tx)
    ensures !ok ==> q' == q && exists s' :: m.exec(head, s', tx).Fatal?
  {
    hide Weigh, Limits, Steady, Holds, Replay, Lawful, Room, Rejected;
    ok, q', bytes' := true, q, bytes;
    var seen := ReplacementIndex(q, tx);
    var nonce := m.nonceOf(s, tx.from);
    if seen < |q| || tx.nonce < nonce || tx.nonce > nonce + MAX_GAP || |q| >= MAX_QUEUED {
      if seen < |q| {
        HeldInQueue(pending, q, seen);
      } else if tx.nonce < nonce {
        UsedUp(m, head, base, pending, q, tx);
      } else {
        RejectedLast(m, head, base, pending, q, tx);
      }
      return;
    }
    var room := NewCapacity(m, pending, q, bytes, tx);
    if !room {
      return;
    }
    var result := m.exec(head, if tx.nonce > nonce then m.setNonce(s, tx.from, tx.nonce) else s, tx);
    if result.Fatal? {
      ok := false;
      return;
    }
    if result.Executed? {
      RoomFits(m, pending, q, tx);
      AddedLimits(m, pending, q, tx);
      SteadyAppend(m, s, q, tx);
      q', bytes' := q + [tx], bytes + m.size(tx);
    } else {
      RejectedLast(m, head, base, pending, q, tx);
    }
  }

  lemma RoomFits(m: Machine, p: seq<Tx>, q: seq<Tx>, tx: Tx)
    requires Room(m, p, q, tx)
    ensures |p| + |q| < MAX_POOL && Weigh(m.size, p + q) + m.size(tx) <= MAX_BYTES
    ensures Weigh(From(tx.from), p + q) < MAX_PER_SENDER
  {
  }

  lemma HeldInQueue(p: seq<Tx>, q: seq<Tx>, i: nat)
    requires i < |q|
    ensures Holds(p + q, q[i].from, q[i].nonce)
  {
    assert (p + q)[|p| + i] == q[i];
  }

  lemma HeldInPending(p: seq<Tx>, q: seq<Tx>, i: nat)
    requires i < |p|
    ensures Holds(p + q, p[i].from, p[i].nonce)
  {
    assert (p + q)[i] == p[i];
  }

  /** Rebuild the queue behind a pending list that replays. Every transaction is queued
      or has a reason not to be. */
  method RevalidateQueued(m: Machine, head: Head, base: State, pending: seq<Tx>, queued: seq<Tx>)
      returns (ok: bool, q: seq<Tx>)
    requires Lawful(m) && Limits(m, pending, [])
    ensures ok ==> && Replay(m, head, base, pending).Some? && Steady(m, Replay(m, head, base, pending).value, q)
                   && Limits(m, pending, q) && Part(q, queued)
    ensures ok ==> AllPlaced(m, head, base, pending, q, queued, {})
    ensures !ok ==> Replay(m, head, base, pending).None? || AnyFaults(m, head, queued)
  {
    hide Replay, Lawful, Weigh, Limits, Steady, Holds, Part, AllPlaced, Placed;
    q := [];
    PartOfNothing();
    assert queued[..0] == [];
    var replayed := ReplayPending(m, head, base, pending);
    if replayed.None? {
      return false, q;
    }
    var s := replayed.value;
    var bytes := SumSizes(m, pending);
    assert pending + [] == pending;
    assert Steady(m, s, []) by { EmptyIsSteady(m, s); }
    assert AllPlaced(m, head, base, pending, [], [], {}) by { NoneToPlace(m, head, base, pending, [], {}); }
    var i := 0;
    while i < |queued|
      invariant 0 <= i <= |queued| && Steady(m, s, q) && Limits(m, pending, q)
      invariant bytes == Weigh(m.size, pending + q) && Part(q, queued[..i])
      invariant AllPlaced(m, head, base, pending, q, queued[..i], {})
    {
      var tx := queued[i];
      assert queued[..i + 1] == queued[..i] + [tx];
      KeptOne(q, queued[..i], tx);
      ghost var q0 := q;
      ok, q, bytes := TryQueue(m, head, base, s, pending, q, bytes, tx);
      if !ok {
        assert tx in queued;
        return;
      }
      Appended(pending, q0, q, tx);
      AllPlacedGrows(m, head, base, pending, q0, pending, q, queued[..i], {});
      AllPlacedMore(m, head, base, pending, q, queued[..i], tx, {});
      i := i + 1;
    }
    assert queued[..i] == queued;
    ok := true;
  }

  lemma Appended(p: seq<Tx>, q: seq<Tx>, q': seq<Tx>, tx: Tx)
    requires q' == q || q' == q + [tx]
    ensures Part(p + q, p + q')
  {
    if q' != q {
      assert p + q' == (p + q) + [tx];
    }
  }

  lemma EmptyIsSteady(m: Machine, s: State)
    ensures Steady(m, s, [])
  {
  }

  lemma SteadyAppend(m: Machine, s: State, q: seq<Tx>, tx: Tx)
    requires Steady(m, s, q) && !Holds(q, tx.from, tx.nonce) && |q| < MAX_QUEUED
    requires m.nonceOf(s, tx.from) <= tx.nonce <= m.nonceOf(s, tx.from) + MAX_GAP
    ensures Steady(m, s, q + [tx])
  {
    var q' := q + [tx];
    forall i, j | 0 <= i < j < |q'|
      ensures !(q'[i].from == q'[j].from && q'[i].nonce == q'[j].nonce)
    {
      assert j < |q| || q'[i] == q[i];
    }
  }

  method SumSizes(m: Machine, txs: seq<Tx>) returns (total: nat)
    ensures total == Weigh(m.size, txs)
  {
    total := 0;
    var i := 0;
    while i < |txs|
      invariant 0 <= i <= |txs| && total == Weigh(m.size, txs[..i])
    {
      assert txs[..i + 1][..i] == txs[..i];
      total := total + m.size(txs[i]);
      i := i + 1;
    }
    assert txs[..i] == txs;
  }

  /** The old pool on a new head, without what the chain includes. */
  method Revalidate(m: Machine, head: Head, base: State, mempool: seq<Tx>, queued: seq<Tx>, included: set<Tx>)
      returns (ok: bool, p': seq<Tx>, q': seq<Tx>)
    requires Lawful(m) && Limits(m, mempool, queued)
    ensures ok ==> && Replay(m, head, base, p').Some? && Steady(m, Replay(m, head, base, p').value, q')
                   && Limits(m, p', q') && Part(p' + q', mempool + queued)
    ensures ok ==> AllPlaced(m, head, base, p', q', mempool + queued, included)
    ensures ok ==> forall tx :: tx in p' + q' ==> tx !in included
    ensures !ok ==> AnyFaults(m, head, mempool + queued)
  {
    hide Weigh, Replay, Lawful, Steady, Settled, Limits, Part, AllPlaced, AnyFaults, Sorted, FaultsAfter;
    ghost var all := mempool + queued;
    p', q' := [], [];
    var keptPending := Without(mempool, included);
    var keptQueued := Without(queued, included);
    var p, demoted, q;
    ok, p, demoted := RevalidateMempool(m, head, base, keptPending);
    if !ok {
      AnyMore(m, head, keptPending, all);
      return;
    }
    RebaseLimits(m, mempool, queued, keptPending, p, demoted);
    assert p + [] == p;
    ok, q := RevalidateQueued(m, head, base, p, keptQueued + demoted);
    if !ok {
      PartMembers(p + demoted, keptPending);
      AnyMore(m, head, keptQueued + demoted, all);
      return;
    }
    StillPart(mempool, queued, keptPending, keptQueued, p, demoted, q);
    SortedIsPlaced(m, head, base, p, demoted, q, keptPending, keptQueued, all, included);
    ok, p', q' := PromoteQueued(m, head, base, p, q);
    if !ok {
      PartMembers(p + q, all);
      AfterIsAny(m, head, base, p, q, all);
      return;
    }
    PromotedInv(m, head, base, p, q, p', q');
    PartMembers(p + demoted, keptPending);
    PartMembers(q, keptQueued + demoted);
    SameMembers(p + q, p' + q');
    SameIsPart(p + q, p' + q');
    SamePart(p' + q', p + q, all);
    AllPlacedGrows(m, head, base, p, q, p', q', all, included);
  }

  /** The pool while abandoned transactions are put back. */
  ghost predicate Filling(m: Machine, head: Head, base: State, p: seq<Tx>, q: seq<Tx>, s: State, bytes: nat) {
    && Replay(m, head, base, p) == Some(s) && Steady(m, s, q) && Limits(m, p, q) && bytes == Weigh(m.size, p + q)
  }

  /** One transaction of an abandoned block goes back, or has a reason not to. */
  method Reinsert(m: Machine, head: Head, ghost base: State, p: seq<Tx>, q: seq<Tx>, s: State, bytes: nat, tx: Tx)
      returns (ok: bool, p': seq<Tx>, q': seq<Tx>, s': State, bytes': nat)
    requires Lawful(m) && Filling(m, head, base, p, q, s, bytes)
    ensures Filling(m, head, base, p', q', s', bytes')
    ensures (p' == p && q' == q) || (p' == p + [tx] && q' == q) || (p' == p && q' == q + [tx])
    ensures ok ==> Placed(m, head, base, p', q', tx)
    ensures !ok ==> p' == p && q' == q && exists x :: m.exec(head, x, tx).Fatal?
  {
    hide Replay, Lawful, Weigh, Limits, Steady, Holds, Room, Rejected;
    ok, p', q', s', bytes' := true, p, q, s, bytes;
    var inPending := ReplacementIndex(p, tx);
    var inQueue := ReplacementIndex(q, tx);
    if inPending < |p| {
      HeldInPending(p, q, inPending);
      return;
    }
    if inQueue < |q| {
      HeldInQueue(p, q, inQueue);
      return;
    }
    var room := NewCapacity(m, p, q, bytes, tx);
    if !room {
      return;
    }
    RoomFits(m, p, q, tx);
    AddedLimits(m, p, q, tx);
    var nonce := m.nonceOf(s, tx.from);
    if tx.nonce < nonce {
      UsedUp(m, head, base, p, q, tx);
      return;
    }
    if tx.nonce > nonce && (tx.nonce - nonce > MAX_GAP || |q| >= MAX_QUEUED) {
      RejectedLast(m, head, base, p, q, tx);
      return;
    }
    var result := m.exec(head, if tx.nonce > nonce then m.setNonce(s, tx.from, tx.nonce) else s, tx);
    if result.Fatal? {
      ok := false;
      return;
    }
    if !result.Executed? {
      RejectedLast(m, head, base, p, q, tx);
      return;
    }
    bytes' := bytes + m.size(tx);
    if tx.nonce == nonce {
      ReplayAppend(m, head, base, p, tx);
      UsedNonceSteady(m, head, s, q, tx, result.state);
      p', s' := p + [tx], result.state;
    } else {
      SteadyAppend(m, s, q, tx);
      q' := q + [tx];
    }
  }

  lemma OneMore(p: seq<Tx>, q: seq<Tx>, p': seq<Tx>, q': seq<Tx>, tx: Tx)
    requires (p' == p && q' == q) || (p' == p + [tx] && q' == q) || (p' == p && q' == q + [tx])
    ensures p <= p' && Part(p + q, p' + q')
    ensures forall x :: x in q' ==> x in q || x == tx
  {
    assert multiset((p + [tx]) + q) == multiset((p + q) + [tx]);
    assert p + (q + [tx]) == (p + q) + [tx];
  }

  /** Put transactions of abandoned blocks back, as far as they fit. */
  method ReinsertOrphaned(m: Machine, head: Head, base: State, pending: seq<Tx>, queued: seq<Tx>, orphaned: seq<Tx>,
                          included: set<Tx>)
      returns (ok: bool, p: seq<Tx>, q: seq<Tx>)
    requires Lawful(m) && Replay(m, head, base, pending).Some?
             && Steady(m, Replay(m, head, base, pending).value, queued)
    requires Limits(m, pending, queued)
    ensures ok ==> PoolInv(m, head, base, p, q, Weigh(m.size, p + q)) && Part(p + q, pending + queued + orphaned)
    ensures ok ==> pending <= p && Part(pending + queued, p + q) && AllPlaced(m, head, base, p, q, orphaned, included)
    ensures ok ==> forall tx :: tx in p + q ==> tx in pending + queued || tx !in included
    ensures !ok ==> AnyFaults(m, head, queued + orphaned)
  {
    hide Replay, Lawful, Weigh, Limits, Steady, Settled, Holds, Part, AllPlaced, Placed, FaultsAfter;
    p, q := pending, queued;
    assert pending + queued + orphaned[..0] == pending + queued;
    PartOfItself(pending + queued);
    var replayed := ReplayPending(m, head, base, pending);
    var s := replayed.value;
    var bytes := SumSizes(m, pending + queued);
    assert AllPlaced(m, head, base, p, q, orphaned[..0], included) by { NoneToPlace(m, head, base, p, q, included); }
    var i := 0;
    while i < |orphaned|
      invariant 0 <= i <= |orphaned| && Filling(m, head, base, p, q, s, bytes)
      invariant Part(p + q, pending + queued + orphaned[..i])
      invariant pending <= p && Part(pending + queued, p + q)
      invariant AllPlaced(m, head, base, p, q, orphaned[..i], included)
      invariant forall x :: x in q ==> x in queued + orphaned
      invariant forall x :: x in p + q ==> x in pending + queued || x !in included
    {
      var tx := orphaned[i];
      assert pending + queued + orphaned[..i + 1] == (pending + queued + orphaned[..i]) + [tx];
      assert orphaned[..i + 1] == orphaned[..i] + [tx];
      Kept(p, q, pending + queued + orphaned[..i], tx);
      ghost var p0, q0 := p, q;
      if tx !in included {
        ok, p, q, s, bytes := Reinsert(m, head, base, p, q, s, bytes, tx);
        if !ok {
          assert tx in queued + orphaned;
          return;
        }
      }
      OneMore(p0, q0, p, q, tx);
      PartTransitive(pending + queued, p0 + q0, p + q);
      AllPlacedGrows(m, head, base, p0, q0, p, q, orphaned[..i], included);
      AllPlacedMore(m, head, base, p, q, orphaned[..i], tx, included);
      i := i + 1;
    }
    assert orphaned[..i] == orphaned;
    ghost var p0, q0 := p, q;
    ok, p, q := PromoteQueued(m, head, base, p, q);
    if ok {
      PromotedInv(m, head, base, p0, q0, p, q);
      WeighSame(m.size, p + q, p0 + q0);
      SameMembers(p0 + q0, p + q);
      SamePart(p + q, p0 + q0, pending + queued + orphaned);
      SameIsPart(p0 + q0, p + q);
      PartTransitive(pending + queued, p0 + q0, p + q);
      AllPlacedGrows(m, head, base, p0, q0, p, q, orphaned, included);
    } else {
      AfterIsAny(m, head, base, p0, q0, queued + orphaned);
    }
  }

  lemma NoneToPlace(m: Machine, head: Head, base: State, p: seq<Tx>, q: seq<Tx>, included: set<Tx>)
    ensures AllPlaced(m, head, base, p, q, [], included)
  {
  }

  lemma SameIsPart(a: seq<Tx>, b: seq<Tx>)
    requires multiset(a) == multiset(b)
    ensures Part(a, b)
  {
  }

  lemma AfterIsAny(m: Machine, head: Head, base: State, p: seq<Tx>, q: seq<Tx>, all: seq<Tx>)
    requires FaultsAfter(m, head, base, p, q) && forall x :: x in q ==> x in all
    ensures AnyFaults(m, head, all)
  {
    hide Replay;
  }

  // ---- The node's pool ----

  class Pool {
    const machine: Machine
    const mayReplace: (Tx, Tx) -> bool

    var head: Head
    var base: State
    var mempool: seq<Tx>
    var queued: seq<Tx>
    var txPoolBytes: nat

    ghost predicate Valid()
      reads this
    {
      PoolInv(machine, head, base, mempool, queued, txPoolBytes)
    }

    constructor (machine: Machine, mayReplace: (Tx, Tx) -> bool, head: Head, base: State)
      requires Lawful(machine)
      ensures Valid() && mempool == [] && queued == [] && this.head == head && this.base == base
      ensures this.machine == machine && this.mayReplace == mayReplace
    {
      this.machine, this.mayReplace, this.head, this.base := machine, mayReplace, head, base;
      mempool, queued, txPoolBytes := [], [], 0;
      new;
      assert mempool + queued == [];
    }

    /** When the pool takes `tx`, unless a queued transaction faults on the way. */
    ghost predicate Accepts(tx: Tx)
      requires Valid()
      reads this
    {
      Acceptable(machine, mayReplace, head, base, mempool, queued, txPoolBytes, tx)
    }

    /** A queued transaction faults when it is promoted behind `tx`, which halts the node. */
    ghost predicate Faults(tx: Tx)
      reads this
    {
      FaultsAfter(machine, head, base, Candidate(mempool, tx), queued)
    }

    /** Accept one transaction. The pool afterwards holds it, and has lost at most
        the one it replaces. */
    method SubmitTx(tx: Tx, withinGasLimit: bool) returns (ok: bool)
      requires Valid()
      modifies this`mempool, this`queued, this`txPoolBytes
      ensures Valid()
      ensures !ok ==> mempool == old(mempool) && queued == old(queued) && txPoolBytes == old(txPoolBytes)
      ensures ok ==> Replaces(old(mempool + queued), mempool + queued, tx)
      ensures ok ==> Submitted(machine, head, base, old(mempool), old(queued), tx, mempool, queued)
      ensures ok ==> withinGasLimit && old(Accepts(tx))
      ensures !ok && withinGasLimit && old(Accepts(tx)) ==> old(Faults(tx))
    {
      hide Weigh, Replay, Lawful, Steady, Settled, Limits, Holds, Replaces, FaultsAfter, ReplacementOk, SwapOk, NewOk,
        Promoted, Submitted;
      if !withinGasLimit {
        return false;
      }
      var p, q, bytes := mempool, queued, txPoolBytes;
      var i := ReplacementIndex(mempool, tx);
      if i < |mempool| {
        if !mayReplace(mempool[i], tx) {
          return false;
        }
        ok, p, q, bytes := ReplacePending(machine, head, base, mempool, queued, txPoolBytes, i, tx);
        if ok {
          ReplacesAt(mempool, queued, i, tx, p, q);
          SubmittedAt(machine, head, base, mempool, queued, i, tx, p, q);
          mempool, queued, txPoolBytes := p, q, bytes;
        }
        return;
      }
      var j := ReplacementIndex(queued, tx);
      ghost var p0, q0 := mempool, queued;
      SteadyIsUnique(machine, Replay(machine, head, base, mempool).value, queued);
      if j < |queued| {
        ok := ReplaceQueued(j, tx);
        if ok {
          SubmittedInQueue(machine, head, base, p0, q0, j, tx, mempool, queued);
        }
      } else {
        ok := SubmitNew(tx);
        if ok {
          SubmittedNew(machine, head, base, p0, q0, tx, mempool, queued);
        }
      }
    }

    method ReplaceQueued(j: nat, tx: Tx) returns (ok: bool)
      requires Valid() && j < |queued| && queued[j].from == tx.from && queued[j].nonce == tx.nonce
      modifies this`mempool, this`queued, this`txPoolBytes
      ensures Valid()
      ensures !ok ==> mempool == old(mempool) && queued == old(queued) && txPoolBytes == old(txPoolBytes)
      ensures ok ==> Replaces(old(mempool + queued), mempool + queued, tx)
      ensures ok ==>
                if tx.nonce == machine.nonceOf(Replay(machine, head, base, old(mempool)).value, tx.from)
                then Promoted(machine, head, base, old(mempool) + [tx], old(queued)[..j] + old(queued)[j + 1..],
                              mempool, queued)
                else mempool == old(mempool) && queued == old(queued)[j := tx]
      ensures var s := Replay(machine, head, base, old(mempool)).value;
              var fits := mayReplace(old(queued)[j], tx)
                && SwapOk(machine, head, s, old(queued), old(txPoolBytes), j, tx);
              (ok ==> fits) && (!ok && fits ==> FaultsAfter(machine, head, base, old(mempool) + [tx], old(queued)))
    {
      hide PoolInv, Replaces, FaultsAfter, SwapOk, Promoted;
      if !mayReplace(queued[j], tx) {
        return false;
      }
      var p, q, bytes;
      ok, p, q, bytes := SwapQueued(machine, head, base, mempool, queued, txPoolBytes, j, tx);
      if ok {
        ReplacesQueued(mempool, queued, j, tx, p, q);
        mempool, queued, txPoolBytes := p, q, bytes;
      }
    }

    method SubmitNew(tx: Tx) returns (ok: bool)
      requires Valid() && !Holds(queued, tx.from, tx.nonce)
      modifies this`mempool, this`queued, this`txPoolBytes
      ensures Valid()
      ensures !ok ==> mempool == old(mempool) && queued == old(queued) && txPoolBytes == old(txPoolBytes)
      ensures ok ==> multiset(mempool + queued) == multiset(old(mempool + queued)) + multiset{tx}
      ensures ok ==> Replaces(old(mempool + queued), mempool + queued, tx)
      ensures ok ==>
                if tx.nonce == machine.nonceOf(Replay(machine, head, base, old(mempool)).value, tx.from)
                then Promoted(machine, head, base, old(mempool) + [tx], old(queued), mempool, queued)
                else mempool == old(mempool) && queued == old(queued) + [tx]
      ensures var s := Replay(machine, head, base, old(mempool)).value;
              var fits := NewOk(machine, head, s, old(mempool), old(queued), tx);
              (ok ==> fits) && (!ok && fits ==> FaultsAfter(machine, head, base, old(mempool) + [tx], old(queued)))
    {
      hide Weigh, Replay, Steady, Settled, Limits, Holds, FaultsAfter, Promoted;
      assert Lawful(machine);
      var room := NewCapacity(machine, mempool, queued, txPoolBytes, tx);
      if !room {
        return false;
      }
      var working := ReplayPending(machine, head, base, mempool);
      if working.None? {
        return false;
      }
      var s := working.value;
      var nonce := machine.nonceOf(s, tx.from);
      AddedLimits(machine, mempool, queued, tx);
      assert mempool + (queued + [tx]) == (mempool + queued) + [tx];
      assert multiset((mempool + [tx]) + queued) == multiset(mempool + queued) + multiset{tx};
      if tx.nonce > nonce {
        if tx.nonce - nonce > MAX_GAP || |queued| >= MAX_QUEUED {
          return false;
        }
        if !machine.exec(head, machine.setNonce(s, tx.from, tx.nonce), tx).Executed? {
          return false;
        }
        QueuedInv(machine, head, base, mempool, queued, tx, txPoolBytes);
        queued, txPoolBytes := queued + [tx], txPoolBytes + machine.size(tx);
        return true;
      }
      if !machine.exec(head, s, tx).Executed? {
        return false;
      }
      var p, q;
      ok, p, q := AppendPending(machine, head, base, mempool, queued, tx, s);
      if ok {
        mempool, queued, txPoolBytes := p, q, txPoolBytes + machine.size(tx);
      }
    }

    /** A pool that cannot be persisted goes back to what it was. */
    method SubmitAndPersist(tx: Tx, withinGasLimit: bool, persisted: bool) returns (ok: bool)
      requires Valid()
      modifies this`mempool, this`queued, this`txPoolBytes
      ensures Valid()
      ensures ok ==> persisted && Replaces(old(mempool + queued), mempool + queued, tx)
      ensures ok ==> Submitted(machine, head, base, old(mempool), old(queued), tx, mempool, queued)
      ensures !ok ==> mempool == old(mempool) && queued == old(queued) && txPoolBytes == old(txPoolBytes)
      ensures ok ==> persisted && withinGasLimit && old(Accepts(tx))
      ensures !ok && persisted && withinGasLimit && old(Accepts(tx)) ==> old(Faults(tx))
    {
      hide PoolInv, Replaces, Acceptable, FaultsAfter, Candidate, Submitted;
      var previousMempool, previousQueued, previousBytes := mempool, queued, txPoolBytes;
      ok := SubmitTx(tx, withinGasLimit);
      if ok && !persisted {
        mempool, queued, txPoolBytes := previousMempool, previousQueued, previousBytes;
        ok := false;
      }
    }

    /** Follow a new head: drop what the chain includes, revalidate, promote, and
        put the transactions of abandoned blocks back. Every old or abandoned
        transaction that the chain does not include is in the pool, or has a reason
        not to be; it fails only if one of them faults. */
    method Rebase(head': Head, base': State, included: set<Tx>, orphaned: seq<Tx>) returns (ok: bool)
      requires Valid()
      modifies this
      ensures Valid()
      ensures ok ==> head == head' && base == base' && Part(mempool + queued, old(mempool + queued) + orphaned)
      ensures ok ==> AllPlaced(machine, head', base', mempool, queued, old(mempool + queued) + orphaned, included)
      ensures ok ==> forall tx :: tx in mempool + queued ==> tx !in included
      ensures !ok ==> AnyFaults(machine, head', old(mempool + queued) + orphaned)
      ensures !ok ==>
                head == old(head) && base == old(base) && mempool == old(mempool) && queued == old(queued)
                  && txPoolBytes == old(txPoolBytes)
    {
      hide Weigh, Replay, Lawful, Steady, Settled, Limits, Part, AllPlaced, AnyFaults;
      ghost var all := mempool + queued;
      var p, q, p', q';
      ok, p', q' := Revalidate(machine, head', base', mempool, queued, included);
      if !ok {
        AnyMore(machine, head', all, all + orphaned);
        return;
      }
      ok, p, q := ReinsertOrphaned(machine, head', base', p', q', orphaned, included);
      if !ok {
        PartMembers(p' + q', all);
        AnyMore(machine, head', q' + orphaned, all + orphaned);
        return;
      }
      AllPlacedGrows(machine, head', base', p', q', p, q, all, included);
      AllPlacedBoth(machine, head', base', p, q, all, orphaned, included);
      PartPlus(p' + q', all, orphaned);
      PartTransitive(p + q, p' + q' + orphaned, all + orphaned);
      var bytes := SumSizes(machine, p + q);
      head, base, mempool, queued, txPoolBytes := head', base', p, q, bytes;
    }

    /** The next nonce without replaying: walk up from the account's nonce while
        the pending list holds it. It is the nonce a full replay would find. */
    method PendingNonce(a: Address) returns (nonce: nat)
      requires Valid()
      ensures nonce == machine.nonceOf(Replay(machine, head, base, mempool).value, a)
    {
      ReplayNonces(machine, head, base, mempool, a);
      ghost var s := Replay(machine, head, base, mempool).value;
      var pending: set<nat> := {};
      var i := 0;
      while i < |mempool|
        invariant 0 <= i <= |mempool|
        invariant forall n :: n in pending <==> exists j :: 0 <= j < i && mempool[j].from == a && mempool[j].nonce == n
      {
        if mempool[i].from == a {
          pending := pending + {mempool[i].nonce};
        }
        i := i + 1;
      }
      forall n | machine.nonceOf(base, a) <= n < machine.nonceOf(s, a)
        ensures n in pending
      {
        assert Holds(mempool, a, n);
      }
      nonce := machine.nonceOf(base, a);
      while nonce in pending
        invariant machine.nonceOf(base, a) <= nonce <= machine.nonceOf(s, a)
        decreases machine.nonceOf(s, a) - nonce
      {
        if nonce == MAX_UINT64 {
          return;
        }
        nonce := nonce + 1;
      }
    }
  }

  lemma AnyMore(m: Machine, head: Head, a: seq<Tx>, b: seq<Tx>)
    requires AnyFaults(m, head, a) && forall tx :: tx in a ==> tx in b
    ensures AnyFaults(m, head, b)
  {
  }

  lemma SameMembers(a: seq<Tx>, b: seq<Tx>)
    requires multiset(a) == multiset(b)
    ensures forall tx :: tx in b ==> tx in a
  {
    forall tx | tx in b
      ensures tx in a
    {
      assert tx in multiset(b);
    }
  }

  lemma PartMembers(a: seq<Tx>, b: seq<Tx>)
    requires Part(a, b)
    ensures forall tx :: tx in a ==> tx in b
  {
    forall tx | tx in a
      ensures tx in b
    {
      assert tx in multiset(a) && tx in multiset(b);
    }
  }

  /** What revalidation made of the pending list and of the queue, together. */
  lemma SortedIsPlaced(m: Machine, head: Head, base: State, p: seq<Tx>, demoted: seq<Tx>, q: seq<Tx>,
                       keptPending: seq<Tx>, keptQueued: seq<Tx>, all: seq<Tx>, included: set<Tx>)
    requires Sorted(m, head, base, p, demoted, keptPending)
    requires AllPlaced(m, head, base, p, q, keptQueued + demoted, {})
    requires forall tx :: tx in all && tx !in included ==> tx in keptPending || tx in keptQueued
    ensures AllPlaced(m, head, base, p, q, all, included)
  {
    hide Placed;
    assert p + [] == p;
    Prefix(p, q);
    forall tx | tx in all && tx !in included
      ensures Placed(m, head, base, p, q, tx)
    {
      if tx in keptQueued + demoted {
        assert Placed(m, head, base, p, q, tx);
      } else {
        PlacedGrows(m, head, base, p, [], p, q, tx);
      }
    }
  }

  lemma Prefix(p: seq<Tx>, q: seq<Tx>)
    ensures Part(p, p + q)
  {
  }

  lemma AllPlacedBoth(m: Machine, head: Head, base: State, p: seq<Tx>, q: seq<Tx>, a: seq<Tx>, b: seq<Tx>,
                      included: set<Tx>)
    requires AllPlaced(m, head, base, p, q, a, included) && AllPlaced(m, head, base, p, q, b, included)
    ensures AllPlaced(m, head, base, p, q, a + b, included)
  {
  }

  /** The pool holds `tx` now, and at most one competing transaction less. */
  ghost predicate Replaces(before: seq<Tx>, after: seq<Tx>, tx: Tx) {
    || multiset(after) == multiset(before) + multiset{tx}
    || exists i ::
         0 <= i < |before| && before[i].from == tx.from && before[i].nonce == tx.nonce
         && multiset(after) == multiset(before[i := tx])
  }

  lemma ReplacesAt(p: seq<Tx>, q: seq<Tx>, i: nat, tx: Tx, p': seq<Tx>, q': seq<Tx>)
    requires i < |p| && p[i].from == tx.from && p[i].nonce == tx.nonce && multiset(p' + q') == multiset(p[i := tx] + q)
    ensures Replaces(p + q, p' + q', tx)
  {
    assert (p + q)[i] == p[i] && (p + q)[i := tx] == p[i := tx] + q;
  }

  lemma SubmittedAt(m: Machine, head: Head, base: State, p: seq<Tx>, q: seq<Tx>, i: nat, tx: Tx,
                    p': seq<Tx>, q': seq<Tx>)
    requires Lawful(m) && Replay(m, head, base, p).Some? && i < |p| && p[i].from == tx.from && p[i].nonce == tx.nonce
    requires Promoted(m, head, base, p[i := tx], q, p', q')
    ensures Submitted(m, head, base, p, q, tx, p', q')
  {
    hide Replay, Lawful, Promoted;
    OnlyRival(m, head, base, p, i, tx);
  }

  lemma SubmittedInQueue(m: Machine, head: Head, base: State, p: seq<Tx>, q: seq<Tx>, j: nat, tx: Tx,
                         p': seq<Tx>, q': seq<Tx>)
    requires Replay(m, head, base, p).Some? && UniqueNonces(q) && !Holds(p, tx.from, tx.nonce)
    requires j < |q| && q[j].from == tx.from && q[j].nonce == tx.nonce
    requires if tx.nonce == m.nonceOf(Replay(m, head, base, p).value, tx.from)
             then Promoted(m, head, base, p + [tx], q[..j] + q[j + 1..], p', q')
             else p' == p && q' == q[j := tx]
    ensures Submitted(m, head, base, p, q, tx, p', q')
  {
    hide Replay, Promoted;
    assert Holds(q, tx.from, tx.nonce);
  }

  lemma SubmittedNew(m: Machine, head: Head, base: State, p: seq<Tx>, q: seq<Tx>, tx: Tx, p': seq<Tx>, q': seq<Tx>)
    requires Replay(m, head, base, p).Some? && !Holds(p, tx.from, tx.nonce) && !Holds(q, tx.from, tx.nonce)
    requires if tx.nonce == m.nonceOf(Replay(m, head, base, p).value, tx.from)
             then Promoted(m, head, base, p + [tx], q, p', q') else p' == p && q' == q + [tx]
    ensures Submitted(m, head, base, p, q, tx, p', q')
  {
    hide Replay, Promoted;
  }

  lemma ReplacesQueued(p: seq<Tx>, q: seq<Tx>, j: nat, tx: Tx, p': seq<Tx>, q': seq<Tx>)
    requires j < |q| && q[j].from == tx.from && q[j].nonce == tx.nonce && multiset(p' + q') == multiset(p + q[j := tx])
    ensures Replaces(p + q, p' + q', tx)
  {
    assert (p + q)[|p| + j] == q[j] && (p + q)[|p| + j := tx] == p + q[j := tx];
  }

  method Without(txs: seq<Tx>, included: set<Tx>) returns (r: seq<Tx>)
    ensures Part(r, txs) && forall tx :: tx in r <==> tx in txs && tx !in included
  {
    hide Part;
    r := [];
    PartOfNothing();
    assert txs[..0] == [];
    var i := 0;
    while i < |txs|
      invariant 0 <= i <= |txs| && Part(r, txs[..i]) && forall tx :: tx in r <==> tx in txs[..i] && tx !in included
    {
      assert txs[..i + 1] == txs[..i] + [txs[i]];
      KeptOne(r, txs[..i], txs[i]);
      if txs[i] !in included {
        r := r + [txs[i]];
      }
      i := i + 1;
    }
    assert txs[..i] == txs;
  }

  lemma RebaseLimits(m: Machine, mempool: seq<Tx>, queued: seq<Tx>, kept: seq<Tx>, p: seq<Tx>, demoted: seq<Tx>)
    requires Limits(m, mempool, queued) && Part(kept, mempool) && Part(p + demoted, kept)
    ensures Limits(m, p, [])
  {
    hide Weigh;
    assert multiset(p + demoted) == multiset(p) + multiset(demoted);
    assert multiset(mempool + queued) == multiset(mempool) + multiset(queued);
    assert p + [] == p;
    LimitsOf(m, mempool, queued, p, []);
  }

  lemma StillPart(mempool: seq<Tx>, queued: seq<Tx>, keptPending: seq<Tx>, keptQueued: seq<Tx>, p: seq<Tx>,
                  demoted: seq<Tx>, q: seq<Tx>)
    requires Part(keptPending, mempool) && Part(keptQueued, queued)
    requires Part(p + demoted, keptPending) && Part(q, keptQueued + demoted)
    ensures Part(p + q, mempool + queued)
  {
    assert multiset(p + demoted) == multiset(p) + multiset(demoted);
    assert multiset(keptQueued + demoted) == multiset(keptQueued) + multiset(demoted);
    assert multiset(mempool + queued) == multiset(mempool) + multiset(queued);
    assert multiset(p + q) == multiset(p) + multiset(q);
    forall x
      ensures multiset(p + q)[x] <= multiset(mempool + queued)[x]
    {
      assert (multiset(p) + multiset(demoted))[x] <= multiset(keptPending)[x] <= multiset(mempool)[x];
      assert multiset(q)[x] <= (multiset(keptQueued) + multiset(demoted))[x];
      assert multiset(keptQueued)[x] <= multiset(queued)[x];
    }
  }

  lemma PartPlus(a: seq<Tx>, all: seq<Tx>, extra: seq<Tx>)
    requires Part(a, all)
    ensures Part(a + extra, all + extra)
  {
    assert multiset(a + extra) == multiset(a) + multiset(extra);
    assert multiset(all + extra) == multiset(all) + multiset(extra);
  }

  lemma PartTransitive(a: seq<Tx>, b: seq<Tx>, c: seq<Tx>)
    requires Part(a, b) && Part(b, c)
    ensures Part(a, c)
  {
  }
}

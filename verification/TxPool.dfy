/** The transaction pool: a pending list that replays on the committed state, and
    a queue of transactions waiting for earlier nonces. Executing a transaction is
    a function of the head, the state and the transaction; the pool relies only on
    the nonce law that a success uses up exactly the sender's next nonce. */
module TxPool {
  import opened Wrappers

  type Address = nat
  type State = nat
  type Head = nat

  datatype Tx = Tx(from: Address, nonce: nat, content: nat)

  datatype Exec = Executed(state: State) | Refused | Fatal

  const MAX_POOL: nat := 4096
  const MAX_QUEUED: nat := 2048
  const MAX_PER_SENDER: nat := 64
  const MAX_BYTES: nat := 128 * 1024 * 1024
  const MAX_GAP: nat := 64
  const MAX_UINT64: nat := 0xFFFF_FFFF_FFFF_FFFF

  /** The executor, account nonces, and the canonical size of a transaction. */
  datatype Machine = Machine(exec: (Head, State, Tx) -> Exec, nonceOf: (State, Address) -> nat,
                             setNonce: (State, Address, nat) -> State, size: Tx -> nat)

  ghost predicate Lawful(m: Machine) {
    forall head, s, tx :: m.exec(head, s, tx).Executed? ==> NonceLaw(m, s, tx, m.exec(head, s, tx).state)
  }

  ghost predicate NonceLaw(m: Machine, s: State, tx: Tx, s': State) {
    && m.nonceOf(s, tx.from) == tx.nonce < MAX_UINT64
    && forall a :: m.nonceOf(s', a) == m.nonceOf(s, a) + if a == tx.from then 1 else 0
  }

  // ---- Replay ----

  ghost function Replay(m: Machine, head: Head, base: State, txs: seq<Tx>): Option<State> {
    if txs == [] then Some(base)
    else
      match Replay(m, head, base, txs[..|txs| - 1])
      case None => None
      case Some(s) =>
        match m.exec(head, s, txs[|txs| - 1])
        case Executed(s') => Some(s')
        case _ => None
  }

  lemma ReplayAppend(m: Machine, head: Head, base: State, txs: seq<Tx>, tx: Tx)
    requires Replay(m, head, base, txs).Some?
    ensures var s := Replay(m, head, base, txs).value;
            Replay(m, head, base, txs + [tx]) == if m.exec(head, s, tx).Executed? then Some(m.exec(head, s, tx).state)
              else None
  {
    assert (txs + [tx])[..|txs|] == txs;
  }

  lemma {:induction false} ReplayStuck(m: Machine, head: Head, base: State, txs: seq<Tx>, i: nat)
    requires i <= |txs| && Replay(m, head, base, txs[..i]).None?
    ensures Replay(m, head, base, txs).None?
    decreases |txs| - i
  {
    if i == |txs| {
      assert txs[..i] == txs;
    } else {
      assert txs[..i + 1][..i] == txs[..i];
      ReplayStuck(m, head, base, txs, i + 1);
    }
  }

  /** What is left of a sender's nonces: the list holds every nonce from the
      account's up to the replayed one, once, and no other. */
  lemma {:induction false} ReplayNonces(m: Machine, head: Head, base: State, txs: seq<Tx>, a: Address)
    requires Lawful(m) && Replay(m, head, base, txs).Some?
    ensures var s := Replay(m, head, base, txs).value;
            && m.nonceOf(base, a) <= m.nonceOf(s, a)
            && (forall i :: 0 <= i < |txs| && txs[i].from == a ==>
              m.nonceOf(base, a) <= txs[i].nonce < m.nonceOf(s, a) <= MAX_UINT64)
            && (forall i, j :: 0 <= i < j < |txs| && txs[i].from == a && txs[j].from == a ==>
              txs[i].nonce < txs[j].nonce)
            && (forall n :: m.nonceOf(base, a) <= n < m.nonceOf(s, a) ==> Holds(txs, a, n))
    decreases |txs|
  {
    if txs != [] {
      var rest, last := txs[..|txs| - 1], txs[|txs| - 1];
      ReplayNonces(m, head, base, rest, a);
      var before := Replay(m, head, base, rest).value;
      assert NonceLaw(m, before, last, m.exec(head, before, last).state);
      forall n | m.nonceOf(base, a) <= n < m.nonceOf(Replay(m, head, base, txs).value, a)
        ensures Holds(txs, a, n)
      {
        if n < m.nonceOf(before, a) {
          assert Holds(rest, a, n);
          var i :| 0 <= i < |rest| && rest[i].from == a && rest[i].nonce == n;
          assert txs[i].from == a;
        } else {
          assert txs[|txs| - 1].from == a && txs[|txs| - 1].nonce == n;
        }
      }
    }
  }

  ghost predicate Holds(txs: seq<Tx>, a: Address, n: nat) {
    exists i :: 0 <= i < |txs| && txs[i].from == a && txs[i].nonce == n
  }

  // ---- Sizes and counts ----

  /** The sum of a weight over a list; sizes and per-sender counts are weights. */
  ghost function Weigh(f: Tx -> nat, txs: seq<Tx>): nat {
    if txs == [] then 0 else Weigh(f, txs[..|txs| - 1]) + f(txs[|txs| - 1])
  }

  lemma {:induction false} WeighSplit(f: Tx -> nat, a: seq<Tx>, b: seq<Tx>)
    ensures Weigh(f, a + b) == Weigh(f, a) + Weigh(f, b)
    decreases |b|
  {
    if b == [] {
      assert a + b == a;
    } else {
      assert (a + b)[..|a + b| - 1] == a + b[..|b| - 1];
      WeighSplit(f, a, b[..|b| - 1]);
    }
  }

  lemma WeighAt(f: Tx -> nat, txs: seq<Tx>, i: nat)
    requires i < |txs|
    ensures Weigh(f, txs) == Weigh(f, txs[..i] + txs[i + 1..]) + f(txs[i])
  {
    hide Weigh;
    assert txs == (txs[..i] + [txs[i]]) + txs[i + 1..];
    WeighSplit(f, txs[..i] + [txs[i]], txs[i + 1..]);
    WeighSplit(f, txs[..i], txs[i + 1..]);
    WeighAdded(f, txs[..i], txs[i]);
  }

  lemma WeighAdded(f: Tx -> nat, txs: seq<Tx>, tx: Tx)
    ensures Weigh(f, txs + [tx]) == Weigh(f, txs) + f(tx)
  {
    assert (txs + [tx])[..|txs|] == txs;
  }

  /** A list that is part of another weighs no more. */
  lemma {:induction false} WeighPart(f: Tx -> nat, a: seq<Tx>, b: seq<Tx>)
    requires multiset(a) <= multiset(b)
    ensures Weigh(f, a) <= Weigh(f, b)
    decreases |a|
  {
    if a != [] {
      var rest, last := a[..|a| - 1], a[|a| - 1];
      assert a == rest + [last];
      assert multiset(a)[last] > 0;
      assert last in multiset(b) && last in b;
      var i :| 0 <= i < |b| && b[i] == last;
      var b' := b[..i] + b[i + 1..];
      assert b == b[..i] + [last] + b[i + 1..];
      assert multiset(b) == multiset(b') + multiset{last};
      assert multiset(a) == multiset(rest) + multiset{last};
      forall x
        ensures multiset(rest)[x] <= multiset(b')[x]
      {
        assert multiset(a)[x] <= multiset(b)[x];
      }
      WeighPart(f, rest, b');
      WeighAt(f, b, i);
    }
  }

  function One(tx: Tx): nat { 1 }

  ghost function From(a: Address): Tx -> nat { (tx: Tx) => if tx.from == a then 1 else 0 }

  lemma {:induction false} WeighOne(txs: seq<Tx>)
    ensures Weigh(One, txs) == |txs|
    decreases |txs|
  {
    if txs != [] {
      WeighOne(txs[..|txs| - 1]);
    }
  }

  /** The limits on the whole pool. */
  ghost predicate Limits(m: Machine, pending: seq<Tx>, queued: seq<Tx>) {
    && |pending| + |queued| <= MAX_POOL && |queued| <= MAX_QUEUED
    && Weigh(m.size, pending + queued) <= MAX_BYTES
    && forall a :: Weigh(From(a), pending + queued) <= MAX_PER_SENDER
  }

  /** Limits depend only on which transactions the pool holds. */
  lemma LimitsOf(m: Machine, p: seq<Tx>, q: seq<Tx>, p': seq<Tx>, q': seq<Tx>)
    requires Limits(m, p, q) && multiset(p' + q') <= multiset(p + q) && |q'| <= MAX_QUEUED
    ensures Limits(m, p', q')
  {
    WeighPart(m.size, p' + q', p + q);
    forall a
      ensures Weigh(From(a), p' + q') <= MAX_PER_SENDER
    {
      WeighPart(From(a), p' + q', p + q);
    }
    PartSize(p' + q', p + q);
  }

  lemma PartSize(a: seq<Tx>, b: seq<Tx>)
    requires multiset(a) <= multiset(b)
    ensures |a| <= |b|
  {
    WeighPart(One, a, b);
    WeighOne(a);
    WeighOne(b);
  }

  // ---- The queue ----

  ghost predicate UniqueNonces(txs: seq<Tx>) {
    forall i, j :: 0 <= i < j < |txs| ==> !(txs[i].from == txs[j].from && txs[i].nonce == txs[j].nonce)
  }

  /** The queue holds future nonces, each once, none too far ahead. */
  ghost predicate Steady(m: Machine, s: State, queued: seq<Tx>) {
    && UniqueNonces(queued)
    && |queued| <= MAX_QUEUED
    && forall i :: 0 <= i < |queued| ==>
      m.nonceOf(s, queued[i].from) <= queued[i].nonce <= m.nonceOf(s, queued[i].from) + MAX_GAP
  }

  /** Nothing in the queue can be promoted. */
  ghost predicate Settled(m: Machine, head: Head, s: State, queued: seq<Tx>) {
    forall i :: 0 <= i < |queued| && queued[i].nonce == m.nonceOf(s, queued[i].from) ==>
      !m.exec(head, s, queued[i]).Executed?
  }

  function Fresh(m: Machine, s: State, queued: seq<Tx>): seq<Tx> {
    if queued == [] then []
    else
      var rest, last := Fresh(m, s, queued[..|queued| - 1]), queued[|queued| - 1];
      if last.nonce < m.nonceOf(s, last.from) then rest else rest + [last]
  }

  lemma {:induction false} FreshKeepsAll(m: Machine, s: State, queued: seq<Tx>)
    requires forall i :: 0 <= i < |queued| ==> m.nonceOf(s, queued[i].from) <= queued[i].nonce
    ensures Fresh(m, s, queued) == queued
    decreases |queued|
  {
    if queued != [] {
      FreshKeepsAll(m, s, queued[..|queued| - 1]);
    }
  }

  /** Exactly the transactions with a used nonce go. */
  lemma {:induction false} FreshIs(m: Machine, s: State, queued: seq<Tx>, tx: Tx)
    ensures multiset(Fresh(m, s, queued))[tx] == if tx.nonce < m.nonceOf(s, tx.from) then 0 else multiset(queued)[tx]
    decreases |queued|
  {
    if queued != [] {
      FreshIs(m, s, queued[..|queued| - 1], tx);
      assert queued == queued[..|queued| - 1] + [queued[|queued| - 1]];
    }
  }

  lemma {:induction false} FreshShorter(m: Machine, s: State, queued: seq<Tx>)
    ensures |Fresh(m, s, queued)| <= |queued|
    decreases |queued|
  {
    if queued != [] {
      FreshShorter(m, s, queued[..|queued| - 1]);
    }
  }

  method FilterStale(m: Machine, s: State, queued: seq<Tx>) returns (r: seq<Tx>)
    ensures r == Fresh(m, s, queued)
  {
    r := [];
    var i := 0;
    while i < |queued|
      invariant 0 <= i <= |queued| && r == Fresh(m, s, queued[..i])
    {
      assert queued[..i + 1][..i] == queued[..i];
      if queued[i].nonce >= m.nonceOf(s, queued[i].from) {
        r := r + [queued[i]];
      }
      i := i + 1;
    }
    assert queued[..i] == queued;
  }

  datatype Search = Nothing | Found(index: nat, state: State) | Broken

  /** The first transaction of the queue whose turn it is and that is not refused. */
  ghost predicate FirstDue(m: Machine, head: Head, s: State, queued: seq<Tx>, i: nat) {
    && i < |queued| && queued[i].nonce == m.nonceOf(s, queued[i].from) && !m.exec(head, s, queued[i]).Refused?
    && AllRefused(m, head, s, queued[..i])
  }

  ghost predicate AllRefused(m: Machine, head: Head, s: State, queued: seq<Tx>) {
    forall j :: 0 <= j < |queued| && queued[j].nonce == m.nonceOf(s, queued[j].from) ==>
      m.exec(head, s, queued[j]).Refused?
  }

  /** Finds that transaction, if there is one, and what it does. */
  method FindReady(m: Machine, head: Head, s: State, queued: seq<Tx>) returns (r: Search)
    ensures r.Nothing? ==> AllRefused(m, head, s, queued)
    ensures r.Found? ==> FirstDue(m, head, s, queued, r.index) && m.exec(head, s, queued[r.index]) == Executed(r.state)
    ensures r.Broken? ==> exists i: nat :: FirstDue(m, head, s, queued, i) && m.exec(head, s, queued[i]).Fatal?
  {
    var i := 0;
    while i < |queued|
      invariant 0 <= i <= |queued| && AllRefused(m, head, s, queued[..i])
    {
      if queued[i].nonce == m.nonceOf(s, queued[i].from) {
        var result := m.exec(head, s, queued[i]);
        if result.Fatal? {
          assert FirstDue(m, head, s, queued, i);
          return Broken;
        }
        if result.Executed? {
          return Found(i, result.state);
        }
      }
      i := i + 1;
    }
    assert queued[..i] == queued;
    r := Nothing;
  }

  method ReplayPending(m: Machine, head: Head, base: State, pending: seq<Tx>) returns (r: Option<State>)
    ensures r == Replay(m, head, base, pending)
  {
    var s := base;
    var i := 0;
    while i < |pending|
      invariant 0 <= i <= |pending| && Replay(m, head, base, pending[..i]) == Some(s)
    {
      assert pending[..i + 1][..i] == pending[..i];
      var result := m.exec(head, s, pending[i]);
      if !result.Executed? {
        ReplayStuck(m, head, base, pending, i + 1);
        return None;
      }
      s := result.state;
      i := i + 1;
    }
    assert pending[..i] == pending;
    r := Some(s);
  }

  /** Taking a ready transaction out of a steady queue leaves it steady. */
  lemma PromoteOne(m: Machine, head: Head, s: State, queued: seq<Tx>, i: nat, s': State)
    requires Lawful(m) && Steady(m, s, queued) && i < |queued| && m.exec(head, s, queued[i]) == Executed(s')
    ensures Steady(m, s', queued[..i] + queued[i + 1..])
  {
    var tx, rest := queued[i], queued[..i] + queued[i + 1..];
    assert NonceLaw(m, s, tx, s');
    forall j | 0 <= j < |rest|
      ensures m.nonceOf(s', rest[j].from) <= rest[j].nonce <= m.nonceOf(s', rest[j].from) + MAX_GAP
    {
      var k := if j < i then j else j + 1;
      assert rest[j] == queued[k] && k != i;
      assert !(queued[k].from == tx.from && queued[k].nonce == tx.nonce);
    }
    forall j, k | 0 <= j < k < |rest|
      ensures !(rest[j].from == rest[k].from && rest[j].nonce == rest[k].nonce)
    {
      assert rest[j] == queued[if j < i then j else j + 1] && rest[k] == queued[if k < i then k else k + 1];
    }
  }

  lemma MovedOver(p: seq<Tx>, q: seq<Tx>, i: nat)
    requires i < |q|
    ensures multiset((p + [q[i]]) + (q[..i] + q[i + 1..])) == multiset(p + q)
  {
    assert q == q[..i] + [q[i]] + q[i + 1..];
  }

  /** A queued transaction faults after some of the pending list's continuations. */
  ghost predicate FaultsAfter(m: Machine, head: Head, base: State, pending: seq<Tx>, queued: seq<Tx>) {
    exists p, tx :: pending <= p && tx in queued && FaultsOn(m, head, base, p, tx)
  }

  ghost predicate FaultsOn(m: Machine, head: Head, base: State, p: seq<Tx>, tx: Tx) {
    Replay(m, head, base, p).Some? && m.exec(head, Replay(m, head, base, p).value, tx).Fatal?
  }

  lemma {:induction false} FreshPart(m: Machine, s: State, queued: seq<Tx>)
    ensures forall tx :: tx in Fresh(m, s, queued) ==> tx in queued
    decreases |queued|
  {
    if queued != [] {
      FreshPart(m, s, queued[..|queued| - 1]);
    }
  }

  // ---- Promotion ----

  /** What is left of a queue without `gone`, in order. */
  ghost function Remaining(queued: seq<Tx>, gone: seq<Tx>): seq<Tx> {
    if queued == [] then []
    else
      var rest, last := Remaining(queued[..|queued| - 1], gone), queued[|queued| - 1];
      if last in gone then rest else rest + [last]
  }

  /** After `before` it is not the turn of `tx`, or it is refused. */
  ghost predicate NotReady(m: Machine, head: Head, base: State, before: seq<Tx>, tx: Tx) {
    && Replay(m, head, base, before).Some?
    && var s := Replay(m, head, base, before).value;
       tx.nonce == m.nonceOf(s, tx.from) ==> m.exec(head, s, tx).Refused?
  }

  /** Whatever stood in the queue before a promoted transaction and was still there was
      not ready at that moment. */
  ghost predicate InTurn(m: Machine, head: Head, base: State, pending: seq<Tx>, queued: seq<Tx>, p: seq<Tx>)
    requires pending <= p
  {
    forall k, i, j ::
      |pending| <= k < |p| && 0 <= j < i < |queued| && queued[i] == p[k] && queued[j] !in p[|pending|..k] ==>
        NotReady(m, head, base, p[..k], queued[j])
  }

  /** Promotion leads from `pending` and `queued` to `p` and `q`: the queue's
      transactions are appended one by one, each in its turn, and the others keep
      their order. */
  ghost predicate Promoted(m: Machine, head: Head, base: State, pending: seq<Tx>, queued: seq<Tx>,
                           p: seq<Tx>, q: seq<Tx>) {
    && pending <= p && (forall tx :: tx in p[|pending|..] ==> tx in queued)
    && q == Remaining(queued, p[|pending|..])
    && InTurn(m, head, base, pending, queued, p)
  }

  lemma {:induction false} RemainingAll(queued: seq<Tx>)
    ensures Remaining(queued, []) == queued
    decreases |queued|
  {
    if queued != [] {
      RemainingAll(queued[..|queued| - 1]);
    }
  }

  lemma {:induction false} RemainingMembers(queued: seq<Tx>, gone: seq<Tx>)
    ensures forall tx :: tx in Remaining(queued, gone) <==> tx in queued && tx !in gone
    decreases |queued|
  {
    if queued != [] {
      RemainingMembers(queued[..|queued| - 1], gone);
      assert queued == queued[..|queued| - 1] + [queued[|queued| - 1]];
    }
  }

  lemma {:induction false} RemainingWithout(queued: seq<Tx>, gone: seq<Tx>, tx: Tx)
    requires tx !in queued
    ensures Remaining(queued, gone + [tx]) == Remaining(queued, gone)
    decreases |queued|
  {
    if queued != [] {
      RemainingWithout(queued[..|queued| - 1], gone, tx);
    }
  }

  /** One more transaction leaves. */
  lemma {:induction false} RemainingStep(queued: seq<Tx>, gone: seq<Tx>, i: nat)
    requires UniqueNonces(queued) && i < |Remaining(queued, gone)|
    ensures var q := Remaining(queued, gone);
            Remaining(queued, gone + [q[i]]) == q[..i] + q[i + 1..]
    decreases |queued|
  {
    var init, last := queued[..|queued| - 1], queued[|queued| - 1];
    var rest, q := Remaining(init, gone), Remaining(queued, gone);
    if last !in gone && i == |rest| {
      RemainingWithout(init, gone, last);
    } else {
      RemainingMembers(init, gone);
      assert rest[i] in init && rest[i] != last;
      RemainingStep(init, gone, i);
      if last !in gone {
        assert q[..i] + q[i + 1..] == rest[..i] + rest[i + 1..] + [last];
      }
    }
  }

  /** The order of the queue stays. */
  lemma {:induction false} RemainingOrder(queued: seq<Tx>, gone: seq<Tx>, j: nat, i: nat)
    requires j < i < |queued| && queued[i] !in gone && queued[j] !in gone
    ensures exists a, b :: 0 <= a < b < |Remaining(queued, gone)|
                           && Remaining(queued, gone)[a] == queued[j] && Remaining(queued, gone)[b] == queued[i]
    decreases |queued|
  {
    var init := queued[..|queued| - 1];
    if i < |init| {
      RemainingOrder(init, gone, j, i);
      var a, b :| 0 <= a < b < |Remaining(init, gone)|
        && Remaining(init, gone)[a] == queued[j] && Remaining(init, gone)[b] == queued[i];
      assert Remaining(queued, gone)[a] == queued[j] && Remaining(queued, gone)[b] == queued[i];
    } else {
      RemainingMembers(init, gone);
      assert queued[j] == init[j];
      var a :| 0 <= a < |Remaining(init, gone)| && Remaining(init, gone)[a] == queued[j];
      var b := |Remaining(init, gone)|;
      assert Remaining(queued, gone)[a] == queued[j] && Remaining(queued, gone)[b] == queued[i];
    }
  }

  lemma TurnStep(m: Machine, head: Head, base: State, pending: seq<Tx>, queued: seq<Tx>, p: seq<Tx>, q: seq<Tx>,
                 b: nat, s: State)
    requires UniqueNonces(queued) && UniqueNonces(q) && Promoted(m, head, base, pending, queued, p, q)
    requires Replay(m, head, base, p) == Some(s) && FirstDue(m, head, s, q, b)
    ensures Promoted(m, head, base, pending, queued, p + [q[b]], q[..b] + q[b + 1..])
  {
    hide Replay, Remaining;
    var p', gone := p + [q[b]], p[|pending|..];
    RemainingStep(queued, gone, b);
    RemainingMembers(queued, gone);
    assert p'[|pending|..] == gone + [q[b]];
    forall k, i, j | |pending| <= k < |p'| && 0 <= j < i < |queued| && queued[i] == p'[k]
                     && queued[j] !in p'[|pending|..k]
      ensures NotReady(m, head, base, p'[..k], queued[j])
    {
      assert p'[|pending|..k] == p[|pending|..k] && p'[..k] == p[..k];
      if k == |p| {
        assert p[..k] == p && p[|pending|..k] == gone;
        RemainingOrder(queued, gone, j, i);
        var a, c :| 0 <= a < c < |q| && q[a] == queued[j] && q[c] == queued[i];
        assert c == b;
        assert q[..b][a] == queued[j];
      }
    }
  }

  /** This leaves only one outcome: two promotions that both end with nothing more to
      promote are the same. */
  lemma PromotionIsDetermined(m: Machine, head: Head, base: State, pending: seq<Tx>, queued: seq<Tx>,
                              p: seq<Tx>, q: seq<Tx>, p': seq<Tx>, q': seq<Tx>)
    requires Lawful(m) && UniqueNonces(queued)
    requires Promoted(m, head, base, pending, queued, p, q) && Promoted(m, head, base, pending, queued, p', q')
    requires Replay(m, head, base, p).Some? && Settled(m, head, Replay(m, head, base, p).value, q)
    requires Replay(m, head, base, p').Some? && Settled(m, head, Replay(m, head, base, p').value, q')
    ensures p == p' && q == q'
  {
    hide Replay, Remaining, Lawful, InTurn, Settled;
    var k := |pending|;
    while k < |p| && k < |p'|
      invariant |pending| <= k <= |p| && k <= |p'| && p[..k] == p'[..k]
    {
      assert p[k] == p[|pending|..][k - |pending|] && p[k] in queued;
      assert p'[k] == p'[|pending|..][k - |pending|] && p'[k] in queued;
      var i: nat :| i < |queued| && queued[i] == p[k];
      var j: nat :| j < |queued| && queued[j] == p'[k];
      TurnsAgree(m, head, base, pending, queued, p, p', k, i, j);
      TurnsAgree(m, head, base, pending, queued, p', p, k, j, i);
      k := k + 1;
    }
    assert p[..k] == p || p'[..k] == p';
    if k < |p'| {
      NothingLeft(m, head, base, pending, queued, p, q, p');
    }
    if k < |p| {
      NothingLeft(m, head, base, pending, queued, p', q', p);
    }
  }

  lemma TurnsAgree(m: Machine, head: Head, base: State, pending: seq<Tx>, queued: seq<Tx>, p: seq<Tx>, p': seq<Tx>,
                   k: nat, i: nat, j: nat)
    requires Lawful(m) && pending <= p && pending <= p' && InTurn(m, head, base, pending, queued, p')
    requires Replay(m, head, base, p).Some? && |pending| <= k < |p| && k < |p'| && p[..k] == p'[..k]
    requires i < |queued| && j < |queued| && queued[i] == p[k] && queued[j] == p'[k]
    ensures i >= j
  {
    hide Replay, Lawful;
    Executes(m, head, base, p, k);
    assert p'[|pending|..k] == p'[..k][|pending|..];
    assert i < j ==> NotReady(m, head, base, p'[..k], queued[i]);
  }

  lemma NothingLeft(m: Machine, head: Head, base: State, pending: seq<Tx>, queued: seq<Tx>, p: seq<Tx>, q: seq<Tx>,
                    p': seq<Tx>)
    requires Lawful(m) && pending <= p && q == Remaining(queued, p[|pending|..])
    requires Replay(m, head, base, p).Some? && Settled(m, head, Replay(m, head, base, p).value, q)
    requires Replay(m, head, base, p').Some? && forall k :: |pending| <= k < |p'| ==> p'[k] in queued
    ensures !(p < p')
  {
    hide Replay, Lawful, Remaining;
    RemainingMembers(queued, p[|pending|..]);
    if p < p' {
      assert p'[..|p|] == p;
      Executes(m, head, base, p', |p|);
    }
  }

  /** A transaction of a list that replays executed in its place, with its nonce due. */
  lemma Executes(m: Machine, head: Head, base: State, p: seq<Tx>, k: nat)
    requires Lawful(m) && k < |p| && Replay(m, head, base, p).Some?
    ensures Replay(m, head, base, p[..k]).Some?
    ensures var s := Replay(m, head, base, p[..k]).value;
            m.exec(head, s, p[k]).Executed? && p[k].nonce == m.nonceOf(s, p[k].from)
    ensures p[k] !in p[..k]
  {
    ReplayNonces(m, head, base, p, p[k].from);
    if Replay(m, head, base, p[..k]).None? {
      ReplayStuck(m, head, base, p, k);
    }
    if Replay(m, head, base, p[..k + 1]).None? {
      ReplayStuck(m, head, base, p, k + 1);
    }
    assert p[..k + 1][..k] == p[..k];
  }

  lemma NothingPromoted(m: Machine, head: Head, base: State, pending: seq<Tx>, queued: seq<Tx>)
    ensures Promoted(m, head, base, pending, queued, pending, queued)
  {
    RemainingAll(queued);
    assert pending[|pending|..] == [];
  }

  lemma SteadyIsUnique(m: Machine, s: State, queued: seq<Tx>)
    ensures Steady(m, s, queued) ==> UniqueNonces(queued)
  {
  }

  lemma StepPromotes(m: Machine, head: Head, base: State, pending: seq<Tx>, queued: seq<Tx>, p: seq<Tx>, q: seq<Tx>,
                     i: nat, s: State, s': State)
    requires Lawful(m) && UniqueNonces(queued) && Steady(m, s, q) && Promoted(m, head, base, pending, queued, p, q)
    requires Replay(m, head, base, p) == Some(s) && multiset(p + q) == multiset(pending + queued)
    requires FirstDue(m, head, s, q, i) && m.exec(head, s, q[i]) == Executed(s')
    ensures var p', q' := p + [q[i]], q[..i] + q[i + 1..];
            && Steady(m, s', q') && multiset(p' + q') == multiset(pending + queued)
            && Promoted(m, head, base, pending, queued, p', q')
  {
    hide Replay, Lawful, Promoted;
    MovedOver(p, q, i);
    PromoteOne(m, head, s, q, i, s');
    TurnStep(m, head, base, pending, queued, p, q, i, s);
  }

  /** Promotion ends in a settled queue. From a steady one it loses nothing: it
      only moves transactions from the queue to the end of the pending list. It fails
      only if the pending list does not replay or a queued transaction faults. */
  method PromoteQueued(m: Machine, head: Head, base: State, pending: seq<Tx>, queued: seq<Tx>)
      returns (ok: bool, p: seq<Tx>, q: seq<Tx>)
    requires Lawful(m)
    ensures ok ==> Replay(m, head, base, pending).Some? && pending <= p && Replay(m, head, base, p).Some?
    ensures ok ==> Settled(m, head, Replay(m, head, base, p).value, q)
    ensures ok && Steady(m, Replay(m, head, base, pending).value, queued) ==>
              && Steady(m, Replay(m, head, base, p).value, q) && multiset(p + q) == multiset(pending + queued)
              && Promoted(m, head, base, pending, queued, p, q)
    ensures !ok ==> Replay(m, head, base, pending).None? || FaultsAfter(m, head, base, pending, queued)
  {
    hide Replay, Lawful, Steady, NonceLaw, Promoted, UniqueNonces;
    p, q := pending, queued;
    var start := ReplayPending(m, head, base, pending);
    if start.None? {
      return false, p, q;
    }
    var s := start.value;
    ghost var steady := Steady(m, s, queued);
    assert steady ==> UniqueNonces(queued) by { SteadyIsUnique(m, s, queued); }
    NothingPromoted(m, head, base, pending, queued);
    while true
      invariant pending <= p && Replay(m, head, base, p) == Some(s)
      invariant steady ==> Steady(m, s, q) && multiset(p + q) == multiset(pending + queued)
      invariant steady ==> Promoted(m, head, base, pending, queued, p, q)
      invariant forall tx :: tx in q ==> tx in queued
      decreases |q|
    {
      FreshShorter(m, s, q);
      FreshPart(m, s, q);
      assert steady ==> Fresh(m, s, q) == q && |q| <= MAX_QUEUED by {
        if steady {
          SteadyStays(m, s, q);
        }
      }
      q := FilterStale(m, s, q);
      if |q| > MAX_QUEUED {
        q := q[..MAX_QUEUED];
      }
      var ready := FindReady(m, head, s, q);
      match ready {
        case Broken =>
          ghost var i: nat :| FirstDue(m, head, s, q, i) && m.exec(head, s, q[i]).Fatal?;
          assert q[i] in queued && FaultsOn(m, head, base, p, q[i]);
          return false, p, q;
        case Nothing => return true, p, q;
        case Found(i, s') =>
          ReplayAppend(m, head, base, p, q[i]);
          if steady {
            StepPromotes(m, head, base, pending, queued, p, q, i, s, s');
          }
          p := p + [q[i]];
          q := q[..i] + q[i + 1..];
          s := s';
      }
    }
  }

  lemma SteadyStays(m: Machine, s: State, queued: seq<Tx>)
    requires Steady(m, s, queued)
    ensures Fresh(m, s, queued) == queued && |queued| <= MAX_QUEUED
  {
    FreshKeepsAll(m, s, queued);
  }
}

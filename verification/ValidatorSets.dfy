/** Whole runs of the validator lifecycle. The consensus engine folds the updates
    of block `h` into the set of height `h + 2`; the folded set is the one the
    ledger schedules, it is never empty, and no offence is slashed twice. */
module ValidatorSets {
  import opened Wrappers
  import opened Arithmetic
  import opened Sums
  import opened Lifecycle

  /** `timedFrom` is the height from which offences carry their time and are compacted. */
  datatype Chain = Chain(policy: Policy, genesis: set<Key>, timedFrom: int)

  datatype Tx =
    | Restake(staker: Key, stake: nat)
    | Join(candidate: Key, identity: Identity, quorum: bool)

  datatype Block = Block(time: int, evidence: seq<Item>, txs: seq<Tx>)

  // ---- The phases of a block ----

  predicate Stale(p: Policy, h: int, t: int, k: OffenceKey, o: Offence) {
    o.time.Some? && Expired(p, h, t, k.height, o.time.value)
  }

  predicate FromTheFuture(l: Ledger, t: int) {
    exists k :: k in l.offences && l.offences[k].time.Some? && l.offences[k].time.value > t
  }

  function Compact(p: Policy, l: Ledger, h: int, t: int): Ledger {
    l.(offences := map k | k in l.offences && !Stale(p, h, t, k, l.offences[k]) :: l.offences[k])
  }

  function Compacted(c: Chain, l: Ledger, h: int, t: int): Ledger {
    if h >= c.timedFrom then Compact(c.policy, l, h, t) else l
  }

  ghost predicate SomeoneAt(v: map<Key, Identity>, h: int) {
    exists k :: k in v && ActiveAt(v[k], h)
  }

  /** The set is checked for emptiness at scheduled removals only. */
  ghost predicate RemovalsLeaveSomeone(v: map<Key, Identity>) {
    forall k :: k in v && v[k].inactive > 0 ==> SomeoneAt(v, v[k].inactive)
  }

  ghost function ApplyEvidence(c: Chain, h: int, l: Ledger, xs: seq<Item>): Option<Ledger>
    requires PolicyOk(c.policy) && h <= MAX_INT64
  {
    match ApplyRecords(c.policy, h, h >= c.timedFrom, l, xs)
    case None => None
    case Some(l') => if RemovalsLeaveSomeone(l'.validators) && LedgerOk(c.genesis, l') then Some(l') else None
  }

  ghost predicate JoinOk(c: Chain, h: int, l: Ledger, k: Key, id: Identity, quorum: bool)
    requires PolicyOk(c.policy)
  {
    && quorum && k !in l.validators
    && id.active >= h + 2 && Boundary(c.policy.epoch, id.active) && id.inactive == 0 && id.unbonding == 0
    && 0 < id.power <= MAX_POWER && id.power == StakeOf(l, k) / STAKE_PER_POWER
    && LedgerOk(c.genesis, l.(validators := l.validators[k := id]))
  }

  /** A transaction that fails its checks changes nothing here. */
  ghost function RunTx(c: Chain, h: int, l: Ledger, tx: Tx): Ledger
    requires PolicyOk(c.policy)
  {
    match tx
    case Restake(k, n) => l.(stakes := l.stakes[k := n])
    case Join(k, id, quorum) => if JoinOk(c, h, l, k, id, quorum) then l.(validators := l.validators[k := id]) else l
  }

  ghost function RunTxs(c: Chain, h: int, l: Ledger, txs: seq<Tx>): Ledger
    requires PolicyOk(c.policy)
  {
    if txs == [] then l else RunTx(c, h, RunTxs(c, h, l, txs[..|txs| - 1]), txs[|txs| - 1])
  }

  /** What block `h` announces: identities that start or stop at `h + 2`. */
  function Updates(v: map<Key, Identity>, h: int): map<Key, int> {
    map k | k in v && (v[k].active == h + 2 || v[k].inactive == h + 2) ::
      if v[k].inactive == h + 2 then 0 else v[k].power
  }

  /** How the consensus engine folds updates into its set: power zero removes. */
  function Fold(powers: map<Key, int>, updates: map<Key, int>): map<Key, int> {
    map k | k in powers.Keys + updates.Keys && (k in updates ==> updates[k] != 0) ::
      if k in updates then updates[k] else powers[k]
  }

  /** The keys slashed by a batch of evidence, in order. */
  ghost function SlashLog(c: Chain, h: int, l: Ledger, xs: seq<Item>): seq<OffenceKey>
    requires PolicyOk(c.policy) && h <= MAX_INT64
  {
    if xs == [] then []
    else
      var ys, x := xs[..|xs| - 1], xs[|xs| - 1];
      match ApplyRecords(c.policy, h, h >= c.timedFrom, l, ys)
      case None => []
      case Some(l') => SlashLog(c, h, l, ys) + if KeyOf(x) in l'.offences then [] else [KeyOf(x)]
  }

  // ---- One block, and runs of blocks ----

  /** `sets[g - 1]` is the set the consensus engine uses at height `g`, and
      `slashed` counts the slashes of each offence since genesis. */
  datatype State = State(ledger: Ledger, height: int, time: int, sets: seq<map<Key, int>>,
                         slashed: multiset<OffenceKey>)

  ghost function Step(c: Chain, s: State, b: Block): Option<State>
    requires PolicyOk(c.policy) && |s.sets| > 0
  {
    var h := s.height + 1;
    if h > MAX_INT64 || b.time == ZERO_TIME then None
    else if h >= c.timedFrom && FromTheFuture(s.ledger, b.time) then None
    else
      var l := Compacted(c, s.ledger, h, b.time);
      if !ScheduleOk(c.policy, c.genesis, l.validators)
        || !EvidenceOk(c.policy, l.validators, h, b.time, b.evidence) then None
      else
        match ApplyEvidence(c, h, l, b.evidence)
        case None => None
        case Some(l') =>
          var l'' := RunTxs(c, h, l', b.txs);
          Some(State(l'', h, b.time, s.sets + [Fold(s.sets[|s.sets| - 1], Updates(l''.validators, h))],
                     s.slashed + multiset(SlashLog(c, h, l, b.evidence))))
  }

  ghost function Run(c: Chain, s: State, bs: seq<Block>): Option<State>
    requires PolicyOk(c.policy) && |s.sets| > 0
    decreases |bs|
  {
    if bs == [] then Some(s)
    else
      match Step(c, s, bs[0])
      case None => None
      case Some(s') => Run(c, s', bs[1..])
  }

  /** What the consensus engine guarantees about blocks: times do not go back, and
      evidence for one validator and height always carries the same time. */
  ghost predicate Admissible(timeOf: OffenceKey -> int, time: int, b: Block) {
    && b.time >= time
    && forall x :: x in b.evidence ==> x.time == timeOf(KeyOf(x))
  }

  ghost predicate AdmissibleRun(timeOf: OffenceKey -> int, time: int, bs: seq<Block>)
    decreases |bs|
  {
    bs != [] ==> Admissible(timeOf, time, bs[0]) && AdmissibleRun(timeOf, bs[0].time, bs[1..])
  }

  // ---- Invariants ----

  ghost predicate AlwaysSomeone(v: map<Key, Identity>) {
    forall g {:trigger SomeoneAt(v, g)} :: g >= 1 ==> SomeoneAt(v, g)
  }

  ghost predicate OffenceTraced(timeOf: OffenceKey -> int, l: Ledger, h: int, t: int, k: OffenceKey)
    requires k in l.offences
  {
    && k.validator in l.validators && l.offences[k].removal == l.validators[k.validator].inactive
    && l.offences[k].observed <= h
    && (l.offences[k].time.Some? ==> l.offences[k].time.value == timeOf(k) <= t)
  }

  ghost predicate OffencesTraced(timeOf: OffenceKey -> int, l: Ledger, h: int, t: int) {
    forall k :: k in l.offences ==> OffenceTraced(timeOf, l, h, t, k)
  }

  /** The ledger part of the invariant at height `h` and time `t`. */
  ghost predicate LedgerInv(c: Chain, timeOf: OffenceKey -> int, l: Ledger, h: int, t: int)
    requires PolicyOk(c.policy) && h >= 0
  {
    && c.genesis != {} && LedgerOk(c.genesis, l)
    && ScheduleOk(c.policy, c.genesis, l.validators)
    && RemovalsBy(c.policy, l.validators, h)
    && AlwaysSomeone(l.validators)
    && OffencesTraced(timeOf, l, h, t)
  }

  /** Every set used or announced so far is the scheduled one. */
  ghost predicate SetsInv(v: map<Key, Identity>, h: int, sets: seq<map<Key, int>>) {
    && |sets| == h + 2
    && forall g :: 0 <= g < |sets| ==> sets[g] == ActiveSet(v, g + 1)
  }

  /** A slashed offence is on record or too old to be accepted again. */
  ghost predicate SlashInv(c: Chain, timeOf: OffenceKey -> int, l: Ledger, h: int, t: int,
                           slashed: multiset<OffenceKey>) {
    && (forall k :: slashed[k] <= 1)
    && (forall k :: k in slashed ==> k in l.offences || Expired(c.policy, h, t, k.height, timeOf(k)))
  }

  ghost predicate Inv(c: Chain, timeOf: OffenceKey -> int, s: State) {
    && PolicyOk(c.policy) && s.height >= 0
    && LedgerInv(c, timeOf, s.ledger, s.height, s.time)
    && SetsInv(s.ledger.validators, s.height, s.sets)
    && SlashInv(c, timeOf, s.ledger, s.height, s.time, s.slashed)
  }

  // ---- Never an empty set ----

  /** Looking at removal heights only is enough: whoever is active stays active
      until some removal height, and there somebody else is. */
  lemma {:induction false} RemovalChecksSuffice(v: map<Key, Identity>, first: Key, g: int)
    requires RemovalsLeaveSomeone(v) && g >= 1
    requires forall k :: k in v ==> IdentityOk(v[k])
    requires first in v && v[first].active == 1
    ensures SomeoneAt(v, g)
    decreases g
  {
    if g == 1 {
      assert ActiveAt(v[first], 1);
    } else {
      RemovalChecksSuffice(v, first, g - 1);
      var k :| k in v && ActiveAt(v[k], g - 1);
      assert ActiveAt(v[k], g) || SomeoneAt(v, v[k].inactive);
    }
  }

  // ---- Evidence ----

  /** A new offence whose validator already leaves less than two blocks ahead. */
  ghost predicate Late(h: int, l: Ledger, x: Item) {
    && KeyOf(x) !in l.offences && x.validator in l.validators
    && l.validators[x.validator].inactive != 0 && l.validators[x.validator].inactive < h + 2
  }

  ghost predicate Stays(c: Chain, h: int, l: Ledger, xs: seq<Item>, k: Key)
    requires PolicyOk(c.policy) && h >= 0
  {
    && k in l.validators && k !in Marks(l, xs) && l.validators[k].inactive == 0
    && l.validators[k].active <= RemovalHeight(h, c.policy.epoch)
  }

  /** Valid evidence at the next height of a good ledger. */
  ghost predicate Fits(c: Chain, timeOf: OffenceKey -> int, h: int, t0: int, t: int, l: Ledger, xs: seq<Item>) {
    && PolicyOk(c.policy) && 0 < h <= MAX_INT64 && t0 <= t
    && LedgerInv(c, timeOf, l, h - 1, t0)
    && EvidenceOk(c.policy, l.validators, h, t, xs)
  }

  lemma FitsIsApplicable(c: Chain, timeOf: OffenceKey -> int, h: int, t0: int, t: int, l: Ledger, xs: seq<Item>)
    requires Fits(c, timeOf, h, t0, t, l, xs)
    ensures Applicable(c.policy, h, l, xs)
  {
    hide RemovalHeight, OffencesTraced, AlwaysSomeone, ScheduleOk, IdentityOk, OffenceOk;
    RemovalHeightGrows(h - 1, h, c.policy.epoch);
    forall x | x in xs
      ensures x.validator in l.validators
    {
      var i :| 0 <= i < |xs| && xs[i] == x;
      assert ItemOk(c.policy, l.validators, h, t, xs[i]);
    }
  }

  lemma ItemOf(c: Chain, h: int, t: int, v: map<Key, Identity>, xs: seq<Item>, x: Item)
    requires EvidenceOk(c.policy, v, h, t, xs) && x in xs
    ensures ItemOk(c.policy, v, h, t, x)
  {
    var i :| 0 <= i < |xs| && xs[i] == x;
  }

  lemma MarkedWasActive(c: Chain, timeOf: OffenceKey -> int, h: int, t0: int, t: int, l: Ledger, xs: seq<Item>, k: Key)
    requires Fits(c, timeOf, h, t0, t, l, xs) && k in Marks(l, xs)
    ensures k in l.validators && l.validators[k].inactive == 0 && l.validators[k].active < h
  {
    hide LedgerInv, EvidenceOk, Sum;
    var x :| x in xs && KeyOf(x) !in l.offences && x.validator in l.validators
      && l.validators[x.validator].inactive == 0 && x.validator == k;
    ItemOf(c, h, t, l.validators, xs, x);
  }

  /** The identity check passes after any evidence. */
  lemma IdentitiesStayOk(c: Chain, timeOf: OffenceKey -> int, h: int, t0: int, t: int, l: Ledger, xs: seq<Item>,
                         l': Ledger, k: Key)
    requires Fits(c, timeOf, h, t0, t, l, xs) && k in l.validators
    requires Summary(c.policy, h, h >= c.timedFrom, l, xs, l') && InRange(c.policy, h, l, xs)
    ensures k in l'.validators && IdentityOk(l'.validators[k]) && l'.validators[k].power == l.validators[k].power
    ensures IdentityScheduled(c.policy, c.genesis, k, l'.validators[k])
    ensures l'.validators[k].inactive != 0 ==> l'.validators[k].inactive <= RemovalHeight(h, c.policy.epoch)
    ensures forall g :: g <= h + 1 ==> (ActiveAt(l'.validators[k], g) <==> ActiveAt(l.validators[k], g))
  {
    hide RemovalHeight, OffencesTraced, AlwaysSomeone, EvidenceOk, Marks, NewKeys, OffenceRecorded, OffenceOk, Boundary,
      Sum;
    RemovalHeightGrows(h - 1, h, c.policy.epoch);
    StillHere(c.policy, h, Marks(l, xs), k, l.validators[k]);
    assert l'.validators[k] == After(c.policy, h, Marks(l, xs), k, l.validators[k]);
    assert IdentityOk(l.validators[k]) && IdentityScheduled(c.policy, c.genesis, k, l.validators[k]);
    if k in Marks(l, xs) {
      MarkedWasActive(c, timeOf, h, t0, t, l, xs, k);
      MulAtLeast(c.policy.epoch, c.policy.unbondingEpochs);
      assert Boundary(c.policy.epoch, RemovalHeight(h, c.policy.epoch));
      assert RemovalHeight(h, c.policy.epoch) <= MAX_INT64 by { MarksAreNew(l, xs); }
    }
  }

  lemma MarksAreNew(l: Ledger, xs: seq<Item>)
    ensures Marks(l, xs) != {} ==> NewKeys(l, xs) != {}
  {
    if Marks(l, xs) != {} {
      var k :| k in Marks(l, xs);
      var x :| x in xs && KeyOf(x) !in l.offences && x.validator == k;
      assert KeyOf(x) in NewKeys(l, xs);
    }
  }

  /** A recorded offence passes the ledger check unless its evidence came late. */
  lemma OffencesStayOk(c: Chain, timeOf: OffenceKey -> int, h: int, t0: int, t: int, l: Ledger, xs: seq<Item>,
                       l': Ledger)
    requires Fits(c, timeOf, h, t0, t, l, xs)
    requires Summary(c.policy, h, h >= c.timedFrom, l, xs, l') && InRange(c.policy, h, l, xs)
    ensures forall k :: k in l.offences ==>
              k in l'.offences && OffenceOk(l'.validators, k, l'.offences[k]) && OffenceTraced(timeOf, l', h, t, k)
    ensures forall x :: x in xs && KeyOf(x) !in l.offences ==>
              KeyOf(x) in l'.offences && (OffenceOk(l'.validators, KeyOf(x), l'.offences[KeyOf(x)]) <==> !Late(h, l, x))
  {
    hide RemovalHeight, AlwaysSomeone, EvidenceOk, Marks, NewKeys, Boundary, Sum, ScheduleOk;
    forall k | k in l.offences
      ensures k in l'.offences && OffenceOk(l'.validators, k, l'.offences[k]) && OffenceTraced(timeOf, l', h, t, k)
    {
      OldOffenceStays(c, timeOf, h, t0, t, l, xs, l', k);
    }
    forall x | x in xs && KeyOf(x) !in l.offences
      ensures KeyOf(x) in l'.offences && (OffenceOk(l'.validators, KeyOf(x), l'.offences[KeyOf(x)]) <==> !Late(h, l, x))
    {
      NewOffenceOkIff(c, timeOf, h, t0, t, l, xs, l', x);
    }
  }

  lemma OldOffenceStays(c: Chain, timeOf: OffenceKey -> int, h: int, t0: int, t: int, l: Ledger, xs: seq<Item>,
                        l': Ledger, k: OffenceKey)
    requires Fits(c, timeOf, h, t0, t, l, xs) && k in l.offences
    requires Summary(c.policy, h, h >= c.timedFrom, l, xs, l')
    ensures k in l'.offences && OffenceOk(l'.validators, k, l'.offences[k]) && OffenceTraced(timeOf, l', h, t, k)
  {
    hide RemovalHeight, AlwaysSomeone, EvidenceOk, NewKeys, Marks, Boundary, Sum, ScheduleOk, IdentityOk, RemovalsBy,
      OffenceRecorded;
    assert OffenceOk(l.validators, k, l.offences[k]) && OffenceTraced(timeOf, l, h - 1, t0, k);
    var v := k.validator;
    assert l'.validators[v] == After(c.policy, h, Marks(l, xs), v, l.validators[v]);
    if v in Marks(l, xs) {
      MarkedWasActive(c, timeOf, h, t0, t, l, xs, v);
      assert false;
    }
    StillHere(c.policy, h, Marks(l, xs), v, l.validators[v]);
  }

  lemma NewOffenceOkIff(c: Chain, timeOf: OffenceKey -> int, h: int, t0: int, t: int, l: Ledger, xs: seq<Item>,
                        l': Ledger, x: Item)
    requires Fits(c, timeOf, h, t0, t, l, xs) && x in xs && KeyOf(x) !in l.offences
    requires Summary(c.policy, h, h >= c.timedFrom, l, xs, l')
    ensures KeyOf(x) in l'.offences
    ensures OffenceOk(l'.validators, KeyOf(x), l'.offences[KeyOf(x)]) <==> !Late(h, l, x)
  {
    hide RemovalHeight, AlwaysSomeone, EvidenceOk, NewKeys, Marks, Boundary, Sum, ScheduleOk, RemovalsBy,
      OffencesTraced;
    var v := x.validator;
    ItemOf(c, h, t, l.validators, xs, x);
    assert OffenceRecorded(c.policy, h, h >= c.timedFrom, l', x);
    assert l'.validators[v] == After(c.policy, h, Marks(l, xs), v, l.validators[v]);
    StillHere(c.policy, h, Marks(l, xs), v, l.validators[v]);
    assert RemovalHeight(h, c.policy.epoch) >= h + 2;
    if v in Marks(l, xs) {
      MarkedWasActive(c, timeOf, h, t0, t, l, xs, v);
    } else {
      assert l.validators[v].inactive != 0 by { UnmarkedIsLeaving(l, xs, x); }
    }
  }

  lemma UnmarkedIsLeaving(l: Ledger, xs: seq<Item>, x: Item)
    requires x in xs && KeyOf(x) !in l.offences && x.validator in l.validators && x.validator !in Marks(l, xs)
    ensures l.validators[x.validator].inactive != 0
  {
  }

  lemma LedgerOkIff(c: Chain, timeOf: OffenceKey -> int, h: int, t0: int, t: int, l: Ledger, xs: seq<Item>, l': Ledger)
    requires Fits(c, timeOf, h, t0, t, l, xs)
    requires Summary(c.policy, h, h >= c.timedFrom, l, xs, l') && InRange(c.policy, h, l, xs) && Room(l, xs)
    ensures LedgerOk(c.genesis, l') <==> forall x :: x in xs ==> !Late(h, l, x)
  {
    hide RemovalHeight, AlwaysSomeone, EvidenceOk, Marks, Boundary, Sum, ScheduleOk, RemovalsBy, OffencesTraced,
      OffenceOk, IdentityOk, After, OffenceRecorded, InRange, Late;
    OffenceCount(l, xs, l');
    OffencesStayOk(c, timeOf, h, t0, t, l, xs, l');
    forall k | k in l.validators
      ensures k in l'.validators && IdentityOk(l'.validators[k]) && l'.validators[k].power == l.validators[k].power
    {
      IdentitiesStayOk(c, timeOf, h, t0, t, l, xs, l', k);
    }
    assert Powers(l'.validators) == Powers(l.validators);
    assert |l'.validators| == |l'.validators.Keys| && |l.validators| == |l.validators.Keys|;
    forall k | k in l'.offences && k !in l.offences
      ensures exists x :: x in xs && KeyOf(x) == k
    {
      assert k in NewKeys(l, xs);
    }
    if x :| x in xs && Late(h, l, x) {
      assert KeyOf(x) !in l.offences by { LateIsNew(h, l, x); }
    }
  }

  lemma LateIsNew(h: int, l: Ledger, x: Item)
    requires Late(h, l, x)
    ensures KeyOf(x) !in l.offences
  {
  }

  /** Scheduling these removals leaves a non-empty set exactly when somebody stays. */
  lemma SomeoneIff(c: Chain, timeOf: OffenceKey -> int, h: int, t0: int, t: int, l: Ledger, xs: seq<Item>, l': Ledger)
    requires Fits(c, timeOf, h, t0, t, l, xs)
    requires Summary(c.policy, h, h >= c.timedFrom, l, xs, l')
    ensures RemovalsLeaveSomeone(l'.validators) <==> Marks(l, xs) == {} || exists k :: Stays(c, h, l, xs, k)
  {
    hide RemovalHeight, EvidenceOk, NewKeys, Marks, Boundary, Sum, ScheduleOk, OffencesTraced, OffenceRecorded,
      OffenceOk, LedgerOk, After;
    var marks, removal := Marks(l, xs), RemovalHeight(h, c.policy.epoch);
    RemovalHeightGrows(h - 1, h, c.policy.epoch);
    forall k | k in l.validators
      ensures var id := l'.validators[k];
              && id.active == l.validators[k].active
              && (k in marks ==> id.inactive == removal) && (k !in marks ==> id.inactive == l.validators[k].inactive)
    {
      assert l'.validators[k] == After(c.policy, h, marks, k, l.validators[k]);
      StillHere(c.policy, h, marks, k, l.validators[k]);
    }
    SomeoneBefore(c, timeOf, h, t0, t, l, xs, l');
    if marks != {} {
      var m :| m in marks;
      MarkedWasActive(c, timeOf, h, t0, t, l, xs, m);
      if RemovalsLeaveSomeone(l'.validators) {
        assert SomeoneAt(l'.validators, l'.validators[m].inactive);
        var k :| k in l'.validators && ActiveAt(l'.validators[k], removal);
        assert Stays(c, h, l, xs, k);
      }
      if k :| Stays(c, h, l, xs, k) {
        assert ActiveAt(l'.validators[k], removal);
        assert SomeoneAt(l'.validators, removal);
      }
    }
  }

  /** Before the new removal height, nothing changes. */
  lemma SomeoneBefore(c: Chain, timeOf: OffenceKey -> int, h: int, t0: int, t: int, l: Ledger, xs: seq<Item>,
                      l': Ledger)
    requires Fits(c, timeOf, h, t0, t, l, xs)
    requires Summary(c.policy, h, h >= c.timedFrom, l, xs, l')
    ensures forall g :: 1 <= g < RemovalHeight(h, c.policy.epoch) ==> SomeoneAt(l'.validators, g)
    ensures Marks(l, xs) == {} ==> AlwaysSomeone(l'.validators)
  {
    hide RemovalHeight, EvidenceOk, NewKeys, Marks, Boundary, Sum, ScheduleOk, OffencesTraced, OffenceRecorded,
      OffenceOk, LedgerOk, After, RemovalsBy;
    var marks, removal := Marks(l, xs), RemovalHeight(h, c.policy.epoch);
    forall g | g >= 1 && (g < removal || marks == {})
      ensures SomeoneAt(l'.validators, g)
    {
      assert SomeoneAt(l.validators, g);
      var k :| k in l.validators && ActiveAt(l.validators[k], g);
      assert l'.validators[k] == After(c.policy, h, marks, k, l.validators[k]);
      StillHere(c.policy, h, marks, k, l.validators[k]);
      if k in marks {
        assert ActiveAt(l'.validators[k], g) by { LeavingIsActive(c.policy, h, l.validators[k], g); }
      }
    }
  }

  lemma LeavingIsActive(p: Policy, h: int, id: Identity, g: int)
    requires PolicyOk(p) && h >= 0 && g < RemovalHeight(h, p.epoch) && g >= id.active
    ensures ActiveAt(Leaving(p, h, id), g)
  {
    hide RemovalHeight;
  }

  /** When evidence that passed validation can be applied: exactly when there is
      room, the heights fit, no new offence is late, and somebody stays. */
  lemma EvidenceAppliesIff(c: Chain, timeOf: OffenceKey -> int, h: int, t0: int, t: int, l: Ledger, xs: seq<Item>)
    requires Fits(c, timeOf, h, t0, t, l, xs)
    ensures ApplyEvidence(c, h, l, xs).Some? <==>
              && Room(l, xs) && InRange(c.policy, h, l, xs)
              && (forall x :: x in xs ==> !Late(h, l, x))
              && (Marks(l, xs) == {} || exists k :: Stays(c, h, l, xs, k))
  {
    hide *;
    FitsIsApplicable(c, timeOf, h, t0, t, l, xs);
    assert PolicyOk(c.policy) && 0 < h <= MAX_INT64 by { FitsBounds(c, timeOf, h, t0, t, l, xs); }
    RecordsSummarised(c.policy, h, h >= c.timedFrom, l, xs);
    var r := ApplyRecords(c.policy, h, h >= c.timedFrom, l, xs);
    ApplyEvidenceIs(c, h, l, xs);
    if r.Some? {
      LedgerOkIff(c, timeOf, h, t0, t, l, xs, r.value);
      SomeoneIff(c, timeOf, h, t0, t, l, xs, r.value);
    }
  }

  lemma FitsBounds(c: Chain, timeOf: OffenceKey -> int, h: int, t0: int, t: int, l: Ledger, xs: seq<Item>)
    requires Fits(c, timeOf, h, t0, t, l, xs)
    ensures PolicyOk(c.policy) && 0 < h <= MAX_INT64 && t0 <= t && LedgerInv(c, timeOf, l, h - 1, t0)
            && EvidenceOk(c.policy, l.validators, h, t, xs)
  {
  }

  lemma ApplyEvidenceIs(c: Chain, h: int, l: Ledger, xs: seq<Item>)
    requires PolicyOk(c.policy) && h <= MAX_INT64
    ensures var r, r' := ApplyRecords(c.policy, h, h >= c.timedFrom, l, xs), ApplyEvidence(c, h, l, xs);
            && (r'.Some? <==> r.Some? && RemovalsLeaveSomeone(r.value.validators) && LedgerOk(c.genesis, r.value))
            && (r'.Some? ==> r' == r)
  {
  }

  function ExampleChain(): Chain {
    Chain(Policy(10, 0, 500, 10_000, 100_000, 604_800_000_000_000), {1, 2}, 1_000)
  }

  function ExampleLedger(): Ledger {
    Ledger(map[1 := Identity(1, 1, 21, 0), 2 := Identity(1, 1, 0, 0)],
           map[OffenceKey(1, 5) := Offence(DUPLICATE_VOTE, 10, 500, 0, 21, None)], map[])
  }

  lemma ExampleLedgerOk()
    ensures LedgerOk(ExampleChain().genesis, ExampleLedger())
    ensures |ExampleLedger().validators| == 2 && Sum(ActiveSet(ExampleLedger().validators, 6)) == 2
  {
    var v := ExampleLedger().validators;
    assert ActiveSet(v, 6) == map[1 := 1, 2 := 1] == Powers(v);
    var m: map<Key, int> := map[];
    SumUpdate(m, 1, 1);
    SumUpdate(m[1 := 1], 2, 1);
    assert m[1 := 1][2 := 1] == map[1 := 1, 2 := 1];
    assert v.Keys == {1, 2};
    assert ExampleLedger().offences.Keys == {OffenceKey(1, 5)};
  }

  lemma ExampleInv(timeOf: OffenceKey -> int)
    ensures PolicyOk(ExampleChain().policy) && LedgerInv(ExampleChain(), timeOf, ExampleLedger(), 19, 0)
  {
    hide LedgerOk, ActiveSet, Sum;
    ExampleLedgerOk();
    var v := ExampleLedger().validators;
    assert RemovalHeight(19, 10) == 21;
    forall g | g >= 1
      ensures SomeoneAt(v, g)
    {
      assert ActiveAt(v[2], g);
    }
    assert 1 in ExampleChain().genesis;
  }

  /** Late evidence that passes validation stops the block: validator 1 was caught
      at height 10 and leaves at 21; evidence for its height 6 arrives at height 20. */
  lemma LateEvidenceExample(timeOf: OffenceKey -> int, x: Item)
    requires x == Item(DUPLICATE_VOTE, 1, 1, 6, 0, 2)
    ensures PolicyOk(ExampleChain().policy) && LedgerInv(ExampleChain(), timeOf, ExampleLedger(), 19, 0)
    ensures EvidenceOk(ExampleChain().policy, ExampleLedger().validators, 20, 0, [x])
    ensures ApplyEvidence(ExampleChain(), 20, ExampleLedger(), [x]).None?
  {
    hide LedgerInv, Sum, ActiveSet, ApplyEvidence, LedgerOk;
    ExampleInv(timeOf);
    ExampleLedgerOk();
    var c, l := ExampleChain(), ExampleLedger();
    assert ItemOk(c.policy, l.validators, 20, 0, x);
    assert x in [x] && Late(20, l, x);
    EvidenceAppliesIff(c, timeOf, 20, 0, 0, l, [x]);
  }

  // ---- Each phase keeps the ledger invariant and the sets already fixed ----

  ghost predicate SameUpTo(v: map<Key, Identity>, v': map<Key, Identity>, g: int) {
    forall x {:trigger ActiveSet(v', x)} :: x <= g ==> ActiveSet(v', x) == ActiveSet(v, x)
  }

  lemma CompactionKeepsInv(c: Chain, timeOf: OffenceKey -> int, l: Ledger, h: int, t0: int, t: int)
    requires PolicyOk(c.policy) && h >= 1 && t0 <= t && LedgerInv(c, timeOf, l, h - 1, t0)
    ensures !FromTheFuture(l, t)
    ensures LedgerInv(c, timeOf, Compact(c.policy, l, h, t), h - 1, t0)
  {
    hide Stale, RemovalsBy, AlwaysSomeone, ScheduleOk, Sum, IdentityOk;
    var l' := Compact(c.policy, l, h, t);
    SubsetSize(l'.offences.Keys, l.offences.Keys);
    assert |l'.offences| == |l'.offences.Keys| && |l.offences| == |l.offences.Keys|;
    forall k | k in l.offences
      ensures OffenceTraced(timeOf, l, h - 1, t0, k) && OffenceOk(l.validators, k, l.offences[k])
    {
    }
  }

  lemma EvidenceKeepsInv(c: Chain, timeOf: OffenceKey -> int, h: int, t0: int, t: int, l: Ledger, xs: seq<Item>)
    requires Fits(c, timeOf, h, t0, t, l, xs) && ApplyEvidence(c, h, l, xs).Some?
    requires forall x :: x in xs ==> x.time == timeOf(KeyOf(x))
    ensures var l' := ApplyEvidence(c, h, l, xs).value;
            && LedgerInv(c, timeOf, l', h, t)
            && SameUpTo(l.validators, l'.validators, h + 1)
            && l'.offences.Keys == l.offences.Keys + NewKeys(l, xs)
  {
    hide *;
    FitsBounds(c, timeOf, h, t0, t, l, xs);
    FitsIsApplicable(c, timeOf, h, t0, t, l, xs);
    RecordsSummarised(c.policy, h, h >= c.timedFrom, l, xs);
    ApplyEvidenceIs(c, h, l, xs);
    var l' := ApplyEvidence(c, h, l, xs).value;
    SummaryKeepsInv(c, timeOf, h, t0, t, l, xs, l');
  }

  lemma SummaryKeepsInv(c: Chain, timeOf: OffenceKey -> int, h: int, t0: int, t: int, l: Ledger, xs: seq<Item>,
                        l': Ledger)
    requires Fits(c, timeOf, h, t0, t, l, xs)
    requires forall x :: x in xs ==> x.time == timeOf(KeyOf(x))
    requires Summary(c.policy, h, h >= c.timedFrom, l, xs, l') && InRange(c.policy, h, l, xs)
    requires RemovalsLeaveSomeone(l'.validators) && LedgerOk(c.genesis, l')
    ensures LedgerInv(c, timeOf, l', h, t)
    ensures SameUpTo(l.validators, l'.validators, h + 1)
    ensures l'.offences.Keys == l.offences.Keys + NewKeys(l, xs)
  {
    hide RemovalHeight, EvidenceOk, Marks, Boundary, Sum, AlwaysSomeone, OffencesTraced, OffenceRecorded, OffenceOk,
      After, IdentityScheduled, RemovalsLeaveSomeone;
    forall k | k in l.validators
      ensures k in l'.validators && l'.validators[k].power == l.validators[k].power
      ensures IdentityScheduled(c.policy, c.genesis, k, l'.validators[k])
      ensures l'.validators[k].inactive != 0 ==> l'.validators[k].inactive <= RemovalHeight(h, c.policy.epoch)
      ensures forall g :: g <= h + 1 ==> (ActiveAt(l'.validators[k], g) <==> ActiveAt(l.validators[k], g))
    {
      IdentitiesStayOk(c, timeOf, h, t0, t, l, xs, l', k);
    }
    assert AlwaysSomeone(l'.validators) by { StillSomeone(c, l'); }
    assert OffencesTraced(timeOf, l', h, t) by { StillTraced(c, timeOf, h, t0, t, l, xs, l'); }
    forall g | g <= h + 1
      ensures ActiveSet(l'.validators, g) == ActiveSet(l.validators, g)
    {
    }
  }

  lemma StillSomeone(c: Chain, l: Ledger)
    requires PolicyOk(c.policy) && c.genesis != {} && LedgerOk(c.genesis, l) && RemovalsLeaveSomeone(l.validators)
    requires ScheduleOk(c.policy, c.genesis, l.validators)
    ensures AlwaysSomeone(l.validators)
  {
    var first :| first in c.genesis;
    assert IdentityScheduled(c.policy, c.genesis, first, l.validators[first]);
    forall g | g >= 1
      ensures SomeoneAt(l.validators, g)
    {
      RemovalChecksSuffice(l.validators, first, g);
    }
  }

  lemma StillTraced(c: Chain, timeOf: OffenceKey -> int, h: int, t0: int, t: int, l: Ledger, xs: seq<Item>, l': Ledger)
    requires Fits(c, timeOf, h, t0, t, l, xs)
    requires forall x :: x in xs ==> x.time == timeOf(KeyOf(x))
    requires Summary(c.policy, h, h >= c.timedFrom, l, xs, l')
    ensures OffencesTraced(timeOf, l', h, t)
  {
    hide RemovalHeight, EvidenceOk, Marks, Boundary, Sum, LedgerInv, After, Fits;
    FitsBounds(c, timeOf, h, t0, t, l, xs);
    forall k | k in l'.offences
      ensures OffenceTraced(timeOf, l', h, t, k)
    {
      if k in l.offences {
        OldOffenceStays(c, timeOf, h, t0, t, l, xs, l', k);
      } else {
        var x :| x in xs && KeyOf(x) !in l.offences && KeyOf(x) == k;
        ItemOf(c, h, t, l.validators, xs, x);
        assert OffenceRecorded(c.policy, h, h >= c.timedFrom, l', x);
      }
    }
  }

  lemma TxKeepsInv(c: Chain, timeOf: OffenceKey -> int, h: int, t: int, l: Ledger, tx: Tx)
    requires PolicyOk(c.policy) && h >= 1 && LedgerInv(c, timeOf, l, h, t)
    ensures var l' := RunTx(c, h, l, tx);
            LedgerInv(c, timeOf, l', h, t) && SameUpTo(l.validators, l'.validators, h + 1) && l'.offences == l.offences
  {
    hide RemovalsBy, ScheduleOk, AlwaysSomeone, Sum, OffenceOk, IdentityOk, ActiveSet, JoinOk;
    if tx.Join? && JoinOk(c, h, l, tx.candidate, tx.identity, tx.quorum) {
      JoinKeepsInv(c, timeOf, h, t, l, tx);
    } else if tx.Restake? {
      var l' := RunTx(c, h, l, tx);
      forall k | k in l.offences
        ensures OffenceTraced(timeOf, l', h, t, k)
      {
        assert OffenceTraced(timeOf, l, h, t, k);
      }
    }
  }

  lemma GenesisStays(c: Chain, timeOf: OffenceKey -> int, h: int, t: int, l: Ledger)
    requires PolicyOk(c.policy) && h >= 1 && LedgerInv(c, timeOf, l, h, t)
    ensures c.genesis <= l.validators.Keys
  {
  }

  lemma JoinKeepsInv(c: Chain, timeOf: OffenceKey -> int, h: int, t: int, l: Ledger, tx: Tx)
    requires PolicyOk(c.policy) && h >= 1 && LedgerInv(c, timeOf, l, h, t)
    requires tx.Join? && JoinOk(c, h, l, tx.candidate, tx.identity, tx.quorum)
    ensures var l' := l.(validators := l.validators[tx.candidate := tx.identity]);
            LedgerInv(c, timeOf, l', h, t) && SameUpTo(l.validators, l'.validators, h + 1)
  {
    hide RemovalHeight, Boundary, LedgerOk;
    GenesisStays(c, timeOf, h, t, l);
    var l' := l.(validators := l.validators[tx.candidate := tx.identity]);
    forall g | g >= 1
      ensures SomeoneAt(l'.validators, g)
    {
      assert SomeoneAt(l.validators, g);
      var k :| k in l.validators && ActiveAt(l.validators[k], g);
      assert k in l'.validators && ActiveAt(l'.validators[k], g);
    }
    forall g | g <= h + 1
      ensures ActiveSet(l'.validators, g) == ActiveSet(l.validators, g)
    {
    }
    forall k | k in l.offences
      ensures OffenceTraced(timeOf, l', h, t, k)
    {
      assert OffenceTraced(timeOf, l, h, t, k);
    }
  }

  lemma {:induction false} TxsKeepInv(c: Chain, timeOf: OffenceKey -> int, h: int, t: int, l: Ledger, txs: seq<Tx>)
    requires PolicyOk(c.policy) && h >= 1 && LedgerInv(c, timeOf, l, h, t)
    ensures var l' := RunTxs(c, h, l, txs);
            LedgerInv(c, timeOf, l', h, t) && SameUpTo(l.validators, l'.validators, h + 1) && l'.offences == l.offences
    decreases |txs|
  {
    hide LedgerInv, RunTx, ActiveSet;
    if txs != [] {
      var l1 := RunTxs(c, h, l, txs[..|txs| - 1]);
      TxsKeepInv(c, timeOf, h, t, l, txs[..|txs| - 1]);
      TxKeepsInv(c, timeOf, h, t, l1, txs[|txs| - 1]);
    }
  }

  // ---- The folded set ----

  /** Folding the announced updates into a scheduled set gives the next one, and
      only members of the set are removed. */
  lemma FoldFollowsSchedule(v: map<Key, Identity>, h: int)
    requires h >= 0 && forall k :: k in v ==> IdentityOk(v[k])
    ensures Fold(ActiveSet(v, h + 1), Updates(v, h)) == ActiveSet(v, h + 2)
    ensures forall k :: k in Updates(v, h) && Updates(v, h)[k] == 0 ==> k in ActiveSet(v, h + 1)
  {
    var a, u, b := ActiveSet(v, h + 1), Updates(v, h), ActiveSet(v, h + 2);
    forall k
      ensures k in Fold(a, u) <==> k in b
      ensures k in b ==> Fold(a, u)[k] == b[k]
    {
      if k in v {
        assert IdentityOk(v[k]);
      }
    }
  }

  // ---- Slashed once ----

  lemma ExpiryLasts(p: Policy, h: int, t: int, h': int, t': int, offenceHeight: int, offenceTime: int)
    requires h <= h' && t <= t' && Expired(p, h, t, offenceHeight, offenceTime)
    ensures Expired(p, h', t', offenceHeight, offenceTime)
  {
  }

  /** A batch slashes each new offence once and no other. */
  lemma {:induction false} LogIsNewKeys(c: Chain, h: int, l: Ledger, xs: seq<Item>)
    requires PolicyOk(c.policy) && Applicable(c.policy, h, l, xs)
    requires ApplyRecords(c.policy, h, h >= c.timedFrom, l, xs).Some?
    ensures multiset(SlashLog(c, h, l, xs)) == multiset(NewKeys(l, xs))
    decreases |xs|
  {
    hide Summary, ApplyRecord, RemovalsBy, IdentityOk, Room, InRange, NewKeys, Marks, Distinct, PolicyOk;
    if xs == [] {
      NoNewKeys(l);
    } else {
      var ys, x := xs[..|xs| - 1], xs[|xs| - 1];
      assert xs == ys + [x];
      NewIsNotSeen(l, ys, x);
      SetsStep(l, ys, x);
      LogIsNewKeys(c, h, l, ys);
      RecordsSummarised(c.policy, h, h >= c.timedFrom, l, ys);
      var l' := ApplyRecords(c.policy, h, h >= c.timedFrom, l, ys).value;
      assert KeyOf(x) in l'.offences <==> KeyOf(x) in l.offences by {
        SummaryKeys(c.policy, h, h >= c.timedFrom, l, ys, l');
      }
    }
  }

  lemma NoNewKeys(l: Ledger)
    ensures NewKeys(l, []) == {}
  {
  }

  lemma SummaryKeys(p: Policy, h: int, timed: bool, l: Ledger, xs: seq<Item>, l': Ledger)
    requires PolicyOk(p) && h >= 0 && Summary(p, h, timed, l, xs, l')
    ensures l'.offences.Keys == l.offences.Keys + NewKeys(l, xs)
  {
  }

  /** Evidence that is still accepted was never slashed before. */
  lemma NewWasNeverSlashed(c: Chain, timeOf: OffenceKey -> int, h: int, t0: int, t: int, l0: Ledger, l: Ledger,
                           xs: seq<Item>, slashed: multiset<OffenceKey>, k: OffenceKey)
    requires SlashInv(c, timeOf, l0, h - 1, t0, slashed) && t0 <= t
    requires l == Compacted(c, l0, h, t) && OffencesTraced(timeOf, l0, h - 1, t0)
    requires EvidenceOk(c.policy, l.validators, h, t, xs) && (forall x :: x in xs ==> x.time == timeOf(KeyOf(x)))
    requires k in NewKeys(l, xs)
    ensures k !in slashed
  {
    hide EvidenceOk, Sum;
    var x :| x in xs && KeyOf(x) !in l.offences && KeyOf(x) == k;
    ItemOf(c, h, t, l.validators, xs, x);
    assert k in l0.offences ==> OffenceTraced(timeOf, l0, h - 1, t0, k);
    if k in slashed && k !in l0.offences {
      ExpiryLasts(c.policy, h - 1, t0, h, t, k.height, timeOf(k));
    }
  }

  lemma SlashInvStep(c: Chain, timeOf: OffenceKey -> int, h: int, t0: int, t: int, l0: Ledger, l: Ledger, l': Ledger,
                     xs: seq<Item>, slashed: multiset<OffenceKey>)
    requires SlashInv(c, timeOf, l0, h - 1, t0, slashed) && t0 <= t
    requires l == Compacted(c, l0, h, t) && OffencesTraced(timeOf, l0, h - 1, t0)
    requires EvidenceOk(c.policy, l.validators, h, t, xs) && (forall x :: x in xs ==> x.time == timeOf(KeyOf(x)))
    requires l'.offences.Keys == l.offences.Keys + NewKeys(l, xs)
    ensures SlashInv(c, timeOf, l', h, t, slashed + multiset(NewKeys(l, xs)))
  {
    hide EvidenceOk, NewKeys, Expired;
    var news := NewKeys(l, xs);
    forall k
      ensures (slashed + multiset(news))[k] <= 1
    {
      if k in news {
        NewWasNeverSlashed(c, timeOf, h, t0, t, l0, l, xs, slashed, k);
      }
    }
    forall k | k in slashed + multiset(news)
      ensures k in l'.offences || Expired(c.policy, h, t, k.height, timeOf(k))
    {
      if k in slashed && k in l0.offences && k !in l.offences {
        assert OffenceTraced(timeOf, l0, h - 1, t0, k);
      } else if k in slashed && k !in l0.offences {
        ExpiryLasts(c.policy, h - 1, t0, h, t, k.height, timeOf(k));
      }
    }
  }

  // ---- Main theorems ----

  /** What a finalized block has gone through. */
  ghost predicate Finalized(c: Chain, s: State, b: Block, s': State)
    requires PolicyOk(c.policy) && |s.sets| > 0
  {
    var h, l := s.height + 1, Compacted(c, s.ledger, s.height + 1, b.time);
    && h <= MAX_INT64
    && EvidenceOk(c.policy, l.validators, h, b.time, b.evidence)
    && ApplyEvidence(c, h, l, b.evidence).Some?
    && var l'' := RunTxs(c, h, ApplyEvidence(c, h, l, b.evidence).value, b.txs);
       s' == State(l'', h, b.time, s.sets + [Fold(s.sets[|s.sets| - 1], Updates(l''.validators, h))],
                   s.slashed + multiset(SlashLog(c, h, l, b.evidence)))
  }

  lemma StepIsFinalized(c: Chain, s: State, b: Block)
    requires PolicyOk(c.policy) && |s.sets| > 0 && Step(c, s, b).Some?
    ensures Finalized(c, s, b, Step(c, s, b).value)
  {
    hide EvidenceOk, ApplyEvidence, ScheduleOk, RunTxs, SlashLog, Fold, Compacted, FromTheFuture, Updates;
  }

  lemma StepKeepsInv(c: Chain, timeOf: OffenceKey -> int, s: State, b: Block)
    requires Inv(c, timeOf, s) && |s.sets| > 0 && Admissible(timeOf, s.time, b) && Step(c, s, b).Some?
    ensures Inv(c, timeOf, Step(c, s, b).value)
    ensures s.sets < Step(c, s, b).value.sets && Step(c, s, b).value.time == b.time
  {
    hide Step, LedgerInv, EvidenceOk, ApplyEvidence, SlashInv, SetsInv, RunTxs, SlashLog, Fold, Compacted, Updates,
      NewKeys, PolicyOk, OffencesTraced;
    var h, t := s.height + 1, b.time;
    StepIsFinalized(c, s, b);
    CompactedKeepsInv(c, timeOf, s.ledger, h, s.time, t);
    var l := Compacted(c, s.ledger, h, t);
    EvidenceKeepsInv(c, timeOf, h, s.time, t, l, b.evidence);
    LogOf(c, timeOf, h, s.time, t, l, b.evidence);
    var l' := ApplyEvidence(c, h, l, b.evidence).value;
    TxsKeepInv(c, timeOf, h, t, l', b.txs);
    var l'' := RunTxs(c, h, l', b.txs);
    SetsStepAhead(c, timeOf, h, t, s.ledger.validators, l'', s.sets);
    SlashInvStep(c, timeOf, h, s.time, t, s.ledger, l, l'', b.evidence, s.slashed);
  }

  lemma CompactedKeepsInv(c: Chain, timeOf: OffenceKey -> int, l: Ledger, h: int, t0: int, t: int)
    requires PolicyOk(c.policy) && h >= 1 && t0 <= t && LedgerInv(c, timeOf, l, h - 1, t0)
    ensures LedgerInv(c, timeOf, Compacted(c, l, h, t), h - 1, t0)
    ensures Compacted(c, l, h, t).validators == l.validators
    ensures OffencesTraced(timeOf, l, h - 1, t0)
  {
    hide LedgerOk, RemovalsBy, ScheduleOk, AlwaysSomeone, OffencesTraced;
    CompactionKeepsInv(c, timeOf, l, h, t0, t);
  }

  lemma TracedOf(c: Chain, timeOf: OffenceKey -> int, l: Ledger, h: int, t: int)
    requires PolicyOk(c.policy) && h >= 0 && LedgerInv(c, timeOf, l, h, t)
    ensures OffencesTraced(timeOf, l, h, t) && forall k :: k in l.validators ==> IdentityOk(l.validators[k])
  {
  }

  lemma LogOf(c: Chain, timeOf: OffenceKey -> int, h: int, t0: int, t: int, l: Ledger, xs: seq<Item>)
    requires Fits(c, timeOf, h, t0, t, l, xs) && ApplyEvidence(c, h, l, xs).Some?
    ensures multiset(SlashLog(c, h, l, xs)) == multiset(NewKeys(l, xs))
  {
    hide *;
    FitsBounds(c, timeOf, h, t0, t, l, xs);
    FitsIsApplicable(c, timeOf, h, t0, t, l, xs);
    ApplyEvidenceIs(c, h, l, xs);
    LogIsNewKeys(c, h, l, xs);
  }

  lemma SetsStepAhead(c: Chain, timeOf: OffenceKey -> int, h: int, t: int, v: map<Key, Identity>, l: Ledger,
                      sets: seq<map<Key, int>>)
    requires PolicyOk(c.policy) && h >= 1 && LedgerInv(c, timeOf, l, h, t)
    requires SetsInv(v, h - 1, sets) && SameUpTo(v, l.validators, h + 1)
    ensures SetsInv(l.validators, h, sets + [Fold(sets[|sets| - 1], Updates(l.validators, h))])
  {
    hide LedgerInv, ActiveSet, Fold, Updates;
    TracedOf(c, timeOf, l, h, t);
    assert sets[|sets| - 1] == ActiveSet(v, h + 1) == ActiveSet(l.validators, h + 1);
    FoldFollowsSchedule(l.validators, h);
  }

  /** Over every run: the folded sets are the scheduled ones and stay as they
      were, and each offence is slashed at most once. */
  lemma {:induction false} RunKeepsInv(c: Chain, timeOf: OffenceKey -> int, s: State, bs: seq<Block>)
    requires Inv(c, timeOf, s) && |s.sets| > 0 && AdmissibleRun(timeOf, s.time, bs) && Run(c, s, bs).Some?
    ensures Inv(c, timeOf, Run(c, s, bs).value)
    ensures s.sets <= Run(c, s, bs).value.sets
    decreases |bs|
  {
    hide LedgerInv, SetsInv, SlashInv, Step, Admissible;
    if bs != [] {
      StepKeepsInv(c, timeOf, s, bs[0]);
      RunKeepsInv(c, timeOf, Step(c, s, bs[0]).value, bs[1..]);
    }
  }

  /** What the invariant says to the consensus engine and to a delegator. */
  lemma ScheduledSet(c: Chain, timeOf: OffenceKey -> int, s: State, g: int)
    requires Inv(c, timeOf, s) && 1 <= g <= s.height + 2
    ensures |s.sets| == s.height + 2 && s.sets[g - 1] == ActiveSet(s.ledger.validators, g)
    ensures s.sets[g - 1] != map[] && Sum(s.sets[g - 1]) > 0
    ensures forall k :: s.slashed[k] <= 1
    ensures forall k :: k in s.ledger.offences ==>
              k.validator in s.ledger.validators
                && s.ledger.offences[k].removal == s.ledger.validators[k.validator].inactive
  {
    hide RemovalHeight;
    var v := s.ledger.validators;
    assert SomeoneAt(v, g);
    var k :| k in v && ActiveAt(v[k], g);
    assert k in ActiveSet(v, g);
    SumPositive(ActiveSet(v, g));
    forall o | o in s.ledger.offences
      ensures o.validator in v && s.ledger.offences[o].removal == v[o.validator].inactive
    {
      assert OffenceTraced(timeOf, s.ledger, s.height, s.time, o);
    }
  }

  /** Evidence never finds a later removal than the one it would schedule, so the
      branch that moves a removal forward is unreachable. */
  lemma EarlierRemovalUnreachable(c: Chain, timeOf: OffenceKey -> int, h: int, t0: int, t: int, l: Ledger,
                                  xs: seq<Item>, x: Item)
    requires Fits(c, timeOf, h, t0, t, l, xs) && x in xs
    ensures x.validator in l.validators && h <= MAX_INT64 && c.policy.epoch <= MAX_INT64
    ensures var removal, id := NextEpochRemovalHeight(h, c.policy.epoch), l.validators[x.validator];
            removal.Some? && id.inactive != 0 ==> !(removal.value < id.inactive)
  {
    hide RemovalHeight, LedgerOk, ScheduleOk, AlwaysSomeone, OffencesTraced, EvidenceOk;
    ItemOf(c, h, t, l.validators, xs, x);
    RemovalHeightGrows(h - 1, h, c.policy.epoch);
  }

  lemma GenesisInv(c: Chain, timeOf: OffenceKey -> int, l: Ledger)
    requires PolicyOk(c.policy) && c.genesis != {} && LedgerOk(c.genesis, l) && l.offences == map[]
    requires ScheduleOk(c.policy, c.genesis, l.validators)
    requires forall k :: k in l.validators ==> l.validators[k].inactive == 0
    ensures Inv(c, timeOf, State(l, 0, ZERO_TIME, [ActiveSet(l.validators, 1), ActiveSet(l.validators, 2)], multiset{}))
  {
    StillSomeone(c, l);
  }
}

/** The rules of evidence and admission, in terms of heights, times and stakes: which
    evidence is proper, which blocks go through, and what a block leaves of each
    validator, offence and stake. */
module EvidenceRules {
  import opened Wrappers
  import opened Sums
  import opened Lifecycle
  import opened ValidatorSets

  /** Too old by blocks and by time. The time difference saturates at 64 bits, so an age
      limit of all 64 bits is never exceeded. */
  ghost predicate TooOld(p: Policy, h: int, t: int, height: int, time: int) {
    h - height > p.maxAgeBlocks && t - time > p.maxAgeNanos && p.maxAgeNanos < MAX_INT64
  }

  lemma ExpiredIff(p: Policy, h: int, t: int, height: int, time: int)
    requires PolicyOk(p)
    ensures Expired(p, h, t, height, time) <==> TooOld(p, h, t, height, time)
  {
  }

  /** In the set at height `g`. */
  ghost predicate Serves(id: Identity, g: int) {
    id.active <= g && (id.inactive == 0 || g < id.inactive)
  }

  ghost function PowersAt(v: map<Key, Identity>, g: int): map<Key, int> {
    map k | k in v && Serves(v[k], g) :: v[k].power
  }

  /** A known kind of offence of a validator that served at a past height, with the power
      and the total of that height, not from the future and not too old. */
  ghost predicate Proper(p: Policy, v: map<Key, Identity>, h: int, t: int, x: Item) {
    && (x.kind == 1 || x.kind == 2)
    && x.validator in v && 0 < x.height < h && Serves(v[x.validator], x.height)
    && x.power == v[x.validator].power && x.totalPower == Sum(PowersAt(v, x.height))
    && x.time != ZERO_TIME && x.time <= t && !TooOld(p, h, t, x.height, x.time)
  }

  lemma ItemIsProper(p: Policy, v: map<Key, Identity>, h: int, t: int, x: Item)
    requires PolicyOk(p)
    ensures ItemOk(p, v, h, t, x) <==> Proper(p, v, h, t, x)
  {
    hide Expired, Sum;
    ExpiredIff(p, h, t, x.height, x.time);
    assert ActiveSet(v, x.height) == PowersAt(v, x.height);
  }

  /** Evidence is accepted exactly when every item is proper, no two are of the same
      validator and height, and there are no more of them than validators. */
  lemma EvidenceIsProper(p: Policy, v: map<Key, Identity>, h: int, t: int, xs: seq<Item>)
    requires PolicyOk(p)
    ensures EvidenceOk(p, v, h, t, xs) <==>
              && |xs| <= |v|
              && (forall x :: x in xs ==> Proper(p, v, h, t, x))
              && (forall i, j :: 0 <= i < j < |xs| ==>
                    xs[i].validator != xs[j].validator || xs[i].height != xs[j].height)
  {
    hide ItemOk, Proper;
    forall i | 0 <= i < |xs|
      ensures ItemOk(p, v, h, t, xs[i]) <==> Proper(p, v, h, t, xs[i])
    {
      ItemIsProper(p, v, h, t, xs[i]);
    }
    forall i, j | 0 <= i < j < |xs|
      ensures KeyOf(xs[i]) != KeyOf(xs[j]) <==> xs[i].validator != xs[j].validator || xs[i].height != xs[j].height
    {
    }
    if forall x :: x in xs ==> Proper(p, v, h, t, x) {
      assert forall i :: 0 <= i < |xs| ==> Proper(p, v, h, t, xs[i]);
    }
  }

  // ---- Compaction ----

  /** Exactly the timed offences that are too old go, and only once offences are timed. */
  lemma CompactionIs(c: Chain, l: Ledger, h: int, t: int, k: OffenceKey)
    requires PolicyOk(c.policy)
    ensures var l' := Compacted(c, l, h, t);
            && l' == l.(offences := l'.offences)
            && (k in l'.offences <==>
                  && k in l.offences
                  && !(h >= c.timedFrom && l.offences[k].time.Some?
                       && TooOld(c.policy, h, t, k.height, l.offences[k].time.value)))
            && (k in l'.offences ==> l'.offences[k] == l.offences[k])
  {
    hide Expired;
    if k in l.offences && l.offences[k].time.Some? {
      ExpiredIff(c.policy, h, t, k.height, l.offences[k].time.value);
    }
  }

  // ---- Blocks ----

  /** A block goes through exactly when its evidence is proper and can be applied: there
      is room for the new offences, the heights fit, no offender already leaves in less
      than two blocks, and somebody stays. */
  lemma BlockRunsIff(c: Chain, timeOf: OffenceKey -> int, s: State, b: Block)
    requires Inv(c, timeOf, s) && |s.sets| > 0 && Admissible(timeOf, s.time, b)
    ensures var h, l := s.height + 1, Compacted(c, s.ledger, s.height + 1, b.time);
            Step(c, s, b).Some? <==>
              && h <= MAX_INT64 && b.time != ZERO_TIME
              && EvidenceOk(c.policy, s.ledger.validators, h, b.time, b.evidence)
              && Room(l, b.evidence) && InRange(c.policy, h, l, b.evidence)
              && (forall x :: x in b.evidence ==> !Late(h, l, x))
              && (Marks(l, b.evidence) == {} || exists k :: Stays(c, h, l, b.evidence, k))
  {
    hide LedgerInv, SetsInv, SlashInv, EvidenceOk, ApplyEvidence, Room, InRange, Late, Marks, Stays, PolicyOk,
      Compacted, FromTheFuture, RunTxs, SlashLog, ScheduleOk;
    var h := s.height + 1;
    NotFromTheFuture(c, timeOf, s.ledger, h, s.time, b.time);
    CompactedKeepsInv(c, timeOf, s.ledger, h, s.time, b.time);
    var l := Compacted(c, s.ledger, h, b.time);
    CompactedValidators(c, s.ledger, h, b.time);
    ScheduleOf(c, timeOf, l, h - 1, s.time);
    if h <= MAX_INT64 && EvidenceOk(c.policy, l.validators, h, b.time, b.evidence) {
      EvidenceAppliesIff(c, timeOf, h, s.time, b.time, l, b.evidence);
    }
  }

  lemma NotFromTheFuture(c: Chain, timeOf: OffenceKey -> int, l: Ledger, h: int, t0: int, t: int)
    requires PolicyOk(c.policy) && h >= 1 && t0 <= t && LedgerInv(c, timeOf, l, h - 1, t0)
    ensures !FromTheFuture(l, t)
  {
    CompactionKeepsInv(c, timeOf, l, h, t0, t);
  }

  lemma CompactedValidators(c: Chain, l: Ledger, h: int, t: int)
    ensures Compacted(c, l, h, t).validators == l.validators && Compacted(c, l, h, t).stakes == l.stakes
  {
  }

  lemma ScheduleOf(c: Chain, timeOf: OffenceKey -> int, l: Ledger, h: int, t: int)
    requires PolicyOk(c.policy) && h >= 0 && LedgerInv(c, timeOf, l, h, t)
    ensures ScheduleOk(c.policy, c.genesis, l.validators)
  {
  }

  /** `k` has an offence in the evidence that is not on record yet. */
  ghost predicate Offends(l: Ledger, xs: seq<Item>, k: Key) {
    exists x :: x in xs && x.validator == k && OffenceKey(k, x.height) !in l.offences
  }

  /** The removal height: the first height of an epoch at least two blocks ahead. */
  ghost predicate IsRemoval(p: Policy, h: int, r: int)
    requires p.epoch >= 2
  {
    && r >= h + 2 && (r - 1) % p.epoch == 0
    && forall g :: g >= h + 2 && Boundary(p.epoch, g) ==> r <= g
  }

  /** What evidence leaves: an offender that was staying leaves at the removal height and
      is unbonded the policy's epochs later, everybody else is as before; each new offence
      is on record with its kind, height, rate, removal height and time; nothing else is. */
  lemma EvidenceLeaves(c: Chain, timeOf: OffenceKey -> int, h: int, t0: int, t: int, l: Ledger, xs: seq<Item>, k: Key)
    requires Fits(c, timeOf, h, t0, t, l, xs) && ApplyEvidence(c, h, l, xs).Some? && k in l.validators
    ensures var l', p, id := ApplyEvidence(c, h, l, xs).value, c.policy, l.validators[k];
            && l'.validators.Keys == l.validators.Keys
            && (if id.inactive == 0 && Offends(l, xs, k)
                then && l'.validators[k].power == id.power && l'.validators[k].active == id.active
                     && IsRemoval(p, h, l'.validators[k].inactive)
                     && l'.validators[k].unbonding ==
                        (if p.unbondingEpochs > 0 then l'.validators[k].inactive + p.unbondingEpochs * p.epoch
                         else id.unbonding)
                else l'.validators[k] == id)
  {
    hide Inv, LedgerInv, EvidenceOk, NewKeys, Room, InRange, RemovalHeight, Boundary, OffenceRecorded, LedgerOk,
      RemovalsLeaveSomeone, ApplyRecords, PolicyOk, IdentityOk, Distinct, RemovalsBy;
    FitsBounds(c, timeOf, h, t0, t, l, xs);
    FitsIsApplicable(c, timeOf, h, t0, t, l, xs);
    RecordsSummarised(c.policy, h, h >= c.timedFrom, l, xs);
    ApplyEvidenceIs(c, h, l, xs);
    RemovalIs(c.policy, h);
    MarksAreOffenders(l, xs, k);
  }

  lemma RemovalIs(p: Policy, h: int)
    requires PolicyOk(p) && h >= 0
    ensures IsRemoval(p, h, RemovalHeight(h, p.epoch))
  {
    hide RemovalHeight;
    var r := RemovalHeight(h, p.epoch);
    assert Boundary(p.epoch, r);
    forall g | g >= h + 2 && Boundary(p.epoch, g)
      ensures r <= g
    {
      RemovalHeightIsLeast(h, p.epoch, g);
    }
  }

  lemma MarksAreOffenders(l: Ledger, xs: seq<Item>, k: Key)
    requires k in l.validators
    ensures k in Marks(l, xs) <==> l.validators[k].inactive == 0 && Offends(l, xs, k)
  {
    if k in Marks(l, xs) {
      var x :| x in xs && KeyOf(x) !in l.offences && x.validator in l.validators
        && l.validators[x.validator].inactive == 0 && x.validator == k;
      assert OffenceKey(k, x.height) !in l.offences;
    }
    if l.validators[k].inactive == 0 && Offends(l, xs, k) {
      var x :| x in xs && x.validator == k && OffenceKey(k, x.height) !in l.offences;
      assert KeyOf(x) !in l.offences;
    }
  }

  /** The offences on record after evidence. */
  lemma OffencesAre(c: Chain, timeOf: OffenceKey -> int, h: int, t0: int, t: int, l: Ledger, xs: seq<Item>,
                    k: OffenceKey)
    requires Fits(c, timeOf, h, t0, t, l, xs) && ApplyEvidence(c, h, l, xs).Some?
    ensures var l' := ApplyEvidence(c, h, l, xs).value;
            && (k in l.offences ==> k in l'.offences && l'.offences[k] == l.offences[k])
            && (k in l'.offences && k !in l.offences ==>
                  exists x :: x in xs && x.validator == k.validator && x.height == k.height)
    ensures forall x :: x in xs && OffenceKey(x.validator, x.height) !in l.offences ==>
              Recorded(c, h, ApplyEvidence(c, h, l, xs).value, x)
  {
    hide LedgerInv, EvidenceOk, Room, InRange, RemovalHeight, LedgerOk, RemovalsLeaveSomeone, ApplyRecords, PolicyOk,
      Applicable, Marks, After, Recorded;
    FitsBounds(c, timeOf, h, t0, t, l, xs);
    FitsIsApplicable(c, timeOf, h, t0, t, l, xs);
    RecordsSummarised(c.policy, h, h >= c.timedFrom, l, xs);
    ApplyEvidenceIs(c, h, l, xs);
    var l' := ApplyEvidence(c, h, l, xs).value;
    forall x | x in xs && OffenceKey(x.validator, x.height) !in l.offences
      ensures Recorded(c, h, l', x)
    {
      assert KeyOf(x) !in l.offences;
      RecordedOf(c, h, l', x);
    }
    if k in l'.offences && k !in l.offences {
      assert k in NewKeys(l, xs);
    }
  }

  ghost predicate Recorded(c: Chain, h: int, l: Ledger, x: Item) {
    var k := OffenceKey(x.validator, x.height);
    && k in l.offences && x.validator in l.validators
    && l.offences[k].kind == x.kind && l.offences[k].observed == h
    && (x.kind == 1 ==> l.offences[k].bps == c.policy.duplicateBps)
    && (x.kind == 2 ==> l.offences[k].bps == c.policy.lightBps)
    && l.offences[k].removal == l.validators[x.validator].inactive
    && l.offences[k].time == (if h >= c.timedFrom then Some(x.time) else None)
  }

  lemma RecordedOf(c: Chain, h: int, l: Ledger, x: Item)
    requires OffenceRecorded(c.policy, h, h >= c.timedFrom, l, x)
    ensures Recorded(c, h, l, x)
  {
  }

  // ---- Stakes ----

  /** What the new offences of `k` among `xs` have cost, by their records. */
  ghost function Cost(l: Ledger, l': Ledger, xs: seq<Item>, k: Key): nat {
    if xs == [] then 0
    else
      var x := xs[|xs| - 1];
      Cost(l, l', xs[..|xs| - 1], k)
      + if x.validator == k && KeyOf(x) !in l.offences && KeyOf(x) in l'.offences then l'.offences[KeyOf(x)].amount
        else 0
  }

  lemma {:induction false} CostStays(l: Ledger, l1: Ledger, l2: Ledger, xs: seq<Item>, k: Key)
    requires forall x :: x in xs && KeyOf(x) !in l.offences ==>
               KeyOf(x) in l1.offences && KeyOf(x) in l2.offences && l1.offences[KeyOf(x)] == l2.offences[KeyOf(x)]
    ensures Cost(l, l1, xs, k) == Cost(l, l2, xs, k)
    decreases |xs|
  {
    if xs != [] {
      assert forall x :: x in xs[..|xs| - 1] ==> x in xs;
      CostStays(l, l1, l2, xs[..|xs| - 1], k);
    }
  }

  /** Every stake falls by exactly what the records of its new offences say. */
  lemma {:induction false} StakesAre(p: Policy, h: int, timed: bool, l: Ledger, xs: seq<Item>, k: Key)
    requires PolicyOk(p) && Applicable(p, h, l, xs) && ApplyRecords(p, h, timed, l, xs).Some?
    ensures var l' := ApplyRecords(p, h, timed, l, xs).value;
            StakeOf(l', k) == StakeOf(l, k) - Cost(l, l', xs, k)
    decreases |xs|
  {
    hide RemovalHeight, Marks, After, NextEpochRemovalHeight, ApplyRecord, IdentityOk, RemovalsBy, OffenceRecorded;
    if xs != [] {
      var ys, x := xs[..|xs| - 1], xs[|xs| - 1];
      assert xs == ys + [x];
      NewIsNotSeen(l, ys, x);
      assert Applicable(p, h, l, ys) by { assert forall y :: y in ys ==> y in xs; }
      StakesAre(p, h, timed, l, ys, k);
      RecordsSummarised(p, h, timed, l, ys);
      var l1, l2 := ApplyRecords(p, h, timed, l, ys).value, ApplyRecords(p, h, timed, l, xs).value;
      OneCost(p, h, timed, l, l1, ys, x, k);
      forall y | y in ys && KeyOf(y) !in l.offences
        ensures KeyOf(y) in l1.offences && KeyOf(y) in l2.offences && l1.offences[KeyOf(y)] == l2.offences[KeyOf(y)]
      {
        assert KeyOf(y) in NewKeys(l, ys);
      }
      CostStays(l, l1, l2, ys, k);
    }
  }

  lemma OneCost(p: Policy, h: int, timed: bool, l: Ledger, l1: Ledger, ys: seq<Item>, x: Item, k: Key)
    requires PolicyOk(p) && 0 < h <= MAX_INT64 && ApplyRecord(p, h, timed, l1, x).Some?
    requires l1.offences.Keys == l.offences.Keys + NewKeys(l, ys) && KeyOf(x) !in NewKeys(l, ys)
    ensures var l2 := ApplyRecord(p, h, timed, l1, x).value;
            && (forall o :: o in l1.offences ==> o in l2.offences && l2.offences[o] == l1.offences[o])
            && (KeyOf(x) !in l.offences ==> KeyOf(x) in l2.offences)
            && StakeOf(l2, k) == StakeOf(l1, k)
                 - (if x.validator == k && KeyOf(x) !in l.offences then l2.offences[KeyOf(x)].amount else 0)
  {
    hide NextEpochRemovalHeight, Marked;
    if KeyOf(x) !in l1.offences {
      NewOffenceIsSlashed(p, h, timed, l1, x);
    }
  }

  // ---- Admission ----

  lemma LedgerWith(c: Chain, l: Ledger, k: Key, id: Identity)
    requires LedgerOk(c.genesis, l) && k !in l.validators
    requires id.power > 0 && id.active > 0 && id.inactive == 0 && id.unbonding == 0
    ensures LedgerOk(c.genesis, l.(validators := l.validators[k := id])) <==>
              |l.validators| < 4096 && Sum(Powers(l.validators)) + id.power <= MAX_POWER
    ensures Sum(Powers(l.validators)) >= 0
  {
    hide Sum;
    var v' := l.validators[k := id];
    assert |v'| == |l.validators| + 1 by { assert v'.Keys == l.validators.Keys + {k}; }
    assert Powers(v') == Powers(l.validators)[k := id.power];
    SumUpdate(Powers(l.validators), k, id.power);
    SumPositive(Powers(l.validators));
    forall o | o in l.offences
      ensures OffenceOk(v', o, l.offences[o])
    {
      assert OffenceOk(l.validators, o, l.offences[o]);
    }
  }

  ghost predicate Admitted(c: Chain, h: int, l: Ledger, k: Key, id: Identity, quorum: bool)
    requires PolicyOk(c.policy)
  {
    && quorum && k !in l.validators && |l.validators| < 4096
    && id.active >= h + 2 && Boundary(c.policy.epoch, id.active) && id.inactive == 0 && id.unbonding == 0
    && 0 < id.power && id.power == StakeOf(l, k) / 1_000
    && Sum(Powers(l.validators)) + id.power <= MAX_POWER
  }

  /** A candidate is admitted exactly with a quorum, a new identity that starts on an
      epoch boundary at least two blocks ahead, one unit of power for every thousand of
      its stake, and room for it. Nothing else changes. */
  lemma JoinIff(c: Chain, timeOf: OffenceKey -> int, h: int, t: int, l: Ledger, k: Key, id: Identity, quorum: bool)
    requires PolicyOk(c.policy) && h >= 0 && LedgerInv(c, timeOf, l, h, t)
    ensures RunTx(c, h, l, Join(k, id, quorum)) ==
            if Admitted(c, h, l, k, id, quorum) then l.(validators := l.validators[k := id]) else l
  {
    assert LedgerOk(c.genesis, l);
    hide LedgerInv, LedgerOk, Boundary, Sum, Powers, PolicyOk, StakeOf;
    if k !in l.validators && id.power > 0 && id.active > 0 && id.inactive == 0 && id.unbonding == 0 {
      LedgerWith(c, l, k, id);
    }
  }

  // ---- The transactions of a block ----

  ghost predicate Joins(c: Chain, h: int, l: Ledger, tx: Tx, k: Key)
    requires PolicyOk(c.policy)
  {
    tx.Join? && tx.candidate == k && Admitted(c, h, l, k, tx.identity, tx.quorum)
  }

  /** The transactions run in order. Whoever is in the ledger stays as they are; somebody
      new is there afterwards exactly when one of the transactions admits them, on what the
      ones before it left, and then with the identity it names. */
  lemma {:induction false} WhoJoins(c: Chain, timeOf: OffenceKey -> int, h: int, t: int, l: Ledger, txs: seq<Tx>,
                                    k: Key)
    requires PolicyOk(c.policy) && h >= 1 && LedgerInv(c, timeOf, l, h, t)
    ensures var l' := RunTxs(c, h, l, txs);
            if k in l.validators then k in l'.validators && l'.validators[k] == l.validators[k]
            else
              && (k in l'.validators <==>
                    exists i :: 0 <= i < |txs| && Joins(c, h, RunTxs(c, h, l, txs[..i]), txs[i], k))
              && (k in l'.validators ==>
                    exists i :: 0 <= i < |txs| && Joins(c, h, RunTxs(c, h, l, txs[..i]), txs[i], k)
                                && l'.validators[k] == txs[i].identity)
    decreases |txs|
  {
    hide LedgerInv, Admitted, RunTx;
    if txs != [] {
      var ys, tx := txs[..|txs| - 1], txs[|txs| - 1];
      var l1, l' := RunTxs(c, h, l, ys), RunTxs(c, h, l, txs);
      WhoJoins(c, timeOf, h, t, l, ys, k);
      TxsKeepInv(c, timeOf, h, t, l, ys);
      TxChanges(c, timeOf, h, t, l1, tx, k);
      forall i | 0 <= i < |ys|
        ensures ys[..i] == txs[..i] && ys[i] == txs[i]
      {
      }
      assert txs[..|ys|] == ys;
      if k !in l.validators && k in l1.validators {
        var i :| 0 <= i < |ys| && Joins(c, h, RunTxs(c, h, l, ys[..i]), ys[i], k) && l1.validators[k] == ys[i].identity;
        assert Joins(c, h, RunTxs(c, h, l, txs[..i]), txs[i], k);
      }
    }
  }

  lemma TxChanges(c: Chain, timeOf: OffenceKey -> int, h: int, t: int, l: Ledger, tx: Tx, k: Key)
    requires PolicyOk(c.policy) && h >= 1 && LedgerInv(c, timeOf, l, h, t)
    ensures var l' := RunTx(c, h, l, tx);
            && (k in l'.validators <==> k in l.validators || Joins(c, h, l, tx, k))
            && (k in l.validators ==> l'.validators[k] == l.validators[k])
            && (k !in l.validators && k in l'.validators ==> l'.validators[k] == tx.identity)
            && StakeOf(l', k) == if tx.Restake? && tx.staker == k then tx.stake else StakeOf(l, k)
  {
    if tx.Join? {
      JoinIff(c, timeOf, h, t, l, tx.candidate, tx.identity, tx.quorum);
    }
    hide LedgerInv, PolicyOk, LedgerOk;
  }

  /** The last change of a stake in a block is the one that counts. */
  lemma {:induction false} LastStakeCounts(c: Chain, timeOf: OffenceKey -> int, h: int, t: int, l: Ledger, txs: seq<Tx>,
                                           k: Key, i: nat)
    requires PolicyOk(c.policy) && h >= 1 && LedgerInv(c, timeOf, l, h, t)
    requires i < |txs| ==> txs[i].Restake? && txs[i].staker == k
    requires i <= |txs| && forall j :: i < j < |txs| ==> !(txs[j].Restake? && txs[j].staker == k)
    requires i == |txs| ==> forall j :: 0 <= j < |txs| ==> !(txs[j].Restake? && txs[j].staker == k)
    ensures StakeOf(RunTxs(c, h, l, txs), k) == if i < |txs| then txs[i].stake else StakeOf(l, k)
    decreases |txs|
  {
    hide LedgerInv, RunTx, StakeOf;
    if txs != [] {
      var ys, tx := txs[..|txs| - 1], txs[|txs| - 1];
      TxsKeepInv(c, timeOf, h, t, l, ys);
      TxChanges(c, timeOf, h, t, RunTxs(c, h, l, ys), tx, k);
      if i != |ys| {
        LastStakeCounts(c, timeOf, h, t, l, ys, k, if i < |ys| then i else |ys|);
      }
    }
  }

  /** Who a block leaves in the ledger: everybody who was there, leaving exactly if the
      block brings new evidence against them, and everybody it admits. */
  lemma BlockLedger(c: Chain, timeOf: OffenceKey -> int, s: State, b: Block, k: Key)
    requires Inv(c, timeOf, s) && |s.sets| > 0 && Admissible(timeOf, s.time, b) && Step(c, s, b).Some?
    ensures LedgerBecomes(c, s, b, Step(c, s, b).value.ledger.validators, k)
  {
    hide Step, LedgerInv, EvidenceOk, ApplyEvidence, SlashInv, SetsInv, RunTxs, Compacted, PolicyOk, Offends, IsRemoval,
      Joins, Admitted, Becomes, Fits, LedgerOk, SlashLog, Fold, Updates, NewKeys, SameUpTo;
    var h, t := s.height + 1, b.time;
    StepIsFinalized(c, s, b);
    CompactedKeepsInv(c, timeOf, s.ledger, h, s.time, t);
    var l := Compacted(c, s.ledger, h, t);
    assert Fits(c, timeOf, h, s.time, t, l, b.evidence) by { FitsFrom(c, timeOf, h, s.time, t, l, b.evidence); }
    EvidenceKeepsInv(c, timeOf, h, s.time, t, l, b.evidence);
    BecomesIs(c, timeOf, h, s.time, t, l, b, k);
  }

  lemma FitsFrom(c: Chain, timeOf: OffenceKey -> int, h: int, t0: int, t: int, l: Ledger, xs: seq<Item>)
    requires PolicyOk(c.policy) && 0 < h <= MAX_INT64 && t0 <= t && LedgerInv(c, timeOf, l, h - 1, t0)
    requires EvidenceOk(c.policy, l.validators, h, t, xs)
    ensures Fits(c, timeOf, h, t0, t, l, xs)
  {
    hide LedgerInv, EvidenceOk, PolicyOk;
  }

  /** `v` becomes `v'` at `k`, over evidence that leads from `l` to `l1` and the block's
      transactions. */
  ghost predicate Becomes(c: Chain, h: int, l: Ledger, l1: Ledger, b: Block, v: map<Key, Identity>,
                          v': map<Key, Identity>, k: Key)
    requires PolicyOk(c.policy)
  {
    if k in v then
      && k in v'
      && (if v[k].inactive == 0 && Offends(l, b.evidence, k)
          then v'[k].active == v[k].active && v'[k].power == v[k].power && IsRemoval(c.policy, h, v'[k].inactive)
          else v'[k] == v[k])
    else
      && (k in v' <==> exists i :: 0 <= i < |b.txs| && Joins(c, h, RunTxs(c, h, l1, b.txs[..i]), b.txs[i], k))
      && (k in v' ==>
            exists i :: 0 <= i < |b.txs| && Joins(c, h, RunTxs(c, h, l1, b.txs[..i]), b.txs[i], k)
                        && v'[k] == b.txs[i].identity)
  }

  ghost predicate LedgerBecomes(c: Chain, s: State, b: Block, v': map<Key, Identity>, k: Key)
    requires PolicyOk(c.policy)
  {
    var h, l := s.height + 1, Compacted(c, s.ledger, s.height + 1, b.time);
    && h <= MAX_INT64 && ApplyEvidence(c, h, l, b.evidence).Some?
    && Becomes(c, h, l, ApplyEvidence(c, h, l, b.evidence).value, b, s.ledger.validators, v', k)
  }

  lemma BecomesIs(c: Chain, timeOf: OffenceKey -> int, h: int, t0: int, t: int, l: Ledger, b: Block, k: Key)
    requires Fits(c, timeOf, h, t0, t, l, b.evidence) && ApplyEvidence(c, h, l, b.evidence).Some?
    requires LedgerInv(c, timeOf, ApplyEvidence(c, h, l, b.evidence).value, h, t)
    ensures var l1 := ApplyEvidence(c, h, l, b.evidence).value;
            Becomes(c, h, l, l1, b, l.validators, RunTxs(c, h, l1, b.txs).validators, k)
  {
    hide LedgerInv, EvidenceOk, ApplyEvidence, RunTxs, PolicyOk, Offends, IsRemoval, Joins, Admitted;
    WhoJoins(c, timeOf, h, t, ApplyEvidence(c, h, l, b.evidence).value, b.txs, k);
    SameKeys(c, timeOf, h, t0, t, l, b.evidence);
    if k in l.validators {
      EvidenceLeaves(c, timeOf, h, t0, t, l, b.evidence, k);
    }
  }

  lemma SameKeys(c: Chain, timeOf: OffenceKey -> int, h: int, t0: int, t: int, l: Ledger, xs: seq<Item>)
    requires Fits(c, timeOf, h, t0, t, l, xs) && ApplyEvidence(c, h, l, xs).Some?
    ensures ApplyEvidence(c, h, l, xs).value.validators.Keys == l.validators.Keys
  {
    hide Inv, LedgerInv, EvidenceOk, NewKeys, Room, InRange, RemovalHeight, Boundary, OffenceRecorded, LedgerOk,
      RemovalsLeaveSomeone, ApplyRecords, PolicyOk, IdentityOk, Distinct, RemovalsBy;
    FitsBounds(c, timeOf, h, t0, t, l, xs);
    FitsIsApplicable(c, timeOf, h, t0, t, l, xs);
    RecordsSummarised(c.policy, h, h >= c.timedFrom, l, xs);
    ApplyEvidenceIs(c, h, l, xs);
  }

  // ---- The checks on a stored ledger ----

  /** The stored ledger is refused exactly if one of these is found. */
  lemma LedgerRefusedIff(genesis: set<Key>, l: Ledger)
    ensures !LedgerOk(genesis, l) <==>
              || |l.validators| == 0 || |l.validators| > 4096 || |l.offences| > 1_000_000
              || Sum(Powers(l.validators)) > 0x7FFF_FFFF_FFFF_FFFF / 8
              || (exists k :: k in genesis && k !in l.validators)
              || (exists k :: k in l.validators && BadIdentity(l.validators[k]))
              || (exists k :: k in l.offences && BadOffence(l.validators, k, l.offences[k]))
  {
    hide Sum;
    forall k | k in l.validators
      ensures BadIdentity(l.validators[k]) <==> !IdentityOk(l.validators[k])
    {
    }
    forall k | k in l.offences
      ensures BadOffence(l.validators, k, l.offences[k]) <==> !OffenceOk(l.validators, k, l.offences[k])
    {
    }
  }

  ghost predicate BadIdentity(id: Identity) {
    || id.power <= 0 || id.active <= 0
    || (id.inactive != 0 && id.inactive <= id.active)
    || (id.unbonding != 0 && (id.inactive == 0 || id.unbonding <= id.inactive))
  }

  /** The offender is unknown or was not active, or the offence is not before its
      observation, of no known kind, without a rate, or removes too soon. */
  ghost predicate BadOffence(v: map<Key, Identity>, k: OffenceKey, o: Offence) {
    || k.validator !in v
    || k.height < v[k.validator].active || (v[k.validator].inactive != 0 && k.height >= v[k.validator].inactive)
    || k.height <= 0 || o.observed <= k.height
    || (o.kind != 1 && o.kind != 2) || o.bps <= 0 || o.bps > 10_000
    || o.removal < o.observed + 2
  }

  /** So is a schedule off the epoch boundaries. */
  lemma ScheduleRefusedIff(p: Policy, genesis: set<Key>, v: map<Key, Identity>)
    requires PolicyOk(p)
    ensures !ScheduleOk(p, genesis, v) <==> exists k :: k in v && OffSchedule(p, k in genesis, v[k])
  {
    forall k | k in v
      ensures OffSchedule(p, k in genesis, v[k]) <==> !IdentityScheduled(p, genesis, k, v[k])
    {
    }
  }

  ghost predicate OffSchedule(p: Policy, original: bool, id: Identity)
    requires PolicyOk(p)
  {
    || (original && id.active != 1)
    || (!original && (id.active < 3 || (id.active - 1) % p.epoch != 0))
    || (id.inactive != 0 && (id.inactive < 3 || (id.inactive - 1) % p.epoch != 0))
    || (id.unbonding != 0 &&
         (|| p.unbondingEpochs == 0 || id.inactive <= 0 || id.unbonding > MAX_INT64
          || id.unbonding != id.inactive + p.unbondingEpochs * p.epoch))
  }
}

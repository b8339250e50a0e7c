/** The validator lifecycle: evidence slashes a validator and schedules its
    removal on an epoch boundary, admissions schedule an activation, old offence
    records are compacted, and every block announces the changes two heights
    ahead. A validator's account and consensus address are both derived from its
    public key by injective functions, so one identifier stands for all three. */
module Lifecycle {
  import opened Wrappers
  import opened Arithmetic
  import opened Sums

  type Key = nat

  const MAX_INT64: int := 0x7FFF_FFFF_FFFF_FFFF
  const MAX_OFFENCES: nat := 1_000_000
  const MAX_VALIDATORS: nat := 4096
  const MAX_POWER: int := MAX_INT64 / 8
  const STAKE_PER_POWER: nat := 1_000
  const ZERO_TIME: int := -62_135_596_800_000_000_000
  const DUPLICATE_VOTE: int := 1
  const LIGHT_CLIENT_ATTACK: int := 2

  datatype Policy = Policy(epoch: int, unbondingEpochs: int, duplicateBps: int, lightBps: int,
                           maxAgeBlocks: int, maxAgeNanos: int)

  predicate PolicyOk(p: Policy) {
    && 2 <= p.epoch <= 1_000_000
    && (p.unbondingEpochs == 0 || 2 <= p.unbondingEpochs <= 1_000)
    && 1 <= p.duplicateBps <= 10_000 && 1 <= p.lightBps <= 10_000
    && 0 < p.maxAgeBlocks <= MAX_INT64 && 0 < p.maxAgeNanos <= MAX_INT64
  }

  // ---- Heights and amounts ----

  /** The first height of an epoch. */
  predicate Boundary(epoch: int, x: int)
    requires epoch >= 2
  {
    (x - 1) % epoch == 0
  }

  /** The first epoch boundary at least two blocks after `h`. */
  function RemovalHeight(h: int, epoch: int): (r: int)
    requires h >= 0 && epoch >= 2
    ensures Boundary(epoch, r) && h + 2 <= r < h + 2 + epoch
  {
    var offset := h + 1;
    var e := if offset % epoch != 0 then offset / epoch + 1 else offset / epoch;
    assert offset == (offset / epoch) * epoch + offset % epoch;
    assert (offset / epoch + 1) * epoch == (offset / epoch) * epoch + epoch;
    DivModOf(e * epoch, e, epoch, 0);
    e * epoch + 1
  }

  lemma RemovalHeightIsLeast(h: int, epoch: int, x: int)
    requires h >= 0 && epoch >= 2 && Boundary(epoch, x) && x >= h + 2
    ensures RemovalHeight(h, epoch) <= x
  {
    var r := RemovalHeight(h, epoch);
    var a, b := (r - 1) / epoch, (x - 1) / epoch;
    assert r - 1 == a * epoch && x - 1 == b * epoch;
    if a > b {
      assert (a - b) * epoch == a * epoch - b * epoch;
      MulAtLeast(a - b, epoch);
    }
  }

  lemma RemovalHeightGrows(h: int, h': int, epoch: int)
    requires 0 <= h <= h' && epoch >= 2
    ensures RemovalHeight(h, epoch) <= RemovalHeight(h', epoch)
  {
    RemovalHeightIsLeast(h, epoch, RemovalHeight(h', epoch));
  }

  /** The same in 64-bit arithmetic: it fails exactly when the height does not fit. */
  function NextEpochRemovalHeight(h: int, epoch: int): (r: Option<int>)
    requires h <= MAX_INT64 && epoch <= MAX_INT64
    ensures r.Some? ==> h > 0 && epoch >= 2 && r.value == RemovalHeight(h, epoch)
    ensures r.None? <==> h <= 0 || epoch < 2 || RemovalHeight(h, epoch) > MAX_INT64
  {
    if h <= 0 || h > MAX_INT64 - 2 || epoch < 2 then None
    else
      var minimum := h + 2;
      var offset := minimum - 1;
      var e := if offset % epoch != 0 then offset / epoch + 1 else offset / epoch;
      FitsExactly(e, epoch, MAX_INT64 - 1);
      if e > (MAX_INT64 - 1) / epoch then None else Some(e * epoch + 1)
  }

  function UnbondingHeight(removal: int, epoch: int, unbondingEpochs: int): (r: Option<int>)
    requires removal <= MAX_INT64
    ensures r.Some? <==>
              removal > 0 && epoch >= 2 && unbondingEpochs >= 2 && removal + unbondingEpochs * epoch <= MAX_INT64
    ensures r.Some? ==> r.value == removal + unbondingEpochs * epoch && r.value > removal
  {
    if removal <= 0 || epoch < 2 || unbondingEpochs < 2 then None
    else
      FitsExactly(epoch, unbondingEpochs, MAX_INT64 - removal);
      MulAtLeast(epoch, unbondingEpochs);
      assert unbondingEpochs * epoch == epoch * unbondingEpochs;
      if epoch > (MAX_INT64 - removal) / unbondingEpochs then None else Some(removal + unbondingEpochs * epoch)
  }

  /** The exact ceiling of `stake * bps / 10000`, which never exceeds the stake. */
  function SlashAmountCeiling(stake: nat, bps: int): (r: nat)
    requires 0 <= bps <= 10_000
    ensures r * 10_000 >= stake * bps && (r > 0 ==> (r - 1) * 10_000 < stake * bps)
    ensures r <= stake
  {
    if stake == 0 || bps == 0 then 0
    else
      SplitProduct(stake, bps);
      var whole := (stake / 10_000) * bps;
      var remainderProduct := (stake % 10_000) * bps;
      var partial := remainderProduct / 10_000;
      if remainderProduct % 10_000 != 0 then whole + partial + 1 else whole + partial
  }

  lemma SplitProduct(stake: nat, bps: int)
    requires 0 <= bps <= 10_000
    ensures stake * bps == (stake / 10_000) * bps * 10_000 + (stake % 10_000) * bps
    ensures 0 <= (stake / 10_000) * bps <= (stake / 10_000) * 10_000
    ensures 0 <= (stake % 10_000) * bps <= (stake % 10_000) * 10_000
  {
    var q, m := stake / 10_000, stake % 10_000;
    Distribute(q, m, bps);
  }

  lemma Distribute(q: nat, m: nat, b: int)
    requires 0 <= b <= 10_000
    ensures (q * 10_000 + m) * b == q * b * 10_000 + m * b
    ensures 0 <= q * b <= q * 10_000 && 0 <= m * b <= m * 10_000
  {
    MulBounds(q, b, 10_000);
    MulBounds(m, b, 10_000);
  }

  // ---- Identities and offences ----

  /** Active at `h` when `active <= h < inactive`, or when `inactive` is zero. */
  datatype Identity = Identity(power: int, active: int, inactive: int, unbonding: int)

  datatype OffenceKey = OffenceKey(validator: Key, height: int)

  datatype Offence = Offence(kind: int, observed: int, bps: int, amount: nat, removal: int, time: Option<int>)

  datatype Ledger = Ledger(validators: map<Key, Identity>, offences: map<OffenceKey, Offence>, stakes: map<Key, nat>)

  predicate ActiveAt(id: Identity, h: int) {
    h >= id.active && (id.inactive == 0 || h < id.inactive)
  }

  /** The voting powers the schedule gives at a height. */
  function ActiveSet(v: map<Key, Identity>, h: int): map<Key, int> {
    map k | k in v && ActiveAt(v[k], h) :: v[k].power
  }

  function Powers(v: map<Key, Identity>): map<Key, int> {
    map k | k in v :: v[k].power
  }

  predicate IdentityOk(id: Identity) {
    && id.power > 0 && id.active > 0
    && (id.inactive != 0 ==> id.inactive > id.active)
    && (id.unbonding != 0 ==> id.inactive != 0 && id.unbonding > id.inactive)
  }

  predicate OffenceOk(v: map<Key, Identity>, k: OffenceKey, o: Offence) {
    && k.validator in v && ActiveAt(v[k.validator], k.height)
    && 0 < k.height < o.observed
    && (o.kind == DUPLICATE_VOTE || o.kind == LIGHT_CLIENT_ATTACK)
    && 1 <= o.bps <= 10_000
    && o.removal >= o.observed + 2
  }

  /** What every stored ledger is checked for. */
  ghost predicate LedgerOk(genesis: set<Key>, l: Ledger) {
    && 0 < |l.validators| <= MAX_VALIDATORS && |l.offences| <= MAX_OFFENCES
    && (forall k :: k in l.validators ==> IdentityOk(l.validators[k]))
    && Sum(Powers(l.validators)) <= MAX_POWER
    && genesis <= l.validators.Keys
    && (forall k :: k in l.offences ==> OffenceOk(l.validators, k, l.offences[k]))
  }

  predicate IdentityScheduled(p: Policy, genesis: set<Key>, k: Key, id: Identity)
    requires PolicyOk(p)
  {
    && (k in genesis ==> id.active == 1)
    && (k !in genesis ==> id.active >= 3 && Boundary(p.epoch, id.active))
    && (id.inactive != 0 ==> id.inactive >= 3 && Boundary(p.epoch, id.inactive))
    && (id.unbonding != 0 ==>
         && p.unbondingEpochs != 0 && id.inactive <= MAX_INT64
         && UnbondingHeight(id.inactive, p.epoch, p.unbondingEpochs) == Some(id.unbonding))
  }

  /** Activations and removals lie on epoch boundaries. */
  predicate ScheduleOk(p: Policy, genesis: set<Key>, v: map<Key, Identity>)
    requires PolicyOk(p)
  {
    forall k :: k in v ==> IdentityScheduled(p, genesis, k, v[k])
  }

  // ---- Evidence ----

  datatype Item = Item(kind: int, validator: Key, power: int, height: int, time: int, totalPower: int)

  function KeyOf(x: Item): OffenceKey { OffenceKey(x.validator, x.height) }

  /** The difference of two times saturates at 64 bits. */
  function Elapsed(t: int, t0: int): int {
    if t - t0 > MAX_INT64 then MAX_INT64 else if t - t0 < -MAX_INT64 - 1 then -MAX_INT64 - 1 else t - t0
  }

  predicate Expired(p: Policy, h: int, t: int, offenceHeight: int, offenceTime: int) {
    h - offenceHeight > p.maxAgeBlocks && Elapsed(t, offenceTime) > p.maxAgeNanos
  }

  ghost predicate ItemOk(p: Policy, v: map<Key, Identity>, h: int, t: int, x: Item) {
    && (x.kind == DUPLICATE_VOTE || x.kind == LIGHT_CLIENT_ATTACK)
    && x.validator in v
    && 0 < x.height < h
    && ActiveAt(v[x.validator], x.height)
    && x.power == v[x.validator].power && x.totalPower == Sum(ActiveSet(v, x.height))
    && x.time != ZERO_TIME && x.time <= t
    && !Expired(p, h, t, x.height, x.time)
  }

  ghost predicate Distinct(xs: seq<Item>) {
    forall i, j :: 0 <= i < j < |xs| ==> KeyOf(xs[i]) != KeyOf(xs[j])
  }

  ghost predicate EvidenceOk(p: Policy, v: map<Key, Identity>, h: int, t: int, xs: seq<Item>) {
    && |xs| <= |v|
    && (forall i :: 0 <= i < |xs| ==> ItemOk(p, v, h, t, xs[i]))
    && Distinct(xs)
  }

  function Bps(p: Policy, kind: int): int {
    if kind == DUPLICATE_VOTE then p.duplicateBps else p.lightBps
  }

  function StakeOf(l: Ledger, k: Key): nat {
    if k in l.stakes then l.stakes[k] else 0
  }

  function Slashed(l: Ledger, k: Key, amount: nat): map<Key, nat>
    requires amount <= StakeOf(l, k)
  {
    if amount > 0 then l.stakes[k := StakeOf(l, k) - amount] else l.stakes
  }

  /** The identity with a removal scheduled at `removal`. */
  function Marked(p: Policy, removal: int, id: Identity): (r: Option<Identity>)
    requires removal <= MAX_INT64
  {
    if p.unbondingEpochs > 0 then
      match UnbondingHeight(removal, p.epoch, p.unbondingEpochs)
      case None => None
      case Some(unbonding) => Some(id.(inactive := removal, unbonding := unbonding))
    else Some(id.(inactive := removal))
  }

  function OffenceFor(p: Policy, h: int, timed: bool, l: Ledger, x: Item, removal: int): Offence
    requires PolicyOk(p)
  {
    var bps := Bps(p, x.kind);
    Offence(x.kind, h, bps, SlashAmountCeiling(StakeOf(l, x.validator), bps), removal,
            if timed then Some(x.time) else None)
  }

  /** One piece of evidence; a consumed one changes nothing. */
  function ApplyRecord(p: Policy, h: int, timed: bool, l: Ledger, x: Item): Option<Ledger>
    requires PolicyOk(p) && h <= MAX_INT64
  {
    if KeyOf(x) in l.offences then Some(l)
    else if |l.offences| >= MAX_OFFENCES || x.validator !in l.validators then None
    else
      match NextEpochRemovalHeight(h, p.epoch)
      case None => None
      case Some(removal) =>
        var id := l.validators[x.validator];
        if id.inactive == 0 || removal < id.inactive then
          match Marked(p, removal, id)
          case None => None
          case Some(id') =>
            var o := OffenceFor(p, h, timed, l, x, removal);
            Some(Ledger(l.validators[x.validator := id'], l.offences[KeyOf(x) := o], Slashed(l, x.validator, o.amount)))
        else
          var o := OffenceFor(p, h, timed, l, x, id.inactive);
          Some(Ledger(l.validators, l.offences[KeyOf(x) := o], Slashed(l, x.validator, o.amount)))
  }

  function ApplyRecords(p: Policy, h: int, timed: bool, l: Ledger, xs: seq<Item>): Option<Ledger>
    requires PolicyOk(p) && h <= MAX_INT64
  {
    if xs == [] then Some(l)
    else
      match ApplyRecords(p, h, timed, l, xs[..|xs| - 1])
      case None => None
      case Some(l') => ApplyRecord(p, h, timed, l', xs[|xs| - 1])
  }

  // ---- What a batch of evidence comes to, whatever its order ----

  ghost function NewKeys(l: Ledger, xs: seq<Item>): set<OffenceKey> {
    set x | x in xs && KeyOf(x) !in l.offences :: KeyOf(x)
  }

  /** The validators that get a removal height from this evidence. */
  ghost function Marks(l: Ledger, xs: seq<Item>): set<Key> {
    set x | x in xs && KeyOf(x) !in l.offences && x.validator in l.validators
      && l.validators[x.validator].inactive == 0 :: x.validator
  }

  /** Removal heights already set are at most the one evidence would set now. */
  ghost predicate RemovalsBy(p: Policy, v: map<Key, Identity>, h: int)
    requires PolicyOk(p) && h >= 0
  {
    forall k :: k in v && v[k].inactive != 0 ==> v[k].inactive <= RemovalHeight(h, p.epoch)
  }

  /** The 64-bit schedule arithmetic succeeds. */
  ghost predicate InRange(p: Policy, h: int, l: Ledger, xs: seq<Item>)
    requires PolicyOk(p) && 0 < h <= MAX_INT64
  {
    && (NewKeys(l, xs) != {} ==> RemovalHeight(h, p.epoch) <= MAX_INT64)
    && (Marks(l, xs) != {} && p.unbondingEpochs > 0 ==>
      RemovalHeight(h, p.epoch) + p.unbondingEpochs * p.epoch <= MAX_INT64)
  }

  ghost predicate Room(l: Ledger, xs: seq<Item>) {
    |l.offences| + |NewKeys(l, xs)| <= MAX_OFFENCES || NewKeys(l, xs) == {}
  }

  /** The identity of `k` once the removals in `marks` are scheduled. */
  ghost function After(p: Policy, h: int, marks: set<Key>, k: Key, id: Identity): Identity
    requires PolicyOk(p) && h >= 0
  {
    if k in marks then Leaving(p, h, id) else id
  }

  ghost function Leaving(p: Policy, h: int, id: Identity): Identity
    requires PolicyOk(p) && h >= 0
  {
    var removal := RemovalHeight(h, p.epoch);
    Identity(id.power, id.active, removal,
             if p.unbondingEpochs > 0 then removal + p.unbondingEpochs * p.epoch else id.unbonding)
  }

  ghost predicate Summary(p: Policy, h: int, timed: bool, l: Ledger, xs: seq<Item>, l': Ledger)
    requires PolicyOk(p) && h >= 0
  {
    && l'.validators.Keys == l.validators.Keys
    && (forall k :: k in l.validators ==> l'.validators[k] == After(p, h, Marks(l, xs), k, l.validators[k]))
    && l'.offences.Keys == l.offences.Keys + NewKeys(l, xs)
    && (forall k :: k in l.offences ==> l'.offences[k] == l.offences[k])
    && (forall x :: x in xs && KeyOf(x) !in l.offences ==> OffenceRecorded(p, h, timed, l', x))
  }

  /** A recorded offence names the removal height of its validator. */
  ghost predicate OffenceRecorded(p: Policy, h: int, timed: bool, l: Ledger, x: Item) {
    && KeyOf(x) in l.offences && x.validator in l.validators
    && var o := l.offences[KeyOf(x)];
       && o.kind == x.kind && o.observed == h
       && o.bps == (if x.kind == 1 then p.duplicateBps else p.lightBps)
       && o.removal == l.validators[x.validator].inactive
       && o.time == (if timed then Some(x.time) else None)
  }

  lemma SetsStep(l: Ledger, ys: seq<Item>, x: Item)
    requires x.validator in l.validators
    ensures NewKeys(l, ys + [x]) == NewKeys(l, ys) + if KeyOf(x) in l.offences then {} else {KeyOf(x)}
    ensures Marks(l, ys + [x]) == Marks(l, ys)
              + if KeyOf(x) in l.offences || l.validators[x.validator].inactive != 0 then {} else {x.validator}
  {
    forall z
      ensures z in ys + [x] <==> z in ys || z == x
    {
    }
  }

  ghost predicate Applicable(p: Policy, h: int, l: Ledger, xs: seq<Item>)
    requires PolicyOk(p)
  {
    && 0 < h <= MAX_INT64
    && (forall x :: x in xs ==> x.validator in l.validators)
    && (forall k :: k in l.validators ==> IdentityOk(l.validators[k]))
    && RemovalsBy(p, l.validators, h)
    && Distinct(xs)
  }

  /** Evidence applies exactly when there is room and the heights fit, and what
      it leaves depends on which offences are new, not on their order. */
  lemma {:induction false} RecordsSummarised(p: Policy, h: int, timed: bool, l: Ledger, xs: seq<Item>)
    requires PolicyOk(p) && Applicable(p, h, l, xs)
    ensures ApplyRecords(p, h, timed, l, xs).Some? <==> Room(l, xs) && InRange(p, h, l, xs)
    ensures ApplyRecords(p, h, timed, l, xs).Some? ==>
              Summary(p, h, timed, l, xs, ApplyRecords(p, h, timed, l, xs).value)
    decreases |xs|
  {
    if xs == [] {
      assert NewKeys(l, xs) == {} && Marks(l, xs) == {};
    } else {
      var ys, x := xs[..|xs| - 1], xs[|xs| - 1];
      assert xs == ys + [x];
      RecordsSummarised(p, h, timed, l, ys);
      SetsStep(l, ys, x);
      NewIsNotSeen(l, ys, x);
      match ApplyRecords(p, h, timed, l, ys) {
        case None =>
          RoomShrinks(l, ys, x);
        case Some(l') =>
          RecordSummarised(p, h, timed, l, ys, x, l');
      }
    }
  }

  lemma NewIsNotSeen(l: Ledger, ys: seq<Item>, x: Item)
    requires Distinct(ys + [x])
    ensures KeyOf(x) !in NewKeys(l, ys)
    ensures Distinct(ys)
  {
    var xs := ys + [x];
    forall y | y in ys
      ensures KeyOf(y) != KeyOf(x)
    {
      var i :| 0 <= i < |ys| && ys[i] == y;
      assert KeyOf(xs[i]) != KeyOf(xs[|ys|]);
    }
    forall i, j | 0 <= i < j < |ys|
      ensures KeyOf(ys[i]) != KeyOf(ys[j])
    {
      assert KeyOf(xs[i]) != KeyOf(xs[j]);
    }
  }

  lemma RoomShrinks(l: Ledger, ys: seq<Item>, x: Item)
    requires x.validator in l.validators && KeyOf(x) !in NewKeys(l, ys)
    ensures Room(l, ys + [x]) ==> Room(l, ys)
  {
    SetsStep(l, ys, x);
  }

  lemma OffenceCount(l: Ledger, ys: seq<Item>, l': Ledger)
    requires l'.offences.Keys == l.offences.Keys + NewKeys(l, ys)
    ensures |l'.offences| == |l.offences| + |NewKeys(l, ys)|
  {
    assert l.offences.Keys !! NewKeys(l, ys);
    assert |l.offences.Keys + NewKeys(l, ys)| == |l.offences.Keys| + |NewKeys(l, ys)|;
    assert |l'.offences| == |l'.offences.Keys| && |l.offences| == |l.offences.Keys|;
  }

  lemma RecordSummarised(p: Policy, h: int, timed: bool, l: Ledger, ys: seq<Item>, x: Item, l': Ledger)
    requires PolicyOk(p) && Applicable(p, h, l, ys + [x])
    requires Room(l, ys) && InRange(p, h, l, ys) && Summary(p, h, timed, l, ys, l')
    ensures var r := ApplyRecord(p, h, timed, l', x);
            && (r.Some? <==> Room(l, ys + [x]) && InRange(p, h, l, ys + [x]))
            && (r.Some? ==> Summary(p, h, timed, l, ys + [x], r.value))
  {
    hide RemovalHeight, NewKeys, Marks, After, Leaving, Marked, OffenceFor, NextEpochRemovalHeight;
    assert x in ys + [x];
    SetsStep(l, ys, x);
    NewIsNotSeen(l, ys, x);
    if KeyOf(x) in l.offences {
      assert NewKeys(l, ys + [x]) == NewKeys(l, ys) && Marks(l, ys + [x]) == Marks(l, ys);
      assert forall z :: z in ys + [x] && KeyOf(z) !in l.offences ==> z in ys;
    } else {
      NewRecordSummarised(p, h, timed, l, ys, x, l');
    }
  }

  /** A new offence: the removal it schedules is never earlier than one already set. */
  lemma ApplyNew(p: Policy, h: int, timed: bool, l: Ledger, x: Item)
    requires PolicyOk(p) && 0 < h <= MAX_INT64 && KeyOf(x) !in l.offences && x.validator in l.validators
    requires l.validators[x.validator].inactive != 0 ==> l.validators[x.validator].inactive <= RemovalHeight(h, p.epoch)
    ensures var r, id, removal := ApplyRecord(p, h, timed, l, x), l.validators[x.validator], RemovalHeight(h, p.epoch);
            && (r.Some? <==> && |l.offences| < MAX_OFFENCES && removal <= MAX_INT64
                             && (id.inactive == 0 && p.unbondingEpochs > 0 ==>
                               removal + p.unbondingEpochs * p.epoch <= MAX_INT64))
            && (r.Some? ==>
              && r.value.validators == l.validators[x.validator := if id.inactive == 0 then Leaving(p, h, id) else id]
                            && r.value.offences == l.offences[KeyOf(x) := r.value.offences[KeyOf(x)]]
                            && OffenceRecorded(p, h, timed, r.value, x))
  {
    hide RemovalHeight, SlashAmountCeiling;
  }

  /** The exact ceiling of `stake * bps / 10000`. */
  ghost predicate IsCeiling(amount: nat, stake: nat, bps: int) {
    amount * 10_000 >= stake * bps && (amount > 0 ==> (amount - 1) * 10_000 < stake * bps)
  }

  /** A duplicate vote (kind 1) costs the policy's duplicate-vote rate and a light-client
      attack (kind 2) the policy's light-client rate: the exact ceiling of that share of
      the stake it finds, once, from its validator alone. The record keeps the amount. */
  lemma NewOffenceIsSlashed(p: Policy, h: int, timed: bool, l: Ledger, x: Item)
    requires PolicyOk(p) && 0 < h <= MAX_INT64 && KeyOf(x) !in l.offences && ApplyRecord(p, h, timed, l, x).Some?
    ensures var l', stake := ApplyRecord(p, h, timed, l, x).value, StakeOf(l, x.validator);
            && KeyOf(x) in l'.offences
            && var o := l'.offences[KeyOf(x)];
               && StakeOf(l', x.validator) == stake - o.amount
               && (x.kind == 1 ==> o.bps == p.duplicateBps && IsCeiling(o.amount, stake, p.duplicateBps))
               && (x.kind == 2 ==> o.bps == p.lightBps && IsCeiling(o.amount, stake, p.lightBps))
               && forall k :: k != x.validator ==> StakeOf(l', k) == StakeOf(l, k)
  {
    hide RemovalHeight, NextEpochRemovalHeight, Marked;
    var amount := SlashAmountCeiling(StakeOf(l, x.validator), Bps(p, x.kind));
  }

  lemma StillHere(p: Policy, h: int, marks: set<Key>, k: Key, id: Identity)
    requires PolicyOk(p) && h >= 0
    ensures var r := After(p, h, marks, k, id);
            && (r.inactive == 0 <==> k !in marks && id.inactive == 0)
            && (k in marks ==> r == Leaving(p, h, id) && r.inactive == RemovalHeight(h, p.epoch))
            && (k !in marks ==> r == id)
  {
    assert RemovalHeight(h, p.epoch) >= h + 2;
  }

  lemma NewRecordSummarised(p: Policy, h: int, timed: bool, l: Ledger, ys: seq<Item>, x: Item, l': Ledger)
    requires PolicyOk(p) && Applicable(p, h, l, ys + [x]) && KeyOf(x) !in l.offences
    requires Room(l, ys) && InRange(p, h, l, ys) && Summary(p, h, timed, l, ys, l')
    ensures var r := ApplyRecord(p, h, timed, l', x);
            && (r.Some? <==> Room(l, ys + [x]) && InRange(p, h, l, ys + [x]))
            && (r.Some? ==> Summary(p, h, timed, l, ys + [x], r.value))
  {
    hide RemovalHeight, NewKeys, Marks, ApplyRecord, OffenceRecorded, IdentityOk, After, Leaving, Distinct;
    assert x in ys + [x];
    SetsStep(l, ys, x);
    NewIsNotSeen(l, ys, x);
    OffenceCount(l, ys, l');
    var v := x.validator;
    var news := NewKeys(l, ys);
    assert NewKeys(l, ys + [x]) == news + {KeyOf(x)} && |news + {KeyOf(x)}| == |news| + 1;
    StillHere(p, h, Marks(l, ys), v, l.validators[v]);
    assert l'.validators[v] == After(p, h, Marks(l, ys), v, l.validators[v]);
    ApplyNew(p, h, timed, l', x);
    var r := ApplyRecord(p, h, timed, l', x);
    if r.Some? {
      NewSummary(p, h, timed, l, ys, x, l', r.value);
    }
  }

  lemma NewSummary(p: Policy, h: int, timed: bool, l: Ledger, ys: seq<Item>, x: Item, l': Ledger, l'': Ledger)
    requires PolicyOk(p) && Applicable(p, h, l, ys + [x]) && KeyOf(x) !in l.offences
    requires Summary(p, h, timed, l, ys, l') && x.validator in l'.validators
    requires var id := l'.validators[x.validator];
             l''.validators == l'.validators[x.validator := if id.inactive == 0 then Leaving(p, h, id) else id]
    requires OffenceRecorded(p, h, timed, l'', x) && l''.offences == l'.offences[KeyOf(x) := l''.offences[KeyOf(x)]]
    ensures Summary(p, h, timed, l, ys + [x], l'')
  {
    hide RemovalHeight, NewKeys, Marks, OffenceRecorded, IdentityOk, After, Leaving, Distinct, RemovalsBy;
    assert x in ys + [x];
    SetsStep(l, ys, x);
    NewIsNotSeen(l, ys, x);
    forall k | k in l.validators
      ensures l''.validators[k] == After(p, h, Marks(l, ys + [x]), k, l.validators[k])
    {
      assert l'.validators[k] == After(p, h, Marks(l, ys), k, l.validators[k]);
      StillHere(p, h, Marks(l, ys), k, l.validators[k]);
      StillHere(p, h, Marks(l, ys + [x]), k, l.validators[k]);
    }
    NewAreLeaving(p, h, timed, l, ys, x, l');
    OffencesStay(p, h, timed, l, ys, x, l', l'');
  }

  lemma NewAreLeaving(p: Policy, h: int, timed: bool, l: Ledger, ys: seq<Item>, x: Item, l': Ledger)
    requires PolicyOk(p) && Applicable(p, h, l, ys + [x]) && Summary(p, h, timed, l, ys, l')
    ensures forall y :: y in ys && KeyOf(y) !in l.offences ==>
              y.validator in l'.validators && l'.validators[y.validator].inactive != 0
  {
    hide RemovalHeight, NewKeys, OffenceRecorded, IdentityOk;
    forall y | y in ys && KeyOf(y) !in l.offences
      ensures y.validator in l'.validators && l'.validators[y.validator].inactive != 0
    {
      assert y in ys + [x];
      assert l'.validators[y.validator] == After(p, h, Marks(l, ys), y.validator, l.validators[y.validator]);
      if l.validators[y.validator].inactive == 0 {
        assert y.validator in Marks(l, ys);
        assert RemovalHeight(h, p.epoch) >= h + 2;
      }
    }
  }

  lemma OffencesStay(p: Policy, h: int, timed: bool, l: Ledger, ys: seq<Item>, x: Item, l': Ledger, l'': Ledger)
    requires PolicyOk(p) && 0 < h <= MAX_INT64 && KeyOf(x) !in l.offences && KeyOf(x) !in NewKeys(l, ys)
    requires x.validator in l.validators && Summary(p, h, timed, l, ys, l')
    requires l''.validators.Keys == l'.validators.Keys
    requires forall k :: k in l'.validators && l'.validators[k].inactive != 0 ==>
               l''.validators[k].inactive == l'.validators[k].inactive
    requires OffenceRecorded(p, h, timed, l'', x) && l''.offences == l'.offences[KeyOf(x) := l''.offences[KeyOf(x)]]
    requires forall y :: y in ys && KeyOf(y) !in l.offences ==>
               y.validator in l'.validators && l'.validators[y.validator].inactive != 0
    ensures forall z :: z in ys + [x] && KeyOf(z) !in l.offences ==> OffenceRecorded(p, h, timed, l'', z)
  {
    forall z | z in ys + [x] && KeyOf(z) !in l.offences
      ensures OffenceRecorded(p, h, timed, l'', z)
    {
      if z in ys {
        assert OffenceRecorded(p, h, timed, l', z);
        assert KeyOf(z) in NewKeys(l, ys);
      }
    }
  }
}

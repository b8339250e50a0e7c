/** The loops that validate evidence, slash and schedule removals, compact old
    offences and announce validator updates, on the stored ledger. */
module EvidenceStore {
  import opened Wrappers
  import opened Sums
  import opened Lifecycle
  import opened ValidatorSets

  // ---- Voting power ----

  ghost function Counted(v: map<Key, Identity>, done: set<Key>, h: int): map<Key, int> {
    map k | k in v && k in done && ActiveAt(v[k], h) :: v[k].power
  }

  ghost predicate Positive(v: map<Key, Identity>) {
    (forall k :: k in v ==> v[k].power > 0) && Sum(Powers(v)) <= MAX_POWER
  }

  lemma CountedStep(v: map<Key, Identity>, done: set<Key>, h: int, k: Key)
    requires Positive(v) && k in v && k !in done
    ensures Sum(Counted(v, done + {k}, h)) == Sum(Counted(v, done, h)) + if ActiveAt(v[k], h) then v[k].power else 0
    ensures 0 <= Sum(Counted(v, done + {k}, h)) <= MAX_POWER
  {
    var a, b := Counted(v, done, h), Counted(v, done + {k}, h);
    if ActiveAt(v[k], h) {
      SumUpdate(a, k, v[k].power);
      assert b == a[k := v[k].power];
    } else {
      assert b == a;
    }
    SumMonotone(b, Powers(v));
    SumPositive(b);
  }

  lemma CountedAll(v: map<Key, Identity>, h: int)
    requires Positive(v)
    ensures Counted(v, v.Keys, h) == ActiveSet(v, h)
    ensures Sum(ActiveSet(v, h)) > 0 <==> SomeoneAt(v, h)
  {
    var a := ActiveSet(v, h);
    SumPositive(a);
    if SomeoneAt(v, h) {
      var k :| k in v && ActiveAt(v[k], h);
      assert k in a;
    } else {
      assert a == map[];
    }
  }

  /** The voting power at a height; an empty set is an error. */
  method VotingPowerAt(v: map<Key, Identity>, h: int) returns (r: Option<int>)
    requires Positive(v)
    ensures r.Some? <==> SomeoneAt(v, h)
    ensures r.Some? ==> r.value == Sum(ActiveSet(v, h))
  {
    var total := 0;
    var done: set<Key> := {};
    assert Counted(v, done, h) == map[];
    CountedAll(v, h);
    hide Counted, SomeoneAt, ActiveSet, Sum;
    while done != v.Keys
      invariant done <= v.Keys && total == Sum(Counted(v, done, h)) >= 0
      decreases v.Keys - done
    {
      var k :| k in v.Keys && k !in done;
      CountedStep(v, done, h, k);
      if ActiveAt(v[k], h) {
        if v[k].power <= 0 || total > MAX_INT64 - v[k].power {
          return None;
        }
        total := total + v[k].power;
      }
      done := done + {k};
    }
    r := if total <= 0 then None else Some(total);
  }

  ghost function PowersOf(v: map<Key, Identity>, done: set<Key>): map<Key, int> {
    map k | k in v && k in done :: v[k].power
  }

  lemma PowersStep(v: map<Key, Identity>, done: set<Key>, k: Key)
    requires (forall j :: j in v ==> v[j].power > 0) && k in v && k !in done
    ensures Sum(PowersOf(v, done + {k})) == Sum(PowersOf(v, done)) + v[k].power
    ensures Sum(PowersOf(v, done + {k})) <= Sum(Powers(v))
  {
    SumUpdate(PowersOf(v, done), k, v[k].power);
    assert PowersOf(v, done + {k}) == PowersOf(v, done)[k := v[k].power];
    SumMonotone(PowersOf(v, done + {k}), Powers(v));
  }

  /** The sum of all powers, as the ledger check limits it. */
  method TotalPowerFits(v: map<Key, Identity>) returns (ok: bool)
    requires forall k :: k in v ==> v[k].power > 0
    ensures ok <==> Sum(Powers(v)) <= MAX_POWER
  {
    var total := 0;
    var done: set<Key> := {};
    assert PowersOf(v, {}) == map[] && PowersOf(v, v.Keys) == Powers(v);
    hide PowersOf, Powers, Sum;
    while done != v.Keys
      invariant done <= v.Keys && 0 <= total == Sum(PowersOf(v, done)) <= MAX_POWER
      decreases v.Keys - done
    {
      var k :| k in v.Keys && k !in done;
      PowersStep(v, done, k);
      if total > MAX_POWER - v[k].power {
        return false;
      }
      total := total + v[k].power;
      done := done + {k};
    }
    ok := true;
  }

  /** Every scheduled removal leaves somebody. */
  method ScheduledSetsNonEmpty(v: map<Key, Identity>) returns (ok: bool)
    requires Positive(v)
    ensures ok <==> RemovalsLeaveSomeone(v)
  {
    var heights := set k | k in v && v[k].inactive > 0 :: v[k].inactive;
    var done: set<int> := {};
    while done != heights
      invariant done <= heights
      invariant forall h :: h in done ==> SomeoneAt(v, h)
      decreases heights - done
    {
      var h :| h in heights && h !in done;
      var power := VotingPowerAt(v, h);
      if power.None? {
        var k :| k in v && v[k].inactive > 0 && v[k].inactive == h;
        return false;
      }
      done := done + {h};
    }
    ok := true;
  }

  ghost function KeysOf(xs: seq<Item>): set<OffenceKey> {
    set x | x in xs :: KeyOf(x)
  }

  lemma DistinctStep(xs: seq<Item>, i: nat)
    requires i < |xs| && Distinct(xs[..i])
    ensures KeysOf(xs[..i + 1]) == KeysOf(xs[..i]) + {KeyOf(xs[i])}
    ensures Distinct(xs[..i + 1]) <==> KeyOf(xs[i]) !in KeysOf(xs[..i])
  {
    var ys, zs := xs[..i], xs[..i + 1];
    assert zs == ys + [xs[i]];
    if KeyOf(xs[i]) in KeysOf(ys) {
      var y :| y in ys && KeyOf(y) == KeyOf(xs[i]);
      var j :| 0 <= j < i && ys[j] == y;
      assert KeyOf(zs[j]) == KeyOf(zs[i]);
    } else {
      forall j | 0 <= j < i
        ensures KeyOf(zs[j]) != KeyOf(zs[i])
      {
        assert ys[j] in ys;
      }
    }
  }

  lemma DistinctPrefix(xs: seq<Item>, i: nat)
    requires i <= |xs| && Distinct(xs)
    ensures Distinct(xs[..i])
  {
  }

  /** Evidence is refused as a whole when one item of it fails a check. */
  method ValidateEvidence(p: Policy, v: map<Key, Identity>, h: int, t: int, xs: seq<Item>) returns (ok: bool)
    requires Positive(v) && t != ZERO_TIME
    ensures ok <==> EvidenceOk(p, v, h, t, xs)
  {
    hide ItemOk, Distinct, KeysOf, Positive;
    if |xs| > |v| {
      return false;
    }
    var seen: set<OffenceKey> := {};
    var i := 0;
    assert Distinct(xs[..0]) && KeysOf(xs[..0]) == {} by { NothingSeen(xs); }
    while i < |xs|
      invariant 0 <= i <= |xs|
      invariant forall j :: 0 <= j < i ==> ItemOk(p, v, h, t, xs[j])
      invariant seen == KeysOf(xs[..i]) && Distinct(xs[..i])
    {
      var itemOk := ValidateItem(p, v, h, t, xs[i]);
      if !itemOk {
        return false;
      }
      DistinctStep(xs, i);
      if KeyOf(xs[i]) in seen {
        assert !Distinct(xs) by {
          if Distinct(xs) {
            DistinctPrefix(xs, i + 1);
          }
        }
        return false;
      }
      seen := seen + {KeyOf(xs[i])};
      i := i + 1;
    }
    assert xs[..i] == xs;
    ok := true;
  }

  lemma NothingSeen(xs: seq<Item>)
    ensures Distinct(xs[..0]) && KeysOf(xs[..0]) == {}
  {
  }

  method ValidateItem(p: Policy, v: map<Key, Identity>, h: int, t: int, x: Item) returns (ok: bool)
    requires Positive(v)
    ensures ok <==> ItemOk(p, v, h, t, x)
  {
    ok := false;
    if x.kind != DUPLICATE_VOTE && x.kind != LIGHT_CLIENT_ATTACK {
      return;
    }
    if x.validator !in v || x.height <= 0 || x.height >= h || !ActiveAt(v[x.validator], x.height) {
      return;
    }
    assert SomeoneAt(v, x.height);
    var total := VotingPowerAt(v, x.height);
    if total.None? {
      return;
    }
    if x.power != v[x.validator].power || x.totalPower != total.value {
      return;
    }
    if x.time == ZERO_TIME || x.time > t || Expired(p, h, t, x.height, x.time) {
      return;
    }
    ok := true;
  }

  /** What block `h` tells the consensus engine. */
  method ValidatorUpdatesAt(v: map<Key, Identity>, h: int) returns (r: Option<map<Key, int>>)
    requires h >= 0 && forall k :: k in v ==> IdentityOk(v[k])
    ensures r == Some(Updates(v, h))
  {
    var updates: map<Key, int> := map[];
    var done: set<Key> := {};
    while done != v.Keys
      invariant done <= v.Keys
      invariant updates == map k | k in Updates(v, h) && k in done :: Updates(v, h)[k]
      decreases v.Keys - done
    {
      var k :| k in v.Keys && k !in done;
      if v[k].active == h + 2 || v[k].inactive == h + 2 {
        if v[k].active == v[k].inactive {
          return None;
        }
        updates := updates[k := if v[k].inactive == h + 2 then 0 else v[k].power];
      }
      done := done + {k};
    }
    assert updates == Updates(v, h);
    r := Some(updates);
  }

  class Store {
    var validators: map<Key, Identity>
    var offences: map<OffenceKey, Offence>
    var stakes: map<Key, nat>

    function View(): Ledger
      reads this
    {
      Ledger(validators, offences, stakes)
    }

    /** The ledger check that guards every write. */
    method ValidateLedger(genesis: set<Key>, v: map<Key, Identity>, o: map<OffenceKey, Offence>) returns (ok: bool)
      ensures ok <==> LedgerOk(genesis, Ledger(v, o, stakes))
    {
      if |v| == 0 || |v| > MAX_VALIDATORS || |o| > MAX_OFFENCES {
        return false;
      }
      if exists k :: k in v && !IdentityOk(v[k]) {
        return false;
      }
      var fits := TotalPowerFits(v);
      if !fits || !(genesis <= v.Keys) {
        return false;
      }
      ok := forall k :: k in o ==> OffenceOk(v, k, o[k]);
    }

    /** Slash one new offence and schedule the removal, on working copies. */
    method ApplyOne(p: Policy, h: int, timed: bool, x: Item, v: map<Key, Identity>, o: map<OffenceKey, Offence>)
        returns (ok: bool, v': map<Key, Identity>, o': map<OffenceKey, Offence>)
      requires PolicyOk(p) && h <= MAX_INT64 && x.validator in v
      modifies this`stakes
      ensures var r := ApplyRecord(p, h, timed, Ledger(v, o, old(stakes)), x);
              && (ok <==> r.Some?)
              && (ok ==> r.value == Ledger(v', o', stakes))
      ensures var stake := StakeOf(Ledger(v, o, old(stakes)), x.validator);
              ok && KeyOf(x) !in o ==>
                && KeyOf(x) in o'
                && (x.kind == 1 ==> o'[KeyOf(x)].bps == p.duplicateBps
                                    && IsCeiling(o'[KeyOf(x)].amount, stake, p.duplicateBps))
                && (x.kind == 2 ==> o'[KeyOf(x)].bps == p.lightBps
                                    && IsCeiling(o'[KeyOf(x)].amount, stake, p.lightBps))
                && StakeOf(Ledger(v', o', stakes), x.validator) == stake - o'[KeyOf(x)].amount
    {
      ok, v', o' := true, v, o;
      if KeyOf(x) in o {
        return;
      }
      if |o| >= MAX_OFFENCES {
        ok := false;
        return;
      }
      var bps := Bps(p, x.kind);
      var stake := if x.validator in stakes then stakes[x.validator] else 0;
      var slash := SlashAmountCeiling(stake, bps);
      if slash > 0 {
        stakes := stakes[x.validator := stake - slash];
      }
      var next := NextEpochRemovalHeight(h, p.epoch);
      if next.None? {
        ok := false;
        return;
      }
      var removal := next.value;
      var id := v[x.validator];
      if id.inactive == 0 || removal < id.inactive {
        var marked := Marked(p, removal, id);
        if marked.None? {
          ok := false;
          return;
        }
        v' := v[x.validator := marked.value];
      } else {
        removal := id.inactive;
      }
      o' := o[KeyOf(x) := Offence(x.kind, h, bps, slash, removal, if timed then Some(x.time) else None)];
    }

    /** All the evidence of a block. On failure the working store is thrown away. */
    method ApplyAll(c: Chain, h: int, xs: seq<Item>) returns (ok: bool)
      requires PolicyOk(c.policy) && h <= MAX_INT64 && LedgerOk(c.genesis, View())
      requires forall x :: x in xs ==> x.validator in validators
      modifies this
      ensures ok <==> ApplyEvidence(c, h, old(View()), xs).Some?
      ensures ok ==> View() == ApplyEvidence(c, h, old(View()), xs).value
    {
      hide LedgerOk, ApplyRecord, RemovalsLeaveSomeone, PolicyOk, Positive;
      assert Positive(validators) by { GoodIsPositive(c, View()); }
      var v, o := validators, offences;
      ghost var l := View();
      var timed := h >= c.timedFrom;
      var i := 0;
      ok := true;
      while i < |xs|
        invariant 0 <= i <= |xs| && v.Keys == l.validators.Keys
        invariant ApplyRecords(c.policy, h, timed, l, xs[..i]) == Some(Ledger(v, o, stakes))
        invariant Positive(v)
      {
        assert xs[..i + 1][..i] == xs[..i];
        PowersStay(c.policy, h, timed, Ledger(v, o, stakes), xs[i]);
        ok, v, o := ApplyOne(c.policy, h, timed, xs[i], v, o);
        if !ok {
          Stuck(c.policy, h, timed, l, xs, i + 1);
          return;
        }
        i := i + 1;
      }
      assert xs[..i] == xs;
      ok := ScheduledSetsNonEmpty(v);
      if ok {
        ok := ValidateLedger(c.genesis, v, o);
        if ok {
          validators, offences := v, o;
        }
      }
    }

    /** Drop the timed offences that evidence can no longer repeat. */
    method CompactOffences(c: Chain, h: int, t: int) returns (ok: bool)
      requires LedgerOk(c.genesis, View())
      modifies this
      ensures ok <==> !FromTheFuture(old(View()), t)
      ensures ok ==> View() == Compact(c.policy, old(View()), h, t)
    {
      var kept := offences;
      var done: set<OffenceKey> := {};
      while done != offences.Keys
        invariant done <= offences.Keys && View() == old(View())
        invariant forall k :: k in done && offences[k].time.Some? ==> offences[k].time.value <= t
        invariant kept == map k | k in offences && !(k in done && Stale(c.policy, h, t, k, offences[k])) :: offences[k]
        decreases offences.Keys - done
      {
        var k :| k in offences.Keys && k !in done;
        if offences[k].time.Some? {
          if offences[k].time.value > t {
            return false;
          }
          if Expired(c.policy, h, t, k.height, offences[k].time.value) {
            kept := kept - {k};
          }
        }
        done := done + {k};
      }
      CompactionStaysOk(c, View(), kept);
      var valid := ValidateLedger(c.genesis, validators, kept);
      if !valid {
        return false;
      }
      offences := kept;
      ok := true;
    }
  }

  lemma GoodIsPositive(c: Chain, l: Ledger)
    requires LedgerOk(c.genesis, l)
    ensures Positive(l.validators)
  {
  }

  lemma PowersStay(p: Policy, h: int, timed: bool, l: Ledger, x: Item)
    requires PolicyOk(p) && h <= MAX_INT64 && Positive(l.validators) && x.validator in l.validators
    ensures var r := ApplyRecord(p, h, timed, l, x);
            r.Some? ==> Positive(r.value.validators) && r.value.validators.Keys == l.validators.Keys
  {
    hide NextEpochRemovalHeight, UnbondingHeight, SlashAmountCeiling;
    var r := ApplyRecord(p, h, timed, l, x);
    if r.Some? {
      assert Powers(r.value.validators) == Powers(l.validators);
    }
  }

  lemma {:induction false} Stuck(p: Policy, h: int, timed: bool, l: Ledger, xs: seq<Item>, i: int)
    requires PolicyOk(p) && h <= MAX_INT64 && 0 <= i <= |xs| && ApplyRecords(p, h, timed, l, xs[..i]).None?
    ensures ApplyRecords(p, h, timed, l, xs).None?
    decreases |xs| - i
  {
    if i == |xs| {
      assert xs[..i] == xs;
    } else {
      assert xs[..i + 1][..i] == xs[..i];
      Stuck(p, h, timed, l, xs, i + 1);
    }
  }

  lemma CompactionStaysOk(c: Chain, l: Ledger, kept: map<OffenceKey, Offence>)
    requires LedgerOk(c.genesis, l) && kept.Keys <= l.offences.Keys
    requires forall k :: k in kept ==> kept[k] == l.offences[k]
    ensures LedgerOk(c.genesis, Ledger(l.validators, kept, l.stakes))
  {
    hide OffenceOk, IdentityOk, Sum;
    SubsetSize(kept.Keys, l.offences.Keys);
    assert |kept| == |kept.Keys| && |l.offences| == |l.offences.Keys|;
  }
}

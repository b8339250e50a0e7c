/** Snapshots as flat states and back, and the store whose mutators keep the
    journal of touched entries. */
module Snapshots {
  import opened FlatState
  import opened Wrappers

  const MAX_UINT64: nat := 0xFFFF_FFFF_FFFF_FFFF

  // ---- Flattening ----

  /** What a snapshot says about one flat entry. */
  function Entry(s: Snapshot, k: Key): Option<Value> {
    match k
    case AccountKey(a) => if a in s.accounts then Some(MetaValue(s.accounts[a].meta)) else None
    case StorageKey(a, x) =>
      if a in s.accounts && x in s.accounts[a].storage then Some(TextValue(s.accounts[a].storage[x])) else None
    case CodeKey(id) => if id in s.codes then Some(BlobValue(s.codes[id])) else None
    case StakeKey(a) => if a in s.stakes then Some(NumberValue(s.stakes[a])) else None
    case ProposalKey(id) => if id in s.proposals then Some(BlobValue(s.proposals[id])) else None
    case ParamKey(name) => if name in s.params then Some(TextValue(s.params[name])) else None
    case ValidatorsKey => Some(ListValue(s.validators))
    case IdentityKey(c) =>
      if s.lifecycle.Some? && c in s.lifecycle.value.identities then Some(BlobValue(s.lifecycle.value.identities[c]))
        else None
    case OffenceKey(o) =>
      if s.lifecycle.Some? && o in s.lifecycle.value.offences then Some(BlobValue(s.lifecycle.value.offences[o]))
        else None
  }

  function SlotKeys(s: Snapshot): set<Key> {
    set a, x | a in s.accounts && x in s.accounts[a].storage :: StorageKey(a, x)
  }

  function Keys(s: Snapshot): set<Key> {
    (set a | a in s.accounts :: AccountKey(a)) + SlotKeys(s)
    + (set id | id in s.codes :: CodeKey(id)) + (set a | a in s.stakes :: StakeKey(a))
    + (set id | id in s.proposals :: ProposalKey(id)) + (set name | name in s.params :: ParamKey(name))
    + {ValidatorsKey}
    + (if s.lifecycle.None? then {}
       else (set c | c in s.lifecycle.value.identities :: IdentityKey(c))
            + (set o | o in s.lifecycle.value.offences :: OffenceKey(o)))
  }

  /** One flat entry per account, storage slot, code, stake, proposal, parameter,
      identity and offence, and one for the validator list. */
  function Flatten(s: Snapshot): (flat: Flat)
    ensures forall k :: Entry(s, k) == if k in flat then Some(flat[k]) else None
  {
    assert forall k :: k in Keys(s) <==> Entry(s, k).Some?;
    map k | k in Keys(s) :: Entry(s, k).value
  }

  predicate Typed(k: Key, v: Value) {
    match k
    case AccountKey(_) => v.MetaValue?
    case StorageKey(_, _) => v.TextValue?
    case CodeKey(_) => v.BlobValue?
    case StakeKey(_) => v.NumberValue?
    case ProposalKey(_) => v.BlobValue?
    case ParamKey(_) => v.TextValue?
    case ValidatorsKey => v.ListValue?
    case IdentityKey(_) => v.BlobValue?
    case OffenceKey(_) => v.BlobValue?
  }

  /** Every entry decodes and every storage slot belongs to an account. */
  predicate Decodable(flat: Flat) {
    forall k :: k in flat ==> Typed(k, flat[k]) && (k.StorageKey? ==> AccountKey(k.address) in flat)
  }

  function Slots(flat: Flat, a: string): map<string, string>
    requires Decodable(flat)
  {
    map x | x in (set k | k in flat && k.StorageKey? && k.address == a :: k.slot) :: flat[StorageKey(a, x)].text
  }

  function Accounts(flat: Flat): map<string, Account>
    requires Decodable(flat)
  {
    map a | a in (set k | k in flat && k.AccountKey? :: k.address) :: Account(flat[AccountKey(a)].meta, Slots(flat, a))
  }

  function Codes(flat: Flat): map<string, Blob>
    requires Decodable(flat)
  {
    map id | id in (set k | k in flat && k.CodeKey? :: k.id) :: flat[CodeKey(id)].blob
  }

  function Stakes(flat: Flat): map<string, nat>
    requires Decodable(flat)
  {
    map a | a in (set k | k in flat && k.StakeKey? :: k.address) :: flat[StakeKey(a)].number
  }

  function Proposals(flat: Flat): map<string, Blob>
    requires Decodable(flat)
  {
    map id | id in (set k | k in flat && k.ProposalKey? :: k.id) :: flat[ProposalKey(id)].blob
  }

  function Params(flat: Flat): map<string, string>
    requires Decodable(flat)
  {
    map name | name in (set k | k in flat && k.ParamKey? :: k.name) :: flat[ParamKey(name)].text
  }

  function Identities(flat: Flat): map<string, Blob>
    requires Decodable(flat)
  {
    map c | c in (set k | k in flat && k.IdentityKey? :: k.consensus) :: flat[IdentityKey(c)].blob
  }

  function Offences(flat: Flat): map<string, Blob>
    requires Decodable(flat)
  {
    map o | o in (set k | k in flat && k.OffenceKey? :: k.offence) :: flat[OffenceKey(o)].blob
  }

  /** Offences without identities are an error; no identities and no offences
      mean that there is no lifecycle. */
  function Unflatten(flat: Flat): Option<Snapshot> {
    if !Decodable(flat) then None
    else
      var identities, offences := Identities(flat), Offences(flat);
      if offences != map[] && identities == map[] then None
      else Some(Snapshot(
                  Accounts(flat),
                  Codes(flat),
                  Stakes(flat),
                  Proposals(flat),
                  Params(flat),
                  if ValidatorsKey in flat then flat[ValidatorsKey].items else [],
                  if identities == map[] then None else Some(Lifecycle(identities, offences))))
  }

  // ---- The round trip ----

  /** The snapshots that survive: a lifecycle, if there is one, has an identity. */
  predicate WellFormed(s: Snapshot) {
    s.lifecycle.Some? ==> s.lifecycle.value.identities != map[]
  }

  lemma FlattenIsDecodable(s: Snapshot)
    ensures Decodable(Flatten(s))
  {
    hide Flatten;
    var flat := Flatten(s);
    forall k | k in flat
      ensures Typed(k, flat[k]) && (k.StorageKey? ==> AccountKey(k.address) in flat)
    {
      assert Entry(s, k) == Some(flat[k]);
      if k.StorageKey? {
        assert Entry(s, AccountKey(k.address)).Some?;
      }
    }
  }

  lemma AccountsReturn(s: Snapshot)
    requires Decodable(Flatten(s))
    ensures Accounts(Flatten(s)) == s.accounts
  {
    hide Flatten;
    var flat := Flatten(s);
    forall a
      ensures a in Accounts(flat) <==> a in s.accounts
      ensures a in s.accounts ==> Accounts(flat)[a] == s.accounts[a]
    {
      assert Entry(s, AccountKey(a)) == if AccountKey(a) in flat then Some(flat[AccountKey(a)]) else None;
      assert AccountKey(a) in flat <==> a in s.accounts;
      if a in s.accounts {
        forall x
          ensures x in Slots(flat, a) <==> x in s.accounts[a].storage
          ensures x in s.accounts[a].storage ==> Slots(flat, a)[x] == s.accounts[a].storage[x]
        {
          var k := StorageKey(a, x);
          assert Entry(s, k) == if k in flat then Some(flat[k]) else None;
        }
        assert Slots(flat, a) == s.accounts[a].storage;
      }
    }
  }

  lemma IdentitiesReturn(s: Snapshot)
    requires Decodable(Flatten(s))
    ensures Identities(Flatten(s)) == if s.lifecycle.Some? then s.lifecycle.value.identities else map[]
  {
    hide Flatten;
    var flat := Flatten(s);
    var expected := if s.lifecycle.Some? then s.lifecycle.value.identities else map[];
    forall c
      ensures c in Identities(flat) <==> c in expected
      ensures c in expected ==> Identities(flat)[c] == expected[c]
    {
      assert Entry(s, IdentityKey(c)) == if IdentityKey(c) in flat then Some(flat[IdentityKey(c)]) else None;
    }
    assert Identities(flat) == expected;
  }

  lemma OffencesReturn(s: Snapshot)
    requires Decodable(Flatten(s))
    ensures Offences(Flatten(s)) == if s.lifecycle.Some? then s.lifecycle.value.offences else map[]
  {
    hide Flatten;
    var flat := Flatten(s);
    var expected := if s.lifecycle.Some? then s.lifecycle.value.offences else map[];
    forall o
      ensures o in Offences(flat) <==> o in expected
      ensures o in expected ==> Offences(flat)[o] == expected[o]
    {
      assert Entry(s, OffenceKey(o)) == if OffenceKey(o) in flat then Some(flat[OffenceKey(o)]) else None;
    }
    assert Offences(flat) == expected;
  }

  lemma CodesReturn(s: Snapshot)
    requires Decodable(Flatten(s))
    ensures Codes(Flatten(s)) == s.codes
  {
    hide Flatten;
    var flat := Flatten(s);
    forall x
      ensures x in Codes(flat) <==> x in s.codes
      ensures x in s.codes ==> Codes(flat)[x] == s.codes[x]
    {
      assert Entry(s, CodeKey(x)) == if CodeKey(x) in flat then Some(flat[CodeKey(x)]) else None;
    }
  }

  lemma StakesReturn(s: Snapshot)
    requires Decodable(Flatten(s))
    ensures Stakes(Flatten(s)) == s.stakes
  {
    hide Flatten;
    var flat := Flatten(s);
    forall x
      ensures x in Stakes(flat) <==> x in s.stakes
      ensures x in s.stakes ==> Stakes(flat)[x] == s.stakes[x]
    {
      assert Entry(s, StakeKey(x)) == if StakeKey(x) in flat then Some(flat[StakeKey(x)]) else None;
    }
  }

  lemma ProposalsReturn(s: Snapshot)
    requires Decodable(Flatten(s))
    ensures Proposals(Flatten(s)) == s.proposals
  {
    hide Flatten;
    var flat := Flatten(s);
    forall x
      ensures x in Proposals(flat) <==> x in s.proposals
      ensures x in s.proposals ==> Proposals(flat)[x] == s.proposals[x]
    {
      assert Entry(s, ProposalKey(x)) == if ProposalKey(x) in flat then Some(flat[ProposalKey(x)]) else None;
    }
  }

  lemma ParamsReturn(s: Snapshot)
    requires Decodable(Flatten(s))
    ensures Params(Flatten(s)) == s.params
  {
    hide Flatten;
    var flat := Flatten(s);
    forall x
      ensures x in Params(flat) <==> x in s.params
      ensures x in s.params ==> Params(flat)[x] == s.params[x]
    {
      assert Entry(s, ParamKey(x)) == if ParamKey(x) in flat then Some(flat[ParamKey(x)]) else None;
    }
  }

  lemma ValidatorsReturn(s: Snapshot)
    ensures ValidatorsKey in Flatten(s) && Flatten(s)[ValidatorsKey] == ListValue(s.validators)
  {
    hide Flatten;
    assert Entry(s, ValidatorsKey).Some?;
  }

  /** Unflattening undoes flattening for exactly the well-formed snapshots. An
      empty lifecycle is lost, and one with offences but no identities is refused. */
  lemma UnflattenUndoesFlatten(s: Snapshot)
    ensures Unflatten(Flatten(s)) == Some(s) <==> WellFormed(s)
  {
    hide Flatten, Decodable, Accounts, Codes, Stakes, Proposals, Params, Identities, Offences, Entry;
    FlattenIsDecodable(s);
    AccountsReturn(s);
    IdentitiesReturn(s);
    OffencesReturn(s);
    CodesReturn(s);
    StakesReturn(s);
    ProposalsReturn(s);
    ParamsReturn(s);
    ValidatorsReturn(s);
  }

  /** Every entry of a flat state that decodes is an entry of what it decodes to. */
  lemma EntriesOf(flat: Flat, k: Key)
    requires Unflatten(flat).Some? && k != ValidatorsKey
    ensures Entry(Unflatten(flat).value, k) == if k in flat then Some(flat[k]) else None
  {
    assert k in flat ==> Typed(k, flat[k]);
    match k
    case AccountKey(a) => assert k in flat <==> a in Accounts(flat);
    case StorageKey(a, x) =>
      assert a in Accounts(flat) <==> AccountKey(a) in flat;
      assert x in Slots(flat, a) <==> k in flat;
    case CodeKey(id) => assert k in flat <==> id in Codes(flat);
    case StakeKey(a) => assert k in flat <==> a in Stakes(flat);
    case ProposalKey(id) => assert k in flat <==> id in Proposals(flat);
    case ParamKey(name) => assert k in flat <==> name in Params(flat);
    case IdentityKey(c) => assert k in flat <==> c in Identities(flat);
    case OffenceKey(o) => assert k in flat <==> o in Offences(flat);
  }

  /** The other way round: a flat state that decodes is the flat state of what it
      decodes to, exactly when it has a validator list. */
  lemma FlattenUndoesUnflatten(flat: Flat)
    requires Unflatten(flat).Some?
    ensures Flatten(Unflatten(flat).value) == flat <==> ValidatorsKey in flat
  {
    hide Flatten, Accounts, Codes, Stakes, Proposals, Params, Identities, Offences;
    var s := Unflatten(flat).value;
    ValidatorsReturn(s);
    if ValidatorsKey in flat {
      assert Typed(ValidatorsKey, flat[ValidatorsKey]);
      forall k
        ensures Entry(s, k) == if k in flat then Some(flat[k]) else None
      {
        if k != ValidatorsKey {
          EntriesOf(flat, k);
        }
      }
      assert forall k :: k in Flatten(s) <==> k in flat;
    }
  }

  /** Different snapshots have different flat states, up to an empty lifecycle. */
  lemma FlattenIsInjective(a: Snapshot, b: Snapshot)
    requires WellFormed(a) && WellFormed(b) && Flatten(a) == Flatten(b)
    ensures a == b
  {
    UnflattenUndoesFlatten(a);
    UnflattenUndoesFlatten(b);
  }

  // ---- The journal ----

  /** Every entry that differs from the last committed state has been marked. */
  ghost predicate Journaled(base: Snapshot, s: Snapshot, touched: set<Key>) {
    forall k :: Entry(base, k) != Entry(s, k) ==> k in touched
  }

  lemma JournaledIsCovers(base: Snapshot, s: Snapshot, touched: set<Key>)
    ensures Journaled(base, s, touched) <==> Covers(Flatten(base), Flatten(s), touched)
  {
    hide Flatten, Entry;
    forall k
      ensures Entry(base, k) == Entry(s, k) <==> SameAt(Flatten(base), Flatten(s), k)
    {
    }
  }

  /** `marks` covers the step from `s` to `t`. */
  ghost predicate Marks(s: Snapshot, t: Snapshot, marks: set<Key>) {
    forall k :: Entry(s, k) != Entry(t, k) ==> k in marks
  }

  lemma MarkedStep(base: Snapshot, s: Snapshot, t: Snapshot, touched: set<Key>, marks: set<Key>)
    requires Journaled(base, s, touched) && Marks(s, t, marks)
    ensures Journaled(base, t, touched + marks)
  {
  }

  function AccountOf(s: Snapshot, a: string): Account {
    if a in s.accounts then s.accounts[a] else Account(AccountMeta(a, 0, 0, "", ""), map[])
  }

  function WithAccount(s: Snapshot, a: string, account: Account): Snapshot {
    s.(accounts := s.accounts[a := account])
  }

  function Credited(meta: AccountMeta, amount: nat): AccountMeta { meta.(balance := meta.balance + amount) }

  function Advanced(meta: AccountMeta): AccountMeta { meta.(nonce := meta.nonce + 1) }

  /** The slots whose key does not start with `prefix`. */
  function Outside(storage: map<string, string>, prefix: string): map<string, string> {
    map x | x in storage && !(prefix <= x) :: storage[x]
  }

  /** What starts with the prefix goes, the prefix itself included; the rest stays. */
  lemma OutsideIs(storage: map<string, string>, prefix: string, x: string)
    ensures x in Outside(storage, prefix) <==>
              x in storage && !(|x| >= |prefix| && forall i :: 0 <= i < |prefix| ==> x[i] == prefix[i])
    ensures x in Outside(storage, prefix) ==> Outside(storage, prefix)[x] == storage[x]
  {
  }

  lemma AccountWriteMarks(s: Snapshot, a: string, account: Account)
    ensures Marks(s, WithAccount(s, a, account),
                  (if a in s.accounts && s.accounts[a].meta == account.meta then {} else {AccountKey(a)})
                  + (set x | x in AccountOf(s, a).storage.Keys + account.storage.Keys
                             && !(x in AccountOf(s, a).storage && x in account.storage
                               && AccountOf(s, a).storage[x] == account.storage[x])
                          :: StorageKey(a, x)))
  {
    var t := WithAccount(s, a, account);
    forall k | Entry(s, k) != Entry(t, k)
      ensures (k == AccountKey(a) && !(a in s.accounts && s.accounts[a].meta == account.meta))
              || (k.StorageKey? && k.address == a)
    {
    }
  }

  class Store {
    var state: Snapshot
    var touched: set<Key>
    ghost var base: Snapshot

    constructor (s: Snapshot)
      ensures state == s && base == s && touched == {}
    {
      state, touched, base := s, {}, s;
    }

    ghost predicate Covered()
      reads this
    {
      Journaled(base, state, touched)
    }

    /** After a durable commit the journal starts over. */
    method ResetMutations()
      modifies `touched, `base
      ensures Covered() && touched == {} && base == state
    {
      touched, base := {}, state;
    }

    method AddBalance(a: string, amount: nat) returns (ok: bool)
      requires Covered()
      modifies `state, `touched
      ensures Covered()
      ensures var account := AccountOf(old(state), a);
              && (ok <==> account.meta.balance + amount <= MAX_UINT64)
              && state == if ok then WithAccount(old(state), a, account.(meta := Credited(account.meta, amount)))
                          else old(state)
    {
      var account := AccountOf(state, a);
      if MAX_UINT64 - account.meta.balance < amount {
        return false;
      }
      var existed := a in state.accounts;
      var next := account.(meta := Credited(account.meta, amount));
      var marks := if amount != 0 || !existed then {AccountKey(a)} else {};
      AccountWriteMarks(state, a, next);
      MarkedStep(base, state, WithAccount(state, a, next), touched, marks);
      state := WithAccount(state, a, next);
      touched := touched + marks;
      return true;
    }

    /** Every transaction raises its sender's nonce before its body runs, and this
        marks the sender's account. */
    method IncrementNonce(a: string) returns (ok: bool)
      requires Covered()
      modifies `state, `touched
      ensures Covered()
      ensures var account := AccountOf(old(state), a);
              && (ok <==> account.meta.nonce != MAX_UINT64)
              && state == if ok then WithAccount(old(state), a, account.(meta := Advanced(account.meta)))
                          else old(state)
      ensures ok ==> a in state.accounts && touched == old(touched) + {AccountKey(a)}
    {
      var account := AccountOf(state, a);
      if account.meta.nonce == MAX_UINT64 {
        return false;
      }
      var next := account.(meta := Advanced(account.meta));
      AccountWriteMarks(state, a, next);
      MarkedStep(base, state, WithAccount(state, a, next), touched, {AccountKey(a)});
      state := WithAccount(state, a, next);
      touched := touched + {AccountKey(a)};
      return true;
    }

    /** A contract gets its code, and with it its account, before it writes a slot. */
    method SetCodeID(a: string, codeId: string)
      requires Covered()
      modifies `state, `touched
      ensures Covered() && a in state.accounts
      ensures var account := AccountOf(old(state), a);
              state == WithAccount(old(state), a, account.(meta := account.meta.(codeId := codeId)))
      ensures a !in old(state).accounts ==> AccountKey(a) in touched
    {
      var account := AccountOf(state, a);
      var next := account.(meta := account.meta.(codeId := codeId));
      if a in state.accounts && state.accounts[a].meta.codeId == codeId {
        assert state == WithAccount(state, a, next);
        return;
      }
      AccountWriteMarks(state, a, next);
      MarkedStep(base, state, WithAccount(state, a, next), touched, {AccountKey(a)});
      state := WithAccount(state, a, next);
      touched := touched + {AccountKey(a)};
    }

    /** Writing a storage slot marks the slot only. An account that comes into
        being this way is missing from the journal, unless it is marked already. */
    method SetStorage(a: string, slot: string, value: string, withinLimits: bool) returns (ok: bool)
      requires Covered()
      modifies `state, `touched
      ensures ok <==> withinLimits
      ensures var account := AccountOf(old(state), a);
              state == if ok then WithAccount(old(state), a, account.(storage := account.storage[slot := value]))
                       else old(state)
      ensures Covered() <==> !ok || a in old(state).accounts || AccountKey(a) in old(touched)
    {
      if !withinLimits {
        return false;
      }
      var account := AccountOf(state, a);
      var next := account.(storage := account.storage[slot := value]);
      ghost var before := state;
      ghost var old' := touched;
      AccountWriteMarks(state, a, next);
      state := WithAccount(state, a, next);
      touched := touched + {StorageKey(a, slot)};
      if a in before.accounts {
        MarkedStep(base, before, state, old', {StorageKey(a, slot)});
      } else if AccountKey(a) in old' {
        MarkedStep(base, before, state, old', {AccountKey(a), StorageKey(a, slot)});
        assert old' + {AccountKey(a), StorageKey(a, slot)} == touched;
      } else {
        assert Entry(base, AccountKey(a)) == Entry(before, AccountKey(a));
        assert Entry(base, AccountKey(a)) != Entry(state, AccountKey(a));
      }
      return true;
    }

    method SubStake(a: string, amount: nat) returns (ok: bool)
      requires Covered()
      modifies `state, `touched
      ensures Covered()
      ensures var stake := if a in old(state).stakes then old(state).stakes[a] else 0;
              && (ok <==> amount <= stake)
              && state == if ok then old(state).(stakes := old(state).stakes[a := stake - amount]) else old(state)
    {
      var stake := if a in state.stakes then state.stakes[a] else 0;
      if stake < amount {
        return false;
      }
      var next := state.(stakes := state.stakes[a := stake - amount]);
      var marks := if amount != 0 || a !in state.stakes then {StakeKey(a)} else {};
      assert Marks(state, next, marks);
      MarkedStep(base, state, next, touched, marks);
      state, touched := next, touched + marks;
      return true;
    }

    /** Every slot under a prefix is removed and marked, one by one. */
    method DeleteStoragePrefix(a: string, prefix: string)
      requires Covered()
      modifies `state, `touched
      ensures Covered()
      ensures var account := AccountOf(old(state), a);
              state == WithAccount(old(state), a, account.(storage := Outside(account.storage, prefix)))
    {
      var account := AccountOf(state, a);
      var existed := a in state.accounts;
      var keys := set x | x in account.storage && prefix <= x;
      var storage, marks := account.storage, if existed then {} else {AccountKey(a)};
      var done: set<string> := {};
      while done != keys
        invariant done <= keys
        invariant storage == account.storage - done
        invariant marks == (if existed then {} else {AccountKey(a)}) + set x | x in done :: StorageKey(a, x)
        decreases keys - done
      {
        var x :| x in keys && x !in done;
        assert (account.storage - done) - {x} == account.storage - (done + {x});
        storage, marks, done := storage - {x}, marks + {StorageKey(a, x)}, done + {x};
      }
      assert storage == Outside(account.storage, prefix);
      var next := WithAccount(state, a, account.(storage := storage));
      AccountWriteMarks(state, a, account.(storage := storage));
      MarkedStep(base, state, next, touched, marks);
      state, touched := next, touched + marks;
    }
  }

  /** The uncovered case, concretely: a slot written for an account that does not
      exist yet leaves a delta whose result is not the new state and cannot even
      be read back, because the slot has no account. */
  lemma StorageForNewAccountIsLost()
    ensures var before := Snapshot(map[], map[], map[], map[], map[], ["v"], None);
            var after := before.(accounts := map["a" := Account(AccountMeta("a", 0, 0, "", ""), map["k" := "x"])]);
            var written :=
              Apply(Flatten(before), JournalDelta(Flatten(before), Flatten(after), {StorageKey("a", "k")}));
            written != Flatten(after) && Unflatten(written) == None
  {
    hide Flatten;
    var before := Snapshot(map[], map[], map[], map[], map[], ["v"], None);
    var after := before.(accounts := map["a" := Account(AccountMeta("a", 0, 0, "", ""), map["k" := "x"])]);
    var k := StorageKey("a", "k");
    var written := Apply(Flatten(before), JournalDelta(Flatten(before), Flatten(after), {k}));
    assert Entry(after, k).Some? && Entry(before, k).None?;
    assert Entry(after, AccountKey("a")).Some? && Entry(before, AccountKey("a")).None?;
    assert k in written && AccountKey("a") !in written;
    assert k.StorageKey? && k.address == "a";
  }
}

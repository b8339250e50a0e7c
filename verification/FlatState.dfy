/** Application state as one flat map, snapshots of it, and the difference
    between two states, computed in full or from the journal of touched keys.
    Canonical JSON is injective, so entries keep their values, not their bytes. */
module FlatState {
  import opened Wrappers

  type Blob = nat

  datatype AccountMeta = AccountMeta(address: string, balance: nat, nonce: nat, codeId: string, delegated: string)

  datatype Account = Account(meta: AccountMeta, storage: map<string, string>)

  datatype Lifecycle = Lifecycle(identities: map<string, Blob>, offences: map<string, Blob>)

  datatype Snapshot = Snapshot(
    accounts: map<string, Account>,
    codes: map<string, Blob>,
    stakes: map<string, nat>,
    proposals: map<string, Blob>,
    params: map<string, string>,
    validators: seq<string>,
    lifecycle: Option<Lifecycle>)

  datatype Key =
    | AccountKey(address: string)
    | StorageKey(address: string, slot: string)
    | CodeKey(id: string)
    | StakeKey(address: string)
    | ProposalKey(id: string)
    | ParamKey(name: string)
    | ValidatorsKey
    | IdentityKey(consensus: string)
    | OffenceKey(offence: string)

  datatype Value =
    | MetaValue(meta: AccountMeta)
    | TextValue(text: string)
    | NumberValue(number: nat)
    | BlobValue(blob: Blob)
    | ListValue(items: seq<string>)

  type Flat = map<Key, Value>

  // ---- Differences ----

  datatype Delta = Delta(sets: Flat, deletes: set<Key>)

  /** The complete difference between two states. */
  function Diff(previous: Flat, next: Flat): Delta {
    Delta(map k | k in next && !(k in previous && previous[k] == next[k]) :: next[k], previous.Keys - next.Keys)
  }

  /** The difference as far as the journal tells. */
  ghost function JournalDelta(previous: Flat, next: Flat, touched: set<Key>): Delta {
    Delta(map k | k in next && k in touched && !(k in previous && previous[k] == next[k]) :: next[k],
          touched * previous.Keys - next.Keys)
  }

  ghost predicate SameAt(previous: Flat, next: Flat, k: Key) {
    (k in previous <==> k in next) && (k in previous ==> previous[k] == next[k])
  }

  /** The journal lists every entry that differs. */
  ghost predicate Covers(previous: Flat, next: Flat, touched: set<Key>) {
    forall k :: !SameAt(previous, next, k) ==> k in touched
  }

  ghost function Apply(target: Flat, d: Delta): Flat {
    (target - d.deletes) + d.sets
  }

  /** Applying the journal's delta gives the next state exactly when the journal
      covers every change, and then it is the complete difference. */
  lemma JournalIsExactIffItCovers(previous: Flat, next: Flat, touched: set<Key>)
    ensures Covers(previous, next, touched) <==> JournalDelta(previous, next, touched) == Diff(previous, next)
    ensures Covers(previous, next, touched) <==> Apply(previous, JournalDelta(previous, next, touched)) == next
  {
    var j, d := JournalDelta(previous, next, touched), Diff(previous, next);
    if Covers(previous, next, touched) {
      forall k
        ensures k in j.sets <==> k in d.sets
        ensures k in j.deletes <==> k in d.deletes
      {
        assert !SameAt(previous, next, k) ==> k in touched;
      }
      assert j.sets == d.sets && j.deletes == d.deletes;
      assert Apply(previous, j) == next;
    } else {
      var k :| !SameAt(previous, next, k) && k !in touched;
      assert k !in j.sets && k !in j.deletes && (k in d.sets || k in d.deletes);
      assert SameAt(previous, Apply(previous, j), k);
    }
  }

  lemma DiffApplies(previous: Flat, next: Flat)
    ensures Apply(previous, Diff(previous, next)) == next
    ensures Diff(previous, next).deletes <= previous.Keys
            && Diff(previous, next).deletes !! Diff(previous, next).sets.Keys
  {
  }

  /** One journal entry folded into the delta under construction. */
  method AddFlatMutation(previous: Flat, next: Flat, sets: Flat, deletes: set<Key>, k: Key)
      returns (sets': Flat, deletes': set<Key>)
    ensures sets' == if k in next && !(k in previous && previous[k] == next[k]) then sets[k := next[k]] else sets
    ensures deletes' == if k !in next && k in previous then deletes + {k} else deletes
  {
    sets', deletes' := sets, deletes;
    if k !in next {
      if k in previous {
        deletes' := deletes + {k};
      }
      return;
    }
    if k in previous && previous[k] == next[k] {
      return;
    }
    sets' := sets[k := next[k]];
  }

  lemma JournalStep(previous: Flat, next: Flat, done: set<Key>, k: Key)
    ensures var d, d' := JournalDelta(previous, next, done), JournalDelta(previous, next, done + {k});
            && d'.sets
              == (if k in next && !(k in previous && previous[k] == next[k]) then d.sets[k := next[k]] else d.sets)
            && d'.deletes == (if k !in next && k in previous then d.deletes + {k} else d.deletes)
  {
  }

  method FlatDeltaFromMutations(previous: Flat, next: Flat, touched: set<Key>) returns (d: Delta)
    ensures d == JournalDelta(previous, next, touched)
  {
    var sets: Flat, deletes: set<Key> := map[], {};
    var done: set<Key> := {};
    assert Delta(sets, deletes) == JournalDelta(previous, next, done);
    hide JournalDelta;
    while done != touched
      invariant done <= touched
      invariant Delta(sets, deletes) == JournalDelta(previous, next, done)
      decreases touched - done
    {
      var k :| k in touched && k !in done;
      JournalStep(previous, next, done, k);
      sets, deletes := AddFlatMutation(previous, next, sets, deletes, k);
      done := done + {k};
    }
    d := Delta(sets, deletes);
  }

  lemma PutStep(base: Flat, sets: Flat, done: set<Key>, k: Key)
    requires k in sets && done <= sets.Keys
    ensures base + (map x | x in done + {k} :: sets[x]) == (base + (map x | x in done :: sets[x]))[k := sets[k]]
  {
  }

  method DeleteAll(target: Flat, deletes: set<Key>) returns (ok: bool, flat: Flat)
    ensures ok <==> deletes <= target.Keys
    ensures ok ==> flat == target - deletes
  {
    flat := target;
    var done: set<Key> := {};
    while done != deletes
      invariant done <= deletes && done <= target.Keys
      invariant flat == target - done
      decreases deletes - done
    {
      var k :| k in deletes && k !in done;
      if k !in flat {
        return false, flat;
      }
      assert (target - done) - {k} == target - (done + {k});
      flat := flat - {k};
      done := done + {k};
    }
    ok := true;
  }

  /** Replay of one stored delta; a delete of a missing entry is an error. */
  method ApplyFlatDelta(target: Flat, d: Delta) returns (r: Option<Flat>)
    ensures r == if d.deletes <= target.Keys then Some(Apply(target, d)) else None
  {
    var ok, flat := DeleteAll(target, d.deletes);
    if !ok {
      return None;
    }
    ghost var base := flat;
    var done: set<Key> := {};
    while done != d.sets.Keys
      invariant done <= d.sets.Keys
      invariant flat == base + (map x | x in done :: d.sets[x])
      decreases d.sets.Keys - done
    {
      var k :| k in d.sets && k !in done;
      PutStep(base, d.sets, done, k);
      flat := flat[k := d.sets[k]];
      done := done + {k};
    }
    assert (map x | x in done :: d.sets[x]) == d.sets;
    r := Some(flat);
  }
}

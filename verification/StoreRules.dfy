/** What a save, a state sync and a start do to the disk, height by height and entry by
    entry, and when they succeed. */
module StoreRules {
  import opened FlatState
  import opened Wrappers
  import opened Arithmetic
  import opened VersionedStore
  import opened StateHistory
  import Snapshots

  /** The history boundary: an archive keeps everything, a pruned store one height, and a
      full one moves to the last multiple of the interval that leaves `retain` heights. */
  lemma BoundaryIs(p: Profile, minimum: int, height: int, k: nat)
    requires ValidProfile(p) && 0 <= minimum <= height
    ensures var m := NextMinimum(p, minimum, height);
            && (p.mode == Archive ==> m == minimum)
            && (p.mode == Pruned ==> m == height)
            && (p.mode == Full ==> m == minimum || (m > minimum && m % p.interval == 0 && m <= height - p.retain + 1))
            && (p.mode == Full && k * p.interval <= height - p.retain + 1 ==> k * p.interval <= m)
  {
    if p.mode == Full && p.retain < height + 1 {
      var desired := height - p.retain + 1;
      var q := desired / p.interval;
      assert desired == q * p.interval + desired % p.interval;
      assert (q * p.interval) % p.interval == 0 by { DivModOf(q * p.interval, q, p.interval, 0); }
      if k * p.interval <= desired && k > q {
        MulAtLeast(k - q - 1, p.interval);
        assert k * p.interval == (k - q) * p.interval + q * p.interval;
      }
    }
  }

  /** A height whose state is stored in full. */
  ghost predicate InFull(p: Profile, h: int, force: bool)
    requires ValidProfile(p)
  {
    force || h == 0 || (p.mode != Pruned && h > 0 && h % p.interval == 0)
  }

  /** `a` and `b` have the same entry at `k`, or none. */
  ghost predicate Same(a: Flat, b: Flat, k: Key) {
    if k in a then k in b && a[k] == b[k] else k !in b
  }

  /** When a save succeeds: the batch commits, the height is the next one or 0 again, the
      state agrees with its record, no retained block has the hash, and where the state is
      stored in full the journal names every entry that changed. */
  lemma SavesIff(env: Env, start: int, d: Disk, history: map<int, Flat>, v: Persisted, force: bool, commits: bool)
    requires DiskInv(env.profile, env.rootOf, start, d, history)
    ensures SaveOk(env, d, v, force, commits) <==>
              && commits && (v.height == d.current + 1 || (v.height == 0 && d.current == 0))
              && env.validates(v.record, v.tree, v.state)
              && (v.height > 0 ==>
                    forall h :: d.minimum <= h <= d.current && h > 0 ==>
                      h in d.versions && d.versions[h].blockHash != v.blockHash)
              && (InFull(env.profile, v.height, force) ==>
                    forall k :: k !in v.touched ==> Same(d.live, Snapshots.Flatten(v.state), k))
  {
    hide DeltaOk, CheckpointInv, RetentionInv, Snapshots.Flatten;
    Ranges(env.profile, env.rootOf, start, d, history);
    forall h | d.minimum <= h <= d.current && h > 0
      ensures h in d.versions && d.versions[h].blockHash in d.index && d.index[d.versions[h].blockHash] == h
    {
      assert VersionOk(env.rootOf, d, history, h);
    }
    if v.blockHash in d.index {
      IndexedHeight(env.profile, env.rootOf, start, d, history, v.blockHash);
    }
    CoversIff(d.live, Snapshots.Flatten(v.state), v.touched);
  }

  lemma CoversIff(a: Flat, b: Flat, touched: set<Key>)
    ensures Covers(a, b, touched) <==> forall k :: k !in touched ==> Same(a, b, k)
  {
    forall k
      ensures SameAt(a, b, k) <==> Same(a, b, k)
    {
    }
  }

  /** What it does to the live state: touched entries are those of the new state, the
      others stay. */
  lemma SavedEntry(env: Env, d: Disk, v: Persisted, force: bool, k: Key)
    requires ValidProfile(env.profile)
    ensures var live := AfterSave(env, d, v, force).live;
            if k in v.touched then Same(live, Snapshots.Flatten(v.state), k) else Same(live, d.live, k)
  {
    hide Snapshots.Flatten, PrunedHashes, NextMinimum, Checkpointed, LiveAfter, JournalDelta, Apply, Same, Projected;
    LiveAt(d.live, Snapshots.Flatten(v.state), v.touched, k);
  }

  lemma LiveAt(live: Flat, next: Flat, touched: set<Key>, k: Key)
    ensures var live' := LiveAfter(live, JournalDelta(live, next, touched));
            if k in touched then Same(live', next, k) else Same(live', live, k)
  {
  }

  /** What it leaves of the history: every height from the new boundary on, the new one
      with its record and, if it is to be, its full state, the others as they were. */
  lemma SavedHeight(env: Env, start: int, d: Disk, history: map<int, Flat>, v: Persisted, force: bool, h: int)
    requires DiskInv(env.profile, env.rootOf, start, d, history) && SaveOk(env, d, v, force, true)
    ensures var d' := AfterSave(env, d, v, force);
            && d'.current == v.height && d'.minimum == NextMinimum(env.profile, d.minimum, v.height)
            && (h in d'.versions <==> d'.minimum <= h <= v.height)
            && (d'.minimum <= h < v.height ==> h in d.versions && d'.versions[h] == d.versions[h])
            && v.height in d'.versions
            && d'.versions[v.height].record == v.record && d'.versions[v.height].blockHash == v.blockHash
            && (d'.versions[v.height].checkpoint.Some? <==> InFull(env.profile, v.height, force))
  {
    hide VersionOk, DeltaOk, IndexInv, CheckpointInv, SaveBatch, SavedVersion, NextMinimum, Snapshots.Flatten, Covers,
      ShouldCheckpoint, InFull;
    Ranges(env.profile, env.rootOf, start, d, history);
    NextMinimumKeepsRetention(env.profile, start, d.minimum, v.height);
    SavedVersionIs(env, d, v, force);
    BatchAt(d, v.height, SavedVersion(env, d, v, force), NextMinimum(env.profile, d.minimum, v.height), h);
  }

  lemma SavedVersionIs(env: Env, d: Disk, v: Persisted, force: bool)
    requires ValidProfile(env.profile)
    ensures var version := SavedVersion(env, d, v, force);
            && version.record == v.record && version.blockHash == v.blockHash
            && (version.checkpoint.Some? <==> InFull(env.profile, v.height, force))
  {
    hide Projected, JournalDelta, Snapshots.Flatten;
  }

  lemma BatchAt(d: Disk, height: int, version: Version, m: int, h: int)
    requires m <= height && (forall x :: x in d.versions <==> Retained(d, x)) && d.minimum <= m
    requires height == d.current + 1 || height == d.current
    ensures var d' := SaveBatch(d, height, version, m);
            && d'.current == height && d'.minimum == m && height in d'.versions && d'.versions[height] == version
            && (h in d'.versions <==> m <= h <= height)
            && (m <= h < height ==> h in d.versions && d'.versions[h] == d.versions[h])
  {
    hide PrunedHashes, LiveAfter;
  }

  /** When a state sync succeeds, and that it leaves exactly the one height it brings. */
  lemma RestoresIff(env: Env, d: Disk, v: Persisted, commits: bool)
    ensures RestoreOk(env, d, v, commits) <==>
              commits && d.current == 0 && v.height >= 1 && env.validates(v.record, v.tree, v.state)
    ensures v.height >= 1 ==>
              var d' := AfterRestore(env, v);
              && d'.current == d'.minimum == v.height && d'.versions.Keys == {v.height}
              && d'.live == Snapshots.Flatten(v.state)
              && d'.versions[v.height].record == v.record && d'.versions[v.height].blockHash == v.blockHash
              && d'.versions[v.height].checkpoint == Some(Snapshots.Flatten(v.state))
              && d'.index == map[v.blockHash := v.height]
  {
  }

  /** The stored state of a height decodes, a store can be rebuilt from it, and it agrees
      with its record. */
  ghost predicate Sound(env: Env, record: Record, flat: Flat) {
    var s := Snapshots.Unflatten(flat);
    s.Some? && env.rebuilds(s.value) && env.validates(record, env.rootOf(flat), s.value)
  }

  /** A start succeeds exactly when the current height and the oldest one are sound, and
      finds the state and record of the current height. A query finds those of any sound
      height. */
  lemma StartsIff(env: Env, start: int, d: Disk, history: map<int, Flat>, h: int)
    requires DiskInv(env.profile, env.rootOf, start, d, history) && d.minimum <= h <= d.current
    ensures h in d.versions && h in history && d.current in d.versions && d.current in history
    ensures d.minimum in d.versions && d.minimum in history
    ensures StartUp(env, d, history).Loaded? <==>
              Sound(env, d.versions[d.current].record, history[d.current])
              && Sound(env, d.versions[d.minimum].record, history[d.minimum])
    ensures StartUp(env, d, history).Loaded? ==>
              StartUp(env, d, history)
                == Loaded(Snapshots.Unflatten(history[d.current]).value, d.versions[d.current].record)
    ensures ReadBack(env, d, history, h) ==
            if Sound(env, d.versions[h].record, history[h])
            then Loaded(Snapshots.Unflatten(history[h]).value, d.versions[h].record) else Corrupt
  {
    hide VersionOk, DeltaOk, IndexInv, CheckpointInv, Snapshots.Unflatten, RetentionInv;
    Ranges(env.profile, env.rootOf, start, d, history);
  }

  // ---- The application ----

  /** A block is committed exactly when a process runs, the height is next (or 0 again), the
      block's hash is new, the batch commits, the record agrees with the state and the
      tree, and where the state is stored in full the journal names every change. Out of
      sequence it changes nothing; otherwise the process stops and the disk stays. */
  lemma BlockOutcome(env: Env, a: App, e: Event)
    requires Durable(env, a) && e.Block?
    ensures var a', d := Step(env, a, e), a.disk;
            var next := e.height == d.current + 1 || (e.height == 0 && d.current == 0);
            var stored :=
              && a.node.Some? && next && e.commits
              && env.validates(e.record, env.rootOf(TreeAfter(a.node.value.tree, e.next, e.touched)), e.next)
              && (e.height > 0 ==>
                    forall h :: d.minimum <= h <= d.current && h > 0 ==>
                      h in d.versions && d.versions[h].blockHash != e.blockHash)
              && (InFull(env.profile, e.height, false) ==>
                    forall k :: k !in e.touched ==> Same(d.live, Snapshots.Flatten(e.next), k));
            && (a.node.None? || !next ==> a' == a)
            && (a.node.Some? && next && !stored ==> a' == a.(node := None))
            && (stored ==>
                  && a'.node == Some(Node(e.next, TreeAfter(a.node.value.tree, e.next, e.touched)))
                  && a'.disk.current == e.height && a'.start == a.start
                  && e.height in a'.saved && a'.saved[e.height] == e.next
                  && forall h :: h != e.height ==>
                       (h in a'.saved <==> h in a.saved && h >= a'.disk.minimum)
                       && (h in a'.saved ==> a'.saved[h] == a.saved[h]))
  {
    hide DiskInv, SaveOk, Same, InFull, SaveBatch, SavedVersion, NextMinimum, TreeAfter, Snapshots.Flatten, Projected;
    Ranges(env.profile, env.rootOf, a.start, a.disk, a.history);
    if a.node.Some? {
      var v := BlockValue(env, a.node.value.tree, e);
      SavesIff(env, a.start, a.disk, a.history, v, false, e.commits);
      if SaveOk(env, a.disk, v, false, e.commits) {
        assert e.height == a.disk.current + 1 || (e.height == 0 && a.disk.current == 0);
        BlockMinimum(env, a, e.height);
        assert SaveOk(env, a.disk, v, false, true);
        SavedHeight(env, a.start, a.disk, a.history, v, false, e.height);
      }
    }
  }

  lemma BlockMinimum(env: Env, a: App, height: int)
    requires Durable(env, a) && (height == a.disk.current + 1 || (height == 0 && a.disk.current == 0))
    ensures ValidProfile(env.profile) && NextMinimum(env.profile, a.disk.minimum, height) <= height
  {
    hide VersionOk, DeltaOk, IndexInv, CheckpointInv, NextMinimum;
    NextMinimumKeepsRetention(env.profile, a.start, a.disk.minimum, height);
  }

  /** A state-sync snapshot that is no store's or does not agree with its record changes
      nothing. Any other one becomes the only height, if nothing but genesis was stored,
      its height is positive and the batch commits; if not, the process stops. */
  lemma SyncOutcome(env: Env, a: App, e: Event)
    requires Durable(env, a) && e.Sync?
    ensures var a', flat := Step(env, a, e), Snapshots.Flatten(e.next);
            var offered := a.node.Some? && env.rebuilds(e.next) && env.validates(e.record, env.rootOf(flat), e.next);
            var stored := offered && e.commits && a.disk.current == 0 && e.height >= 1;
            && (!offered ==> a' == a)
            && (offered && !stored ==> a' == a.(node := None))
            && (stored ==>
                  && a'.node == Some(Node(e.next, flat)) && a'.saved == map[e.height := e.next]
                  && a'.disk.current == a'.disk.minimum == a'.start == e.height && a'.disk.live == flat)
  {
    hide DiskInv, Snapshots.Flatten;
  }

  /** A start runs the process exactly when the newest and the oldest height are sound, on
      the newest state and its tree. */
  lemma RestartOutcome(env: Env, a: App)
    requires Durable(env, a)
    ensures a.disk.current in a.disk.versions && a.disk.current in a.history
    ensures a.disk.minimum in a.disk.versions && a.disk.minimum in a.history
    ensures var a', flat := Step(env, a, Restart), a.history[a.disk.current];
            && a' == a.(node := a'.node)
            && (a'.node.Some? <==> Sound(env, a.disk.versions[a.disk.current].record, flat)
                                   && Sound(env, a.disk.versions[a.disk.minimum].record, a.history[a.disk.minimum]))
            && (a'.node.Some? ==>
                  var s := Snapshots.Unflatten(flat).value;
                  a'.node == Some(Node(s, Snapshots.Flatten(s))))
  {
    Ranges(env.profile, env.rootOf, a.start, a.disk, a.history);
    hide DiskInv, Snapshots.Flatten, Snapshots.Unflatten, StartUp, Sound;
    StartsIff(env, a.start, a.disk, a.history, a.disk.current);
    SoundDecodes(env, a.disk.versions[a.disk.current].record, a.history[a.disk.current]);
  }

  lemma SoundDecodes(env: Env, record: Record, flat: Flat)
    ensures Sound(env, record, flat) ==> Snapshots.Unflatten(flat).Some?
  {
  }
}

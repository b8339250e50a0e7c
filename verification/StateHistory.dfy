/** The application over its store: blocks are committed from the journal of the
    state, a state-sync snapshot may replace an empty store, and the process stops
    and starts again at any moment. What was committed is what is read back. */
module StateHistory {
  import opened FlatState
  import opened Wrappers
  import opened VersionedStore
  import Snapshots

  /** A running process: the committed state and the entries of its sparse tree. */
  datatype Node = Node(committed: Snapshot, tree: Flat)

  /** `history` and `saved` are the specification: the flat state stored for every
      retained height, and the snapshot that was handed over for it. */
  datatype App = App(
    disk: Disk,
    node: Option<Node>,
    history: map<int, Flat>,
    saved: map<int, Snapshot>,
    start: int)

  datatype Event =
    | Block(height: int, blockHash: BlockHash, record: Record, next: Snapshot, touched: set<Key>, commits: bool)
    | Sync(height: int, blockHash: BlockHash, record: Record, next: Snapshot, commits: bool)
    | Restart

  ghost predicate Durable(env: Env, a: App) {
    DiskInv(env.profile, env.rootOf, a.start, a.disk, a.history)
  }

  /** The tree after the journal has been applied to it entry by entry. */
  ghost function TreeAfter(tree: Flat, next: Snapshot, touched: set<Key>): Flat {
    Apply(tree, JournalDelta(tree, Snapshots.Flatten(next), touched))
  }

  ghost function BlockValue(env: Env, tree: Flat, e: Event): Persisted
    requires e.Block?
  {
    Persisted(e.height, e.blockHash, e.record, e.next, env.rootOf(TreeAfter(tree, e.next, e.touched)), e.touched)
  }

  ghost function SyncValue(env: Env, e: Event): Persisted
    requires e.Sync?
  {
    Persisted(e.height, e.blockHash, e.record, e.next, env.rootOf(Snapshots.Flatten(e.next)), {})
  }

  ghost predicate BlockOk(env: Env, a: App, e: Event)
    requires Durable(env, a) && e.Block?
  {
    a.node.Some? && SaveOk(env, a.disk, BlockValue(env, a.node.value.tree, e), false, e.commits)
  }

  /** The next height, or the genesis state once more when the chain is initialised. */
  predicate InSequence(current: int, height: int) {
    height == current + 1 || (height == 0 && current == 0)
  }

  /** A block out of sequence is refused; one that cannot be stored halts the process. */
  ghost function BlockStep(env: Env, a: App, e: Event): App
    requires Durable(env, a) && e.Block?
  {
    if a.node.None? || !InSequence(a.disk.current, e.height) then a
    else if !BlockOk(env, a, e) then a.(node := None)
    else
      var v := BlockValue(env, a.node.value.tree, e);
      var m := NextMinimum(env.profile, a.disk.minimum, e.height);
      App(AfterSave(env, a.disk, v, false),
          Some(Node(e.next, TreeAfter(a.node.value.tree, e.next, e.touched))),
          HistoryAfter(a.history, e.height, Projected(a.disk.live, v), m),
          HistoryAfter(a.saved, e.height, e.next, m),
          a.start)
  }

  /** A snapshot that no store can be rebuilt from, or that does not agree with its
      record, is rejected; one that cannot be stored halts the process. */
  ghost function SyncStep(env: Env, a: App, e: Event): App
    requires e.Sync?
  {
    var v := SyncValue(env, e);
    if a.node.None? || !env.rebuilds(e.next) || !env.validates(v.record, v.tree, v.state) then a
    else if !RestoreOk(env, a.disk, v, e.commits) then a.(node := None)
    else
      var flat := Snapshots.Flatten(e.next);
      App(AfterRestore(env, v), Some(Node(e.next, flat)), map[e.height := flat], map[e.height := e.next], e.height)
  }

  /** A process that starts takes the stored state and builds its tree. */
  ghost function RestartStep(env: Env, a: App): App
    requires Durable(env, a)
  {
    var r := StartUp(env, a.disk, a.history);
    a.(node := if r.Loaded? then Some(Node(r.state, Snapshots.Flatten(r.state))) else None)
  }

  ghost function Step(env: Env, a: App, e: Event): App
    requires Durable(env, a)
  {
    match e
    case Block(_, _, _, _, _, _) => BlockStep(env, a, e)
    case Sync(_, _, _, _, _) => SyncStep(env, a, e)
    case Restart => RestartStep(env, a)
  }

  /** Whatever is committed, in whatever way, the disk stays equal to its history. */
  lemma StepIsDurable(env: Env, a: App, e: Event)
    requires Durable(env, a)
    ensures Durable(env, Step(env, a, e))
  {
    hide DiskInv, SaveOk, SavedVersion, NextMinimum, HistoryAfter, SaveBatch, Rebased, Apply, JournalDelta,
      Snapshots.Flatten, ReadBack, StartUp, Complete;
    Ranges(env.profile, env.rootOf, a.start, a.disk, a.history);
    match e
    case Block(_, _, _, _, _, _) =>
      if BlockOk(env, a, e) {
        var v := BlockValue(env, a.node.value.tree, e);
        AcceptedCommits(env, a.disk, v, e.commits);
        SaveKeepsInv(env.profile, env.rootOf, a.start, a.disk, a.history,
                     e.height, SavedVersion(env, a.disk, v, false), Projected(a.disk.live, v));
      }
    case Sync(_, _, _, _, _) =>
      var flat := Snapshots.Flatten(e.next);
      CompleteFields(env, e.blockHash, e.record, flat);
      if e.height > 0 {
        RebaseIsValid(env.profile, env.rootOf, e.height, flat, Complete(env, e.blockHash, e.record, flat));
      }
    case Restart =>
  }

  lemma AcceptedCommits(env: Env, d: Disk, v: Persisted, commits: bool)
    requires ValidProfile(env.profile) && SaveOk(env, d, v, false, commits)
    ensures Commitable(env.profile, env.rootOf, d, v.height, SavedVersion(env, d, v, false), Projected(d.live, v))
  {
    hide Covers, ShouldCheckpoint, Snapshots.Flatten, SavedVersion, Commitable;
    SavedIsCommitable(env, d, v, false);
  }

  lemma CompleteFields(env: Env, blockHash: BlockHash, record: Record, flat: Flat)
    ensures var v := Complete(env, blockHash, record, flat);
            v.checkpoint == Some(flat) && v.count == |flat| && v.root == env.rootOf(flat) && v.record == record
  {
  }

  ghost function Run(env: Env, a: App, events: seq<Event>): (r: App)
    requires Durable(env, a)
    ensures Durable(env, r)
    decreases |events|
  {
    if events == [] then a
    else
      StepIsDurable(env, a, events[0]);
      Run(env, Step(env, a, events[0]), events[1..])
  }

  // ---- What is read back ----

  /** The height holds the snapshot handed over for it, which passes every check. */
  ghost predicate ReadsAs(env: Env, a: App, h: int) {
    && h in a.disk.versions && h in a.history && h in a.saved
    && a.history[h] == Snapshots.Flatten(a.saved[h])
    && Snapshots.WellFormed(a.saved[h]) && env.rebuilds(a.saved[h])
    && env.validates(a.disk.versions[h].record, env.rootOf(a.history[h]), a.saved[h])
  }

  ghost predicate Readable(env: Env, a: App) {
    && a.saved.Keys == a.history.Keys
    && (forall h {:trigger ReadsAs(env, a, h)} :: Retained(a.disk, h) ==> ReadsAs(env, a, h))
    && (a.node.Some? ==> && a.disk.current in a.saved
                         && a.node.value.committed == a.saved[a.disk.current]
                         && a.node.value.tree == Snapshots.Flatten(a.node.value.committed))
  }

  /** What the store promises about a state it hands over: it can be rebuilt from its
      snapshot, and the journal names every entry that changed. A checkpoint checks
      the journal itself. */
  ghost predicate Sound(env: Env, a: App, e: Event)
    requires Durable(env, a)
  {
    match e
    case Block(height, _, _, next, touched, _) =>
      a.node.Some? ==> && Snapshots.WellFormed(next) && env.rebuilds(next)
                       && (|| Snapshots.Journaled(a.node.value.committed, next, touched)
                           || Checkpointed(env.profile, height, false))
    case Sync(_, _, _, next, _) => Snapshots.WellFormed(next)
    case Restart => true
  }

  ghost predicate SoundRun(env: Env, a: App, events: seq<Event>)
    requires Durable(env, a)
    decreases |events|
  {
    events == [] ||
    (Sound(env, a, events[0])
     && (StepIsDurable(env, a, events[0]);
         SoundRun(env, Step(env, a, events[0]), events[1..])))
  }

  lemma ReadsBack(env: Env, a: App, h: int)
    requires ReadsAs(env, a, h)
    ensures ReadBack(env, a.disk, a.history, h) == Loaded(a.saved[h], a.disk.versions[h].record)
  {
    hide Snapshots.Flatten, Snapshots.Unflatten;
    Snapshots.UnflattenUndoesFlatten(a.saved[h]);
  }

  lemma StartsUp(env: Env, a: App)
    requires Durable(env, a) && Readable(env, a)
    ensures StartUp(env, a.disk, a.history)
         == Loaded(a.saved[a.disk.current], a.disk.versions[a.disk.current].record)
  {
    hide DiskInv, ReadBack, ReadsAs;
    Ranges(env.profile, env.rootOf, a.start, a.disk, a.history);
    ReadsBack(env, a, a.disk.current);
    ReadsBack(env, a, a.disk.minimum);
  }

  /** The journal of a block leads to the flat state of the block exactly when it
      names every entry that changed. */
  lemma JournalLeads(committed: Snapshot, next: Snapshot, touched: set<Key>)
    ensures var flat := Snapshots.Flatten(committed);
            && (TreeAfter(flat, next, touched) == Snapshots.Flatten(next)
                <==> Snapshots.Journaled(committed, next, touched))
            && (Covers(flat, Snapshots.Flatten(next), touched) <==> Snapshots.Journaled(committed, next, touched))
  {
    hide Snapshots.Flatten, Snapshots.Journaled, Covers, JournalDelta, Apply, Diff;
    Snapshots.JournaledIsCovers(committed, next, touched);
    JournalIsExactIffItCovers(Snapshots.Flatten(committed), Snapshots.Flatten(next), touched);
  }

  lemma KeptIn<T>(m: map<int, T>, height: int, next: T, minimum: int, h: int)
    ensures var m' := HistoryAfter(m, height, next, minimum);
            && (h in m' <==> h >= minimum && (h == height || h in m))
            && (h in m' ==> m'[h] == if h == height then next else m[h])
  {
  }

  /** A running process works on the stored state. */
  lemma LiveIsTree(env: Env, a: App)
    requires Durable(env, a) && Readable(env, a) && a.node.Some?
    ensures a.disk.live == a.node.value.tree == Snapshots.Flatten(a.node.value.committed)
  {
    hide DiskInv;
    Ranges(env.profile, env.rootOf, a.start, a.disk, a.history);
    assert ReadsAs(env, a, a.disk.current);
  }

  lemma BlockIsRead(env: Env, a: App, e: Event)
    requires Durable(env, a) && Readable(env, a) && e.Block? && Sound(env, a, e) && BlockOk(env, a, e)
    ensures Projected(a.disk.live, BlockValue(env, a.node.value.tree, e)) == Snapshots.Flatten(e.next)
    ensures TreeAfter(a.node.value.tree, e.next, e.touched) == Snapshots.Flatten(e.next)
  {
    hide DiskInv, Readable, Snapshots.Flatten, Snapshots.Journaled, Covers, JournalDelta, Apply, ShouldCheckpoint;
    LiveIsTree(env, a);
    JournalLeads(a.node.value.committed, e.next, e.touched);
  }

  lemma BlockKeepsReadable(env: Env, a: App, e: Event)
    requires Durable(env, a) && Readable(env, a) && e.Block? && Sound(env, a, e) && BlockOk(env, a, e)
    ensures Readable(env, BlockStep(env, a, e))
  {
    hide DiskInv, Snapshots.Flatten, Snapshots.Journaled, Snapshots.WellFormed, Covers, JournalDelta, Apply,
      ShouldCheckpoint, NextMinimum, HistoryAfter, SaveBatch, SavedVersion, Commitable, Checkpointed, TreeAfter,
        Projected;
    Ranges(env.profile, env.rootOf, a.start, a.disk, a.history);
    BlockIsRead(env, a, e);
    var v := BlockValue(env, a.node.value.tree, e);
    AcceptedCommits(env, a.disk, v, e.commits);
    var m := NextMinimum(env.profile, a.disk.minimum, e.height);
    SaveKeepsInv(env.profile, env.rootOf, a.start, a.disk, a.history,
                 e.height, SavedVersion(env, a.disk, v, false), Projected(a.disk.live, v));
    var a' := BlockStep(env, a, e);
    SavedShape(env.profile, env.rootOf, a.start, a.disk, a.history,
               e.height, SavedVersion(env, a.disk, v, false), Projected(a.disk.live, v), m);
    SavedRecord(env, a.disk, v);
    forall h
      ensures h in a'.saved.Keys <==> h in a'.history.Keys
    {
      assert h in a.saved.Keys <==> h in a.history.Keys;
      KeptIn(a.saved, e.height, e.next, m, h);
      KeptIn(a.history, e.height, Projected(a.disk.live, v), m, h);
    }
    forall h | Retained(a'.disk, h)
      ensures ReadsAs(env, a', h)
    {
      KeptIn(a.saved, e.height, e.next, m, h);
      KeptAt(a.disk, a.history, e.height, SavedVersion(env, a.disk, v, false), Projected(a.disk.live, v), m, h);
      if h != e.height {
        assert ReadsAs(env, a, h);
      }
    }
    assert Retained(a'.disk, e.height) && ReadsAs(env, a', e.height);
    KeptIn(a.saved, e.height, e.next, m, e.height);
  }

  lemma SavedRecord(env: Env, d: Disk, v: Persisted)
    requires ValidProfile(env.profile)
    ensures SavedVersion(env, d, v, false).record == v.record
  {
  }

  lemma SyncKeepsReadable(env: Env, a: App, e: Event)
    requires e.Sync? && Snapshots.WellFormed(e.next)
    requires SyncStep(env, a, e) != a && SyncStep(env, a, e).node.Some?
    ensures Readable(env, SyncStep(env, a, e))
  {
    hide Snapshots.Flatten, Snapshots.WellFormed;
    var a' := SyncStep(env, a, e);
    assert a'.saved.Keys == a'.history.Keys == {e.height};
    assert ReadsAs(env, a', e.height);
  }

  /** Stopping or starting the process changes nothing that is stored. */
  lemma OtherNode(env: Env, a: App, node: Option<Node>)
    requires Readable(env, a)
    requires node.Some? ==> && a.disk.current in a.saved && node.value.committed == a.saved[a.disk.current]
                            && node.value.tree == Snapshots.Flatten(node.value.committed)
    ensures Readable(env, a.(node := node))
  {
    hide Snapshots.Flatten, Snapshots.WellFormed;
    forall h | Retained(a.disk, h)
      ensures ReadsAs(env, a.(node := node), h)
    {
      assert ReadsAs(env, a, h);
    }
  }

  /** A sound step keeps every retained height readable. */
  lemma StepIsReadable(env: Env, a: App, e: Event)
    requires Durable(env, a) && Readable(env, a) && Sound(env, a, e)
    ensures Readable(env, Step(env, a, e))
  {
    hide DiskInv, SaveOk, SavedVersion, NextMinimum, HistoryAfter, SaveBatch, Apply, JournalDelta,
      Snapshots.Flatten, ReadBack, StartUp, Snapshots.WellFormed;
    match e
    case Block(_, _, _, _, _, _) =>
      if BlockOk(env, a, e) {
        BlockKeepsReadable(env, a, e);
      } else {
        OtherNode(env, a, None);
      }
    case Sync(_, _, _, _, _) =>
      OtherNode(env, a, None);
      if Step(env, a, e) != a && Step(env, a, e).node.Some? {
        SyncKeepsReadable(env, a, e);
      }
    case Restart =>
      Ranges(env.profile, env.rootOf, a.start, a.disk, a.history);
      assert a.disk.current in a.saved.Keys;
      StartsUp(env, a);
      var s := a.saved[a.disk.current];
      OtherNode(env, a, Some(Node(s, Snapshots.Flatten(s))));
  }

  // ---- Whole runs ----

  /** A new database with the genesis state, and the process that made it. */
  ghost function Genesis(env: Env, record: Record, s: Snapshot): (a: App)
    requires ValidProfile(env.profile)
    ensures Durable(env, a)
  {
    var flat := Snapshots.Flatten(s);
    RebaseIsValid(env.profile, env.rootOf, 0, flat, Complete(env, 0, record, flat));
    App(Rebased(flat, 0, Complete(env, 0, record, flat)), Some(Node(s, flat)), map[0 := flat], map[0 := s], 0)
  }

  lemma GenesisIsReadable(env: Env, record: Record, s: Snapshot)
    requires ValidProfile(env.profile) && Snapshots.WellFormed(s) && env.rebuilds(s)
    requires env.validates(record, env.rootOf(Snapshots.Flatten(s)), s)
    ensures Readable(env, Genesis(env, record, s))
  {
    hide DiskInv, Snapshots.Flatten, Snapshots.WellFormed, ValidProfile;
    var a := Genesis(env, record, s);
    assert a.saved.Keys == a.history.Keys == {0};
  }

  lemma {:induction false} RunIsReadable(env: Env, a: App, events: seq<Event>)
    requires Durable(env, a) && Readable(env, a) && SoundRun(env, a, events)
    ensures Readable(env, Run(env, a, events))
    decreases |events|
  {
    hide Durable, Readable, Step, Sound;
    if events != [] {
      StepIsDurable(env, a, events[0]);
      StepIsReadable(env, a, events[0]);
      RunIsReadable(env, Step(env, a, events[0]), events[1..]);
    }
  }

  /** The history over every run of commits, failed commits, state sync and restarts:
      each retained height reads back the snapshot handed over for it, with its
      record, and a process that starts finds the last one committed. */
  lemma HistoryReadsBack(env: Env, record: Record, genesis: Snapshot, events: seq<Event>)
    requires ValidProfile(env.profile) && Snapshots.WellFormed(genesis) && env.rebuilds(genesis)
    requires env.validates(record, env.rootOf(Snapshots.Flatten(genesis)), genesis)
    requires SoundRun(env, Genesis(env, record, genesis), events)
    ensures var a := Run(env, Genesis(env, record, genesis), events);
            && (forall h {:trigger h in a.saved} :: Retained(a.disk, h) <==> h in a.saved)
            && (forall h {:trigger h in a.saved} :: h in a.saved ==>
                  h in a.disk.versions && h in a.history
                  && ReadBack(env, a.disk, a.history, h) == Loaded(a.saved[h], a.disk.versions[h].record))
            && StartUp(env, a.disk, a.history)
               == Loaded(a.saved[a.disk.current], a.disk.versions[a.disk.current].record)
            && (a.node.Some? ==> a.node.value.committed == a.saved[a.disk.current])
  {
    hide DiskInv, Genesis, SoundRun, Run, ReadsAs, Snapshots.Flatten, Snapshots.WellFormed, ReadBack, StartUp;
    GenesisIsReadable(env, record, genesis);
    RunIsReadable(env, Genesis(env, record, genesis), events);
    var a := Run(env, Genesis(env, record, genesis), events);
    Ranges(env.profile, env.rootOf, a.start, a.disk, a.history);
    forall h
      ensures h in a.saved <==> Retained(a.disk, h)
      ensures h in a.saved ==> h in a.disk.versions && h in a.history
                               && ReadBack(env, a.disk, a.history, h) == Loaded(a.saved[h], a.disk.versions[h].record)
    {
      assert h in a.saved.Keys <==> h in a.history.Keys;
      if h in a.saved {
        assert ReadsAs(env, a, h) && h in a.disk.versions && h in a.history;
        ReadsBack(env, a, h);
      }
    }
    StartsUp(env, a);
  }

  /** The snapshot kept for a height is one that a commit or a state sync of that
      height handed over, or was there before the run. */
  lemma {:induction false} SavedWasHandedOver(env: Env, a: App, events: seq<Event>, h: int)
    requires Durable(env, a) && h in Run(env, a, events).saved
    ensures var s := Run(env, a, events).saved[h];
            || (h in a.saved && a.saved[h] == s)
            || (exists i :: 0 <= i < |events| && !events[i].Restart? && events[i].height == h && events[i].next == s)
    decreases |events|
  {
    hide Durable, Step;
    if events != [] {
      StepIsDurable(env, a, events[0]);
      var a' := Step(env, a, events[0]);
      SavedWasHandedOver(env, a', events[1..], h);
      var s := Run(env, a, events).saved[h];
      if h in a'.saved && a'.saved[h] == s {
        SavedByStep(env, a, events[0], h);
        if !(h in a.saved && a.saved[h] == s) {
          assert events[0].height == h && events[0].next == s;
        }
      } else {
        var i :| 0 <= i < |events[1..]| && !events[1..][i].Restart? && events[1..][i].height == h
          && events[1..][i].next == s;
        assert events[i + 1] == events[1..][i];
      }
    }
  }

  lemma SavedByStep(env: Env, a: App, e: Event, h: int)
    requires Durable(env, a) && h in Step(env, a, e).saved
    ensures var s := Step(env, a, e).saved[h];
            (h in a.saved && a.saved[h] == s) || (!e.Restart? && e.height == h && e.next == s)
  {
    hide DiskInv, BlockOk, BlockValue, NextMinimum, HistoryAfter, AfterSave, Projected, TreeAfter, Snapshots.Flatten,
      StartUp;
    Ranges(env.profile, env.rootOf, a.start, a.disk, a.history);
    if e.Block? && BlockOk(env, a, e) {
      KeptIn(a.saved, e.height, e.next, NextMinimum(env.profile, a.disk.minimum, e.height), h);
    }
  }

  // ---- The exact condition ----

  lemma ValidatorsStay(committed: Snapshot, next: Snapshot, touched: set<Key>)
    ensures ValidatorsKey in TreeAfter(Snapshots.Flatten(committed), next, touched)
  {
    hide Snapshots.Flatten;
    Snapshots.ValidatorsReturn(committed);
    Snapshots.ValidatorsReturn(next);
  }

  /** A committed block reads back as the state it was made of exactly when the
      journal names every entry that changed. */
  lemma CommitReadsBackIff(env: Env, a: App, e: Event)
    requires Durable(env, a) && Readable(env, a) && e.Block? && BlockOk(env, a, e)
    requires Snapshots.WellFormed(e.next) && env.rebuilds(e.next)
    ensures var a' := BlockStep(env, a, e);
            && e.height in a'.disk.versions && e.height in a'.history
            && (ReadBack(env, a'.disk, a'.history, e.height) == Loaded(e.next, e.record)
                <==> Snapshots.Journaled(a.node.value.committed, e.next, e.touched))
  {
    hide DiskInv, Readable, Snapshots.Flatten, Snapshots.Unflatten, Snapshots.Journaled, Snapshots.WellFormed, Covers,
      JournalDelta, Apply, NextMinimum, HistoryAfter, SaveBatch, ShouldCheckpoint, Commitable;
    LiveIsTree(env, a);
    var v, committed := BlockValue(env, a.node.value.tree, e), a.node.value.committed;
    var flat := TreeAfter(a.node.value.tree, e.next, e.touched);
    StoredAs(env, a, e);
    JournalLeads(committed, e.next, e.touched);
    ValidatorsStay(committed, e.next, e.touched);
    Snapshots.UnflattenUndoesFlatten(e.next);
    if Snapshots.Unflatten(flat).Some? {
      Snapshots.FlattenUndoesUnflatten(flat);
    }
  }

  lemma StoredAs(env: Env, a: App, e: Event)
    requires Durable(env, a) && e.Block? && BlockOk(env, a, e)
    ensures var a', v := BlockStep(env, a, e), BlockValue(env, a.node.value.tree, e);
            && e.height in a'.disk.versions && a'.disk.versions[e.height] == SavedVersion(env, a.disk, v, false)
            && e.height in a'.history && a'.history[e.height] == Projected(a.disk.live, v)
            && a'.disk.current == e.height && a'.disk.live == Projected(a.disk.live, v)
  {
    hide DiskInv, JournalDelta, Apply, Covers, Snapshots.Flatten, HistoryAfter, SaveBatch, SavedVersion, Commitable,
      Projected;
    Ranges(env.profile, env.rootOf, a.start, a.disk, a.history);
    var v := BlockValue(env, a.node.value.tree, e);
    AcceptedCommits(env, a.disk, v, e.commits);
    var m, version := NextMinimum(env.profile, a.disk.minimum, e.height), SavedVersion(env, a.disk, v, false);
    SaveKeepsInv(env.profile, env.rootOf, a.start, a.disk, a.history, e.height, version, Projected(a.disk.live, v));
    KeptAt(a.disk, a.history, e.height, version, Projected(a.disk.live, v), m, e.height);
    SavedFields(env.profile, env.rootOf, a.disk, e.height, version, Projected(a.disk.live, v), m);
  }

  ghost const LENIENT: Env := Env(Profile(Full, 10, 5), f => |f|, s => true, (r, t, s) => true)

  /** The failing case, concretely. A slot is written for an account that does not
      exist, and only the slot is in the journal. The block is stored, its height
      cannot be read, and the process does not start again. */
  lemma UnjournaledBlockIsUnreadable()
    ensures var before := Snapshot(map[], map[], map[], map[], map[], ["v"], None);
            var after := before.(accounts := map["a" := Account(AccountMeta("a", 0, 0, "", ""), map["k" := "x"])]);
            var e := Block(1, 7, 1, after, {StorageKey("a", "k")}, true);
            var a := Run(LENIENT, Genesis(LENIENT, 0, before), [e]);
            && a.disk.current == 1 && a.node == Some(Node(after, a.disk.live))
            && 1 in a.disk.versions && 1 in a.history && ReadBack(LENIENT, a.disk, a.history, 1) == Corrupt
            && Step(LENIENT, a, Restart).node == None
  {
    hide Durable, Snapshots.Flatten, Snapshots.Unflatten, AfterSave, HistoryAfter, SavedVersion, NextMinimum,
      JournalDelta, Apply;
    var before := Snapshot(map[], map[], map[], map[], map[], ["v"], None);
    var after := before.(accounts := map["a" := Account(AccountMeta("a", 0, 0, "", ""), map["k" := "x"])]);
    var e := Block(1, 7, 1, after, {StorageKey("a", "k")}, true);
    var g := Genesis(LENIENT, 0, before);
    FirstBlockIsStored(g, e);
    StepIsDurable(LENIENT, g, e);
    var a := Step(LENIENT, g, e);
    assert Run(LENIENT, a, [e][1..]) == a;
    StoredAs(LENIENT, g, e);
    Snapshots.StorageForNewAccountIsLost();
  }

  /** Nothing but the checkpoint rule looks at the journal when a block is stored. */
  lemma FirstBlockIsStored(g: App, e: Event)
    requires Durable(LENIENT, g) && g.node.Some? && g.disk.current == 0 && g.disk.index == map[]
    requires e.Block? && e.height == 1 && e.commits
    ensures BlockOk(LENIENT, g, e)
  {
    hide DiskInv, Snapshots.Flatten, JournalDelta, Apply;
  }

  // ---- The application ----

  lemma TreeStep(tree: Flat, flat: Flat, done: set<Key>, k: Key)
    ensures var t := Apply(tree, JournalDelta(tree, flat, done));
            Apply(tree, JournalDelta(tree, flat, done + {k})) == if k in flat then t[k := flat[k]] else t - {k}
  {
  }

  /** Every marked entry is written to the tree or deleted from it. */
  method ApplyMutationsToTree(tree: Flat, next: Snapshot, touched: set<Key>) returns (r: Flat)
    ensures r == TreeAfter(tree, next, touched)
  {
    var flat := Snapshots.Flatten(next);
    hide Snapshots.Flatten;
    r := tree;
    var done: set<Key> := {};
    assert Apply(tree, JournalDelta(tree, flat, done)) == tree;
    hide JournalDelta, Apply;
    while done != touched
      invariant done <= touched
      invariant r == Apply(tree, JournalDelta(tree, flat, done))
      decreases touched - done
    {
      var k :| k in touched && k !in done;
      TreeStep(tree, flat, done, k);
      if k in flat {
        r := r[k := flat[k]];
      } else {
        r := r - {k};
      }
      done := done + {k};
    }
  }

  class Application {
    const env: Env
    const store: ApplicationStore
    var node: Option<Node>
    ghost var saved: map<int, Snapshot>

    /** A new chain. */
    constructor (env: Env, record: Record, genesis: Snapshot)
      requires ValidProfile(env.profile)
      ensures Valid() && fresh(store) && this.env == env && View() == Genesis(env, record, genesis)
    {
      hide DiskInv, Snapshots.Flatten;
      this.env := env;
      store := new ApplicationStore(env, record, genesis);
      node, saved := Some(Node(genesis, Snapshots.Flatten(genesis))), map[0 := genesis];
    }

    ghost predicate Valid()
      reads this, store
    {
      store.env == env && store.Durable() && (node.Some? ==> store.Valid())
    }

    ghost function View(): App
      reads this, store
    {
      App(store.disk, node, store.history, saved, store.start)
    }

    /** A finalised block is stored; a process that cannot store it halts. */
    method Commit(e: Event)
      requires Valid() && e.Block?
      modifies this, store
      ensures Valid() && View() == Step(env, old(View()), e)
    {
      hide DiskInv, AfterSave, HistoryAfter, SaveOk, Projected, TreeAfter, NextMinimum, Covers, Snapshots.Flatten;
      if node.None? || !InSequence(store.currentHeight, e.height) {
        return;
      }
      var tree := ApplyMutationsToTree(node.value.tree, e.next, e.touched);
      var v := Persisted(e.height, e.blockHash, e.record, e.next, env.rootOf(tree), e.touched);
      assert v == BlockValue(env, node.value.tree, e);
      var ok := store.Save(v, false, e.commits);
      if !ok {
        node := None;
        return;
      }
      node := Some(Node(e.next, tree));
      saved := HistoryAfter(saved, e.height, e.next, store.disk.minimum);
    }

    /** State sync. */
    method Sync(e: Event)
      requires Valid() && e.Sync?
      modifies this, store
      ensures Valid() && View() == Step(env, old(View()), e)
    {
      hide DiskInv, AfterRestore, Snapshots.Flatten;
      if node.None? || !env.rebuilds(e.next) {
        return;
      }
      var flat := Snapshots.Flatten(e.next);
      var v := Persisted(e.height, e.blockHash, e.record, e.next, env.rootOf(flat), {});
      assert v == SyncValue(env, e);
      if !env.validates(v.record, v.tree, v.state) {
        return;
      }
      var ok := store.Restore(v, e.commits);
      if !ok {
        node := None;
        return;
      }
      node, saved := Some(Node(e.next, flat)), map[e.height := e.next];
    }

    /** The process starts on what the disk holds. */
    method Start()
      requires Valid()
      modifies this, store
      ensures Valid() && View() == Step(env, old(View()), Restart)
    {
      hide DiskInv, StartUp, Snapshots.Flatten;
      var r := store.Restart();
      if r.Loaded? {
        node := Some(Node(r.state, Snapshots.Flatten(r.state)));
      } else {
        node := None;
      }
    }

    /** A query for the state of a height. */
    method Query(height: int) returns (r: LoadResult)
      requires Valid() && node.Some?
      ensures height < store.disk.minimum <==> r == PrunedHeight
      ensures height > store.disk.current <==> r == Unavailable
      ensures Retained(store.disk, height) ==> r == ReadBack(env, store.disk, store.history, height)
      ensures Retained(store.disk, height) && Readable(env, View()) ==>
                height in saved && r == Loaded(saved[height], store.disk.versions[height].record)
    {
      hide DiskInv, ReadBack, Snapshots.Flatten;
      Ranges(env.profile, env.rootOf, store.start, store.disk, store.history);
      r := store.LoadHeight(height);
      if Retained(store.disk, height) && Readable(env, View()) {
        assert ReadsAs(env, View(), height);
        ReadsBack(env, View(), height);
      }
    }
  }
}

/** The durable application store: a flat live state, one delta per height,
    periodic checkpoints, and pruning, all moved forward by atomic batches. Its
    specification is a map from retained heights to complete states. */
module VersionedStore {
  import opened FlatState
  import opened Wrappers
  import opened Arithmetic
  import Snapshots

  type BlockHash = nat
  type Digest = nat
  type Record = nat

  // ---- Retention profiles ----

  datatype Mode = Unset | Pruned | Full | Archive

  datatype Profile = Profile(mode: Mode, retain: nat, interval: nat)

  const MAX_RETAIN: nat := 10_000_000
  const MAX_INTERVAL: nat := 100_000

  predicate ValidProfile(p: Profile) {
    match p.mode
    case Unset => false
    case Pruned => p.retain == 1 && p.interval == 0
    case Full => 2 <= p.retain <= MAX_RETAIN && 1 <= p.interval <= MAX_INTERVAL && p.interval <= p.retain
    case Archive => p.retain == 0 && 1 <= p.interval <= MAX_INTERVAL
  }

  /** The empty profile stands for the default one; any other is taken as it is or refused. */
  function NormalizeStorageProfile(p: Profile): (r: Option<Profile>)
    ensures r.Some? ==> ValidProfile(r.value)
    ensures r.None? <==> !ValidProfile(p) && p != Profile(Unset, 0, 0)
  {
    var profile := if p == Profile(Unset, 0, 0) then Profile(Full, 10_000, 100) else p;
    match profile.mode
    case Pruned => if profile.retain != 1 || profile.interval != 0 then None else Some(profile)
    case Full =>
      if profile.retain < 2 || profile.retain > MAX_RETAIN then None
      else if profile.interval == 0 || profile.interval > MAX_INTERVAL || profile.interval > profile.retain then None
      else Some(profile)
    case Archive =>
      if profile.retain != 0 then None
      else if profile.interval == 0 || profile.interval > MAX_INTERVAL then None
      else Some(profile)
    case Unset => None
  }

  function ShouldCheckpoint(p: Profile, height: int): bool
    requires ValidProfile(p)
  {
    p.mode != Pruned && height > 0 && height % p.interval == 0
  }

  /** The oldest height kept once `height` is stored. */
  function NextMinimum(p: Profile, minimum: int, height: int): int
    requires ValidProfile(p)
  {
    match p.mode
    case Archive => minimum
    case Pruned => if height <= minimum then minimum else height
    case Full =>
      if height < 0 || height + 1 <= p.retain then minimum
      else var candidate := ((height - p.retain + 1) / p.interval) * p.interval;
           if candidate > minimum then candidate else minimum
  }

  // ---- What is on disk ----

  /** The record is the commitment of the height with its application hash,
      proposers, transactions and receipts. */
  datatype Version =
    Version(blockHash: BlockHash, record: Record, delta: Delta, checkpoint: Option<Flat>, count: nat, root: Digest)

  datatype Disk = Disk(live: Flat, versions: map<int, Version>, current: int, minimum: int, index: map<BlockHash, int>)

  /** A stored version describes the state of its height. */
  ghost predicate VersionOk(rootOf: Flat -> Digest, d: Disk, history: map<int, Flat>, h: int) {
    && h in d.versions && h in history
    && d.versions[h].count == |history[h]|
    && d.versions[h].root == rootOf(history[h])
    && (d.versions[h].checkpoint.Some? ==> d.versions[h].checkpoint.value == history[h])
    && (h > 0 ==> d.versions[h].blockHash in d.index && d.index[d.versions[h].blockHash] == h)
  }

  /** Its delta leads from the state of the height before. */
  ghost predicate DeltaOk(d: Disk, history: map<int, Flat>, h: int) {
    && h in d.versions && h in history && h - 1 in history
    && d.versions[h].delta.deletes <= history[h - 1].Keys
    && history[h] == Apply(history[h - 1], d.versions[h].delta)
  }

  ghost predicate IsCheckpoint(d: Disk, h: int) {
    h in d.versions && d.versions[h].checkpoint.Some?
  }

  ghost predicate Retained(d: Disk, h: int) { d.minimum <= h <= d.current }

  /** The disk holds exactly the retained history, starts at a checkpoint, and
      keeps what the profile asks for. `start` is the first height ever stored. */
  ghost predicate DiskInv(p: Profile, rootOf: Flat -> Digest, start: int, d: Disk, history: map<int, Flat>) {
    && ValidProfile(p)
    && 0 <= start <= d.minimum <= d.current
    && (forall h :: h in d.versions <==> Retained(d, h))
    && (forall h :: h in history <==> Retained(d, h))
    && d.live == history[d.current]
    && (forall h {:trigger VersionOk(rootOf, d, history, h)} :: Retained(d, h) ==> VersionOk(rootOf, d, history, h))
    && (forall h {:trigger DeltaOk(d, history, h)} :: d.minimum < h <= d.current ==> DeltaOk(d, history, h))
    && IndexInv(d)
    && CheckpointInv(p, d)
    && RetentionInv(p, start, d.minimum, d.current)
  }

  /** The block index names retained heights and nothing else. */
  ghost predicate IndexInv(d: Disk) {
    forall x :: x in d.index ==>
      && d.index[x] > 0 && d.index[x] in d.versions
      && d.versions[d.index[x]].blockHash == x
  }

  ghost predicate CheckpointInv(p: Profile, d: Disk)
    requires ValidProfile(p)
  {
    && (p.mode == Pruned ==> d.minimum == d.current)
    && (p.mode != Pruned ==> IsCheckpoint(d, d.minimum))
    && (forall h {:trigger IsCheckpoint(d, h)} :: Retained(d, h) && ShouldCheckpoint(p, h) ==> IsCheckpoint(d, h))
  }

  /** The last `retain` heights since the start are there, and in full mode no
      more than `retain + interval - 1` heights are. */
  ghost predicate RetentionInv(p: Profile, start: int, minimum: int, current: int) {
    && (p.mode == Archive ==> minimum == start)
    && (p.mode == Full ==> minimum <= start || minimum <= current - p.retain + 1)
    && (p.mode == Full ==> current - minimum + 1 <= p.retain + p.interval - 1)
  }

  lemma NextMinimumKeepsRetention(p: Profile, start: int, minimum: int, height: int)
    requires ValidProfile(p) && 0 <= start <= minimum <= height
    requires RetentionInv(p, start, minimum, height)
             || (minimum < height && RetentionInv(p, start, minimum, height - 1))
    ensures var m := NextMinimum(p, minimum, height);
            && minimum <= m <= height
            && RetentionInv(p, start, m, height)
            && (p.mode == Pruned ==> m == height)
            && (m != minimum && p.mode == Full ==> m < height && m > 0 && ShouldCheckpoint(p, m))
  {
    if p.mode == Full && p.retain < height + 1 {
      var desired := height - p.retain + 1;
      var q := desired / p.interval;
      assert desired == q * p.interval + desired % p.interval;
      assert (q * p.interval) % p.interval == 0 by { DivModOf(q * p.interval, q, p.interval, 0); }
    }
  }

  /** Every height of the promised window can be read, and the window stays bounded. */
  lemma PromisedWindow(p: Profile, rootOf: Flat -> Digest, start: int, d: Disk, history: map<int, Flat>, h: int)
    requires DiskInv(p, rootOf, start, d, history) && start <= h <= d.current
    requires p.mode == Archive || h > d.current - p.retain
    ensures h in history
    ensures p.mode == Full ==> |history| < p.retain + p.interval
  {
    assert history.Keys == Heights(d.minimum, d.current);
  }

  ghost function Heights(lo: int, hi: int): (s: set<int>)
    requires lo <= hi + 1
    ensures forall h :: h in s <==> lo <= h <= hi
    ensures |s| == hi - lo + 1
    decreases hi - lo
  {
    if lo > hi then {} else Heights(lo, hi - 1) + {hi}
  }

  // ---- The batches ----

  /** The live namespace after a batch: sets are written, then deletes. */
  function LiveAfter(live: Flat, delta: Delta): Flat {
    (live + delta.sets) - delta.deletes
  }

  lemma LiveIsApply(live: Flat, delta: Delta)
    requires delta.deletes !! delta.sets.Keys
    ensures LiveAfter(live, delta) == Apply(live, delta)
  {
  }

  ghost function PrunedHashes(d: Disk, m: int): set<BlockHash> {
    set h | h in d.versions && h < m && h > 0 :: d.versions[h].blockHash
  }

  /** One commit: a new version, the live state, the block index and the pruning. */
  ghost function SaveBatch(d: Disk, height: int, version: Version, m: int): Disk {
    var versions := d.versions[height := version];
    Disk(LiveAfter(d.live, version.delta),
         map h | h in versions && h >= m :: versions[h],
         height,
         m,
         (if height > 0 then d.index[version.blockHash := height] else d.index) - PrunedHashes(d, m))
  }

  /** The specification of a commit: one more state, the oldest ones dropped. */
  ghost function HistoryAfter<T>(history: map<int, T>, height: int, next: T, m: int): map<int, T> {
    var extended := history[height := next];
    map h | h in extended && h >= m :: extended[h]
  }

  /** What `Save` has established about the version it writes. */
  ghost predicate Commitable(p: Profile, rootOf: Flat -> Digest, d: Disk, height: int, version: Version, next: Flat)
    requires ValidProfile(p)
  {
    && (height == d.current + 1 || (height == 0 && d.current == 0))
    && version.delta.deletes <= d.live.Keys && version.delta.deletes !! version.delta.sets.Keys
    && next == Apply(d.live, version.delta)
    && version.count == |next| && version.root == rootOf(next)
    && (version.checkpoint.Some? ==> version.checkpoint.value == next)
    && (height == 0 || ShouldCheckpoint(p, height) ==> version.checkpoint.Some?)
    && (height > 0 ==> version.blockHash !in d.index)
  }

  lemma SavedVersionOk(p: Profile, rootOf: Flat -> Digest, start: int, d: Disk, history: map<int, Flat>,
                       height: int, version: Version, next: Flat, m: int, h: int)
    requires DiskInv(p, rootOf, start, d, history) && Commitable(p, rootOf, d, height, version, next)
    requires d.minimum <= m <= h <= height
    ensures VersionOk(rootOf, SaveBatch(d, height, version, m), HistoryAfter(history, height, next, m), h)
  {
    hide DeltaOk, IndexInv, CheckpointInv, RetentionInv, Apply, LiveAfter, PrunedHashes, SaveBatch, HistoryAfter,
      ShouldCheckpoint;
    KeptAt(d, history, height, version, next, m, h);
    if h != height {
      assert VersionOk(rootOf, d, history, h);
      if h > 0 {
        HashKept(p, rootOf, start, d, history, m, h);
        assert d.versions[h].blockHash in SaveBatch(d, height, version, m).index;
      }
    } else if height > 0 {
      NewHashKept(p, rootOf, start, d, history, m, version.blockHash);
    }
  }

  lemma SavedDeltaOk(p: Profile, rootOf: Flat -> Digest, start: int, d: Disk, history: map<int, Flat>,
                     height: int, version: Version, next: Flat, m: int, h: int)
    requires DiskInv(p, rootOf, start, d, history) && Commitable(p, rootOf, d, height, version, next)
    requires d.minimum <= m < h <= height
    ensures DeltaOk(SaveBatch(d, height, version, m), HistoryAfter(history, height, next, m), h)
  {
    hide Apply, IndexInv, CheckpointInv, RetentionInv, VersionOk, SaveBatch, HistoryAfter, ShouldCheckpoint;
    KeptAt(d, history, height, version, next, m, h - 1);
    KeptAt(d, history, height, version, next, m, h);
    if h != height {
      assert DeltaOk(d, history, h);
    }
  }

  lemma KeptAt(d: Disk, history: map<int, Flat>, height: int, version: Version, next: Flat, m: int, h: int)
    requires m <= h
    requires h == height || (h in d.versions && h in history)
    ensures var d', history' := SaveBatch(d, height, version, m), HistoryAfter(history, height, next, m);
            && h in d'.versions && d'.versions[h] == (if h == height then version else d.versions[h])
            && h in history' && history'[h] == (if h == height then next else history[h])
            && (forall x {:trigger x in d'.index} ::
                 x in d.index && x !in PrunedHashes(d, m) && x != version.blockHash ==>
                   x in d'.index && d'.index[x] == d.index[x])
            && (height > 0 && version.blockHash !in PrunedHashes(d, m) ==>
                 version.blockHash in d'.index && d'.index[version.blockHash] == height)
  {
    hide PrunedHashes, LiveAfter;
  }

  lemma SavedIndexOk(p: Profile, rootOf: Flat -> Digest, start: int, d: Disk, history: map<int, Flat>,
                     height: int, version: Version, next: Flat, m: int)
    requires DiskInv(p, rootOf, start, d, history) && Commitable(p, rootOf, d, height, version, next)
    requires d.minimum <= m <= height
    ensures IndexInv(SaveBatch(d, height, version, m))
  {
    hide VersionOk, DeltaOk, CheckpointInv, RetentionInv, Apply, LiveAfter, ShouldCheckpoint;
    var d' := SaveBatch(d, height, version, m);
    forall x | x in d'.index
      ensures d'.index[x] > 0 && d'.index[x] in d'.versions && d'.versions[d'.index[x]].blockHash == x
    {
      if x in d.index {
        assert d.index[x] in d.versions && d.versions[d.index[x]].blockHash == x;
        assert d.index[x] < m ==> x in PrunedHashes(d, m);
      }
    }
  }

  /** Pruning never removes the index entry of a version that stays. */
  lemma HashKept(p: Profile, rootOf: Flat -> Digest, start: int, d: Disk, history: map<int, Flat>, m: int, h: int)
    requires DiskInv(p, rootOf, start, d, history) && m <= h && Retained(d, h) && h > 0
    ensures d.versions[h].blockHash !in PrunedHashes(d, m)
  {
    assert VersionOk(rootOf, d, history, h);
    forall g | g in d.versions && g < m && g > 0
      ensures d.versions[g].blockHash != d.versions[h].blockHash
    {
      assert VersionOk(rootOf, d, history, g);
    }
  }

  lemma NewHashKept(p: Profile, rootOf: Flat -> Digest, start: int, d: Disk, history: map<int, Flat>, m: int,
                    x: BlockHash)
    requires DiskInv(p, rootOf, start, d, history) && x !in d.index
    ensures x !in PrunedHashes(d, m)
  {
    forall g | g in d.versions && g < m && g > 0
      ensures d.versions[g].blockHash != x
    {
      assert VersionOk(rootOf, d, history, g);
    }
  }

  lemma SavedShape(p: Profile, rootOf: Flat -> Digest, start: int, d: Disk, history: map<int, Flat>,
                   height: int, version: Version, next: Flat, m: int)
    requires DiskInv(p, rootOf, start, d, history) && Commitable(p, rootOf, d, height, version, next)
    requires d.minimum <= m <= height
    ensures var d', history' := SaveBatch(d, height, version, m), HistoryAfter(history, height, next, m);
            && d'.current == height && d'.minimum == m && height in history' && d'.live == next == history'[height]
            && (forall h :: h in d'.versions <==> Retained(d', h))
            && (forall h :: h in history' <==> Retained(d', h))
  {
    hide DiskInv, ShouldCheckpoint, Apply, SaveBatch, HistoryAfter;
    Ranges(p, rootOf, start, d, history);
    assert height in HistoryAfter(history, height, next, m)
      && HistoryAfter(history, height, next, m)[height] == next by {
      KeptAt(d, history, height, version, next, m, height);
    }
    var d', history' := SaveBatch(d, height, version, m), HistoryAfter(history, height, next, m);
    SavedFields(p, rootOf, d, height, version, next, m);
    forall h
      ensures h in d'.versions <==> Retained(d', h)
      ensures h in history' <==> Retained(d', h)
    {
      SavedKeys(p, rootOf, start, d, history, height, version, next, m, h);
    }
  }

  lemma SavedFields(p: Profile, rootOf: Flat -> Digest, d: Disk, height: int, version: Version, next: Flat, m: int)
    requires ValidProfile(p) && Commitable(p, rootOf, d, height, version, next)
    ensures var d' := SaveBatch(d, height, version, m);
            d'.current == height && d'.minimum == m && d'.live == next
  {
    hide Apply, LiveAfter, PrunedHashes, ShouldCheckpoint;
    LiveIsApply(d.live, version.delta);
  }

  lemma SavedKeys(p: Profile, rootOf: Flat -> Digest, start: int, d: Disk, history: map<int, Flat>,
                  height: int, version: Version, next: Flat, m: int, h: int)
    requires DiskInv(p, rootOf, start, d, history) && Commitable(p, rootOf, d, height, version, next)
    requires d.minimum <= m <= height
    ensures h in SaveBatch(d, height, version, m).versions <==> m <= h <= height
    ensures h in HistoryAfter(history, height, next, m) <==> m <= h <= height
  {
    hide DiskInv, Apply, ShouldCheckpoint, SaveBatch, HistoryAfter;
    assert h in d.versions <==> Retained(d, h) by { Ranges(p, rootOf, start, d, history); }
    assert h in history <==> Retained(d, h) by { Ranges(p, rootOf, start, d, history); }
    KeysAfter(d, history, height, version, next, m, h);
  }

  lemma KeysAfter(d: Disk, history: map<int, Flat>, height: int, version: Version, next: Flat, m: int, h: int)
    ensures h in SaveBatch(d, height, version, m).versions <==> h >= m && (h == height || h in d.versions)
    ensures h in HistoryAfter(history, height, next, m) <==> h >= m && (h == height || h in history)
  {
    hide LiveAfter, PrunedHashes;
  }

  /** A commit keeps the disk equal to the specification. */
  lemma SaveKeepsInv(p: Profile, rootOf: Flat -> Digest, start: int, d: Disk, history: map<int, Flat>,
                     height: int, version: Version, next: Flat)
    requires DiskInv(p, rootOf, start, d, history) && Commitable(p, rootOf, d, height, version, next)
    ensures var m := NextMinimum(p, d.minimum, height);
            && d.minimum <= m <= height
            && DiskInv(p, rootOf, start, SaveBatch(d, height, version, m), HistoryAfter(history, height, next, m))
  {
    hide VersionOk, DeltaOk, IndexInv, CheckpointInv, NextMinimum, SaveBatch, HistoryAfter, Apply, ShouldCheckpoint;
    NextMinimumKeepsRetention(p, start, d.minimum, height);
    var m := NextMinimum(p, d.minimum, height);
    var d', history' := SaveBatch(d, height, version, m), HistoryAfter(history, height, next, m);
    SavedShape(p, rootOf, start, d, history, height, version, next, m);
    forall h | Retained(d', h)
      ensures VersionOk(rootOf, d', history', h)
    {
      SavedVersionOk(p, rootOf, start, d, history, height, version, next, m, h);
    }
    forall h | d'.minimum < h <= d'.current
      ensures DeltaOk(d', history', h)
    {
      SavedDeltaOk(p, rootOf, start, d, history, height, version, next, m, h);
    }
    SavedIndexOk(p, rootOf, start, d, history, height, version, next, m);
    CheckpointsStay(p, rootOf, start, d, history, height, version, next);
  }

  /** The history boundary is a checkpoint again after pruning. */
  lemma CheckpointsStay(p: Profile, rootOf: Flat -> Digest, start: int, d: Disk, history: map<int, Flat>,
                        height: int, version: Version, next: Flat)
    requires DiskInv(p, rootOf, start, d, history) && Commitable(p, rootOf, d, height, version, next)
    ensures CheckpointInv(p, SaveBatch(d, height, version, NextMinimum(p, d.minimum, height)))
  {
    hide NextMinimum, ShouldCheckpoint, VersionOk, DeltaOk, IndexInv, PrunedHashes, Apply, LiveAfter;
    NextMinimumKeepsRetention(p, start, d.minimum, height);
    var m := NextMinimum(p, d.minimum, height);
    var d' := SaveBatch(d, height, version, m);
    forall h | m <= h <= height && (ShouldCheckpoint(p, h) || (p.mode != Pruned && h == m))
      ensures IsCheckpoint(d', h)
    {
      if h != height {
        assert IsCheckpoint(d, h);
      }
    }
  }

  /** A database that holds a single complete state. */
  function Rebased(flat: Flat, height: int, version: Version): Disk {
    Disk(flat, map[height := version], height, height, if height > 0 then map[version.blockHash := height] else map[])
  }

  lemma RebaseIsValid(p: Profile, rootOf: Flat -> Digest, height: int, flat: Flat, version: Version)
    requires ValidProfile(p) && height >= 0
    requires version.checkpoint == Some(flat) && version.count == |flat| && version.root == rootOf(flat)
    ensures DiskInv(p, rootOf, height, Rebased(flat, height, version), map[height := flat])
  {
    var d, history := Rebased(flat, height, version), map[height := flat];
    assert VersionOk(rootOf, d, history, height);
    assert IsCheckpoint(d, height);
  }

  lemma RebasedFields(flat: Flat, height: int, version: Version)
    ensures var d := Rebased(flat, height, version); d.current == d.minimum == height && d.live == flat
  {
  }

  // ---- Small facts, so that the methods need not open the invariant ----

  lemma Ranges(p: Profile, rootOf: Flat -> Digest, start: int, d: Disk, history: map<int, Flat>)
    requires DiskInv(p, rootOf, start, d, history)
    ensures ValidProfile(p) && 0 <= start <= d.minimum <= d.current
    ensures forall h {:trigger h in d.versions} {:trigger h in history} ::
              (h in d.versions <==> Retained(d, h)) && (h in history <==> Retained(d, h))
    ensures d.live == history[d.current]
  {
  }

  lemma IndexedHeight(p: Profile, rootOf: Flat -> Digest, start: int, d: Disk, history: map<int, Flat>, x: BlockHash)
    requires DiskInv(p, rootOf, start, d, history) && x in d.index
    ensures 0 < d.index[x] && Retained(d, d.index[x])
  {
    assert d.index[x] in d.versions;
  }

  lemma JournalDeltaShape(previous: Flat, next: Flat, touched: set<Key>)
    ensures var d := JournalDelta(previous, next, touched);
            d.deletes <= previous.Keys && d.deletes !! d.sets.Keys
  {
  }

  lemma PrunedHashesStep(p: Profile, rootOf: Flat -> Digest, start: int, d: Disk, history: map<int, Flat>, m: int)
    requires DiskInv(p, rootOf, start, d, history) && Retained(d, m)
    ensures PrunedHashes(d, d.minimum) == {}
    ensures m in d.versions
    ensures PrunedHashes(d, m + 1) == PrunedHashes(d, m) + if m > 0 then {d.versions[m].blockHash} else {}
  {
    hide VersionOk, DeltaOk, IndexInv, CheckpointInv, RetentionInv;
    var a, b := PrunedHashes(d, m), PrunedHashes(d, m + 1);
    forall x
      ensures x in b <==> x in a || (m > 0 && x == d.versions[m].blockHash)
    {
      if x in b {
        var h :| h in d.versions && h < m + 1 && h > 0 && d.versions[h].blockHash == x;
        assert h < m ==> x in a;
      }
      if m > 0 && x == d.versions[m].blockHash {
        assert x in b;
      }
    }
  }

  // ---- Saving and reading back ----

  /** The profile, the root of a flat state, and the two checks that a state passes
      besides decoding: a store can be rebuilt from its snapshot, and the record, the
      root of its tree and the snapshot agree. */
  datatype Env = Env(
    profile: Profile,
    rootOf: Flat -> Digest,
    rebuilds: Snapshot -> bool,
    validates: (Record, Digest, Snapshot) -> bool)

  /** What the application hands over for one height: its store with the journal,
      and the root of the tree it keeps beside the store. */
  datatype Persisted =
    Persisted(height: int, blockHash: BlockHash, record: Record, state: Snapshot, tree: Digest, touched: set<Key>)

  predicate Checkpointed(p: Profile, height: int, force: bool)
    requires ValidProfile(p)
  {
    force || height == 0 || ShouldCheckpoint(p, height)
  }

  /** When a save succeeds. */
  ghost predicate SaveOk(env: Env, d: Disk, v: Persisted, force: bool, commits: bool)
    requires ValidProfile(env.profile)
  {
    && commits
    && (v.height == d.current + 1 || (v.height == 0 && d.current == 0))
    && env.validates(v.record, v.tree, v.state)
    && (Checkpointed(env.profile, v.height, force) ==> Covers(d.live, Snapshots.Flatten(v.state), v.touched))
    && (v.height > 0 ==> v.blockHash !in d.index)
  }

  /** The state that the journal leads to. */
  ghost function Projected(live: Flat, v: Persisted): Flat {
    Apply(live, JournalDelta(live, Snapshots.Flatten(v.state), v.touched))
  }

  ghost function SavedVersion(env: Env, d: Disk, v: Persisted, force: bool): Version
    requires ValidProfile(env.profile)
  {
    var next := Projected(d.live, v);
    Version(v.blockHash,
            v.record,
            JournalDelta(d.live, Snapshots.Flatten(v.state), v.touched),
            if Checkpointed(env.profile, v.height, force) then Some(next) else None,
            |next|,
            env.rootOf(next))
  }

  ghost function AfterSave(env: Env, d: Disk, v: Persisted, force: bool): Disk
    requires ValidProfile(env.profile)
  {
    SaveBatch(d, v.height, SavedVersion(env, d, v, force), NextMinimum(env.profile, d.minimum, v.height))
  }

  lemma SavedIsCommitable(env: Env, d: Disk, v: Persisted, force: bool)
    requires ValidProfile(env.profile) && SaveOk(env, d, v, force, true)
    ensures Commitable(env.profile, env.rootOf, d, v.height, SavedVersion(env, d, v, force), Projected(d.live, v))
  {
    hide JournalDelta, Covers, Apply, ShouldCheckpoint, Snapshots.Flatten;
    JournalDeltaShape(d.live, Snapshots.Flatten(v.state), v.touched);
  }

  datatype LoadResult = Loaded(state: Snapshot, record: Record) | PrunedHeight | Unavailable | Corrupt

  /** What reading a stored flat state gives: the snapshot in it, if there is one,
      if a store can be rebuilt from it, and if it agrees with the record. */
  function Decode(env: Env, record: Record, flat: Flat): (r: LoadResult)
    ensures r.Loaded? || r.Corrupt?
    ensures r.Loaded? ==> Snapshots.Unflatten(flat) == Some(r.state) && r.record == record
  {
    match Snapshots.Unflatten(flat)
    case None => Corrupt
    case Some(s) => if env.rebuilds(s) && env.validates(record, env.rootOf(flat), s) then Loaded(s, record) else Corrupt
  }

  /** What a retained height reads back as. */
  ghost function ReadBack(env: Env, d: Disk, history: map<int, Flat>, h: int): (r: LoadResult)
    requires h in d.versions && h in history
    ensures r.Loaded? || r.Corrupt?
  {
    Decode(env, d.versions[h].record, history[h])
  }

  /** What start-up gives: the current state, unless the boundary is unreadable. */
  ghost function StartUp(env: Env, d: Disk, history: map<int, Flat>): LoadResult
    requires d.current in d.versions && d.current in history && d.minimum in d.versions && d.minimum in history
  {
    if d.minimum != d.current && !ReadBack(env, d, history, d.minimum).Loaded? then Corrupt
    else ReadBack(env, d, history, d.current)
  }

  ghost predicate RestoreOk(env: Env, d: Disk, v: Persisted, commits: bool) {
    commits && d.current == 0 && v.height > 0 && env.validates(v.record, v.tree, v.state)
  }

  function AfterRestore(env: Env, v: Persisted): Disk {
    var flat := Snapshots.Flatten(v.state);
    Rebased(flat, v.height, Complete(env, v.blockHash, v.record, flat))
  }

  /** A version that holds its state in full and no delta. */
  function Complete(env: Env, blockHash: BlockHash, record: Record, flat: Flat): Version {
    Version(blockHash, record, Delta(map[], {}), Some(flat), |flat|, env.rootOf(flat))
  }

  class ApplicationStore {
    const env: Env

    // What survives a restart.
    var disk: Disk

    // What the process keeps in memory. The sparse tree is a function of the
    // entries it holds, so it is represented by them.
    var currentHeight: int
    var minimumHeight: int
    var currentFlat: Flat
    var currentTree: Flat

    // The specification: the state of every retained height.
    ghost var history: map<int, Flat>
    ghost var start: int

    ghost predicate Durable()
      reads this
    {
      DiskInv(env.profile, env.rootOf, start, disk, history)
    }

    ghost predicate Valid()
      reads this
    {
      && Durable()
      && currentHeight == disk.current && minimumHeight == disk.minimum
      && currentFlat == disk.live && currentTree == disk.live
    }

    /** A new database holds the genesis state at height 0. */
    constructor (env: Env, record: Record, state: Snapshot)
      requires ValidProfile(env.profile)
      ensures this.env == env
      ensures Valid() && start == 0 && history == map[0 := Snapshots.Flatten(state)]
      ensures disk == Rebased(Snapshots.Flatten(state), 0, Complete(env, 0, record, Snapshots.Flatten(state)))
    {
      this.env := env;
      var flat := Snapshots.Flatten(state);
      var version := Complete(env, 0, record, flat);
      disk := Rebased(flat, 0, version);
      currentHeight, minimumHeight, currentFlat, currentTree := 0, 0, flat, flat;
      history, start := map[0 := flat], 0;
      new;
      RebaseIsValid(env.profile, env.rootOf, 0, flat, version);
    }

    /** Versions below the next minimum leave the batch, with their index entries. */
    method PruneVersionsInBatch(height: int, versions: map<int, Version>, index: map<BlockHash, int>)
        returns (nextMinimum: int, kept: map<int, Version>, keptIndex: map<BlockHash, int>)
      requires Valid() && (height == disk.current + 1 || height == disk.current)
      requires forall h :: h in versions ==> h >= disk.minimum
      ensures nextMinimum == NextMinimum(env.profile, disk.minimum, height)
      ensures kept == map h | h in versions && h >= nextMinimum :: versions[h]
      ensures keptIndex == index - PrunedHashes(disk, nextMinimum)
    {
      hide VersionOk, DeltaOk, IndexInv, CheckpointInv, PrunedHashes;
      Ranges(env.profile, env.rootOf, start, disk, history);
      NextMinimumKeepsRetention(env.profile, start, disk.minimum, height);
      PrunedHashesStep(env.profile, env.rootOf, start, disk, history, disk.minimum);
      hide Durable, NextMinimum, RetentionInv;
      nextMinimum := NextMinimum(env.profile, minimumHeight, height);
      kept, keptIndex := versions, index;
      var pruned := minimumHeight;
      while pruned < nextMinimum
        invariant minimumHeight <= pruned <= nextMinimum
        invariant kept == map h | h in versions && h >= pruned :: versions[h]
        invariant keptIndex == index - PrunedHashes(disk, pruned)
      {
        PrunedHashesStep(env.profile, env.rootOf, start, disk, history, pruned);
        var artifacts := disk.versions[pruned];
        kept := kept - {pruned};
        if pruned > 0 {
          keptIndex := keptIndex - {artifacts.blockHash};
        }
        pruned := pruned + 1;
      }
    }

    method BuildBatch(height: int, version: Version) returns (batch: Disk)
      requires Valid() && (height == disk.current + 1 || height == disk.current)
      ensures batch == SaveBatch(disk, height, version, NextMinimum(env.profile, disk.minimum, height))
    {
      hide DiskInv, PrunedHashes, NextMinimum, LiveAfter;
      Ranges(env.profile, env.rootOf, start, disk, history);
      var versions := disk.versions[height := version];
      var index := if height > 0 then disk.index[version.blockHash := height] else disk.index;
      var nextMinimum, kept, keptIndex := PruneVersionsInBatch(height, versions, index);
      batch := Disk(LiveAfter(disk.live, version.delta), kept, height, nextMinimum, keptIndex);
    }

    /** One batch: either all of it reaches the disk or nothing does. */
    method CommitBatch(height: int, version: Version, next: Flat)
      requires Valid() && Commitable(env.profile, env.rootOf, disk, height, version, next)
      modifies this
      ensures Valid() && start == old(start)
      ensures disk == SaveBatch(old(disk), height, version, NextMinimum(env.profile, old(disk.minimum), height))
      ensures disk.current == height && disk.live == next
      ensures disk.minimum == NextMinimum(env.profile, old(disk.minimum), height)
      ensures history == HistoryAfter(old(history), height, next, disk.minimum)
    {
      hide DiskInv, NextMinimum, HistoryAfter, SaveBatch, ShouldCheckpoint;
      Ranges(env.profile, env.rootOf, start, disk, history);
      SaveKeepsInv(env.profile, env.rootOf, start, disk, history, height, version, next);
      SavedShape(env.profile, env.rootOf, start, disk, history, height, version, next,
                 NextMinimum(env.profile, disk.minimum, height));
      var batch := BuildBatch(height, version);
      history := HistoryAfter(history, height, next, batch.minimum);
      disk := batch;
      currentHeight, minimumHeight, currentFlat, currentTree := height, batch.minimum, next, next;
    }

    /** Commit the next height (or replace height 0) from the journal of touched
        entries. The complete state is flattened only at checkpoints, where a journal
        that misses a change is refused. */
    method Save(v: Persisted, force: bool, commits: bool) returns (ok: bool)
      requires Valid()
      modifies this
      ensures Valid() && start == old(start)
      ensures ok <==> SaveOk(env, old(disk), v, force, commits)
      ensures disk == if ok then AfterSave(env, old(disk), v, force) else old(disk)
      ensures history == if ok then HistoryAfter(old(history), v.height, Projected(old(disk.live), v), disk.minimum)
                         else old(history)
      ensures ok ==> && disk.current == v.height
                     && disk.live == Projected(old(disk.live), v)
                     && disk.minimum == NextMinimum(env.profile, old(disk.minimum), v.height)
                     && (Covers(old(disk.live), Snapshots.Flatten(v.state), v.touched)
                         <==> disk.live == Snapshots.Flatten(v.state))
    {
      hide DiskInv, JournalDelta, Diff, Covers, Apply, HistoryAfter, NextMinimum, ShouldCheckpoint, SaveBatch,
        Commitable, Snapshots.Flatten;
      assert 0 <= disk.minimum <= disk.current && ValidProfile(env.profile) by {
        Ranges(env.profile, env.rootOf, start, disk, history);
      }
      var height := v.height;
      ok := false;
      if height < 0 || currentHeight < 0 {
        return;
      }
      if height == currentHeight {
        if height != 0 {
          return;
        }
      } else if height != currentHeight + 1 {
        return;
      }
      if !env.validates(v.record, v.tree, v.state) {
        return;
      }
      var checkpoint := Checkpointed(env.profile, height, force);
      var complete := Snapshots.Flatten(v.state);
      JournalIsExactIffItCovers(currentFlat, complete, v.touched);
      JournalDeltaShape(currentFlat, complete, v.touched);
      var delta := FlatDeltaFromMutations(currentFlat, complete, v.touched);
      var projected := ApplyFlatDelta(currentFlat, delta);
      if projected.None? {
        return;
      }
      var next := projected.value;
      var nextTree := next;
      if checkpoint {
        if delta != Diff(currentFlat, complete) {
          return;
        }
        next := complete;
        if env.rootOf(complete) != env.rootOf(nextTree) {
          return;
        }
        nextTree := complete;
      }
      if height > 0 && v.blockHash in disk.index {
        IndexedHeight(env.profile, env.rootOf, start, disk, history, v.blockHash);
        if disk.index[v.blockHash] != height {
          return;
        }
      }
      if !commits {
        return;
      }
      var version :=
        Version(v.blockHash, v.record, delta, if checkpoint then Some(next) else None, |next|, env.rootOf(nextTree));
      assert version == SavedVersion(env, disk, v, force);
      SavedIsCommitable(env, disk, v, force);
      CommitBatch(height, version, next);
      ok := true;
    }

    /** State sync: a complete state replaces an empty height-0 database. */
    method Restore(v: Persisted, commits: bool) returns (ok: bool)
      requires Valid()
      modifies this
      ensures Valid()
      ensures ok <==> RestoreOk(env, old(disk), v, commits)
      ensures !ok ==> disk == old(disk) && history == old(history) && start == old(start)
      ensures ok ==> && disk == AfterRestore(env, v) && disk.current == v.height && start == v.height
                     && history == map[v.height := Snapshots.Flatten(v.state)]
    {
      hide DiskInv, ValidProfile, Rebased, Snapshots.Flatten;
      if currentHeight != 0 || v.height <= 0 {
        return false;
      }
      if !env.validates(v.record, v.tree, v.state) {
        return false;
      }
      if !commits {
        return false;
      }
      assert ValidProfile(env.profile) by { Ranges(env.profile, env.rootOf, start, disk, history); }
      var flat := Snapshots.Flatten(v.state);
      var version := Complete(env, v.blockHash, v.record, flat);
      RebaseIsValid(env.profile, env.rootOf, v.height, flat, version);
      RebasedFields(flat, v.height, version);
      disk := Rebased(flat, v.height, version);
      currentHeight, minimumHeight, currentFlat, currentTree := v.height, v.height, flat, flat;
      history, start := map[v.height := flat], v.height;
      ok := true;
    }

    /** A rebuilt state is compared with its manifest, decoded, turned into a store
        and checked against its record before it is returned. */
    method StateFromFlat(flat: Flat, height: int) returns (r: LoadResult)
      requires Durable() && Retained(disk, height)
      ensures flat == history[height] ==> r == ReadBack(env, disk, history, height)
      ensures |flat| != |history[height]| || env.rootOf(flat) != env.rootOf(history[height]) ==> r == Corrupt
    {
      hide Snapshots.Unflatten;
      assert VersionOk(env.rootOf, disk, history, height);
      var artifacts := disk.versions[height];
      if |flat| != artifacts.count {
        return Corrupt;
      }
      if env.rootOf(flat) != artifacts.root {
        return Corrupt;
      }
      var snapshot := Snapshots.Unflatten(flat);
      if snapshot.None? {
        return Corrupt;
      }
      if !env.rebuilds(snapshot.value) {
        return Corrupt;
      }
      if !env.validates(artifacts.record, env.rootOf(flat), snapshot.value) {
        return Corrupt;
      }
      if height > 0 {
        if artifacts.blockHash !in disk.index || disk.index[artifacts.blockHash] != height {
          return Corrupt;
        }
      }
      r := Loaded(snapshot.value, artifacts.record);
    }

    /** The nearest checkpoint at or below `height`; there always is one. */
    method FindCheckpoint(height: int) returns (c: int)
      requires Valid() && Retained(disk, height) && height < disk.current
      ensures disk.minimum <= c <= height
      ensures IsCheckpoint(disk, c) && disk.versions[c].checkpoint.value == history[c]
      ensures forall h :: c < h <= height ==> !IsCheckpoint(disk, h)
    {
      c := height;
      while disk.versions[c].checkpoint.None?
        invariant disk.minimum <= c <= height
        invariant forall h :: c < h <= height ==> !IsCheckpoint(disk, h)
        decreases c
      {
        assert !IsCheckpoint(disk, c);
        c := c - 1;
      }
      assert VersionOk(env.rootOf, disk, history, c);
    }

    /** A retained height is rebuilt exactly and read back as what it decodes to; the
        others say why not. */
    method LoadHeight(height: int) returns (r: LoadResult)
      requires Valid()
      ensures height < disk.minimum <==> r == PrunedHeight
      ensures height > disk.current <==> r == Unavailable
      ensures Retained(disk, height) ==> r == ReadBack(env, disk, history, height)
    {
      hide VersionOk, DiskInv, Apply, ReadBack;
      Ranges(env.profile, env.rootOf, start, disk, history);
      if height < minimumHeight {
        return PrunedHeight;
      }
      if height > currentHeight || height < 0 {
        return Unavailable;
      }
      if height == currentHeight {
        r := StateFromFlat(disk.live, height);
        return;
      }
      var checkpoint := FindCheckpoint(height);
      var flat := disk.versions[checkpoint].checkpoint.value;
      var candidate := checkpoint + 1;
      while candidate <= height
        invariant checkpoint < candidate <= height + 1
        invariant flat == history[candidate - 1]
      {
        assert DeltaOk(disk, history,
                       candidate) by { DeltaAt(env.profile, env.rootOf, start, disk, history, candidate); }
        var replayed := ApplyFlatDelta(flat, disk.versions[candidate].delta);
        if replayed.None? {
          return Corrupt;
        }
        flat := replayed.value;
        candidate := candidate + 1;
      }
      r := StateFromFlat(flat, height);
    }

    /** Start-up after a crash at any moment: memory is rebuilt from the disk alone.
        It succeeds exactly when the current state and the checkpoint at the history
        boundary can be read back; the index needs no repair. */
    method Restart() returns (r: LoadResult)
      requires Durable()
      modifies this
      ensures disk == old(disk) && history == old(history) && start == old(start)
      ensures r == StartUp(env, disk, history)
      ensures r.Loaded? ==> Valid()
    {
      hide Apply, DeltaOk, RetentionInv, ReadBack;
      r := StateFromFlat(disk.live, disk.current);
      if !r.Loaded? {
        return;
      }
      currentHeight, minimumHeight := disk.current, disk.minimum;
      currentFlat, currentTree := disk.live, disk.live;
      if minimumHeight != currentHeight {
        assert VersionOk(env.rootOf, disk, history, minimumHeight);
        var artifacts := disk.versions[minimumHeight];
        if artifacts.checkpoint.None? {
          return Corrupt;
        }
        var boundary := StateFromFlat(artifacts.checkpoint.value, minimumHeight);
        if !boundary.Loaded? {
          return Corrupt;
        }
      }
      var index := map x | x in disk.index && disk.index[x] >= minimumHeight :: disk.index[x];
      assert index == disk.index;
      disk := disk.(index := index);
    }
  }

  /** A new database: the profile is normalised and the genesis state is checked. */
  method Create(env: Env, record: Record, state: Snapshot, tree: Digest) returns (r: Option<ApplicationStore>)
    ensures r.Some? <==>
              (ValidProfile(env.profile) || env.profile == Profile(Unset, 0, 0)) && env.validates(record, tree, state)
    ensures r.Some? ==> && fresh(r.value) && r.value.Valid()
                        && NormalizeStorageProfile(env.profile) == Some(r.value.env.profile)
                        && r.value.env == env.(profile := r.value.env.profile)
                        && r.value.history == map[0 := Snapshots.Flatten(state)]
  {
    var profile := NormalizeStorageProfile(env.profile);
    if profile.None? || !env.validates(record, tree, state) {
      return None;
    }
    var store := new ApplicationStore(env.(profile := profile.value), record, state);
    r := Some(store);
  }

  lemma DeltaAt(p: Profile, rootOf: Flat -> Digest, start: int, d: Disk, history: map<int, Flat>, h: int)
    requires DiskInv(p, rootOf, start, d, history) && d.minimum < h <= d.current
    ensures DeltaOk(d, history, h)
  {
  }
}

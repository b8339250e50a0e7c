/** Fork choice under a finality lock: the block tree, the canonical chain, the
    lock moved by two-thirds certificates, and the rollback of every step that
    cannot be persisted. `Import`, `Vote` and `Produce` say what one call does
    to the node's consensus state. Executing transactions, checking signatures
    and writing the snapshot are outside, so their outcomes are inputs. */
module Finality {
  import opened Wrappers
  import Sums

  type Hash = nat
  type Validator = nat

  /** What the block hash covers. */
  datatype Header = Header(height: nat, parent: Hash, body: nat)

  /** The proposer's seal and the certificate are outside the hash. A certificate
      is the set of validators whose votes it holds. */
  datatype Block = Block(header: Header, seal: nat, cert: Option<set<Validator>>)

  datatype Lock = Lock(height: nat, hash: Hash)

  datatype Evidence = Evidence(first: Hash, second: Hash)

  datatype State = State(
    blocks: seq<Block>,
    known: map<Hash, Block>,
    counts: map<nat, nat>,
    lock: Lock,
    votes: map<Hash, set<Validator>>,
    voteIndex: map<nat, map<Validator, Hash>>,
    evidence: map<nat, map<Validator, Evidence>>,
    halted: bool)

  /** `validators(parent)` is the validator set in the state after block `parent`. */
  datatype Params = Params(hash: Header -> Hash, validators: Hash -> set<Validator>, genesis: Block)

  /** Outcome of foreign code; `Fatal` is an execution fault that halts the node. */
  datatype Check = Pass | Fail | Fatal

  datatype Persist = Stored | NotStored | Uncertain

  datatype ImportEnv = ImportEnv(
    admissible: bool, replay: Check, execution: Check, mergedFits: bool,
    record: Check, prepare: Check, persist: Persist)

  datatype VoteEnv = VoteEnv(authentic: bool, replay: Check, slash: Check, certifiedFits: bool, persist: Persist)

  datatype ProduceEnv = ProduceEnv(execution: Check, valid: bool, persist: Persist)

  datatype Outcome = Accepted | Rejected | Halted | Equivocation | SafetyViolation

  const MAX_KNOWN_BLOCKS_PER_HEIGHT: nat := 16
  const MAX_KNOWN_SIDE_BLOCKS: nat := 4096

  // ---- Quorums ----

  function FinalityQuorumSize(validatorCount: nat): nat {
    if validatorCount == 0 then 0 else validatorCount * 2 / 3 + 1
  }

  /** The acceptance rule for a certificate. */
  predicate HasQuorum(cert: set<Validator>, validators: set<Validator>) {
    cert <= validators && |cert| * 3 > |validators| * 2
  }

  /** Counting votes up to `FinalityQuorumSize` is the same as the certificate rule. */
  lemma QuorumSizeMeetsRule(votes: nat, validatorCount: nat)
    requires validatorCount > 0
    ensures votes >= FinalityQuorumSize(validatorCount) <==> votes * 3 > validatorCount * 2
  {
  }

  /** Two certificates over one validator set share more than a third of it. */
  lemma QuorumsIntersect(a: set<Validator>, b: set<Validator>, validators: set<Validator>)
    requires HasQuorum(a, validators) && HasQuorum(b, validators)
    ensures |a * b| * 3 > |validators|
  {
    Sums.SubsetSize(a + b, validators);
    assert |a + b| == |a| + |b| - |a * b|;
  }

  // ---- The block tree ----

  ghost predicate Injective(p: Params) {
    forall a, b :: p.hash(a) == p.hash(b) ==> a == b
  }

  ghost predicate Tree(p: Params, known: map<Hash, Block>) {
    && p.genesis.header.height == 0
    && (forall h {:trigger known[h]} :: h in known ==>
          p.hash(known[h].header) == h && (known[h].header.height == 0 ==> h == p.hash(p.genesis.header)))
    && (forall h {:trigger Linked(known, h)} :: h in known ==> Linked(known, h))
  }

  ghost predicate Linked(known: map<Hash, Block>, h: Hash)
    requires h in known
  {
    known[h].header.height > 0 ==>
      && known[h].header.parent in known
      && known[known[h].header.parent].header.height + 1 == known[h].header.height
  }

  /** The hash of the ancestor of `h` at height `k`. */
  ghost function AncestorAt(p: Params, known: map<Hash, Block>, h: Hash, k: nat): (r: Hash)
    requires Tree(p, known) && h in known && k <= known[h].header.height
    ensures r in known && known[r].header.height == k
    decreases known[h].header.height
  {
    if known[h].header.height == k then h
    else assert Linked(known, h); AncestorAt(p, known, known[h].header.parent, k)
  }

  ghost predicate Descends(p: Params, known: map<Hash, Block>, h: Hash, at: Lock)
    requires Tree(p, known)
  {
    && h in known
    && at.height <= known[h].header.height
    && AncestorAt(p, known, h, at.height) == at.hash
  }

  /** A block is compatible with the lock when one of the two is an ancestor of the other. */
  ghost predicate Compatible(p: Params, known: map<Hash, Block>, lock: Lock, h: Hash)
    requires Tree(p, known)
  {
    && h in known
    && if known[h].header.height >= lock.height
       then Descends(p, known, h, lock)
       else Descends(p, known, lock.hash, Lock(known[h].header.height, h))
  }

  /** The path from genesis to `h`. */
  ghost function ChainTo(p: Params, known: map<Hash, Block>, h: Hash): (chain: seq<Block>)
    requires Tree(p, known) && h in known
    ensures |chain| == known[h].header.height + 1
    decreases known[h].header.height
  {
    if known[h].header.height == 0 then [known[h]]
    else assert Linked(known, h); ChainTo(p, known, known[h].header.parent) + [known[h]]
  }

  /** `a` is preferred to `b` as a head: it is higher, or as high with a hash no larger. */
  ghost predicate Preferred(known: map<Hash, Block>, a: Hash, b: Hash)
    requires a in known && b in known
  {
    || known[b].header.height < known[a].header.height
    || (known[b].header.height == known[a].header.height && a <= b)
  }

  ghost predicate BestAmong(p: Params, known: map<Hash, Block>, lock: Lock, among: set<Hash>, r: Hash)
    requires Tree(p, known)
  {
    && Descends(p, known, r, lock)
    && forall h :: h in among && Descends(p, known, h, lock) ==> Preferred(known, r, h)
  }

  /** The highest known descendant of the lock, the smallest hash among equals. */
  ghost function BestDescendant(p: Params, known: map<Hash, Block>, lock: Lock): (r: Hash)
    requires Tree(p, known) && Descends(p, known, lock.hash, lock)
    ensures BestAmong(p, known, lock, known.Keys, r)
  {
    BestExists(p, known, lock, known.Keys);
    var r :| BestAmong(p, known, lock, known.Keys, r);
    r
  }

  lemma {:induction false} BestExists(p: Params, known: map<Hash, Block>, lock: Lock, among: set<Hash>)
    requires Tree(p, known) && Descends(p, known, lock.hash, lock)
    ensures exists r :: BestAmong(p, known, lock, among, r)
    decreases |among|
  {
    if among == {} {
      assert BestAmong(p, known, lock, among, lock.hash);
    } else {
      var x :| x in among;
      BestExists(p, known, lock, among - {x});
      var r :| BestAmong(p, known, lock, among - {x}, r);
      if Descends(p, known, x, lock) && !Preferred(known, r, x) {
        assert BestAmong(p, known, lock, among, x);
      } else {
        assert BestAmong(p, known, lock, among, r);
      }
    }
  }

  lemma BestIsUnique(p: Params, known: map<Hash, Block>, lock: Lock, a: Hash, b: Hash)
    requires Tree(p, known) && BestAmong(p, known, lock, known.Keys, a) && BestAmong(p, known, lock, known.Keys, b)
    ensures a == b
  {
    assert Descends(p, known, a, lock) && Descends(p, known, b, lock);
  }

  // ---- One call ----

  function Id(p: Params, b: Block): Hash { p.hash(b.header) }

  function HeadId(p: Params, s: State): Hash
    requires s.blocks != []
  {
    Id(p, s.blocks[|s.blocks| - 1])
  }

  predicate WithinLimits(s: State, b: Block) {
    var h := b.header.height;
    var canonicalAfter := if h >= |s.blocks| then h + 1 else |s.blocks|;
    && (h in s.counts ==> s.counts[h] < MAX_KNOWN_BLOCKS_PER_HEIGHT)
    && |s.known| + 1 <= canonicalAfter + MAX_KNOWN_SIDE_BLOCKS
  }

  /** The lock test made before an uncertified block is executed. */
  ghost predicate Prospective(p: Params, s: State, b: Block)
    requires Tree(p, s.known)
  {
    var h := b.header.height;
    if h == s.lock.height then Id(p, b) == s.lock.hash
    else if h == s.lock.height + 1 then b.header.parent == s.lock.hash
    else if h > s.lock.height then Descends(p, s.known, b.header.parent, s.lock)
    else Descends(p, s.known, s.lock.hash, Lock(h, Id(p, b)))
  }

  /** The block rules that do not depend on execution. */
  predicate Follows(p: Params, parent: Block, b: Block) {
    && b.header.height == parent.header.height + 1
    && b.header.parent == Id(p, parent)
    && (b.cert.Some? ==> HasQuorum(b.cert.value, p.validators(b.header.parent)))
  }

  datatype Gate = Stop(outcome: Outcome) | Install(block: Block)

  ghost function FailedCheck(c: Check): Gate {
    if c == Fatal then Stop(Halted) else Stop(Rejected)
  }

  /** Everything `ImportBlock` checks before it touches the node. */
  ghost function ImportGate(p: Params, s: State, b: Block, env: ImportEnv): Gate
    requires Tree(p, s.known) && s.blocks != []
  {
    var id := Id(p, b);
    if s.halted || !env.admissible then Stop(Rejected)
    else if id in s.known && b.cert.None? then
      Stop(if Compatible(p, s.known, s.lock, id) then Accepted else Rejected)
    else if b.header.parent !in s.known then Stop(Rejected)
    else if id !in s.known && b.cert.None? && !WithinLimits(s, b) then Stop(Rejected)
    else if b.cert.None? && !Prospective(p, s, b) then Stop(Rejected)
    else if env.replay != Pass then FailedCheck(env.replay)
    else if !Follows(p, s.known[b.header.parent], b) then Stop(Rejected)
    else if env.execution != Pass then FailedCheck(env.execution)
    else if id !in s.known then Install(b)
    else if s.known[id].(cert := None) != b.(cert := None) then Stop(Rejected)
    else if s.known[id].cert.None? then Install(b)
    else if b.cert.value <= s.known[id].cert.value then Stop(Accepted)
    else if !env.mergedFits then Stop(Rejected)
    else Install(b.(cert := Some(s.known[id].cert.value + b.cert.value)))
  }

  function CountOf(counts: map<nat, nat>, h: nat): nat {
    if h in counts then counts[h] else 0
  }

  function VotesFor(s: State, id: Hash): set<Validator> {
    if id in s.votes then s.votes[id] else {}
  }

  function Slot<T>(m: map<nat, map<Validator, T>>, h: nat): map<Validator, T> {
    if h in m then m[h] else map[]
  }

  /** First votes seen per height and validator, after votes of `vs` for `id`. */
  function IndexVotes(s: State, h: nat, id: Hash, vs: set<Validator>): map<nat, map<Validator, Hash>> {
    s.voteIndex[h := FirstVotes(Slot(s.voteIndex, h), id, vs)]
  }

  function FirstVotes(seen: map<Validator, Hash>, id: Hash, vs: set<Validator>): map<Validator, Hash> {
    map v | v in seen.Keys + vs :: if v in seen then seen[v] else id
  }

  /** Those of `vs` that had already voted for another block. */
  function Equivocators(seen: map<Validator, Hash>, id: Hash, vs: set<Validator>): set<Validator> {
    set v | v in vs && v in seen && seen[v] != id
  }

  function AddEvidence(s: State, h: nat, id: Hash, vs: set<Validator>): map<nat, map<Validator, Evidence>> {
    s.evidence[h := Proofs(Slot(s.voteIndex, h), Slot(s.evidence, h), id, vs)]
  }

  function Proofs(seen: map<Validator, Hash>, proofs: map<Validator, Evidence>, id: Hash,
                  vs: set<Validator>): map<Validator, Evidence> {
    map v | v in proofs.Keys + Equivocators(seen, id, vs) :: if v in proofs then proofs[v] else Evidence(seen[v], id)
  }

  function LockAfter(p: Params, s: State, b: Block): Lock {
    if b.cert.Some? && b.header.height > s.lock.height then Lock(b.header.height, Id(p, b)) else s.lock
  }

  /** Where the canonical head goes once `b` is in the tree. */
  ghost function DesiredHead(p: Params, s: State, b: Block): Hash
    requires Tree(p, s.known[Id(p, b) := b]) && s.blocks != []
  {
    var known, lock := s.known[Id(p, b) := b], LockAfter(p, s, b);
    if lock != s.lock && !ContainsLock(p, s.blocks, lock)
    then if Descends(p, known, lock.hash, lock) then BestDescendant(p, known, lock) else lock.hash
    else if b.header.height >= |s.blocks| then Id(p, b)
    else HeadId(p, s)
  }

  predicate ContainsLock(p: Params, blocks: seq<Block>, lock: Lock) {
    lock.height < |blocks| && Id(p, blocks[lock.height]) == lock.hash
  }

  ghost function BlocksAfter(p: Params, s: State, b: Block): seq<Block>
    requires Tree(p, s.known[Id(p, b) := b]) && s.blocks != []
  {
    var known, head := s.known[Id(p, b) := b], DesiredHead(p, s, b);
    if head != HeadId(p, s) && head in known then ChainTo(p, known, head)
    else if Id(p, b) in s.known && b.header.height < |s.blocks| && Id(p, s.blocks[b.header.height]) == Id(p, b)
    then s.blocks[b.header.height := b]
    else s.blocks
  }

  function Signers(b: Block): set<Validator> {
    if b.cert.Some? then b.cert.value else {}
  }

  /** The node after `b` and everything that follows from it have been stored. */
  ghost function Committed(p: Params, s: State, b: Block): State
    requires Tree(p, s.known[Id(p, b) := b]) && s.blocks != []
  {
    var id, h := Id(p, b), b.header.height;
    s.(blocks := BlocksAfter(p, s, b),
       known := s.known[id := b],
       counts := if id in s.known then s.counts else s.counts[h := CountOf(s.counts, h) + 1],
       lock := LockAfter(p, s, b),
       votes := if b.cert.Some? then s.votes[id := VotesFor(s, id) + Signers(b)] else s.votes,
       voteIndex := if b.cert.Some? then IndexVotes(s, h, id, Signers(b)) else s.voteIndex,
       evidence := if b.cert.Some? then AddEvidence(s, h, id, Signers(b)) else s.evidence)
  }

  ghost function InstallBlock(p: Params, s: State, b: Block, env: ImportEnv): (State, Outcome)
    requires Tree(p, s.known) && Tree(p, s.known[Id(p, b) := b]) && s.blocks != []
  {
    var id := Id(p, b);
    var known := s.known[id := b];
    if !Compatible(p, known, s.lock, id) then
      if b.cert.Some? then (s.(halted := true), Halted) else (s, Rejected)
    else if b.cert.Some? && env.record == Fatal then (s.(halted := true), Halted)
    else if DesiredHead(p, s, b) != HeadId(p, s) && env.prepare != Pass then
      (s.(halted := env.prepare == Fatal), Rejected)
    else if env.persist != Stored then (s.(halted := env.persist == Uncertain), Rejected)
    else (Committed(p, s, b), Accepted)
  }

  // ---- What every run keeps ----

  ghost function AtHeight(known: map<Hash, Block>, h: nat): set<Hash> {
    set x | x in known && known[x].header.height == h
  }

  ghost predicate CountsMatch(counts: map<nat, nat>, known: map<Hash, Block>) {
    && (forall h :: h in counts ==> counts[h] > 0)
    && forall h {:trigger CountOf(counts, h)} :: CountOf(counts, h) == |AtHeight(known, h)|
  }

  /** The canonical chain is the path to a known head and contains the lock. */
  ghost predicate ChainInv(p: Params, s: State)
    requires Tree(p, s.known)
  {
    && s.blocks != []
    && HeadId(p, s) in s.known
    && s.blocks == ChainTo(p, s.known, HeadId(p, s))
    && Descends(p, s.known, HeadId(p, s), s.lock)
  }

  /** Every certified block is the lock or an ancestor of it, and its certificate
      holds votes of more than two thirds of its validators. */
  ghost predicate CertifiedBelowLock(p: Params, s: State)
    requires Tree(p, s.known)
  {
    forall h {:trigger s.known[h].cert} :: h in s.known && s.known[h].cert.Some? ==>
      && HasQuorum(s.known[h].cert.value, p.validators(s.known[h].header.parent))
      && Descends(p, s.known, s.lock.hash, Lock(s.known[h].header.height, h))
  }

  /** No block above the lock is higher than the head. */
  ghost predicate HeadIsHighest(p: Params, s: State)
    requires Tree(p, s.known) && s.blocks != []
  {
    forall h :: Descends(p, s.known, h, s.lock) ==> s.known[h].header.height < |s.blocks|
  }

  /** Votes come from validators of the block, the index points at known blocks
      of its height, and evidence names two different blocks. */
  ghost predicate VotesInv(p: Params, s: State) {
    && (forall id {:trigger s.votes[id]} :: id in s.votes ==> VoteCounted(p, s.known, id, s.votes[id]))
    && (forall h {:trigger s.voteIndex[h]} :: h in s.voteIndex ==> VotesIndexed(s.known, h, s.voteIndex[h]))
    && (forall h {:trigger s.evidence[h]} :: h in s.evidence ==> ProofsSound(s.evidence[h]))
  }

  ghost predicate VoteCounted(p: Params, known: map<Hash, Block>, id: Hash, voters: set<Validator>) {
    id in known && voters <= p.validators(known[id].header.parent)
  }

  ghost predicate VotesIndexed(known: map<Hash, Block>, h: nat, seen: map<Validator, Hash>) {
    forall v :: v in seen ==> seen[v] in known && known[seen[v]].header.height == h
  }

  ghost predicate ProofsSound(proofs: map<Validator, Evidence>) {
    forall v :: v in proofs ==> proofs[v].first != proofs[v].second
  }

  ghost predicate Inv(p: Params, s: State) {
    && Injective(p)
    && Tree(p, s.known)
    && ChainInv(p, s)
    && CertifiedBelowLock(p, s)
    && HeadIsHighest(p, s)
    && CountsMatch(s.counts, s.known)
    && VotesInv(p, s)
  }

  /** What one call may do to the lock, the tree and the halt flag. */
  ghost predicate Progress(p: Params, s: State, s': State)
    requires Tree(p, s'.known)
  {
    && Extends(s.known, s'.known)
    && Descends(p, s'.known, s'.lock.hash, s.lock)
    && (s.halted ==> s' == s)
  }

  ghost predicate Extends(known: map<Hash, Block>, known': map<Hash, Block>) {
    forall h {:trigger h in known} {:trigger known[h]} :: h in known ==>
      h in known' && known'[h].header == known[h].header
  }

  // ---- Ancestry ----

  lemma {:induction false} AncestorsCompose(p: Params, known: map<Hash, Block>, h: Hash, m: nat, k: nat)
    requires Tree(p, known) && h in known && k <= m <= known[h].header.height
    ensures AncestorAt(p, known, AncestorAt(p, known, h, m), k) == AncestorAt(p, known, h, k)
    decreases known[h].header.height
  {
    if m < known[h].header.height {
      assert Linked(known, h);
      AncestorsCompose(p, known, known[h].header.parent, m, k);
    }
  }

  lemma {:induction false} AncestorsPersist(p: Params, known: map<Hash, Block>, known': map<Hash, Block>, h: Hash,
                                            k: nat)
    requires Tree(p, known) && Tree(p, known') && Extends(known, known')
    requires h in known && k <= known[h].header.height
    ensures AncestorAt(p, known', h, k) == AncestorAt(p, known, h, k)
    decreases known[h].header.height
  {
    if k < known[h].header.height {
      assert Linked(known, h);
      AncestorsPersist(p, known, known', known[h].header.parent, k);
    }
  }

  lemma DescentPersists(p: Params, known: map<Hash, Block>, known': map<Hash, Block>, h: Hash, at: Lock)
    requires Tree(p, known) && Tree(p, known') && Extends(known, known') && h in known
    ensures Descends(p, known, h, at) <==> Descends(p, known', h, at)
  {
    if at.height <= known[h].header.height {
      AncestorsPersist(p, known, known', h, at.height);
    }
  }

  /** A block below two comparable checkpoints descends from the lower one. */
  lemma DescentComposes(p: Params, known: map<Hash, Block>, h: Hash, mid: Lock, low: Lock)
    requires Tree(p, known) && Descends(p, known, h, mid) && mid.height >= low.height
    ensures Descends(p, known, mid.hash, low) <==> Descends(p, known, h, low)
  {
    AncestorsCompose(p, known, h, mid.height, low.height);
  }

  lemma {:induction false} ChainAt(p: Params, known: map<Hash, Block>, h: Hash, k: nat)
    requires Tree(p, known) && h in known && k <= known[h].header.height
    ensures ChainTo(p, known, h)[k] == known[AncestorAt(p, known, h, k)]
    ensures Id(p, ChainTo(p, known, h)[k]) == AncestorAt(p, known, h, k)
    decreases known[h].header.height
  {
    if k < known[h].header.height {
      assert Linked(known, h);
      ChainAt(p, known, known[h].header.parent, k);
    }
  }

  lemma CanonicalAt(p: Params, s: State, k: nat)
    requires Tree(p, s.known) && ChainInv(p, s) && k < |s.blocks|
    ensures var id := Id(p, s.blocks[k]);
            && id in s.known && s.known[id] == s.blocks[k] && s.blocks[k].header.height == k
            && id == AncestorAt(p, s.known, HeadId(p, s), k)
            && Descends(p, s.known, HeadId(p, s), Lock(k, id))
  {
    ChainAt(p, s.known, HeadId(p, s), k);
  }

  lemma ChainFollowsAt(p: Params, s: State, known': map<Hash, Block>, h: Hash, i: nat)
    requires Tree(p, s.known) && Tree(p, known') && ChainInv(p, s) && Extends(s.known, known')
    requires forall x :: x in s.known && x != h ==> known'[x] == s.known[x]
    requires h in known' && i < |s.blocks|
    ensures HeadId(p, s) in known' && |ChainTo(p, known', HeadId(p, s))| == |s.blocks|
    ensures ChainTo(p, known', HeadId(p, s))[i] == if Id(p, s.blocks[i]) == h then known'[h] else s.blocks[i]
  {
    var head := HeadId(p, s);
    ChainAt(p, known', head, i);
    CanonicalAt(p, s, i);
    AncestorsPersist(p, s.known, known', head, i);
  }

  /** Replacing the certificate of one block leaves the chain's headers in place. */
  lemma ChainFollows(p: Params, s: State, known': map<Hash, Block>, h: Hash)
    requires Tree(p, s.known) && Tree(p, known') && ChainInv(p, s) && Extends(s.known, known')
    requires forall x :: x in s.known && x != h ==> known'[x] == s.known[x]
    requires h in known'
    ensures HeadId(p, s) in known'
    ensures var k := known'[h].header.height;
            ChainTo(p, known', HeadId(p, s)) ==
            if k < |s.blocks| && Id(p, s.blocks[k]) == h then s.blocks[k := known'[h]] else s.blocks
  {
    ChainFollowsAt(p, s, known', h, 0);
    var chain := ChainTo(p, known', HeadId(p, s));
    var k := known'[h].header.height;
    forall i | 0 <= i < |s.blocks|
      ensures chain[i] == if i == k && Id(p, s.blocks[k]) == h then known'[h] else s.blocks[i]
    {
      ChainFollowsAt(p, s, known', h, i);
      CanonicalAt(p, s, i);
    }
  }

  // ---- Installing a block ----

  /** What `ImportGate` has established when it lets a block through. */
  ghost predicate Installable(p: Params, s: State, b: Block) {
    && b.header.parent in s.known
    && Follows(p, s.known[b.header.parent], b)
    && (Id(p, b) in s.known ==> s.known[Id(p, b)].header == b.header && b.cert.Some?)
  }

  lemma TreeGrows(p: Params, known: map<Hash, Block>, b: Block)
    requires Injective(p) && Tree(p, known)
    requires b.header.parent in known && b.header.height == known[b.header.parent].header.height + 1
    ensures Tree(p, known[Id(p, b) := b]) && Extends(known, known[Id(p, b) := b])
  {
    var id := Id(p, b);
    var known' := known[id := b];
    assert id in known ==> known[id].header == b.header;
    forall h | h in known'
      ensures Linked(known', h)
    {
      if h != id {
        assert Linked(known, h);
      }
    }
  }

  ghost predicate Fits(p: Params, s: State, b: Block) {
    && Tree(p, s.known) && ChainInv(p, s)
    && Installable(p, s, b)
    && Tree(p, s.known[Id(p, b) := b]) && Extends(s.known, s.known[Id(p, b) := b])
    && Compatible(p, s.known[Id(p, b) := b], s.lock, Id(p, b))
  }

  /** A compatible block either is at or below the lock, on the lock's own
      branch, or descends from it. */
  lemma LockMovesForward(p: Params, s: State, b: Block)
    requires Fits(p, s, b)
    ensures Descends(p, s.known[Id(p, b) := b], LockAfter(p, s, b).hash, s.lock)
    ensures Descends(p, s.known[Id(p, b) := b], LockAfter(p, s, b).hash, LockAfter(p, s, b))
    ensures b.header.height <= s.lock.height ==>
              Id(p, b) in s.known && Descends(p, s.known, s.lock.hash, Lock(b.header.height, Id(p, b)))
  {
    var known' := s.known[Id(p, b) := b];
    CanonicalAt(p, s, s.lock.height);
    assert Descends(p, s.known, s.lock.hash, s.lock);
    DescentPersists(p, s.known, known', s.lock.hash, s.lock);
    if b.header.height <= s.lock.height {
      DescentPersists(p, s.known, known', s.lock.hash, Lock(b.header.height, Id(p, b)));
    }
  }

  /** Wherever the head goes, it stays above the new lock. */
  lemma DesiredDescends(p: Params, s: State, b: Block)
    requires Fits(p, s, b)
    ensures Descends(p, s.known[Id(p, b) := b], DesiredHead(p, s, b), LockAfter(p, s, b))
  {
    var known', lock', head := s.known[Id(p, b) := b], LockAfter(p, s, b), HeadId(p, s);
    LockMovesForward(p, s, b);
    DescentPersists(p, s.known, known', head, s.lock);
    if lock' != s.lock && ContainsLock(p, s.blocks, lock') {
      CanonicalAt(p, s, lock'.height);
      DescentPersists(p, s.known, known', head, lock');
    }
  }

  /** The new canonical chain is a path of the new tree and contains the new lock. */
  lemma ChainMoves(p: Params, s: State, b: Block)
    requires Fits(p, s, b)
    ensures ChainInv(p, Committed(p, s, b))
    ensures HeadId(p, Committed(p, s, b)) == DesiredHead(p, s, b)
  {
    var known', head, desired := s.known[Id(p, b) := b], HeadId(p, s), DesiredHead(p, s, b);
    DesiredDescends(p, s, b);
    if desired == head {
      ChainFollows(p, s, known', Id(p, b));
      if b.header.height < |s.blocks| {
        CanonicalAt(p, s, b.header.height);
      }
    }
    assert BlocksAfter(p, s, b) == ChainTo(p, known', desired);
    ChainAt(p, known', desired, known'[desired].header.height);
  }

  lemma CertificatesStayBelow(p: Params, s: State, b: Block)
    requires Fits(p, s, b) && CertifiedBelowLock(p, s)
    ensures CertifiedBelowLock(p, Committed(p, s, b))
  {
    var id, known', lock' := Id(p, b), s.known[Id(p, b) := b], LockAfter(p, s, b);
    LockMovesForward(p, s, b);
    forall h | h in known' && known'[h].cert.Some?
      ensures HasQuorum(known'[h].cert.value, p.validators(known'[h].header.parent))
      ensures Descends(p, known', lock'.hash, Lock(known'[h].header.height, h))
    {
      var at := Lock(known'[h].header.height, h);
      if h != id || b.header.height <= s.lock.height {
        assert h != id ==> s.known[h].cert.Some?;
        DescentPersists(p, s.known, known', s.lock.hash, at);
        DescentComposes(p, known', lock'.hash, s.lock, at);
      }
    }
  }

  lemma HeadStaysHighest(p: Params, s: State, b: Block)
    requires Fits(p, s, b) && HeadIsHighest(p, s)
    ensures BlocksAfter(p, s, b) != [] && HeadIsHighest(p, Committed(p, s, b))
  {
    var id, s' := Id(p, b), Committed(p, s, b);
    LockMovesForward(p, s, b);
    ChainMoves(p, s, b);
    forall h | Descends(p, s'.known, h, s'.lock)
      ensures s'.known[h].header.height < |s'.blocks|
    {
      DescentComposes(p, s'.known, h, s'.lock, s.lock);
      if h != id {
        DescentPersists(p, s.known, s'.known, h, s.lock);
      }
      if s'.lock != s.lock && !ContainsLock(p, s.blocks, s'.lock) {
        assert BestAmong(p, s'.known, s'.lock, s'.known.Keys, DesiredHead(p, s, b));
      }
    }
  }

  lemma CountsFollow(known: map<Hash, Block>, counts: map<nat, nat>, id: Hash, b: Block)
    requires CountsMatch(counts, known)
    requires id in known ==> known[id].header == b.header
    ensures CountsMatch(if id in known then counts else counts[b.header.height := CountOf(counts, b.header.height) + 1],
                        known[id := b])
  {
    var known' := known[id := b];
    var counts' := if id in known then counts else counts[b.header.height := CountOf(counts, b.header.height) + 1];
    forall h
      ensures CountOf(counts', h) == |AtHeight(known', h)|
    {
      assert CountOf(counts, h) == |AtHeight(known, h)|;
      if id !in known && h == b.header.height {
        assert AtHeight(known', h) == AtHeight(known, h) + {id};
      } else {
        assert AtHeight(known', h) == AtHeight(known, h);
      }
    }
  }

  lemma EvidenceStaysSound(s: State, h: nat, id: Hash, vs: set<Validator>)
    requires forall x {:trigger s.evidence[x]} :: x in s.evidence ==> ProofsSound(s.evidence[x])
    ensures var evidence := AddEvidence(s, h, id, vs);
            forall x {:trigger evidence[x]} :: x in evidence ==> ProofsSound(evidence[x])
  {
    assert h in s.evidence ==> ProofsSound(s.evidence[h]);
  }

  lemma VotesFollow(p: Params, s: State, b: Block)
    requires Fits(p, s, b) && VotesInv(p, s)
    ensures VotesInv(p, Committed(p, s, b))
  {
    var id, s' := Id(p, b), Committed(p, s, b);
    forall x | x in s'.votes
      ensures VoteCounted(p, s'.known, x, s'.votes[x])
    {
      if x in s.votes {
        assert VoteCounted(p, s.known, x, s.votes[x]);
      }
    }
    forall h | h in s'.voteIndex
      ensures VotesIndexed(s'.known, h, s'.voteIndex[h])
    {
      if h in s.voteIndex {
        assert VotesIndexed(s.known, h, s.voteIndex[h]);
      }
    }
    EvidenceStaysSound(s, b.header.height, id, Signers(b));
  }

  /** Storing a compatible block keeps every invariant. */
  lemma CommitKeepsInv(p: Params, s: State, b: Block)
    requires Inv(p, s) && Fits(p, s, b) && !s.halted
    ensures Inv(p, Committed(p, s, b)) && Progress(p, s, Committed(p, s, b))
  {
    ChainMoves(p, s, b);
    CertificatesStayBelow(p, s, b);
    HeadStaysHighest(p, s, b);
    CountsFollow(s.known, s.counts, Id(p, b), b);
    VotesFollow(p, s, b);
    LockMovesForward(p, s, b);
  }

  // ---- The three operations ----

  ghost function Settle(s: State, outcome: Outcome): State {
    if outcome == Halted then s.(halted := true) else s
  }

  ghost function Import(p: Params, s: State, b: Block, env: ImportEnv): (State, Outcome)
    requires Inv(p, s)
  {
    match ImportGate(p, s, b, env)
    case Stop(outcome) => (Settle(s, outcome), outcome)
    case Install(b') =>
      GateAdmits(p, s, b, env);
      InstallBlock(p, s, b', env)
  }

  lemma GateAdmits(p: Params, s: State, b: Block, env: ImportEnv)
    requires Inv(p, s) && ImportGate(p, s, b, env).Install?
    ensures var b' := ImportGate(p, s, b, env).block;
            && b'.header == b.header
            && Installable(p, s, b')
            && Tree(p, s.known[Id(p, b') := b']) && Extends(s.known, s.known[Id(p, b') := b'])
  {
    var id, b' := Id(p, b), ImportGate(p, s, b, env).block;
    if id in s.known && s.known[id].cert.Some? {
      Sums.SubsetSize(b.cert.value, b'.cert.value);
    }
    TreeGrows(p, s.known, b');
  }

  lemma LockDescendsFromItself(p: Params, s: State)
    requires Inv(p, s)
    ensures Descends(p, s.known, s.lock.hash, s.lock) && ContainsLock(p, s.blocks, s.lock)
  {
    CanonicalAt(p, s, s.lock.height);
  }

  lemma StayingIsSafe(p: Params, s: State, halted: bool)
    requires Inv(p, s) && (s.halted ==> halted)
    ensures Inv(p, s.(halted := halted)) && Progress(p, s, s.(halted := halted))
  {
    LockDescendsFromItself(p, s);
  }

  /** An import either leaves everything but the halt flag alone or commits. */
  lemma ImportCommitsOrStays(p: Params, s: State, b: Block, env: ImportEnv) returns (committed: bool)
    requires Inv(p, s)
    ensures var s' := Import(p, s, b, env).0;
            if committed then
              && ImportGate(p, s, b, env).Install?
              && !s.halted
              && var b' := ImportGate(p, s, b, env).block;
                 Fits(p, s, b') && s' == Committed(p, s, b')
            else s' == s.(halted := s'.halted) && (s.halted ==> s'.halted)
  {
    hide Tree, Injective, Compatible, Installable, Extends, DesiredHead, Committed, Descends;
    hide CertifiedBelowLock, HeadIsHighest, CountsMatch, VotesInv;
    committed := false;
    if ImportGate(p, s, b, env).Install? {
      GateAdmits(p, s, b, env);
      var b' := ImportGate(p, s, b, env).block;
      committed := InstallBlock(p, s, b', env).1 == Accepted;
    }
  }

  /** An accepted, rejected or rolled back import keeps the invariants, and never
      moves the lock off its branch. */
  lemma ImportIsSafe(p: Params, s: State, b: Block, env: ImportEnv)
    requires Inv(p, s)
    ensures Inv(p, Import(p, s, b, env).0) && Progress(p, s, Import(p, s, b, env).0)
  {
    var committed := ImportCommitsOrStays(p, s, b, env);
    if committed {
      CommitKeepsInv(p, s, ImportGate(p, s, b, env).block);
    } else {
      StayingIsSafe(p, s, Import(p, s, b, env).0.halted);
    }
  }

  /** A vote for the canonical block at `height`. */
  ghost function CastVote(p: Params, s: State, height: nat, hash: Hash, voter: Validator,
                          env: VoteEnv): (State, Outcome)
    requires Inv(p, s)
  {
    if s.halted || height == 0 || height >= |s.blocks| || Id(p, s.blocks[height]) != hash || !env.authentic
    then (s, Rejected)
    else if env.replay != Pass then (s.(halted := env.replay == Fatal), Rejected)
    else if voter !in p.validators(s.blocks[height].header.parent) then (s, Rejected)
    else if Equivocators(Slot(s.voteIndex, height), hash, {voter}) != {} then
      var fault := voter !in Slot(s.evidence, height) && env.slash == Fatal;
      var recorded :=
        s.(voteIndex := IndexVotes(s, height, hash, {voter}), evidence := AddEvidence(s, height, hash, {voter}));
      ((if env.persist == Stored then recorded else s).(halted := fault || env.persist == Uncertain), Equivocation)
    else CountVote(p, s, height, hash, voter, env)
  }

  function Tally(s: State, block: Block, hash: Hash, voter: Validator): set<Validator> {
    (if hash in s.votes then s.votes[hash] else Signers(block)) + {voter}
  }

  ghost function CountVote(p: Params, s: State, height: nat, hash: Hash, voter: Validator,
                           env: VoteEnv): (State, Outcome)
    requires Inv(p, s) && 0 < height < |s.blocks|
  {
    var block := s.blocks[height];
    var tally := Tally(s, block, hash, voter);
    var counted := s.(votes := s.votes[hash := tally],
                      voteIndex := IndexVotes(s, height, hash, {voter}),
                      evidence := AddEvidence(s, height, hash, {voter}));
    var certified := block.(cert := Some(tally));
    if |tally| < FinalityQuorumSize(|p.validators(block.header.parent)|) then
      if env.persist == Stored then (counted, Accepted) else (s.(halted := env.persist == Uncertain), Rejected)
    else if !env.certifiedFits || !Follows(p, s.blocks[height - 1], certified) then (s, Rejected)
    else if !Compatible(p, s.known, s.lock, hash) then (s, SafetyViolation)
    else if env.persist != Stored then (s.(halted := env.persist == Uncertain), Rejected)
    else
      (counted.(blocks := s.blocks[height := certified],
                known := s.known[hash := certified],
                lock := LockAfter(p, s, certified)), Accepted)
  }

  /** A canonical block is always compatible with the lock, so the conflict
      branch of a vote is never taken. */
  lemma VoteNeverConflicts(p: Params, s: State, height: nat, hash: Hash, voter: Validator, env: VoteEnv)
    requires Inv(p, s)
    ensures CastVote(p, s, height, hash, voter, env).1 != SafetyViolation
    ensures height < |s.blocks| && Id(p, s.blocks[height]) == hash ==> Compatible(p, s.known, s.lock, hash)
  {
    if height < |s.blocks| && Id(p, s.blocks[height]) == hash {
      CanonicalAt(p, s, height);
      CanonicalAt(p, s, s.lock.height);
      if height >= s.lock.height {
        DescentComposes(p, s.known, HeadId(p, s), Lock(height, hash), s.lock);
      } else {
        DescentComposes(p, s.known, HeadId(p, s), s.lock, Lock(height, hash));
      }
    }
  }

  /** The block a producer builds on the current head. */
  function NextBlock(p: Params, s: State, body: nat, seal: nat): Block
    requires s.blocks != []
  {
    Block(Header(s.blocks[|s.blocks| - 1].header.height + 1, HeadId(p, s), body), seal, None)
  }

  ghost function Produce(p: Params, s: State, body: nat, seal: nat, env: ProduceEnv): (State, Outcome)
    requires Inv(p, s)
  {
    var b := NextBlock(p, s, body, seal);
    var id, h := Id(p, b), b.header.height;
    if s.halted then (s, Rejected)
    else if env.execution != Pass then (s.(halted := env.execution == Fatal), Rejected)
    else if !env.valid then (s, Rejected)
    else if env.persist != Stored then (s.(halted := env.persist == Uncertain), Rejected)
    else (s.(blocks := s.blocks + [b], known := s.known[id := b], counts := s.counts[h := CountOf(s.counts, h) + 1]),
          Accepted)
  }

  /** A produced block cannot be known already: a known child of the head would
      be a block above the lock higher than the head. */
  lemma ProducedBlockIsNew(p: Params, s: State, body: nat, seal: nat)
    requires Inv(p, s)
    ensures Id(p, NextBlock(p, s, body, seal)) !in s.known
  {
    var b := NextBlock(p, s, body, seal);
    var id := Id(p, b);
    CanonicalAt(p, s, |s.blocks| - 1);
    if id in s.known {
      assert s.known[id].header == b.header;
      assert Linked(s.known, id);
      assert Descends(p, s.known, id, s.lock);
      assert false;
    }
  }

  lemma ProducedBlockFits(p: Params, s: State, body: nat, seal: nat)
    requires Inv(p, s)
    ensures Fits(p, s, NextBlock(p, s, body, seal))
    ensures NextBlock(p, s, body, seal).header.height == |s.blocks|
  {
    var b := NextBlock(p, s, body, seal);
    var known' := s.known[Id(p, b) := b];
    CanonicalAt(p, s, |s.blocks| - 1);
    ProducedBlockIsNew(p, s, body, seal);
    TreeGrows(p, s.known, b);
    DescentPersists(p, s.known, known', HeadId(p, s), s.lock);
    assert Linked(known', Id(p, b));
    assert AncestorAt(p, known', Id(p, b), s.lock.height) == AncestorAt(p, known', HeadId(p, s), s.lock.height);
  }

  lemma ExtendingAppends(p: Params, s: State, b: Block)
    requires Fits(p, s, b) && Id(p, b) !in s.known && b.cert.None?
    requires b.header.height == |s.blocks| && b.header.parent == HeadId(p, s)
    ensures BlocksAfter(p, s, b) == s.blocks + [b]
  {
    var id := Id(p, b);
    var known' := s.known[id := b];
    ChainFollows(p, s, known', id);
    assert ChainTo(p, known', id) == ChainTo(p, known', HeadId(p, s)) + [b];
    assert DesiredHead(p, s, b) == id;
  }

  /** Storing a produced block is storing a block that extends the head. */
  lemma ProduceCommits(p: Params, s: State, body: nat, seal: nat)
    requires Inv(p, s)
    ensures var b := NextBlock(p, s, body, seal);
            && Fits(p, s, b)
            && Committed(p, s, b) ==
               s.(blocks := s.blocks + [b], known := s.known[Id(p, b) := b],
                  counts := s.counts[b.header.height := CountOf(s.counts, b.header.height) + 1])
  {
    hide BlocksAfter, Tree, Injective, CertifiedBelowLock, HeadIsHighest, CountsMatch, VotesInv;
    hide IndexVotes, AddEvidence, ChainTo, Descends, Compatible, Extends, Installable;
    var b := NextBlock(p, s, body, seal);
    ProducedBlockIsNew(p, s, body, seal);
    ProducedBlockFits(p, s, body, seal);
    ExtendingAppends(p, s, b);
  }

  lemma ProduceIsSafe(p: Params, s: State, body: nat, seal: nat, env: ProduceEnv)
    requires Inv(p, s)
    ensures Inv(p, Produce(p, s, body, seal, env).0) && Progress(p, s, Produce(p, s, body, seal, env).0)
  {
    hide Progress, Committed, Fits, Tree, Injective, CertifiedBelowLock, HeadIsHighest, CountsMatch, VotesInv;
    var s' := Produce(p, s, body, seal, env).0;
    if Produce(p, s, body, seal, env).1 == Accepted {
      ProduceCommits(p, s, body, seal);
      CommitKeepsInv(p, s, NextBlock(p, s, body, seal));
    } else {
      assert s' == s.(halted := s'.halted);
      StayingIsSafe(p, s, s'.halted);
    }
  }

  // ---- Votes ----

  ghost predicate VoteSound(p: Params, s: State, height: nat, hash: Hash, voter: Validator) {
    && 0 < height < |s.blocks|
    && Id(p, s.blocks[height]) == hash
    && voter in p.validators(s.blocks[height].header.parent)
  }

  /** Only validators of the block are ever counted for it. */
  lemma TallyIsOfValidators(p: Params, s: State, height: nat, hash: Hash, voter: Validator)
    requires Inv(p, s) && VoteSound(p, s, height, hash, voter)
    ensures Tally(s, s.blocks[height], hash, voter) <= p.validators(s.blocks[height].header.parent)
  {
    CanonicalAt(p, s, height);
    if hash in s.votes {
      assert VoteCounted(p, s.known, hash, s.votes[hash]);
    } else if s.blocks[height].cert.Some? {
      assert s.known[hash].cert.Some?;
    }
  }

  lemma ParentOnChain(p: Params, s: State, height: nat)
    requires Tree(p, s.known) && ChainInv(p, s) && 0 < height < |s.blocks|
    ensures s.blocks[height].header.parent == Id(p, s.blocks[height - 1])
    ensures s.blocks[height].header.parent in s.known
  {
    CanonicalAt(p, s, height);
    CanonicalAt(p, s, height - 1);
    var id := Id(p, s.blocks[height]);
    assert Linked(s.known, id);
    AncestorsCompose(p, s.known, HeadId(p, s), height, height - 1);
    assert AncestorAt(p, s.known, id, height - 1) == s.blocks[height].header.parent;
  }

  /** A tally that reaches `FinalityQuorumSize` always makes a valid certificate. */
  lemma TallyCertifies(p: Params, s: State, height: nat, hash: Hash, voter: Validator)
    requires Inv(p, s) && VoteSound(p, s, height, hash, voter)
    requires |Tally(s, s.blocks[height], hash, voter)|
             >= FinalityQuorumSize(|p.validators(s.blocks[height].header.parent)|)
    ensures Follows(p, s.blocks[height - 1], s.blocks[height].(cert := Some(Tally(s, s.blocks[height], hash, voter))))
  {
    TallyIsOfValidators(p, s, height, hash, voter);
    ParentOnChain(p, s, height);
    CanonicalAt(p, s, height);
    CanonicalAt(p, s, height - 1);
  }

  /** Certifying a canonical block is storing it again with its certificate. */
  lemma CertifyingFits(p: Params, s: State, height: nat, certified: Block)
    requires Inv(p, s) && 0 < height < |s.blocks| && certified.cert.Some?
    requires certified.(cert := None) == s.blocks[height].(cert := None)
    requires Follows(p, s.blocks[height - 1], certified)
    ensures Fits(p, s, certified)
    ensures var hash := Id(p, s.blocks[height]);
            && Id(p, certified) == hash && hash in s.known
            && BlocksAfter(p, s, certified) == s.blocks[height := certified]
  {
    var hash := Id(p, certified);
    CanonicalAt(p, s, height);
    ParentOnChain(p, s, height);
    CanonicalAt(p, s, height - 1);
    TreeGrows(p, s.known, certified);
    VoteNeverConflicts(p, s, height, hash, 0, VoteEnv(false, Pass, Pass, false, Stored));
    var known' := s.known[hash := certified];
    DescentPersists(p, s.known, known', hash, s.lock);
    DescentPersists(p, s.known, known', s.lock.hash, Lock(height, hash));
  }

  lemma VotesAreIndependent(p: Params, s: State, t: State)
    requires Inv(p, s) && VotesInv(p, t)
    requires t == s.(votes := t.votes, voteIndex := t.voteIndex, evidence := t.evidence)
    ensures Inv(p, t)
  {
  }

  lemma RecordedVotesInv(p: Params, s: State, height: nat, hash: Hash, voter: Validator, known': map<Hash, Block>)
    requires Inv(p, s) && VoteSound(p, s, height, hash, voter) && Extends(s.known, known')
    ensures VotesInv(p, s.(known := known',
                           voteIndex := IndexVotes(s, height, hash, {voter}),
                           evidence := AddEvidence(s, height, hash, {voter})))
  {
    CanonicalAt(p, s, height);
    forall id | id in s.votes
      ensures VoteCounted(p, known', id, s.votes[id])
    {
      assert VoteCounted(p, s.known, id, s.votes[id]);
    }
    forall h | h in s.voteIndex
      ensures VotesIndexed(known', h, s.voteIndex[h])
    {
      assert VotesIndexed(s.known, h, s.voteIndex[h]);
    }
    assert VotesIndexed(known', height, FirstVotes(Slot(s.voteIndex, height), hash, {voter}));
    EvidenceStaysSound(s, height, hash, {voter});
  }

  lemma CountedVotesInv(p: Params, s: State, height: nat, hash: Hash, voter: Validator, t: State)
    requires Inv(p, s) && VoteSound(p, s, height, hash, voter)
    requires VotesInv(p, t.(votes := s.votes)) && Extends(s.known, t.known)
    requires t.votes == s.votes[hash := Tally(s, s.blocks[height], hash, voter)]
    ensures VotesInv(p, t)
  {
    TallyIsOfValidators(p, s, height, hash, voter);
    CanonicalAt(p, s, height);
    forall id | id in t.votes
      ensures VoteCounted(p, t.known, id, t.votes[id])
    {
      if id != hash {
        assert VoteCounted(p, t.known, id, t.(votes := s.votes).votes[id]);
      }
    }
  }

  lemma RecordingIsSafe(p: Params, s: State, height: nat, hash: Hash, voter: Validator, halted: bool)
    requires Inv(p, s) && !s.halted && VoteSound(p, s, height, hash, voter)
    ensures var s' := s.(voteIndex := IndexVotes(s, height, hash, {voter}),
                         evidence := AddEvidence(s, height, hash, {voter}),
                         halted := halted);
            Inv(p, s') && Progress(p, s, s')
  {
    hide IndexVotes, AddEvidence, CertifiedBelowLock, HeadIsHighest, CountsMatch;
    var s' := s.(voteIndex := IndexVotes(s, height, hash, {voter}),
                 evidence := AddEvidence(s, height, hash, {voter}),
                 halted := halted);
    LockDescendsFromItself(p, s);
    RecordedVotesInv(p, s, height, hash, voter, s.known);
    StayingIsSafe(p, s, halted);
    VotesAreIndependent(p, s.(halted := halted), s');
  }

  lemma CountingIsSafe(p: Params, s: State, height: nat, hash: Hash, voter: Validator)
    requires Inv(p, s) && !s.halted && VoteSound(p, s, height, hash, voter)
    ensures var s' := s.(votes := s.votes[hash := Tally(s, s.blocks[height], hash, voter)],
                         voteIndex := IndexVotes(s, height, hash, {voter}),
                         evidence := AddEvidence(s, height, hash, {voter}));
            Inv(p, s') && Progress(p, s, s')
  {
    hide IndexVotes, AddEvidence, CertifiedBelowLock, HeadIsHighest, CountsMatch;
    var s' := s.(votes := s.votes[hash := Tally(s, s.blocks[height], hash, voter)],
                 voteIndex := IndexVotes(s, height, hash, {voter}),
                 evidence := AddEvidence(s, height, hash, {voter}));
    LockDescendsFromItself(p, s);
    RecordedVotesInv(p, s, height, hash, voter, s.known);
    assert s'.(votes := s.votes) == s.(known := s.known, voteIndex := s'.voteIndex, evidence := s'.evidence);
    CountedVotesInv(p, s, height, hash, voter, s');
    VotesAreIndependent(p, s, s');
  }

  lemma CertifyingIsSafe(p: Params, s: State, height: nat, hash: Hash, voter: Validator)
    requires Inv(p, s) && !s.halted && VoteSound(p, s, height, hash, voter)
    requires Follows(p, s.blocks[height - 1], s.blocks[height].(cert := Some(Tally(s, s.blocks[height], hash, voter))))
    ensures var certified := s.blocks[height].(cert := Some(Tally(s, s.blocks[height], hash, voter)));
            var s' := s.(votes := s.votes[hash := certified.cert.value],
                         voteIndex := IndexVotes(s, height, hash, {voter}),
                         evidence := AddEvidence(s, height, hash, {voter}),
                         blocks := s.blocks[height := certified],
                         known := s.known[hash := certified],
                         lock := LockAfter(p, s, certified));
            Inv(p, s') && Progress(p, s, s')
  {
    hide CertifiedBelowLock, HeadIsHighest, CountsMatch, VotesInv, Injective, BlocksAfter, IndexVotes, AddEvidence,
      ChainTo, HasQuorum;
    var certified := s.blocks[height].(cert := Some(Tally(s, s.blocks[height], hash, voter)));
    CertifyingFits(p, s, height, certified);
    CommitKeepsInv(p, s, certified);
    var t := Committed(p, s, certified);
    var s' := s.(votes := s.votes[hash := certified.cert.value],
                 voteIndex := IndexVotes(s, height, hash, {voter}),
                 evidence := AddEvidence(s, height, hash, {voter}),
                 blocks := s.blocks[height := certified],
                 known := s.known[hash := certified],
                 lock := LockAfter(p, s, certified));
    RecordedVotesInv(p, s, height, hash, voter, t.known);
    VotesIgnoreChain(p, s.(known := t.known, voteIndex := s'.voteIndex, evidence := s'.evidence),
                     s'.(votes := s.votes));
    CountedVotesInv(p, s, height, hash, voter, s');
    VotesAreIndependent(p, t, s');
  }

  lemma VotesIgnoreChain(p: Params, s: State, t: State)
    requires VotesInv(p, s) && t == s.(blocks := t.blocks, lock := t.lock)
    ensures VotesInv(p, t)
  {
  }

  lemma VoteIsSafe(p: Params, s: State, height: nat, hash: Hash, voter: Validator, env: VoteEnv)
    requires Inv(p, s)
    ensures var s' := CastVote(p, s, height, hash, voter, env).0;
            Inv(p, s') && Progress(p, s, s')
  {
    hide CertifiedBelowLock, HeadIsHighest, CountsMatch, VotesInv, Tree, Injective, Descends, Compatible, Progress,
      ChainTo, IndexVotes, AddEvidence, LockAfter, HasQuorum;
    var s' := CastVote(p, s, height, hash, voter, env).0;
    if s' == s.(halted := s'.halted) && (s.halted ==> s'.halted) {
      StayingIsSafe(p, s, s'.halted);
    } else if CastVote(p, s, height, hash, voter, env).1 == Equivocation {
      RecordingIsSafe(p, s, height, hash, voter, s'.halted);
    } else if s'.blocks == s.blocks && s'.known == s.known && s'.lock == s.lock {
      CountingIsSafe(p, s, height, hash, voter);
      if |Tally(s, s.blocks[height], hash, voter)|
         >= FinalityQuorumSize(|p.validators(s.blocks[height].header.parent)|) {
        CertifyingIsSafe(p, s, height, hash, voter);
      }
    } else {
      CertifyingIsSafe(p, s, height, hash, voter);
    }
  }

  // ---- Whole runs ----

  datatype Event =
    | ImportEvent(block: Block, importEnv: ImportEnv)
    | VoteEvent(height: nat, hash: Hash, voter: Validator, voteEnv: VoteEnv)
    | ProduceEvent(body: nat, seal: nat, produceEnv: ProduceEnv)

  ghost function Step(p: Params, s: State, e: Event): State
    requires Inv(p, s)
  {
    match e
    case ImportEvent(block, env) => Import(p, s, block, env).0
    case VoteEvent(height, hash, voter, env) => CastVote(p, s, height, hash, voter, env).0
    case ProduceEvent(body, seal, env) => Produce(p, s, body, seal, env).0
  }

  lemma StepIsSafe(p: Params, s: State, e: Event)
    requires Inv(p, s)
    ensures Inv(p, Step(p, s, e)) && Progress(p, s, Step(p, s, e))
  {
    match e
    case ImportEvent(block, env) => ImportIsSafe(p, s, block, env);
    case VoteEvent(height, hash, voter, env) => VoteIsSafe(p, s, height, hash, voter, env);
    case ProduceEvent(body, seal, env) => ProduceIsSafe(p, s, body, seal, env);
  }

  ghost function Run(p: Params, s: State, events: seq<Event>): (s': State)
    requires Inv(p, s)
    ensures Inv(p, s')
    decreases |events|
  {
    hide *;
    if events == [] then s
    else StepIsSafe(p, s, events[0]); Run(p, Step(p, s, events[0]), events[1..])
  }

  ghost function Genesis(p: Params): State {
    var id := Id(p, p.genesis);
    State([p.genesis], map[id := p.genesis], map[0 := 1], Lock(0, id), map[], map[], map[], false)
  }

  lemma GenesisIsSafe(p: Params)
    requires Injective(p) && p.genesis.header.height == 0 && p.genesis.cert.None?
    ensures Inv(p, Genesis(p))
  {
    var s := Genesis(p);
    assert AtHeight(s.known, 0) == {Id(p, p.genesis)};
    forall h
      ensures CountOf(s.counts, h) == |AtHeight(s.known, h)|
    {
      if h != 0 {
        assert AtHeight(s.known, h) == {};
      }
    }
  }

  /** Finality over a whole run, for any mix of imports, votes, produced blocks,
      execution faults and persistence failures: a locked block and everything
      certified before stay on the canonical chain for ever, the lock only moves
      to descendants, and a halted node never changes again. */
  lemma {:induction false} FinalityIsForever(p: Params, s: State, events: seq<Event>)
    requires Inv(p, s)
    ensures var s' := Run(p, s, events);
            && Progress(p, s, s')
            && ContainsLock(p, s'.blocks, s.lock)
            && forall h :: h in s.known && s.known[h].cert.Some? ==>
                 ContainsLock(p, s'.blocks, Lock(s.known[h].header.height, h))
    decreases |events|
  {
    var s' := Run(p, s, events);
    RunProgresses(p, s, events);
    LockDescendsFromItself(p, s');
    OnLockedBranch(p, s', s.lock);
    forall h | h in s.known && s.known[h].cert.Some?
      ensures ContainsLock(p, s'.blocks, Lock(s.known[h].header.height, h))
    {
      var at := Lock(s.known[h].header.height, h);
      DescentPersists(p, s.known, s'.known, s.lock.hash, at);
      DescentComposes(p, s'.known, s'.lock.hash, s.lock, at);
      OnLockedBranch(p, s', at);
    }
  }

  lemma {:induction false} RunProgresses(p: Params, s: State, events: seq<Event>)
    requires Inv(p, s)
    ensures Progress(p, s, Run(p, s, events))
    decreases |events|
  {
    if events == [] {
      StayingIsSafe(p, s, s.halted);
    } else {
      StepIsSafe(p, s, events[0]);
      var mid := Step(p, s, events[0]);
      RunProgresses(p, mid, events[1..]);
      ProgressComposes(p, s, mid, Run(p, mid, events[1..]));
    }
  }

  lemma ProgressComposes(p: Params, a: State, b: State, c: State)
    requires Tree(p, a.known) && Tree(p, b.known) && Tree(p, c.known)
    requires Progress(p, a, b) && Progress(p, b, c)
    ensures Progress(p, a, c)
  {
    DescentPersists(p, b.known, c.known, b.lock.hash, a.lock);
    DescentComposes(p, c.known, c.lock.hash, b.lock, a.lock);
  }

  lemma OnLockedBranch(p: Params, s: State, at: Lock)
    requires Inv(p, s) && Descends(p, s.known, s.lock.hash, at)
    ensures ContainsLock(p, s.blocks, at)
  {
    LockDescendsFromItself(p, s);
    DescentComposes(p, s.known, HeadId(p, s), s.lock, at);
    CanonicalAt(p, s, at.height);
  }

  /** A valid certificate for a block off the locked branch changes nothing but
      halts the node, and no later call gets through. */
  lemma ConflictingCertificateHalts(p: Params, s: State, b: Block, env: ImportEnv, later: seq<Event>)
    requires Inv(p, s) && b.cert.Some?
    requires ImportGate(p, s, b, env).Install?
    requires var b' := ImportGate(p, s, b, env).block;
             TreeGrowsAt(p, s, b') && !Compatible(p, s.known[Id(p, b') := b'], s.lock, Id(p, b'))
    ensures Run(p, s, [ImportEvent(b, env)] + later) == s.(halted := true)
  {
    hide Inv, Progress, Compatible, Tree, TreeGrowsAt, WithinLimits, Prospective, Follows;
    GateAdmits(p, s, b, env);
    var s' := Import(p, s, b, env).0;
    assert s' == s.(halted := true);
    ImportIsSafe(p, s, b, env);
    RunProgresses(p, s', later);
    assert ([ImportEvent(b, env)] + later)[1..] == later;
  }

  ghost predicate TreeGrowsAt(p: Params, s: State, b: Block) {
    Tree(p, s.known[Id(p, b) := b])
  }

  /** Two nodes can only hold certificates for two children of one block if more
      than a third of that block's validators signed both. */
  lemma ForkNeedsEquivocation(p: Params, s: State, t: State, a: Hash, b: Hash)
    requires Inv(p, s) && Inv(p, t) && a in s.known && b in t.known
    requires s.known[a].cert.Some? && t.known[b].cert.Some? && s.known[a].header.parent == t.known[b].header.parent
    ensures |s.known[a].cert.value * t.known[b].cert.value| * 3 > |p.validators(s.known[a].header.parent)|
  {
    hide Tree, ChainInv, HeadIsHighest, CountsMatch, VotesInv, Injective, Descends;
    QuorumsIntersect(s.known[a].cert.value, t.known[b].cert.value, p.validators(s.known[a].header.parent));
  }
}

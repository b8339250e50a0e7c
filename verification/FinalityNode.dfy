/** The node object behind `Finality`: methods that search the block tree,
    change the node in place and undo the change when a later stage fails. */
module FinalityNode {
  import opened Finality
  import opened Wrappers

  /** Ancestry by walking parent links. */
  method KnownBlockDescendsFrom(p: Params, known: map<Hash, Block>, h: Hash, at: Lock) returns (r: bool)
    requires Tree(p, known)
    ensures r <==> Descends(p, known, h, at)
  {
    if h !in known || known[h].header.height < at.height {
      return false;
    }
    var block := known[h];
    while block.header.height > at.height
      invariant Id(p, block) in known && known[Id(p, block)] == block
      invariant at.height <= block.header.height
      invariant AncestorAt(p, known, Id(p, block), at.height) == AncestorAt(p, known, h, at.height)
      decreases block.header.height
    {
      assert Linked(known, Id(p, block));
      if block.header.parent !in known || known[block.header.parent].header.height + 1 != block.header.height {
        return false;
      }
      block := known[block.header.parent];
    }
    return Id(p, block) == at.hash;
  }

  /** The path from genesis, collected from the tip and reversed. */
  method KnownChain(p: Params, known: map<Hash, Block>, h: Hash) returns (chain: seq<Block>)
    requires Tree(p, known) && h in known
    ensures chain == ChainTo(p, known, h)
  {
    var block := known[h];
    chain := [block];
    while block.header.height > 0
      invariant Id(p, block) in known && known[Id(p, block)] == block
      invariant chain != [] && chain[0] == block
      invariant ChainTo(p, known, h) == ChainTo(p, known, Id(p, block)) + chain[1..]
      decreases block.header.height
    {
      assert Linked(known, Id(p, block));
      var parent := known[block.header.parent];
      assert ChainTo(p, known, Id(p, block)) == ChainTo(p, known, Id(p, parent)) + [block];
      chain := [parent] + chain;
      block := parent;
    }
  }

  /** The highest known descendant of the lock: the current head if it is one of
      them, the smallest hash otherwise. The order in which the blocks are
      visited does not matter. */
  method HighestKnownDescendant(p: Params, known: map<Hash, Block>, lock: Lock, head: Hash) returns (best: Hash)
    requires Tree(p, known) && Descends(p, known, lock.hash, lock) && head in known
    ensures Descends(p, known, best, lock)
    ensures forall h :: Descends(p, known, h, lock) ==> known[h].header.height <= known[best].header.height
    ensures best == if Descends(p, known, head, lock) && known[head].header.height == known[best].header.height
                    then head else BestDescendant(p, known, lock)
  {
    best := lock.hash;
    var bestHeight := lock.height;
    var headDescends := KnownBlockDescendsFrom(p, known, head, lock);
    if headDescends {
      best, bestHeight := head, known[head].header.height;
    }
    var rest := known.Keys;
    while rest != {}
      invariant rest <= known.Keys
      invariant Descends(p, known, best, lock) && bestHeight == known[best].header.height
      invariant forall h :: h !in rest && Descends(p, known, h, lock) ==> known[h].header.height <= bestHeight
      invariant headDescends ==> known[head].header.height <= bestHeight
      invariant headDescends && known[head].header.height == bestHeight ==> best == head
      invariant !(headDescends && best == head) ==> BestAmong(p, known, lock, known.Keys - rest, best)
      decreases |rest|
    {
      var h :| h in rest;
      var descends := KnownBlockDescendsFrom(p, known, h, lock);
      if descends
        && (known[h].header.height > bestHeight || (known[h].header.height == bestHeight && best != head && h < best)) {
        best, bestHeight := h, known[h].header.height;
      }
      rest := rest - {h};
    }
    assert known.Keys - rest == known.Keys;
    if !(headDescends && best == head) {
      BestIsUnique(p, known, lock, best, BestDescendant(p, known, lock));
    }
  }

  class Node {
    const p: Params
    var blocks: seq<Block>
    var known: map<Hash, Block>
    var counts: map<nat, nat>
    var lock: Lock
    var votes: map<Hash, set<Validator>>
    var voteIndex: map<nat, map<Validator, Hash>>
    var evidence: map<nat, map<Validator, Evidence>>
    var halted: bool

    ghost function View(): State
      reads this
    {
      State(blocks, known, counts, lock, votes, voteIndex, evidence, halted)
    }

    ghost predicate Valid()
      reads this
    {
      Inv(p, View())
    }

    constructor (p: Params)
      requires Injective(p) && p.genesis.header.height == 0 && p.genesis.cert.None?
      ensures this.p == p && Valid() && View() == Genesis(p)
    {
      var id := Id(p, p.genesis);
      this.p := p;
      blocks, known, counts := [p.genesis], map[id := p.genesis], map[0 := 1];
      lock, votes, voteIndex, evidence, halted := Lock(0, id), map[], map[], map[], false;
      new;
      GenesisIsSafe(p);
    }

    /** Undo the part of an import made before it failed. The lock, the votes and
        the evidence are put back; the block is put back or taken out of the tree
        and of the per-height count. */
    method RollBack(previous: State, b: Block)
      modifies `known, `counts, `lock, `votes, `voteIndex, `evidence
      requires var id, h := Id(p, b), b.header.height;
               && known == previous.known[id := b]
               && (forall x :: x in previous.counts ==> previous.counts[x] > 0)
               && counts == if id in previous.known then previous.counts
                 else previous.counts[h := CountOf(previous.counts, h) + 1]
      ensures known == previous.known && counts == previous.counts && lock == previous.lock
      ensures votes == previous.votes && voteIndex == previous.voteIndex && evidence == previous.evidence
    {
      var id, h := Id(p, b), b.header.height;
      if id in previous.known {
        known := known[id := previous.known[id]];
        assert known == previous.known;
      } else {
        known := known - {id};
        assert known == previous.known;
        counts := counts[h := counts[h] - 1];
        if counts[h] == 0 {
          counts := counts - {h};
        }
        assert counts == previous.counts;
      }
      lock, votes, voteIndex, evidence := previous.lock, previous.votes, previous.voteIndex, previous.evidence;
    }

    /** Every vote of an accepted certificate is indexed; a second vote of a
        validator at one height becomes evidence against it. */
    method RecordCertificate(b: Block)
      requires b.cert.Some? && b.cert.value != {}
      modifies `votes, `voteIndex, `evidence
      ensures var id, h := Id(p, b), b.header.height;
              && votes == old(votes)[id := (if id in old(votes) then old(votes)[id] else {}) + b.cert.value]
              && voteIndex == IndexVotes(old(View()), h, id, b.cert.value)
              && evidence == AddEvidence(old(View()), h, id, b.cert.value)
    {
      hide FirstVotes, Proofs, IndexVotes, AddEvidence;
      ghost var before := View();
      var id, h := Id(p, b), b.header.height;
      var v :| v in b.cert.value;
      var _ := RecordVote(h, id, v);
      var done := {v};
      while done != b.cert.value
        invariant votes == before.votes && done <= b.cert.value
        invariant voteIndex == IndexVotes(before, h, id, done) && evidence == AddEvidence(before, h, id, done)
        decreases b.cert.value - done
      {
        v :| v in b.cert.value && v !in done;
        RecordAnotherVote(h, id, v, before, done);
        done := done + {v};
      }
      votes := votes[id := (if id in votes then votes[id] else {}) + done];
    }

    method RecordAnotherVote(h: nat, id: Hash, v: Validator, ghost before: State, ghost done: set<Validator>)
      requires View()
                 == before.(voteIndex := IndexVotes(before, h, id, done), evidence := AddEvidence(before, h, id, done))
      modifies `voteIndex, `evidence
      ensures voteIndex == IndexVotes(before, h, id, done + {v}) && evidence == AddEvidence(before, h, id, done + {v})
    {
      hide FirstVotes, Proofs, IndexVotes, AddEvidence;
      RecordsCompose(before, h, id, done, v);
      var _ := RecordVote(h, id, v);
    }

    method RecordVote(h: nat, id: Hash, v: Validator) returns (equivocation: bool)
      modifies `voteIndex, `evidence
      ensures voteIndex == IndexVotes(old(View()), h, id, {v})
      ensures evidence == AddEvidence(old(View()), h, id, {v})
      ensures equivocation <==> Equivocators(Slot(old(voteIndex), h), id, {v}) != {}
    {
      equivocation := false;
      var heightVotes: map<Validator, Hash> := Slot(voteIndex, h);
      var proofs: map<Validator, Evidence> := Slot(evidence, h);
      if v !in heightVotes {
        heightVotes := heightVotes[v := id];
      } else if heightVotes[v] != id {
        equivocation := true;
        if v !in proofs {
          proofs := proofs[v := Evidence(heightVotes[v], id)];
        }
      }
      assert Equivocators(Slot(old(voteIndex), h), id, {v}) == if equivocation then {v} else {};
      assert heightVotes == FirstVotes(Slot(old(voteIndex), h), id, {v});
      assert proofs == Proofs(Slot(old(voteIndex), h), Slot(old(evidence), h), id, {v});
      voteIndex, evidence := voteIndex[h := heightVotes], evidence[h := proofs];
    }

    method CompatibleWith(tree: map<Hash, Block>, at: Lock, id: Hash) returns (r: bool)
      requires Tree(p, tree)
      ensures r <==> Compatible(p, tree, at, id)
    {
      if id !in tree {
        return false;
      }
      if tree[id].header.height >= at.height {
        r := KnownBlockDescendsFrom(p, tree, id, at);
      } else {
        r := KnownBlockDescendsFrom(p, tree, at.hash, Lock(tree[id].header.height, id));
      }
    }

    method ProspectiveBlockCompatible(b: Block) returns (r: bool)
      requires Tree(p, known)
      ensures r <==> Prospective(p, View(), b)
    {
      var id, h := Id(p, b), b.header.height;
      if h == lock.height {
        return id == lock.hash;
      }
      if h > lock.height {
        if h == lock.height + 1 {
          return b.header.parent == lock.hash;
        }
        r := KnownBlockDescendsFrom(p, known, b.header.parent, lock);
      } else {
        r := KnownBlockDescendsFrom(p, known, lock.hash, Lock(h, id));
      }
    }

    /** The block the canonical chain should end in. */
    method ChooseHead(b: Block, ghost s: State) returns (desired: Hash)
      requires Fits(p, s, b)
               && View() == s.(known := known, counts := counts, lock := lock, votes := votes,
                               voteIndex := voteIndex, evidence := evidence)
      requires known == s.known[Id(p, b) := b] && lock == LockAfter(p, s, b)
      ensures desired == DesiredHead(p, s, b) && desired in known
    {
      DesiredDescends(p, s, b);
      desired := Id(p, blocks[|blocks| - 1]);
      if b.cert.Some? && lock.hash == Id(p, b) && !ContainsLock(p, blocks, lock) {
        LockMovesForward(p, s, b);
        HeadOffLock(p, s, b);
        desired := HighestKnownDescendant(p, known, lock, desired);
      } else if b.header.height > |blocks| - 1 {
        desired := Id(p, b);
      }
    }

    /** Put the block into the tree and, if it is certified, move the lock and
        record its votes. */
    method StageBlock(b: Block)
      requires b.cert.Some? ==> b.cert.value != {}
      modifies `known, `counts, `lock, `votes, `voteIndex, `evidence
      ensures var s, id, h := old(View()), Id(p, b), b.header.height;
              View() == s.(known := s.known[id := b],
                           counts := if id in s.known then s.counts else s.counts[h := CountOf(s.counts, h) + 1],
                           lock := LockAfter(p, s, b),
                           votes := if b.cert.Some? then s.votes[id := VotesFor(s, id) + Signers(b)] else s.votes,
                           voteIndex := if b.cert.Some? then IndexVotes(s, h, id, Signers(b)) else s.voteIndex,
                           evidence := if b.cert.Some? then AddEvidence(s, h, id, Signers(b)) else s.evidence)
    {
      hide IndexVotes, AddEvidence;
      var id, h := Id(p, b), b.header.height;
      if b.cert.Some? {
        RecordCertificate(b);
        if h > lock.height {
          lock := Lock(h, id);
        }
      }
      if id !in known {
        counts := counts[h := CountOf(counts, h) + 1];
      }
      known := known[id := b];
    }

    /** The canonical chain after the block is in the tree. */
    method CandidateChain(b: Block, desired: Hash, alreadyKnown: bool, ghost s: State) returns (chain: seq<Block>)
      requires Fits(p, s, b) && blocks == s.blocks && known == s.known[Id(p, b) := b]
      requires desired == DesiredHead(p, s, b) && desired in known && (alreadyKnown <==> Id(p, b) in s.known)
      ensures chain == BlocksAfter(p, s, b)
    {
      hide Fits, Tree, ChainTo, DesiredHead;
      FitsBasics(p, s, b);
      var h := b.header.height;
      if desired != Id(p, blocks[|blocks| - 1]) {
        chain := KnownChain(p, known, desired);
      } else if alreadyKnown && h < |blocks| && Id(p, blocks[h]) == Id(p, b) {
        chain := blocks[h := b];
      } else {
        chain := blocks;
      }
    }

    /** Import, second half: put the block into the tree, move the lock and the
        canonical chain, store the result, and undo all of it if a stage fails. */
    method InstallCandidate(b: Block, env: ImportEnv) returns (outcome: Outcome)
      requires Valid() && !halted
      requires Installable(p, View(), b)
      requires Tree(p, known[Id(p, b) := b]) && Extends(known, known[Id(p, b) := b])
      modifies this
      ensures View() == InstallBlock(p, old(View()), b, env).0 && outcome == InstallBlock(p, old(View()), b, env).1
    {
      hide Inv, Tree, Compatible, Fits, Installable, Extends, DesiredHead, BlocksAfter, IndexVotes, AddEvidence;
      hide CountOf, LockAfter, VotesFor, Signers;
      ghost var s := View();
      Basics(p, s);
      SignersNonEmpty(p, s, b);
      var id := Id(p, b);
      var previous := State(blocks, known, counts, lock, votes, voteIndex, evidence, halted);
      var compatible := CompatibleWith(known[id := b], lock, id);
      StageBlock(b);
      if !compatible {
        Undo(previous, b, b.cert.Some?);
        return if b.cert.Some? then Halted else Rejected;
      }
      if b.cert.Some? && env.record == Fatal {
        Undo(previous, b, true);
        return Halted;
      }
      CompatibleFits(p, s, b);
      var desired := ChooseHead(b, s);
      if desired != HeadId(p, previous) && env.prepare != Pass {
        Undo(previous, b, env.prepare == Fatal);
        return Rejected;
      }
      var candidateBlocks := CandidateChain(b, desired, id in previous.known, s);
      if env.persist != Stored {
        Undo(previous, b, env.persist == Uncertain);
        return Rejected;
      }
      blocks := candidateBlocks;
      return Accepted;
    }

    /** Undo a staged block and note whether the failure halts the node. */
    method Undo(previous: State, b: Block, halt: bool)
      requires blocks == previous.blocks
      requires var id, h := Id(p, b), b.header.height;
               && known == previous.known[id := b]
               && (forall x :: x in previous.counts ==> previous.counts[x] > 0)
               && counts == if id in previous.known then previous.counts
                 else previous.counts[h := CountOf(previous.counts, h) + 1]
      modifies this
      ensures View() == previous.(halted := halt)
    {
      RollBack(previous, b);
      halted := halt;
    }

    method ImportBlock(block: Block, env: ImportEnv) returns (outcome: Outcome)
      requires Valid()
      modifies this
      ensures View() == Import(p, old(View()), block, env).0 && outcome == Import(p, old(View()), block, env).1
      ensures Valid()
    {
      hide Inv, Progress, Tree, InstallBlock, Installable, Extends, ImportGate;
      ghost var s := View();
      Basics(p, s);
      ImportIsSafe(p, s, block, env);
      var gate := CheckImport(block, env);
      match gate {
        case Stop(stopped) =>
          if stopped == Halted {
            halted := true;
          }
          outcome := stopped;
        case Install(candidate) =>
          GateAdmits(p, s, block, env);
          assert !halted by { GateIsOpen(p, s, block, env); }
          outcome := InstallCandidate(candidate, env);
      }
    }

    /** Import, first half: everything that can be checked without changing the node. */
    method CheckImport(block: Block, env: ImportEnv) returns (gate: Gate)
      requires Valid() && Tree(p, known) && blocks != []
      ensures gate == ImportGate(p, View(), block, env)
    {
      hide Inv, Tree, Compatible, Prospective;
      if halted || !env.admissible {
        return Stop(Rejected);
      }
      var id := Id(p, block);
      var alreadyKnown := id in known;
      if alreadyKnown && block.cert.None? {
        var compatible := CompatibleWith(known, lock, id);
        return Stop(if compatible then Accepted else Rejected);
      }
      if block.header.parent !in known {
        return Stop(Rejected);
      }
      if !alreadyKnown && block.cert.None? {
        var h := block.header.height;
        if CountOf(counts, h) >= MAX_KNOWN_BLOCKS_PER_HEIGHT {
          return Stop(Rejected);
        }
        var canonicalCountAfter := |blocks|;
        if h > |blocks| - 1 {
          canonicalCountAfter := h + 1;
        }
        var knownCountAfter := |known| + 1;
        if knownCountAfter > canonicalCountAfter && knownCountAfter - canonicalCountAfter > MAX_KNOWN_SIDE_BLOCKS {
          return Stop(Rejected);
        }
      }
      if block.cert.None? {
        var prospective := ProspectiveBlockCompatible(block);
        if !prospective {
          return Stop(Rejected);
        }
      }
      if env.replay != Pass {
        return Stop(if env.replay == Fatal then Halted else Rejected);
      }
      if !Follows(p, known[block.header.parent], block) {
        return Stop(Rejected);
      }
      if env.execution != Pass {
        return Stop(if env.execution == Fatal then Halted else Rejected);
      }
      if alreadyKnown {
        var existing := known[id];
        if existing.(cert := None) != block.(cert := None) {
          return Stop(Rejected);
        }
        if existing.cert.Some? {
          if block.cert.value <= existing.cert.value {
            return Stop(Accepted);
          }
          if !env.mergedFits {
            return Stop(Rejected);
          }
          return Install(block.(cert := Some(existing.cert.value + block.cert.value)));
        }
      }
      gate := Install(block);
    }

    /** A vote for a canonical block. A validator's second vote at one height is
        turned into evidence; a tally that reaches the quorum certifies the block. */
    method SubmitFinalityVote(height: nat, hash: Hash, voter: Validator, env: VoteEnv) returns (outcome: Outcome)
      requires Valid()
      modifies this
      ensures View() == CastVote(p, old(View()), height, hash, voter, env).0
      ensures outcome == CastVote(p, old(View()), height, hash, voter, env).1 && outcome != SafetyViolation
      ensures Valid()
    {
      hide Inv, Progress, Compatible, IndexVotes, AddEvidence, CountVote, Equivocators;
      ghost var s := View();
      VoteIsSafe(p, s, height, hash, voter, env);
      VoteNeverConflicts(p, s, height, hash, voter, env);
      if halted || height == 0 || height >= |blocks| || Id(p, blocks[height]) != hash || !env.authentic {
        return Rejected;
      }
      if env.replay != Pass {
        halted := env.replay == Fatal;
        return Rejected;
      }
      if voter !in p.validators(blocks[height].header.parent) {
        return Rejected;
      }
      var previousIndex, previousEvidence := voteIndex, evidence;
      var fault := voter !in Slot(evidence, height) && env.slash == Fatal;
      var equivocation := RecordVote(height, hash, voter);
      if equivocation {
        halted := fault;
        if env.persist != Stored {
          voteIndex, evidence := previousIndex, previousEvidence;
          halted := fault || env.persist == Uncertain;
        }
        return Equivocation;
      }
      outcome := CountRecordedVote(s, height, hash, voter, env, previousIndex, previousEvidence);
    }

    /** The vote is already indexed; add it to the tally and certify the block if
        the tally is a quorum. */
    method CountRecordedVote(ghost s: State, height: nat, hash: Hash, voter: Validator, env: VoteEnv,
                             previousIndex: map<nat, map<Validator, Hash>>,
                             previousEvidence: map<nat, map<Validator, Evidence>>)
      returns (outcome: Outcome)
      requires Inv(p, s) && !s.halted && VoteSound(p, s, height, hash, voter)
      requires previousIndex == s.voteIndex && previousEvidence == s.evidence
      requires View()
                 == s.(voteIndex := IndexVotes(s, height, hash, {voter}),
                       evidence := AddEvidence(s, height, hash, {voter}))
      modifies this
      ensures View() == CountVote(p, s, height, hash, voter, env).0
      ensures outcome == CountVote(p, s, height, hash, voter, env).1
    {
      hide Inv, Tree, IndexVotes, AddEvidence, CountVote, VoteSound, FinalityQuorumSize, Tally;
      Basics(p, s);
      VoteSoundBasics(p, s, height, hash, voter);
      var tally := ComputeTally(s, height, hash, voter);
      if |tally| < FinalityQuorumSize(|p.validators(blocks[height].header.parent)|) {
        outcome := KeepTally(s, height, hash, voter, tally, env, previousIndex, previousEvidence);
      } else {
        outcome := CertifyTally(s, height, hash, voter, tally, env, previousIndex, previousEvidence);
      }
    }

    /** The vote has been indexed but not counted. */
    ghost predicate Indexed(s: State, height: nat, hash: Hash, voter: Validator,
                            previousIndex: map<nat, map<Validator, Hash>>,
                            previousEvidence: map<nat, map<Validator, Evidence>>)
      reads this
    {
      && Inv(p, s) && !s.halted && VoteSound(p, s, height, hash, voter)
      && previousIndex == s.voteIndex && previousEvidence == s.evidence
      && View() == s.(voteIndex := IndexVotes(s, height, hash, {voter}),
                      evidence := AddEvidence(s, height, hash, {voter}))
    }

    method KeepTally(ghost s: State, height: nat, hash: Hash, voter: Validator, tally: set<Validator>, env: VoteEnv,
                     previousIndex: map<nat, map<Validator, Hash>>,
                     previousEvidence: map<nat, map<Validator, Evidence>>)
      returns (outcome: Outcome)
      requires Indexed(s, height, hash, voter, previousIndex, previousEvidence)
      requires height < |s.blocks| && tally == Tally(s, s.blocks[height], hash, voter)
      requires |tally| < FinalityQuorumSize(|p.validators(s.blocks[height].header.parent)|)
      modifies this
      ensures View() == CountVote(p, s, height, hash, voter, env).0
      ensures outcome == CountVote(p, s, height, hash, voter, env).1
    {
      hide Inv, Tree, IndexVotes, AddEvidence, CountVote, VoteSound, FinalityQuorumSize, Tally;
      VoteSoundBasics(p, s, height, hash, voter);
      CountVoteShape(p, s, height, hash, voter, env);
      if env.persist != Stored {
        voteIndex, evidence := previousIndex, previousEvidence;
        halted := env.persist == Uncertain;
        return Rejected;
      }
      votes := votes[hash := tally];
      outcome := Accepted;
    }

    method CertifyTally(ghost s: State, height: nat, hash: Hash, voter: Validator, tally: set<Validator>, env: VoteEnv,
                        previousIndex: map<nat, map<Validator, Hash>>,
                        previousEvidence: map<nat, map<Validator, Evidence>>)
      returns (outcome: Outcome)
      requires Indexed(s, height, hash, voter, previousIndex, previousEvidence)
      requires height < |s.blocks| && tally == Tally(s, s.blocks[height], hash, voter)
      requires |tally| >= FinalityQuorumSize(|p.validators(s.blocks[height].header.parent)|)
      modifies this
      ensures View() == CountVote(p, s, height, hash, voter, env).0
      ensures outcome == CountVote(p, s, height, hash, voter, env).1
    {
      hide Inv, Tree, IndexVotes, AddEvidence, CountVote, VoteSound, FinalityQuorumSize, Tally;
      VoteSoundBasics(p, s, height, hash, voter);
      CountVoteShape(p, s, height, hash, voter, env);
      var previousVotes := votes;
      votes := votes[hash := tally];
      outcome := Certify(s, height, hash, voter, tally, env);
      if outcome != Accepted {
        votes, voteIndex, evidence := previousVotes, previousIndex, previousEvidence;
      }
    }

    /** The signers of a block so far, with one more. */
    method ComputeTally(ghost s: State, height: nat, hash: Hash, voter: Validator) returns (tally: set<Validator>)
      requires height < |s.blocks| && blocks == s.blocks && votes == s.votes
      ensures tally == Tally(s, s.blocks[height], hash, voter)
    {
      var block := blocks[height];
      tally := (if hash in votes then votes[hash] else if block.cert.Some? then block.cert.value else {}) + {voter};
    }

    /** Give the canonical block at `height` a certificate, and move the lock to
        it if it is higher; the tree and the lock are put back on failure. */
    method Certify(ghost s: State, height: nat, hash: Hash, voter: Validator, tally: set<Validator>, env: VoteEnv)
        returns (outcome: Outcome)
      requires Inv(p, s) && !s.halted && VoteSound(p, s, height, hash, voter)
               && tally == Tally(s, s.blocks[height], hash, voter)
      requires blocks == s.blocks && known == s.known && lock == s.lock && !halted
      requires |tally| >= FinalityQuorumSize(|p.validators(s.blocks[height].header.parent)|)
      modifies `known, `lock, `halted, `blocks
      ensures outcome == CountVote(p, s, height, hash, voter, env).1
      ensures var s' := CountVote(p, s, height, hash, voter, env).0;
              blocks == s'.blocks && known == s'.known && lock == s'.lock && halted == s'.halted
    {
      hide Inv, Tree, Compatible, IndexVotes, AddEvidence, Follows, Tally;
      Basics(p, s);
      var certified := blocks[height].(cert := Some(tally));
      if !env.certifiedFits || !Follows(p, blocks[height - 1], certified) {
        return Rejected;
      }
      var compatible := CompatibleWith(known, lock, hash);
      if !compatible {
        return SafetyViolation;
      }
      var previousKnown, previousLock := known, lock;
      known := known[hash := certified];
      if certified.header.height > lock.height {
        lock := Lock(certified.header.height, hash);
      }
      if env.persist != Stored {
        known, lock := previousKnown, previousLock;
        halted := env.persist == Uncertain;
        return Rejected;
      }
      blocks := blocks[height := certified];
      return Accepted;
    }

    /** A block on top of the head. If it cannot be stored it is taken out of the
        tree again, which is exact because it cannot have been there before. */
    method ProduceBlock(body: nat, seal: nat, env: ProduceEnv) returns (outcome: Outcome)
      requires Valid()
      modifies this
      ensures View() == Produce(p, old(View()), body, seal, env).0
              && outcome == Produce(p, old(View()), body, seal, env).1
      ensures Valid()
    {
      hide Inv, Progress, CountOf;
      ghost var s := View();
      Basics(p, s);
      ProduceIsSafe(p, s, body, seal, env);
      ProducedBlockIsNew(p, s, body, seal);
      if halted {
        return Rejected;
      }
      if env.execution != Pass {
        halted := env.execution == Fatal;
        return Rejected;
      }
      var parent := blocks[|blocks| - 1];
      var b := Block(Header(parent.header.height + 1, Id(p, parent), body), seal, None);
      var id, h := Id(p, b), parent.header.height + 1;
      if !env.valid {
        return Rejected;
      }
      var previous := State(blocks, known, counts, lock, votes, voteIndex, evidence, halted);
      known := known[id := b];
      counts := counts[h := CountOf(counts, h) + 1];
      if env.persist != Stored {
        RollBack(previous, b);
        halted := env.persist == Uncertain;
        return Rejected;
      }
      blocks := blocks + [b];
      return Accepted;
    }
  }

  lemma Basics(p: Params, s: State)
    requires Inv(p, s)
    ensures Tree(p, s.known) && s.blocks != [] && forall h :: h in s.counts ==> s.counts[h] > 0
  {
  }

  lemma GateIsOpen(p: Params, s: State, b: Block, env: ImportEnv)
    requires Tree(p, s.known) && s.blocks != [] && ImportGate(p, s, b, env).Install?
    ensures !s.halted
  {
  }

  lemma VoteSoundBasics(p: Params, s: State, height: nat, hash: Hash, voter: Validator)
    requires VoteSound(p, s, height, hash, voter)
    ensures 0 < height < |s.blocks|
  {
  }

  /** A vote that certifies nothing touches only the vote records. */
  lemma CountVoteShape(p: Params, s: State, height: nat, hash: Hash, voter: Validator, env: VoteEnv)
    requires Inv(p, s) && 0 < height < |s.blocks|
    ensures var tally := Tally(s, s.blocks[height], hash, voter);
            var r := CountVote(p, s, height, hash, voter, env);
            var counted :=
              s.(votes := s.votes[hash := tally], voteIndex := IndexVotes(s, height, hash, {voter}),
                 evidence := AddEvidence(s, height, hash, {voter}));
            && (|tally| < FinalityQuorumSize(|p.validators(s.blocks[height].header.parent)|) ==>
                 r == if env.persist == Stored then (counted, Accepted)
                   else (s.(halted := env.persist == Uncertain), Rejected))
            && (|tally| >= FinalityQuorumSize(|p.validators(s.blocks[height].header.parent)|) ==>
                 r.0 == (if r.1 == Accepted then counted else s).(
                          blocks := r.0.blocks, known := r.0.known, counts := s.counts, lock := r.0.lock,
                          halted := r.0.halted))
  {
    hide Inv, IndexVotes, AddEvidence, Follows, Compatible, FinalityQuorumSize, Tally, LockAfter;
  }

  lemma SignersNonEmpty(p: Params, s: State, b: Block)
    requires Installable(p, s, b)
    ensures b.cert.Some? ==> b.cert.value != {}
  {
  }

  lemma CompatibleFits(p: Params, s: State, b: Block)
    requires Inv(p, s) && Installable(p, s, b)
    requires Tree(p, s.known[Id(p, b) := b]) && Extends(s.known, s.known[Id(p, b) := b])
    requires Compatible(p, s.known[Id(p, b) := b], s.lock, Id(p, b))
    ensures Fits(p, s, b)
  {
  }

  lemma FitsBasics(p: Params, s: State, b: Block)
    requires Fits(p, s, b)
    ensures s.blocks != [] && Tree(p, s.known[Id(p, b) := b])
  {
  }

  /** A chain that does not contain the new lock does not end above it. */
  lemma HeadOffLock(p: Params, s: State, b: Block)
    requires Fits(p, s, b)
    requires !ContainsLock(p, s.blocks, LockAfter(p, s, b))
    ensures !Descends(p, s.known[Id(p, b) := b], HeadId(p, s), LockAfter(p, s, b))
    ensures HeadId(p, s) in s.known[Id(p, b) := b]
  {
    var lock := LockAfter(p, s, b);
    DescentPersists(p, s.known, s.known[Id(p, b) := b], HeadId(p, s), lock);
    if lock.height < |s.blocks| {
      CanonicalAt(p, s, lock.height);
    } else {
      CanonicalAt(p, s, |s.blocks| - 1);
    }
  }

  lemma FirstVotesCompose(seen: map<Validator, Hash>, id: Hash, vs: set<Validator>, v: Validator)
    ensures FirstVotes(FirstVotes(seen, id, vs), id, {v}) == FirstVotes(seen, id, vs + {v})
  {
  }

  lemma ProofsCompose(seen: map<Validator, Hash>, proofs: map<Validator, Evidence>, id: Hash, vs: set<Validator>,
                      v: Validator)
    ensures Proofs(FirstVotes(seen, id, vs), Proofs(seen, proofs, id, vs), id, {v})
              == Proofs(seen, proofs, id, vs + {v})
  {
    assert Equivocators(seen, id, vs + {v}) == Equivocators(seen, id, vs) + Equivocators(seen, id, {v});
    assert Equivocators(FirstVotes(seen, id, vs), id, {v}) == Equivocators(seen, id, {v});
  }

  lemma RecordsCompose(s: State, h: nat, id: Hash, vs: set<Validator>, v: Validator)
    ensures var t := s.(voteIndex := IndexVotes(s, h, id, vs), evidence := AddEvidence(s, h, id, vs));
            && IndexVotes(t, h, id, {v}) == IndexVotes(s, h, id, vs + {v})
            && AddEvidence(t, h, id, {v}) == AddEvidence(s, h, id, vs + {v})
  {
    hide FirstVotes, Proofs;
    FirstVotesCompose(Slot(s.voteIndex, h), id, vs, v);
    ProofsCompose(Slot(s.voteIndex, h), Slot(s.evidence, h), id, vs, v);
  }
}

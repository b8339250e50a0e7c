/** When a call halts the node: every fault that does, and no other. The faults are
    those of foreign code (replaying a parent, executing, recording a certificate,
    preparing a head, storing) and a certificate off the locked branch. */
module FinalityFaults {
  import opened Finality
  import opened FinalityLive
  import opened Wrappers

  /** The import gets as far as replaying the parent. */
  ghost predicate Replays(p: Params, s: State, b: Block, env: ImportEnv) {
    && env.admissible && b.header.parent in s.known
    && (b.cert.None? ==>
          && p.hash(b.header) !in s.known && RoomFor(s, b)
          && SameBranch(With(p, s, b), p.hash(b.header), s.lock.hash))
  }

  /** A certificate that adds nothing to the known one, or makes it too large to keep. */
  ghost predicate NothingToInstall(p: Params, s: State, b: Block, env: ImportEnv) {
    var id := p.hash(b.header);
    && b.cert.Some? && id in s.known && s.known[id].cert.Some?
    && (b.cert.value <= s.known[id].cert.value || !env.mergedFits)
  }

  /** Had everything worked, the head would be another block. */
  ghost predicate HeadMoves(p: Params, s: State, b: Block, env: ImportEnv)
    requires Inv(p, s)
  {
    var s' := Import(p, s, b, env.(record := Pass, prepare := Pass, persist := Stored)).0;
    s'.blocks != [] && HeadId(p, s') != HeadId(p, s)
  }

  /** A checked block halts the node while it is being installed. */
  ghost predicate InstallHalts(p: Params, s: State, b: Block, env: ImportEnv)
    requires Inv(p, s)
  {
    && !NothingToInstall(p, s, b, env)
    && if !SameBranch(With(p, s, b), p.hash(b.header), s.lock.hash) then b.cert.Some?
       else
         || (b.cert.Some? && env.record == Fatal)
         || (if HeadMoves(p, s, b, env) && env.prepare != Pass then env.prepare == Fatal
             else env.persist == Uncertain)
  }

  /** What the checks before the installation decide, for a valid child. */
  lemma GateSays(p: Params, s: State, b: Block, env: ImportEnv)
    requires Inv(p, s) && !s.halted && ValidChild(p, s, b)
    ensures var gate := ImportGate(p, s, b, env);
            && (gate == Stop(Halted) <==>
                  Replays(p, s, b, env)
                  && (env.replay == Fatal || (env.replay == Pass && env.execution == Fatal)))
            && (gate.Install? <==>
                  && Replays(p, s, b, env) && Checked(s, env) && SameEnvelope(p, s, b)
                  && !NothingToInstall(p, s, b, env))
            && (gate.Install? ==> gate.block.header == b.header && (gate.block.cert.Some? <==> b.cert.Some?))
  {
    hide Inv, Tree, SameBranch, RoomFor, WithinLimits, Compatible, Prospective, With, Follows;
    Shape(p, s);
    FollowsIff(p, s, b);
    RoomIff(p, s, b);
    if b.cert.None? && Id(p, b) !in s.known {
      BranchIff(p, s, b);
      ProspectiveIff(p, s, b);
    }
  }

  /** What the installation decides, for whatever block the checks let through. */
  lemma InstallSays(p: Params, s: State, b: Block, b': Block, env: ImportEnv)
    requires Inv(p, s) && !s.halted && ValidChild(p, s, b) && ImportGate(p, s, b, env) == Install(b')
    requires b'.header == b.header && (b'.cert.Some? <==> b.cert.Some?) && !NothingToInstall(p, s, b, env)
    ensures Import(p, s, b, env).0.halted <==> InstallHalts(p, s, b, env)
  {
    hide Inv, ImportGate, Tree, SameBranch, Compatible, NothingToInstall, DesiredHead, InstallBlock, HeadMoves;
    Shape(p, s);
    FollowsIff(p, s, b);
    BranchIff(p, s, b);
    OtherCertificate(p, s, b, b');
    GateAdmits(p, s, b, env);
    InstalledHalts(p, s, b', env);
    if SameBranch(With(p, s, b), Id(p, b), s.lock.hash) {
      MovesIff(p, s, b, b', env);
    }
  }

  lemma InstalledHalts(p: Params, s: State, b: Block, env: ImportEnv)
    requires Tree(p, s.known) && Tree(p, With(p, s, b)) && s.blocks != [] && !s.halted
    ensures InstallBlock(p, s, b, env).0.halted <==>
              if !Compatible(p, With(p, s, b), s.lock, Id(p, b)) then b.cert.Some?
              else
                || (b.cert.Some? && env.record == Fatal)
                || (if DesiredHead(p, s, b) != HeadId(p, s) && env.prepare != Pass then env.prepare == Fatal
                    else env.persist == Uncertain)
  {
    hide Tree, Compatible, DesiredHead, BlocksAfter, LockAfter, IndexVotes, AddEvidence;
  }

  lemma MovesIff(p: Params, s: State, b: Block, b': Block, env: ImportEnv)
    requires Inv(p, s) && ImportGate(p, s, b, env) == Install(b') && Installable(p, s, b') && s.blocks != []
    requires Tree(p, With(p, s, b')) && Extends(s.known, With(p, s, b'))
    requires Compatible(p, With(p, s, b'), s.lock, Id(p, b'))
    ensures HeadMoves(p, s, b, env) <==> DesiredHead(p, s, b') != HeadId(p, s)
  {
    hide Inv, ImportGate, Tree, Extends, Compatible, Installable, DesiredHead, BlocksAfter, LockAfter, IndexVotes,
      AddEvidence, Committed;
    Shape(p, s);
    SameGate(p, s, b, env, env.(record := Pass, prepare := Pass, persist := Stored));
    InstalledHead(p, s, b');
  }

  lemma InstalledHead(p: Params, s: State, b: Block)
    requires Inv(p, s) && Installable(p, s, b) && Tree(p, With(p, s, b)) && Extends(s.known, With(p, s, b))
    requires Compatible(p, With(p, s, b), s.lock, Id(p, b))
    ensures Committed(p, s, b).blocks != [] && HeadId(p, Committed(p, s, b)) == DesiredHead(p, s, b)
  {
    hide Tree, Extends, Compatible, Installable, CertifiedBelowLock, HeadIsHighest, CountsMatch, VotesInv;
    ChainMoves(p, s, b);
  }

  lemma SameGate(p: Params, s: State, b: Block, env: ImportEnv, env': ImportEnv)
    requires Tree(p, s.known) && s.blocks != []
    requires env' == env.(record := env'.record, prepare := env'.prepare, persist := env'.persist)
    ensures ImportGate(p, s, b, env') == ImportGate(p, s, b, env)
  {
    hide Tree, Compatible, Prospective, WithinLimits, Follows;
  }

  /** An import halts a running node exactly when one of these faults is met. */
  lemma ImportHalts(p: Params, s: State, b: Block, env: ImportEnv)
    requires Inv(p, s) && !s.halted
    ensures ValidChild(p, s, b) ==>
              (Import(p, s, b, env).0.halted <==>
                 && Replays(p, s, b, env)
                 && (|| env.replay == Fatal
                     || (env.replay == Pass && env.execution == Fatal)
                     || (Checked(s, env) && SameEnvelope(p, s, b) && InstallHalts(p, s, b, env))))
    ensures !ValidChild(p, s, b) && Import(p, s, b, env).0.halted ==> env.replay == Fatal
  {
    hide Inv, Tree, SameBranch, RoomFor, WithinLimits, Compatible, Prospective, InstallBlock, HeadMoves, With, Follows;
    Shape(p, s);
    if ValidChild(p, s, b) {
      hide ImportGate;
      GateSays(p, s, b, env);
      if ImportGate(p, s, b, env).Install? {
        InstallSays(p, s, b, ImportGate(p, s, b, env).block, env);
      }
    } else if b.header.parent in s.known {
      FollowsIff(p, s, b);
    }
  }

  /** A vote halts a running node exactly when the parent cannot be replayed, a second
      vote cannot be punished, or it is unknown whether the vote was stored. */
  lemma VoteHalts(p: Params, s: State, height: nat, hash: Hash, voter: Validator, env: VoteEnv)
    requires Inv(p, s) && VotesAgree(p, s) && !s.halted
    ensures var first, voters := FirstVote(s, height, voter), VotersWith(s, hash, voter);
            CastVote(p, s, height, hash, voter, env).0.halted <==>
              && 0 < height < |s.blocks| && p.hash(s.blocks[height].header) == hash && env.authentic
              && (|| env.replay == Fatal
                  || (&& env.replay == Pass && voter in p.validators(s.blocks[height].header.parent)
                      && if first.Some? && first.value != hash then
                           (Proof(s, height, voter).None? && env.slash == Fatal) || env.persist == Uncertain
                         else
                           && env.persist == Uncertain
                           && (MoreThanTwoThirds(voters, p.validators(s.blocks[height].header.parent)) ==>
                                 env.certifiedFits)))
  {
    hide Tree, ChainInv, CertifiedBelowLock, HeadIsHighest, CountsMatch, VotesInv, VotesAgree, IndexVotes, AddEvidence,
      FirstVote, Proof, MoreThanTwoThirds, FinalityQuorumSize, Follows, Tally, Compatible, Equivocators, LockAfter;
    EquivocatorsIff(s, height, hash, voter);
    ProofIs(s, height, voter);
    if VoteArrives(p, s, height, hash, voter, env) {
      VoteNeverConflicts(p, s, height, hash, voter, env);
      TallyIs(p, s, height, hash, voter);
      if |VotersWith(s, hash, voter)| >= FinalityQuorumSize(|p.validators(s.blocks[height].header.parent)|) {
        TallyCertifies(p, s, height, hash, voter);
      }
    }
  }

  lemma ProofIs(s: State, height: nat, voter: Validator)
    ensures Proof(s, height, voter).None? <==> voter !in Slot(s.evidence, height)
  {
  }

  /** So does a production whose execution fails for good or whose storing is unknown. */
  lemma ProduceHalts(p: Params, s: State, body: nat, seal: nat, env: ProduceEnv)
    requires Inv(p, s) && !s.halted
    ensures Produce(p, s, body, seal, env).0.halted <==>
              env.execution == Fatal || (env.execution == Pass && env.valid && env.persist == Uncertain)
  {
  }
}

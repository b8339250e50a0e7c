/** What a node gets done: which blocks and votes it accepts, what an accepted one
    leaves behind, and that votes of more than two thirds finalise a block. Branches
    are paths of parents here, and every condition is on the node and the message. */
module FinalityLive {
  import opened Wrappers
  import opened Finality
  import Sums

  // ---- Branches as paths ----

  /** Each block is followed by its parent. */
  ghost predicate IsPath(known: map<Hash, Block>, path: seq<Hash>) {
    && path != []
    && (forall i :: 0 <= i < |path| ==> path[i] in known)
    && forall i :: 0 <= i < |path| - 1 ==>
         known[path[i]].header.height > 0 && known[path[i]].header.parent == path[i + 1]
  }

  ghost predicate PathBetween(known: map<Hash, Block>, path: seq<Hash>, h: Hash, a: Hash) {
    IsPath(known, path) && path[0] == h && path[|path| - 1] == a
  }

  /** `a` is `h` or an ancestor of it. */
  ghost predicate Reaches(known: map<Hash, Block>, h: Hash, a: Hash) {
    exists path :: PathBetween(known, path, h, a)
  }

  /** One of the two blocks is an ancestor of the other. */
  ghost predicate SameBranch(known: map<Hash, Block>, a: Hash, b: Hash) {
    Reaches(known, a, b) || Reaches(known, b, a)
  }

  lemma {:induction false} PathDown(p: Params, known: map<Hash, Block>, h: Hash, k: nat) returns (path: seq<Hash>)
    requires Tree(p, known) && h in known && k <= known[h].header.height
    ensures PathBetween(known, path, h, AncestorAt(p, known, h, k))
    decreases known[h].header.height
  {
    if known[h].header.height == k {
      path := [h];
    } else {
      assert Linked(known, h);
      var rest := PathDown(p, known, known[h].header.parent, k);
      path := [h] + rest;
    }
  }

  lemma {:induction false} PathUp(p: Params, known: map<Hash, Block>, path: seq<Hash>)
    requires Tree(p, known) && IsPath(known, path)
    ensures var h, a := path[0], path[|path| - 1];
            known[a].header.height <= known[h].header.height && AncestorAt(p, known, h, known[a].header.height) == a
    decreases |path|
  {
    if |path| > 1 {
      var rest := path[1..];
      assert rest[|rest| - 1] == path[|path| - 1];
      assert IsPath(known, rest) by {
        forall i | 0 <= i < |rest| - 1
          ensures known[rest[i]].header.height > 0 && known[rest[i]].header.parent == rest[i + 1]
        {
          assert rest[i] == path[i + 1] && rest[i + 1] == path[i + 2];
        }
      }
      PathUp(p, known, rest);
      assert known[path[0]].header.parent == path[1];
      assert Linked(known, path[0]);
    }
  }

  /** Descent, which looks up ancestors by height, is reachability by parents. */
  lemma DescendsIff(p: Params, known: map<Hash, Block>, h: Hash, at: Lock)
    requires Tree(p, known) && h in known && at.hash in known && known[at.hash].header.height == at.height
    ensures Descends(p, known, h, at) <==> Reaches(known, h, at.hash)
  {
    if Descends(p, known, h, at) {
      var path := PathDown(p, known, h, at.height);
    }
    if Reaches(known, h, at.hash) {
      var path :| PathBetween(known, path, h, at.hash);
      PathUp(p, known, path);
    }
  }

  lemma CompatibleIff(p: Params, known: map<Hash, Block>, lock: Lock, h: Hash)
    requires Tree(p, known) && h in known && lock.hash in known && known[lock.hash].header.height == lock.height
    ensures Compatible(p, known, lock, h) <==> SameBranch(known, h, lock.hash)
  {
    hide Reaches, Tree;
    DescendsIff(p, known, h, lock);
    DescendsIff(p, known, lock.hash, Lock(known[h].header.height, h));
  }

  // ---- Imports ----

  /** The tree with `b` in it. */
  ghost function With(p: Params, s: State, b: Block): map<Hash, Block> {
    s.known[p.hash(b.header) := b]
  }

  /** A child of a known block whose certificate, if it has one, holds votes of more
      than two thirds of the validators after that block. */
  ghost predicate ValidChild(p: Params, s: State, b: Block) {
    && b.header.parent in s.known && b.header.height == s.known[b.header.parent].header.height + 1
    && (b.cert.Some? ==>
          && b.cert.value <= p.validators(b.header.parent)
          && |b.cert.value| * 3 > |p.validators(b.header.parent)| * 2)
  }

  /** If the block is known, it differs from the known one in the certificate only. */
  ghost predicate SameEnvelope(p: Params, s: State, b: Block) {
    var id := p.hash(b.header);
    id in s.known ==> s.known[id].(cert := None) == b.(cert := None)
  }

  /** Fewer than 16 blocks are known at its height, and there is room for a side block. */
  ghost predicate RoomFor(s: State, b: Block) {
    var h := b.header.height;
    && |set x | x in s.known && s.known[x].header.height == h| < 16
    && |s.known| + 1 <= (if h + 1 > |s.blocks| then h + 1 else |s.blocks|) + 4096
  }

  ghost predicate Checked(s: State, env: ImportEnv) {
    !s.halted && env.admissible && env.replay == Pass && env.execution == Pass
  }

  lemma LockIsKnown(p: Params, s: State)
    requires Inv(p, s)
    ensures s.lock.hash in s.known && s.known[s.lock.hash].header.height == s.lock.height
  {
    LockDescendsFromItself(p, s);
  }

  lemma Shape(p: Params, s: State)
    requires Inv(p, s)
    ensures Tree(p, s.known) && s.blocks != []
  {
  }

  lemma FollowsIff(p: Params, s: State, b: Block)
    requires Inv(p, s) && b.header.parent in s.known
    ensures Follows(p, s.known[b.header.parent], b) <==> ValidChild(p, s, b)
    ensures ValidChild(p, s, b) ==> Tree(p, With(p, s, b)) && Extends(s.known, With(p, s, b))
  {
    if ValidChild(p, s, b) {
      TreeGrows(p, s.known, b);
    }
  }

  lemma BranchIff(p: Params, s: State, b: Block)
    requires Inv(p, s) && ValidChild(p, s, b) && Tree(p, With(p, s, b))
    ensures Compatible(p, With(p, s, b), s.lock, Id(p, b)) <==> SameBranch(With(p, s, b), Id(p, b), s.lock.hash)
  {
    hide SameBranch, ChainInv, CertifiedBelowLock, HeadIsHighest, CountsMatch, VotesInv, Compatible;
    LockIsKnown(p, s);
    TreeGrows(p, s.known, b);
    CompatibleIff(p, With(p, s, b), s.lock, Id(p, b));
  }

  /** What an accepted certificate leaves: the block is known with at least its votes,
      is on the canonical chain, and the lock is at it or above it. */
  ghost predicate Finalised(p: Params, s: State, b: Block) {
    var id, h := p.hash(b.header), b.header.height;
    && id in s.known && s.known[id].(cert := None) == b.(cert := None)
    && b.cert.Some? && s.known[id].cert.Some? && b.cert.value <= s.known[id].cert.value
    && s.lock.height >= h && h < |s.blocks| && p.hash(s.blocks[h].header) == id
  }

  lemma CertifiedIsFinalised(p: Params, s: State, b: Block)
    requires Inv(p, s) && b.cert.Some? && Id(p, b) in s.known && s.known[Id(p, b)].(cert := None) == b.(cert := None)
    requires s.known[Id(p, b)].cert.Some? && b.cert.value <= s.known[Id(p, b)].cert.value
    ensures Finalised(p, s, b)
  {
    hide HeadIsHighest, CountsMatch, VotesInv;
    LockDescendsFromItself(p, s);
    OnLockedBranch(p, s, Lock(b.header.height, Id(p, b)));
  }

  /** The compatibility of a block does not depend on its certificate. */
  lemma OtherCertificate(p: Params, s: State, b: Block, b': Block)
    requires Inv(p, s) && ValidChild(p, s, b) && b'.header == b.header
    ensures Tree(p, With(p, s, b)) && Tree(p, With(p, s, b'))
    ensures Compatible(p, With(p, s, b), s.lock, Id(p, b)) <==> Compatible(p, With(p, s, b'), s.lock, Id(p, b))
  {
    hide ChainInv, CertifiedBelowLock, HeadIsHighest, CountsMatch, VotesInv;
    TreeGrows(p, s.known, b);
    TreeGrows(p, s.known, b');
    LockIsKnown(p, s);
    var id := Id(p, b);
    assert Extends(With(p, s, b), With(p, s, b'));
    DescentPersists(p, With(p, s, b), With(p, s, b'), id, s.lock);
    DescentPersists(p, With(p, s, b), With(p, s, b'), s.lock.hash, Lock(b.header.height, id));
  }

  lemma CertifiedIsCompatible(p: Params, s: State, b: Block)
    requires Inv(p, s) && ValidChild(p, s, b) && Id(p, b) in s.known && s.known[Id(p, b)].cert.Some?
    ensures Tree(p, With(p, s, b)) && Compatible(p, With(p, s, b), s.lock, Id(p, b))
  {
    hide ChainInv, HeadIsHighest, CountsMatch, VotesInv;
    TreeGrows(p, s.known, b);
    LockIsKnown(p, s);
    var id := Id(p, b);
    assert s.known[id].header == b.header;
    DescentPersists(p, s.known, With(p, s, b), s.lock.hash, Lock(b.header.height, id));
    if b.header.height >= s.lock.height {
      assert id == s.lock.hash;
      DescentPersists(p, s.known, With(p, s, b), id, s.lock);
    }
  }

  lemma InstalledIsFinalised(p: Params, s: State, b: Block, b': Block, env: ImportEnv)
    requires Inv(p, s) && Checked(s, env) && b.cert.Some? && ImportGate(p, s, b, env) == Install(b')
    requires b'.(cert := None) == b.(cert := None) && b'.cert.Some? && b.cert.value <= b'.cert.value
    requires Tree(p, With(p, s, b')) && Compatible(p, With(p, s, b'), s.lock, Id(p, b'))
    requires env.record != Fatal && env.prepare == Pass && env.persist == Stored
    ensures Import(p, s, b, env).1 == Accepted && !Import(p, s, b, env).0.halted
    ensures Finalised(p, Import(p, s, b, env).0, b)
  {
    hide Inv, ImportGate, Compatible, Tree, BlocksAfter, DesiredHead, LockAfter, IndexVotes, AddEvidence, Finalised;
    GateAdmits(p, s, b, env);
    ImportIsSafe(p, s, b, env);
    CertifiedIsFinalised(p, Import(p, s, b, env).0, b);
  }

  lemma CertifiedCases(p: Params, s: State, b: Block, env: ImportEnv)
    requires Inv(p, s) && Checked(s, env) && b.cert.Some? && ValidChild(p, s, b) && SameEnvelope(p, s, b)
    requires Tree(p, With(p, s, b))
    ensures !Compatible(p, With(p, s, b), s.lock, Id(p, b)) ==> Import(p, s, b, env) == (s.(halted := true), Halted)
    ensures Compatible(p, With(p, s, b), s.lock, Id(p, b))
            && env.mergedFits && env.record != Fatal && env.prepare == Pass && env.persist == Stored ==>
              && Import(p, s, b, env).1 == Accepted && !Import(p, s, b, env).0.halted
              && Finalised(p, Import(p, s, b, env).0, b)
  {
    hide Compatible, Finalised, Tree, ChainInv, CertifiedBelowLock, HeadIsHighest, CountsMatch, VotesInv;
    FollowsIff(p, s, b);
    var id := Id(p, b);
    if id in s.known && s.known[id].cert.Some? {
      CertifiedIsCompatible(p, s, b);
      if b.cert.value <= s.known[id].cert.value {
        CertifiedIsFinalised(p, s, b);
      } else if env.mergedFits {
        var b' := b.(cert := Some(s.known[id].cert.value + b.cert.value));
        OtherCertificate(p, s, b, b');
        if env.record != Fatal && env.prepare == Pass && env.persist == Stored {
          InstalledIsFinalised(p, s, b, b', env);
        }
      }
    } else if Compatible(p, With(p, s, b), s.lock, id) {
      if env.record != Fatal && env.prepare == Pass && env.persist == Stored {
        InstalledIsFinalised(p, s, b, b, env);
      }
    }
  }

  /** A certified block that passes every check: if it is off the locked branch, the
      node halts for good; if it is on it and can be stored, it is final. */
  lemma CertifiedImport(p: Params, s: State, b: Block, env: ImportEnv, later: seq<Event>)
    requires Inv(p, s) && Checked(s, env) && b.cert.Some? && ValidChild(p, s, b) && SameEnvelope(p, s, b)
    ensures var onBranch := SameBranch(With(p, s, b), p.hash(b.header), s.lock.hash);
            && (!onBranch ==> Import(p, s, b, env) == (s.(halted := true), Halted)
                              && Run(p, s, [ImportEvent(b, env)] + later) == s.(halted := true))
            && (onBranch && env.mergedFits && env.record != Fatal && env.prepare == Pass && env.persist == Stored ==>
                  && Import(p, s, b, env).1 == Accepted && Finalised(p, Import(p, s, b, env).0, b)
                  && Import(p, s, b, env).0.halted == false)
  {
    hide SameBranch, Inv, Finalised, With;
    FollowsIff(p, s, b);
    BranchIff(p, s, b);
    ImportIsSafe(p, s, b, env);
    CertifiedCases(p, s, b, env);
    if !SameBranch(With(p, s, b), Id(p, b), s.lock.hash) {
      var s' := Import(p, s, b, env).0;
      RunProgresses(p, s', later);
      assert ([ImportEvent(b, env)] + later)[1..] == later;
    }
  }

  lemma ProspectiveIff(p: Params, s: State, b: Block)
    requires Inv(p, s) && ValidChild(p, s, b) && Id(p, b) !in s.known && Tree(p, With(p, s, b))
    ensures Prospective(p, s, b) <==> Compatible(p, With(p, s, b), s.lock, Id(p, b))
  {
    hide ChainInv, CertifiedBelowLock, HeadIsHighest, CountsMatch, VotesInv;
    var id, h, known' := Id(p, b), b.header.height, With(p, s, b);
    TreeGrows(p, s.known, b);
    LockIsKnown(p, s);
    if h > s.lock.height {
      assert Linked(known', id);
      assert AncestorAt(p, known', id, s.lock.height) == AncestorAt(p, known', b.header.parent, s.lock.height);
      DescentPersists(p, s.known, known', b.header.parent, s.lock);
    } else {
      DescentPersists(p, s.known, known', s.lock.hash, Lock(h, id));
    }
  }

  lemma RoomIff(p: Params, s: State, b: Block)
    requires Inv(p, s)
    ensures WithinLimits(s, b) <==> RoomFor(s, b)
  {
    hide Tree, ChainInv, CertifiedBelowLock, HeadIsHighest, VotesInv;
    var h := b.header.height;
    assert CountOf(s.counts, h) == |AtHeight(s.known, h)|;
    assert AtHeight(s.known, h) == set x | x in s.known && s.known[x].header.height == h;
  }

  /** When a block without a certificate is accepted. */
  ghost predicate Welcome(p: Params, s: State, b: Block, env: ImportEnv) {
    && !s.halted && env.admissible
    && if p.hash(b.header) in s.known then SameBranch(s.known, p.hash(b.header), s.lock.hash)
       else
         && ValidChild(p, s, b) && RoomFor(s, b) && Checked(s, env)
         && SameBranch(With(p, s, b), p.hash(b.header), s.lock.hash)
         && (b.header.height >= |s.blocks| ==> env.prepare == Pass) && env.persist == Stored
  }

  /** A block without a certificate is accepted exactly then. A new one joins the tree
      and becomes the head if it is higher than the head; nothing else changes. */
  lemma PlainImport(p: Params, s: State, b: Block, env: ImportEnv)
    requires Inv(p, s) && b.cert.None?
    ensures Import(p, s, b, env).1 == Accepted <==> Welcome(p, s, b, env)
    ensures Import(p, s, b, env).1 == Accepted ==>
              var s' := Import(p, s, b, env).0;
              if p.hash(b.header) in s.known then s' == s
              else
                && s' == s.(known := With(p, s, b), counts := s'.counts, blocks := s'.blocks)
                && s'.blocks != []
                && HeadId(p, s') == (if b.header.height >= |s.blocks| then p.hash(b.header) else HeadId(p, s))
    ensures Import(p, s, b, env).1 != Accepted ==>
              Import(p, s, b, env).0 == s.(halted := Import(p, s, b, env).0.halted)
  {
    hide SameBranch, Compatible, Tree, CertifiedBelowLock, HeadIsHighest, CountsMatch, VotesInv, RoomFor, WithinLimits,
      Prospective, BlocksAfter, DesiredHead;
    var id := Id(p, b);
    LockIsKnown(p, s);
    RoomIff(p, s, b);
    if id in s.known {
      CompatibleIff(p, s.known, s.lock, id);
    } else if b.header.parent in s.known {
      FollowsIff(p, s, b);
      if ValidChild(p, s, b) {
        BranchIff(p, s, b);
        ProspectiveIff(p, s, b);
        PlainHead(p, s, b);
        PlainCases(p, s, b, env);
      }
    }
  }

  lemma PlainHead(p: Params, s: State, b: Block)
    requires Inv(p, s) && b.cert.None? && Id(p, b) !in s.known && ValidChild(p, s, b) && Tree(p, With(p, s, b))
    ensures DesiredHead(p, s, b) == (if b.header.height >= |s.blocks| then Id(p, b) else HeadId(p, s))
    ensures HeadId(p, s) in s.known
    ensures Compatible(p, With(p, s, b), s.lock, Id(p, b)) ==> Fits(p, s, b)
  {
    FollowsIff(p, s, b);
  }

  lemma PlainCases(p: Params, s: State, b: Block, env: ImportEnv)
    requires Inv(p, s) && b.cert.None? && Id(p, b) !in s.known && ValidChild(p, s, b) && Tree(p, With(p, s, b))
    requires DesiredHead(p, s, b) == (if b.header.height >= |s.blocks| then Id(p, b) else HeadId(p, s))
    requires Compatible(p, With(p, s, b), s.lock, Id(p, b)) ==> Fits(p, s, b)
    requires HeadId(p, s) in s.known && (Follows(p, s.known[b.header.parent], b))
    requires Prospective(p, s, b) <==> Compatible(p, With(p, s, b), s.lock, Id(p, b))
    ensures Import(p, s, b, env).1 == Accepted <==>
              && !s.halted && env.admissible && WithinLimits(s, b) && Checked(s, env)
              && Compatible(p, With(p, s, b), s.lock, Id(p, b))
              && (b.header.height >= |s.blocks| ==> env.prepare == Pass) && env.persist == Stored
    ensures Import(p, s, b, env).1 == Accepted ==>
              var s' := Import(p, s, b, env).0;
              && s' == s.(known := With(p, s, b), counts := s'.counts, blocks := s'.blocks)
              && s'.blocks != [] && HeadId(p, s') == DesiredHead(p, s, b)
    ensures Import(p, s, b, env).1 != Accepted ==>
              Import(p, s, b, env).0 == s.(halted := Import(p, s, b, env).0.halted)
  {
    hide Compatible, Tree, CertifiedBelowLock, HeadIsHighest, CountsMatch, VotesInv, WithinLimits, Prospective,
      BlocksAfter, DesiredHead;
    if Compatible(p, With(p, s, b), s.lock, Id(p, b)) {
      ChainMoves(p, s, b);
    }
  }

  /** Nothing else gets a certified block accepted, and only an accepted one changes
      more than the halt flag. */
  lemma CertifiedOnlyIf(p: Params, s: State, b: Block, env: ImportEnv)
    requires Inv(p, s) && b.cert.Some?
    ensures Import(p, s, b, env).1 == Accepted ==>
              && Checked(s, env) && ValidChild(p, s, b) && SameEnvelope(p, s, b)
              && SameBranch(With(p, s, b), p.hash(b.header), s.lock.hash)
              && (Import(p, s, b, env).0 == s || (env.record != Fatal && env.persist == Stored))
    ensures Import(p, s, b, env).1 != Accepted ==>
              Import(p, s, b, env).0 == s.(halted := Import(p, s, b, env).0.halted)
  {
    hide Inv, SameBranch, Compatible, Tree, Committed, DesiredHead, Injective, WithinLimits, Prospective, Extends,
      Installable, ValidChild;
    Shape(p, s);
    GateOnlyIf(p, s, b, env);
    if ImportGate(p, s, b, env).Install? {
      GateAdmits(p, s, b, env);
    }
    if Import(p, s, b, env).1 == Accepted {
      BranchOnlyIf(p, s, b, env);
    }
  }

  lemma GateOnlyIf(p: Params, s: State, b: Block, env: ImportEnv)
    requires Inv(p, s) && b.cert.Some?
    ensures ImportGate(p, s, b, env).Install? || ImportGate(p, s, b, env) == Stop(Accepted) ==>
              Checked(s, env) && ValidChild(p, s, b) && SameEnvelope(p, s, b)
    ensures ImportGate(p, s, b, env) == Stop(Accepted) ==>
              Id(p, b) in s.known && s.known[Id(p, b)].cert.Some?
  {
    hide Compatible, ChainInv, CertifiedBelowLock, HeadIsHighest, CountsMatch, VotesInv, WithinLimits, Prospective,
      Follows, ValidChild;
    if b.header.parent in s.known {
      FollowsIff(p, s, b);
    }
  }

  lemma BranchOnlyIf(p: Params, s: State, b: Block, env: ImportEnv)
    requires Inv(p, s) && b.cert.Some? && ValidChild(p, s, b) && Import(p, s, b, env).1 == Accepted
    ensures SameBranch(With(p, s, b), p.hash(b.header), s.lock.hash)
  {
    hide ChainInv, CertifiedBelowLock, HeadIsHighest, CountsMatch, VotesInv, Follows, SameBranch, Compatible, Tree,
      Committed, DesiredHead, WithinLimits, Prospective, Injective, Extends;
    Shape(p, s);
    FollowsIff(p, s, b);
    BranchIff(p, s, b);
    GateOnlyIf(p, s, b, env);
    if ImportGate(p, s, b, env).Install? {
      GateAdmits(p, s, b, env);
      OtherCertificate(p, s, b, ImportGate(p, s, b, env).block);
    } else {
      CertifiedIsCompatible(p, s, b);
    }
  }

  /** The head moves only if it has to: it stays while it is above the lock and no lower
      than the new block; off the lock, it goes to the highest block above the lock, the
      smallest hash among equals. */
  lemma HeadRule(p: Params, s: State, b: Block)
    requires Inv(p, s) && Fits(p, s, b)
    ensures var s' := Committed(p, s, b);
            && Tree(p, s'.known) && s'.blocks != [] && s'.lock.hash in s'.known
            && (Reaches(s'.known, HeadId(p, s), s'.lock.hash) && b.header.height < |s.blocks| ==>
                  HeadId(p, s') == HeadId(p, s))
            && (!Reaches(s'.known, HeadId(p, s), s'.lock.hash) ==>
                  BestAmong(p, s'.known, s'.lock, s'.known.Keys, HeadId(p, s')))
  {
    hide Reaches, CertifiedBelowLock, HeadIsHighest, CountsMatch, VotesInv, BlocksAfter;
    ChainMoves(p, s, b);
    LockMovesForward(p, s, b);
    var known', lock' := s.known[Id(p, b) := b], LockAfter(p, s, b);
    DescendsIff(p, known', HeadId(p, s), lock');
    if lock' != s.lock && ContainsLock(p, s.blocks, lock') {
      CanonicalAt(p, s, lock'.height);
    }
    DescentPersists(p, s.known, known', HeadId(p, s), lock');
    ChainContains(p, s, lock');
  }

  /** The canonical chain contains what its head descends from. */
  lemma ChainContains(p: Params, s: State, at: Lock)
    requires Tree(p, s.known) && ChainInv(p, s)
    ensures Descends(p, s.known, HeadId(p, s), at) <==> ContainsLock(p, s.blocks, at)
  {
    if at.height < |s.blocks| {
      CanonicalAt(p, s, at.height);
    }
  }

  // ---- Votes ----

  /** The first vote seen from `v` at a height, and the proof that it voted twice. */
  ghost function FirstVote(s: State, h: nat, v: Validator): Option<Hash> {
    if h in s.voteIndex && v in s.voteIndex[h] then Some(s.voteIndex[h][v]) else None
  }

  ghost function Proof(s: State, h: nat, v: Validator): Option<Evidence> {
    if h in s.evidence && v in s.evidence[h] then Some(s.evidence[h][v]) else None
  }

  /** A vote of `v` for `id` is the first one seen at that height, or `v` is proved to
      have voted twice. */
  ghost predicate Noted(s: State, h: nat, id: Hash, v: Validator) {
    FirstVote(s, h, v).Some? && (FirstVote(s, h, v).value == id || Proof(s, h, v).Some?)
  }

  ghost predicate ProofOk(s: State, h: nat, v: Validator) {
    Proof(s, h, v).Some? ==>
      && Proof(s, h, v).value.second != Proof(s, h, v).value.first
      && FirstVote(s, h, v) == Some(Proof(s, h, v).value.first)
  }

  ghost predicate MoreThanTwoThirds(voters: set<Validator>, validators: set<Validator>) {
    voters <= validators && |voters| * 3 > |validators| * 2
  }

  /** Votes and certificates agree: the signers of a certificate are counted, votes of
      more than two thirds are a certificate, every counted vote is noted, and a proof
      starts from the first vote. */
  ghost predicate VotesAgree(p: Params, s: State) {
    && (forall id {:trigger s.known[id]} :: id in s.known && s.known[id].cert.Some? ==>
          id in s.votes && s.known[id].cert.value <= s.votes[id])
    && (forall id {:trigger s.votes[id]} :: id in s.votes ==> CountedOk(p, s, id))
    && (forall h, v {:trigger ProofOk(s, h, v)} :: ProofOk(s, h, v))
  }

  ghost predicate CountedOk(p: Params, s: State, id: Hash) {
    && id in s.known && id in s.votes
    && (MoreThanTwoThirds(s.votes[id], p.validators(s.known[id].header.parent)) ==> s.known[id].cert.Some?)
    && forall v :: v in s.votes[id] ==> Noted(s, s.known[id].header.height, id, v)
  }

  /** Votes are never forgotten: counts grow, first votes and proofs stay. */
  ghost predicate Remembers(s: State, s': State) {
    && (forall id :: id in s.votes ==> id in s'.votes && s.votes[id] <= s'.votes[id])
    && (forall h, v {:trigger FirstVote(s', h, v)} ::
          FirstVote(s, h, v).Some? ==> FirstVote(s', h, v) == FirstVote(s, h, v))
    && (forall h, v {:trigger Proof(s', h, v)} :: Proof(s, h, v).Some? ==> Proof(s', h, v) == Proof(s, h, v))
  }

  /** What recording the votes `vs` for `id` does to the index and the proofs. */
  lemma RecordingAt(s: State, t: State, h: nat, id: Hash, vs: set<Validator>, k: nat, v: Validator)
    requires t.voteIndex == IndexVotes(s, h, id, vs) && t.evidence == AddEvidence(s, h, id, vs)
    ensures FirstVote(t, k, v) == if FirstVote(s, k, v).None? && k == h && v in vs then Some(id) else FirstVote(s, k, v)
    ensures Proof(t, k, v) ==
            if Proof(s, k, v).None? && k == h && v in vs && FirstVote(s, k, v).Some? && FirstVote(s, k, v).value != id
            then Some(Evidence(FirstVote(s, k, v).value, id)) else Proof(s, k, v)
  {
  }

  lemma RecordingRemembers(p: Params, s: State, t: State, h: nat, id: Hash, vs: set<Validator>)
    requires t.voteIndex == IndexVotes(s, h, id, vs) && t.evidence == AddEvidence(s, h, id, vs)
    requires forall x :: x in s.votes ==> x in t.votes && s.votes[x] <= t.votes[x]
    requires forall k, v {:trigger ProofOk(s, k, v)} :: ProofOk(s, k, v)
    ensures Remembers(s, t)
    ensures forall k, v {:trigger ProofOk(t, k, v)} :: ProofOk(t, k, v)
    ensures forall v :: v in vs ==> Noted(t, h, id, v)
  {
    hide FirstVote, Proof, IndexVotes, AddEvidence;
    forall k, v
      ensures FirstVote(s, k, v).Some? ==> FirstVote(t, k, v) == FirstVote(s, k, v)
      ensures Proof(s, k, v).Some? ==> Proof(t, k, v) == Proof(s, k, v)
      ensures ProofOk(t, k, v)
      ensures k == h && v in vs ==> Noted(t, h, id, v)
    {
      RecordingAt(s, t, h, id, vs, k, v);
      assert ProofOk(s, k, v);
    }
  }

  lemma NotedStays(s: State, t: State, h: nat, id: Hash, v: Validator)
    requires Remembers(s, t) && Noted(s, h, id, v)
    ensures Noted(t, h, id, v)
  {
    hide FirstVote, Proof;
    assert FirstVote(t, h, v) == FirstVote(s, h, v);
    assert Proof(s, h, v).Some? ==> Proof(t, h, v) == Proof(s, h, v);
  }

  /** Votes `vs` for `id` are recorded and counted, and `id` has certificate `cert` now. */
  lemma CountingAgrees(p: Params, s: State, t: State, id: Hash, b: Block, vs: set<Validator>)
    requires VotesAgree(p, s) && Extends(s.known, t.known) && id in t.known && t.known[id] == b
    requires t.voteIndex == IndexVotes(s, b.header.height, id, vs)
    requires t.evidence == AddEvidence(s, b.header.height, id, vs)
    requires t.votes == s.votes[id := VotesFor(s, id) + vs]
    requires forall x :: x in t.known && x != id ==> x in s.known && t.known[x] == s.known[x]
    requires b.cert.Some? ==> b.cert.value <= VotesFor(s, id) + vs
    requires MoreThanTwoThirds(VotesFor(s, id) + vs, p.validators(b.header.parent)) ==> b.cert.Some?
    ensures VotesAgree(p, t) && Remembers(s, t)
  {
    hide IndexVotes, AddEvidence, FirstVote, Proof, MoreThanTwoThirds;
    RecordingRemembers(p, s, t, b.header.height, id, vs);
    hide ProofOk, Remembers, Noted;
    forall x | x in t.votes
      ensures CountedOk(p, t, x)
    {
      if x in s.votes {
        assert CountedOk(p, s, x);
        forall v | v in s.votes[x]
          ensures Noted(t, t.known[x].header.height, x, v)
        {
          NotedStays(s, t, s.known[x].header.height, x, v);
        }
      }
    }
  }

  /** A well-formed vote of a validator of a canonical block. */
  ghost predicate VoteArrives(p: Params, s: State, height: nat, hash: Hash, voter: Validator, env: VoteEnv) {
    && !s.halted && 0 < height < |s.blocks| && p.hash(s.blocks[height].header) == hash
    && env.authentic && env.replay == Pass && voter in p.validators(s.blocks[height].header.parent)
  }

  ghost function VotersWith(s: State, hash: Hash, voter: Validator): set<Validator> {
    (if hash in s.votes then s.votes[hash] else {}) + {voter}
  }

  lemma TallyIs(p: Params, s: State, height: nat, hash: Hash, voter: Validator)
    requires Inv(p, s) && VotesAgree(p, s) && VoteSound(p, s, height, hash, voter)
    ensures hash in s.known && s.known[hash] == s.blocks[height] && s.blocks[height].header.height == height
    ensures Tally(s, s.blocks[height], hash, voter) == VotersWith(s, hash, voter) == VotesFor(s, hash) + {voter}
    ensures var validators := p.validators(s.blocks[height].header.parent);
            |VotersWith(s, hash, voter)| >= FinalityQuorumSize(|validators|)
            <==> MoreThanTwoThirds(VotersWith(s, hash, voter), validators)
  {
    hide CertifiedBelowLock, HeadIsHighest, CountsMatch, CountedOk, ProofOk, FinalityQuorumSize;
    CanonicalAt(p, s, height);
    TallyIsOfValidators(p, s, height, hash, voter);
    QuorumSizeMeetsRule(|VotersWith(s, hash, voter)|, |p.validators(s.blocks[height].header.parent)|);
  }

  /** A vote is accepted exactly when it arrives well-formed, is the validator's first at
      that height or repeats it, and the node can be stored. It is then counted with all
      the earlier ones, and votes of more than two thirds certify and lock the block. */
  lemma VoteOutcome(p: Params, s: State, height: nat, hash: Hash, voter: Validator, env: VoteEnv)
    requires Inv(p, s) && VotesAgree(p, s)
    ensures var r, voters := CastVote(p, s, height, hash, voter, env), VotersWith(s, hash, voter);
            var arrives := VoteArrives(p, s, height, hash, voter, env);
            var first := FirstVote(s, height, voter);
            && (r.1 == Accepted <==>
                  && arrives && (first.None? || first.value == hash) && env.persist == Stored
                  && (MoreThanTwoThirds(voters, p.validators(s.blocks[height].header.parent)) ==> env.certifiedFits))
            && (r.1 == Equivocation <==> arrives && first.Some? && first.value != hash)
            && (r.1 == Accepted ==>
                  && r.0.votes == s.votes[hash := voters] && FirstVote(r.0, height, voter) == Some(hash)
                  && (if MoreThanTwoThirds(voters, p.validators(s.blocks[height].header.parent))
                      then CertifiedBy(p, r.0, height, hash, voters)
                      else r.0.blocks == s.blocks && r.0.known == s.known && r.0.lock == s.lock))
            && (r.1 == Equivocation && env.persist == Stored ==>
                  Proof(r.0, height, voter).Some?
                  && (Proof(s, height, voter).None? ==> Proof(r.0, height, voter) == Some(Evidence(first.value, hash))))
            && (r.1 != Accepted && (r.1 != Equivocation || env.persist != Stored) ==> r.0 == s.(halted := r.0.halted))
  {
    hide Tree, ChainInv, CertifiedBelowLock, HeadIsHighest, CountsMatch, VotesInv, VotesAgree, IndexVotes, AddEvidence,
      FirstVote, Proof, MoreThanTwoThirds, FinalityQuorumSize, Follows, Tally, Compatible, Equivocators, LockAfter;
    EquivocatorsIff(s, height, hash, voter);
    if VoteArrives(p, s, height, hash, voter, env) {
      VoteNeverConflicts(p, s, height, hash, voter, env);
      TallyIs(p, s, height, hash, voter);
      if |VotersWith(s, hash, voter)| >= FinalityQuorumSize(|p.validators(s.blocks[height].header.parent)|) {
        TallyCertifies(p, s, height, hash, voter);
      }
      var t := s.(voteIndex := IndexVotes(s, height, hash, {voter}), evidence := AddEvidence(s, height, hash, {voter}));
      RecordingAt(s, t, height, hash, {voter}, height, voter);
      SameIndex(t, CastVote(p, s, height, hash, voter, env).0, height, voter);
      LockAfterIs(p, s, s.blocks[height].(cert := Some(VotersWith(s, hash, voter))));
    }
  }

  ghost predicate CertifiedBy(p: Params, s: State, height: nat, hash: Hash, voters: set<Validator>) {
    && hash in s.known && s.known[hash].cert == Some(voters) && s.lock.height >= height
    && height < |s.blocks| && s.blocks[height] == s.known[hash] && p.hash(s.blocks[height].header) == hash
  }

  lemma LockAfterIs(p: Params, s: State, b: Block)
    requires b.cert.Some?
    ensures LockAfter(p, s, b).height >= b.header.height
  {
  }

  lemma EquivocatorsIff(s: State, height: nat, hash: Hash, voter: Validator)
    ensures Equivocators(Slot(s.voteIndex, height), hash, {voter}) != {} <==>
              FirstVote(s, height, voter).Some? && FirstVote(s, height, voter).value != hash
  {
    var seen := Slot(s.voteIndex, height);
    if voter in seen && seen[voter] != hash {
      assert voter in Equivocators(seen, hash, {voter});
    }
  }

  lemma SameIndex(s: State, t: State, h: nat, v: Validator)
    ensures s.voteIndex == t.voteIndex ==> FirstVote(s, h, v) == FirstVote(t, h, v)
    ensures s.evidence == t.evidence ==> Proof(s, h, v) == Proof(t, h, v)
  {
  }

  // ---- Votes over whole runs ----

  lemma SameVotes(p: Params, s: State, t: State)
    requires VotesAgree(p, s) && t.votes == s.votes && t.voteIndex == s.voteIndex && t.evidence == s.evidence
    requires Extends(s.known, t.known)
    requires forall x :: x in t.known ==> if x in s.known then t.known[x] == s.known[x] else t.known[x].cert.None?
    ensures VotesAgree(p, t) && Remembers(s, t)
  {
    hide FirstVote, Proof, MoreThanTwoThirds;
    forall h, v
      ensures FirstVote(s, h, v) == FirstVote(t, h, v) && Proof(s, h, v) == Proof(t, h, v)
    {
      SameIndex(s, t, h, v);
    }
    forall h, v
      ensures ProofOk(t, h, v)
    {
      assert ProofOk(s, h, v);
    }
    forall id | id in t.votes
      ensures CountedOk(p, t, id)
    {
      assert CountedOk(p, s, id);
    }
  }

  lemma CommitAgrees(p: Params, s: State, b: Block)
    requires Inv(p, s) && VotesAgree(p, s) && Fits(p, s, b)
    ensures VotesAgree(p, Committed(p, s, b)) && Remembers(s, Committed(p, s, b))
  {
    hide Tree, ChainInv, CertifiedBelowLock, HeadIsHighest, CountsMatch, VotesInv, VotesAgree, Remembers, IndexVotes,
      AddEvidence, BlocksAfter, LockAfter, MoreThanTwoThirds, Compatible, Follows, Injective;
    Shape(p, s);
    var t := Committed(p, s, b);
    if b.cert.Some? {
      CountingAgrees(p, s, t, Id(p, b), b, Signers(b));
    } else {
      SameVotes(p, s, t);
    }
  }

  lemma ImportAgrees(p: Params, s: State, b: Block, env: ImportEnv)
    requires Inv(p, s) && VotesAgree(p, s)
    ensures VotesAgree(p, Import(p, s, b, env).0) && Remembers(s, Import(p, s, b, env).0)
  {
    hide Inv, VotesAgree, Remembers, Committed, ImportGate, Import;
    var committed := ImportCommitsOrStays(p, s, b, env);
    if committed {
      CommitAgrees(p, s, ImportGate(p, s, b, env).block);
    } else {
      SameVotes(p, s, Import(p, s, b, env).0);
    }
  }

  lemma VoteAgrees(p: Params, s: State, height: nat, hash: Hash, voter: Validator, env: VoteEnv)
    requires Inv(p, s) && VotesAgree(p, s)
    ensures var t := CastVote(p, s, height, hash, voter, env).0; VotesAgree(p, t) && Remembers(s, t)
  {
    hide Tree, ChainInv, CertifiedBelowLock, HeadIsHighest, CountsMatch, VotesInv, VotesAgree, Remembers, IndexVotes,
      AddEvidence, LockAfter, MoreThanTwoThirds, Compatible, Follows, Injective, Tally, FinalityQuorumSize,
      Equivocators;
    var t := CastVote(p, s, height, hash, voter, env).0;
    VoteOutcome(p, s, height, hash, voter, env);
    if VoteArrives(p, s, height, hash, voter, env) {
      TallyIs(p, s, height, hash, voter);
      if t == s.(halted := t.halted) {
        SameVotes(p, s, t);
      } else if CastVote(p, s, height, hash, voter, env).1 == Equivocation {
        RecordedAgrees(p, s, t, height, hash, voter);
      } else {
        if s.known[hash].cert.Some? {
          CertificateIsCounted(p, s, hash);
        }
        CountingAgrees(p, s, t, hash, t.known[hash], {voter});
      }
    } else {
      SameVotes(p, s, t);
    }
  }

  lemma CertificateIsCounted(p: Params, s: State, id: Hash)
    requires VotesAgree(p, s) && id in s.known && s.known[id].cert.Some?
    ensures s.known[id].cert.value <= VotesFor(s, id)
  {
    hide CountedOk, ProofOk;
  }

  lemma RecordedAgrees(p: Params, s: State, t: State, height: nat, hash: Hash, voter: Validator)
    requires VotesAgree(p, s)
    requires t == s.(voteIndex := IndexVotes(s, height, hash, {voter}),
                     evidence := AddEvidence(s, height, hash, {voter}), halted := t.halted)
    ensures VotesAgree(p, t) && Remembers(s, t)
  {
    hide IndexVotes, AddEvidence, FirstVote, Proof, MoreThanTwoThirds;
    RecordingRemembers(p, s, t, height, hash, {voter});
    hide ProofOk, Remembers, Noted;
    forall x | x in t.votes
      ensures CountedOk(p, t, x)
    {
      assert CountedOk(p, s, x);
      forall v | v in s.votes[x]
        ensures Noted(t, t.known[x].header.height, x, v)
      {
        NotedStays(s, t, s.known[x].header.height, x, v);
      }
    }
  }

  lemma StepAgrees(p: Params, s: State, e: Event)
    requires Inv(p, s) && VotesAgree(p, s)
    ensures VotesAgree(p, Step(p, s, e)) && Remembers(s, Step(p, s, e))
  {
    hide Inv, VotesAgree, Remembers;
    match e
    case ImportEvent(block, env) => ImportAgrees(p, s, block, env);
    case VoteEvent(height, hash, voter, env) => VoteAgrees(p, s, height, hash, voter, env);
    case ProduceEvent(body, seal, env) => ProduceAgrees(p, s, body, seal, env);
  }

  lemma ProduceAgrees(p: Params, s: State, body: nat, seal: nat, env: ProduceEnv)
    requires Inv(p, s) && VotesAgree(p, s)
    ensures VotesAgree(p, Produce(p, s, body, seal, env).0) && Remembers(s, Produce(p, s, body, seal, env).0)
  {
    hide Inv, VotesAgree, Remembers;
    Shape(p, s);
    hide Tree;
    ProducedBlockIsNew(p, s, body, seal);
    SameVotes(p, s, Produce(p, s, body, seal, env).0);
  }

  /** A block is produced exactly when the node runs, its transactions execute, it is
      valid and it can be stored; it is the new head and nothing else changes. */
  lemma ProduceOutcome(p: Params, s: State, body: nat, seal: nat, env: ProduceEnv)
    requires Inv(p, s)
    ensures var r := Produce(p, s, body, seal, env);
            var b := Block(Header(|s.blocks|, p.hash(s.blocks[|s.blocks| - 1].header), body), seal, None);
            && (r.1 == Accepted <==> !s.halted && env.execution == Pass && env.valid && env.persist == Stored)
            && (r.1 == Accepted ==>
                  p.hash(b.header) !in s.known
                  && r.0 == s.(blocks := s.blocks + [b], known := With(p, s, b), counts := r.0.counts))
            && (r.1 != Accepted ==> r.0 == s.(halted := r.0.halted))
  {
    hide Tree, CertifiedBelowLock, HeadIsHighest, CountsMatch, VotesInv;
    CanonicalAt(p, s, |s.blocks| - 1);
    ProducedBlockIsNew(p, s, body, seal);
  }

  lemma GenesisAgrees(p: Params)
    requires p.genesis.cert.None?
    ensures VotesAgree(p, Genesis(p))
  {
  }

  lemma {:induction false} RunAgrees(p: Params, s: State, events: seq<Event>)
    requires Inv(p, s) && VotesAgree(p, s)
    ensures VotesAgree(p, Run(p, s, events)) && Remembers(s, Run(p, s, events))
    decreases |events|
  {
    hide Inv, VotesAgree, Step;
    if events == [] {
    } else {
      StepIsSafe(p, s, events[0]);
      StepAgrees(p, s, events[0]);
      RunAgrees(p, Step(p, s, events[0]), events[1..]);
      RemembersOn(s, Step(p, s, events[0]), Run(p, s, events));
    }
  }

  lemma RemembersOn(a: State, b: State, c: State)
    requires Remembers(a, b) && Remembers(b, c)
    ensures Remembers(a, c)
  {
    hide FirstVote, Proof;
    forall h, v
      ensures FirstVote(a, h, v).Some? ==> FirstVote(c, h, v) == FirstVote(a, h, v)
      ensures Proof(a, h, v).Some? ==> Proof(c, h, v) == Proof(a, h, v)
    {
      assert FirstVote(a, h, v).Some? ==> FirstVote(b, h, v) == FirstVote(a, h, v);
      assert Proof(a, h, v).Some? ==> Proof(b, h, v) == Proof(a, h, v);
    }
  }

  /** A validator counted for two blocks of one height is proved to have voted twice. */
  lemma EquivocationIsProved(p: Params, s: State, a: Hash, b: Hash, v: Validator)
    requires VotesAgree(p, s) && a in s.votes && b in s.votes && v in s.votes[a] && v in s.votes[b] && a != b
    requires a in s.known && b in s.known && s.known[a].header.height == s.known[b].header.height
    ensures var h := s.known[a].header.height;
            Proof(s, h, v).Some? && Proof(s, h, v).value.first != Proof(s, h, v).value.second
  {
    hide FirstVote, Proof, MoreThanTwoThirds;
    assert CountedOk(p, s, a) && CountedOk(p, s, b);
    assert Noted(s, s.known[a].header.height, a, v) && Noted(s, s.known[a].header.height, b, v);
    assert ProofOk(s, s.known[a].header.height, v);
  }

  /** The `i`-th event of the run is a vote of `v` for the block, and it is accepted. */
  ghost predicate VotedAt(p: Params, s: State, events: seq<Event>, i: nat, hash: Hash, v: Validator)
    requires Inv(p, s)
  {
    && i < |events| && events[i].VoteEvent? && events[i].hash == hash && events[i].voter == v
    && CastVote(p, Run(p, s, events[..i]), events[i].height, hash, v, events[i].voteEnv).1 == Accepted
  }

  lemma {:induction false} RunSplits(p: Params, s: State, events: seq<Event>, i: nat)
    requires Inv(p, s) && i <= |events|
    ensures Run(p, Run(p, s, events[..i]), events[i..]) == Run(p, s, events)
    decreases i
  {
    hide Inv, Step;
    if i == 0 {
      assert events[i..] == events;
    } else {
      StepIsSafe(p, s, events[0]);
      assert events[..i][1..] == events[1..][..i - 1] && events[1..][i - 1..] == events[i..];
      RunSplits(p, Step(p, s, events[0]), events[1..], i - 1);
    }
  }

  /** An accepted vote is counted at the end of the run. */
  lemma VoteIsCounted(p: Params, s: State, events: seq<Event>, i: nat, hash: Hash, v: Validator)
    requires Inv(p, s) && VotesAgree(p, s) && VotedAt(p, s, events, i, hash, v)
    ensures hash in Run(p, s, events).votes && v in Run(p, s, events).votes[hash]
  {
    hide Inv, VotesAgree, CastVote, CertifiedBy, VoteArrives, FirstVote, Proof;
    var mid, e := Run(p, s, events[..i]), events[i];
    RunAgrees(p, s, events[..i]);
    VoteOutcome(p, mid, e.height, hash, v, e.voteEnv);
    RunSplits(p, s, events, i);
    assert events[i..][0] == e && events[i..][1..] == events[i + 1..];
    StepIsSafe(p, mid, e);
    StepAgrees(p, mid, e);
    RunAgrees(p, Step(p, mid, e), events[i + 1..]);
  }

  /** Votes finalise: once more than two thirds of a block's validators have had a vote
      for it accepted, at whatever times during a run, the block is certified, it is on
      the canonical chain, and the lock is at it or above it. */
  lemma VotesFinalise(p: Params, s: State, events: seq<Event>, hash: Hash, voters: set<Validator>)
    requires Inv(p, s) && VotesAgree(p, s)
    requires forall v :: v in voters ==> exists i: nat :: VotedAt(p, s, events, i, hash, v)
    requires hash in Run(p, s, events).known
    requires MoreThanTwoThirds(voters, p.validators(Run(p, s, events).known[hash].header.parent))
    ensures var t := Run(p, s, events);
            && t.known[hash].cert.Some? && hash in t.votes && voters <= t.votes[hash]
            && t.lock.height >= t.known[hash].header.height
            && ContainsLock(p, t.blocks, Lock(t.known[hash].header.height, hash))
  {
    hide VotedAt, Tree, HeadIsHighest, CountsMatch, Run;
    var t := Run(p, s, events);
    forall v | v in voters
      ensures hash in t.votes && v in t.votes[hash]
    {
      var i: nat :| VotedAt(p, s, events, i, hash, v);
      VoteIsCounted(p, s, events, i, hash, v);
    }
    RunAgrees(p, s, events);
    QuorumGrows(p, t, hash, voters);
    LockDescendsFromItself(p, t);
    OnLockedBranch(p, t, Lock(t.known[hash].header.height, hash));
  }

  lemma QuorumGrows(p: Params, t: State, hash: Hash, voters: set<Validator>)
    requires Inv(p, t) && VotesAgree(p, t) && hash in t.known
    requires forall v :: v in voters ==> hash in t.votes && v in t.votes[hash]
    requires MoreThanTwoThirds(voters, p.validators(t.known[hash].header.parent))
    ensures hash in t.votes && voters <= t.votes[hash] && t.known[hash].cert.Some?
  {
    hide Tree, ChainInv, HeadIsHighest, CountsMatch, CertifiedBelowLock;
    assert voters != {};
    var v :| v in voters;
    assert VoteCounted(p, t.known, hash, t.votes[hash]) && CountedOk(p, t, hash);
    Sums.SubsetSize(voters, t.votes[hash]);
  }
}

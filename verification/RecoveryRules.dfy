/** The rules of a smart account, one action at a time, in terms of its fields and of
    the log: who may do what, when, and what it leaves. */
module RecoveryRules {
  import opened Wrappers
  import opened Sums
  import opened Recovery

  /** An address that may become the owner or a guardian. */
  ghost predicate Acceptable(a: Account, x: Address, env: Env) {
    x != env.self && Some(x) != a.owner && x !in env.contracts
  }

  /** The votes that a new vote adds to: none once their 256 blocks are over. */
  ghost function LiveVotes(a: Account, height: nat): map<Address, Address> {
    if a.round.Voting? && height <= a.round.expiresAt then a.round.votes else map[]
  }

  /** Who supports `x` once `signer` does. */
  ghost function Now(live: map<Address, Address>, signer: Address, x: Address): set<Address> {
    set g | g in live.Keys + {signer} && (g == signer || live[g] == x)
  }

  ghost predicate MayVote(a: Account, c: Config, signer: Address, x: Address, env: Env) {
    var live := LiveVotes(a, env.height);
    var now := Now(live, signer, x);
    && signer in c.guardians && Acceptable(a, x, env) && env.room
    && !(a.round.Ready? && env.height <= a.round.readyUntil)
    && (signer in live ==> live[signer] != x && |now| >= c.threshold)
    && (if |now| >= c.threshold then env.height + c.delay + 256 <= 0xFFFF_FFFF_FFFF_FFFF
        else (a.round.Voting? && env.height <= a.round.expiresAt && a.round.expiresAt <= 0xFFFF_FFFF_FFFF_FFFF)
             || (!(a.round.Voting? && env.height <= a.round.expiresAt) && env.height + 256 <= 0xFFFF_FFFF_FFFF_FFFF))
  }

  /** A vote counts exactly when a guardian casts it for an acceptable owner while no
      decided recovery is pending; a guardian may change its vote only to decide. With
      enough votes the recovery is decided, with its delay and its 256 blocks; otherwise
      the round stays open until 256 blocks after its first vote. */
  lemma ApproveIff(a: Account, signer: Address, x: Address, env: Env)
    ensures Approve(a, signer, x, env).Some? <==> a.config.Some? && MayVote(a, a.config.value, signer, x, env)
    ensures a.config.Some? && MayVote(a, a.config.value, signer, x, env) ==>
              var c, live := a.config.value, LiveVotes(a, env.height);
              var now := Now(live, signer, x);
              Approve(a, signer, x, env).value == a.(round :=
                if |now| >= c.threshold then Ready(x, now, env.height + c.delay, env.height + c.delay + 256)
                else Voting(live[signer := x],
                            if a.round.Voting? && env.height <= a.round.expiresAt then a.round.expiresAt
                            else env.height + 256))
  {
    var live := LiveVotes(a, env.height);
    var now := Now(live, signer, x);
    assert VotesOf(Current(a.round, env.height)) == live;
    assert now == Supporters(live[signer := x], x);
    if signer in live && live[signer] != x {
      assert now == Supporters(live, x) + {signer};
    }
  }

  /** A recovery is carried out exactly when a guardian asks for it, the log shows enough
      standing votes for that owner, and the height is in the 256 blocks that follow the
      delay after the deciding vote. */
  lemma ExecuteIff(s: State, signer: Address, x: Address, env: Env)
    requires Inv(s)
    ensures Execute(s.account, signer, x, env).Some? <==>
              && s.account.config.Some? && signer in s.account.config.value.guardians
              && Acceptable(s.account, x, env) && env.room && s.account.epoch != 0xFFFF_FFFF_FFFF_FFFF
              && |Supporters(Standing(s.log), x)| >= s.account.config.value.threshold
              && LastVote(s.log) + s.account.config.value.delay <= env.height
                 <= LastVote(s.log) + s.account.config.value.delay + 256
    ensures Execute(s.account, signer, x, env).Some? ==>
              Execute(s.account, signer, x, env).value ==
                s.account.(owner := Some(x), epoch := s.account.epoch + 1, round := Idle)
  {
    hide GrantInv, Standing, LastVote, OpenUntil, InWindow, Window;
    var a := s.account;
    if a.config.Some? && a.round.Idle? {
      NobodyVoted(a.config.value.threshold);
      assert |Supporters(Standing(s.log), x)| < a.config.value.threshold;
    }
  }

  /** Only the owner configures or clears recovery, and ends a round without a vote; both
      end the round. The account's own key may replace everything. */
  lemma ConfigureIff(a: Account, signer: Address, c: Config, env: Env)
    ensures Configure(a, signer, c, env) ==
            if && Some(signer) == a.owner && env.room
               && 0 < c.threshold <= |c.guardians| <= 16 && c.delay <= 0xFFFF_FFFF_FFFF_FFFF
               && forall g :: g in c.guardians ==> Acceptable(a, g, env)
            then Some(a.(config := Some(c), round := Idle)) else None
  {
  }

  lemma ConfigChanges(s: State, e: Event, env: Env)
    requires Step(s, e, env).account.config != s.account.config
    ensures || (e.ConfigureEvent? && Some(e.signer) == s.account.owner
                && Step(s, e, env).account.config == Some(e.config))
            || (e.ClearEvent? && Some(e.signer) == s.account.owner && Step(s, e, env).account.config == None)
            || (e.DelegateEvent? && Step(s, e, env).account.config == None)
  {
  }

  /** A round changes only by a guardian's vote or execution, or by the owner ending it. */
  lemma RoundChanges(s: State, e: Event, env: Env)
    requires Step(s, e, env).account.round != s.account.round
    ensures || (e.ApproveEvent? && s.account.config.Some? && e.signer in s.account.config.value.guardians)
            || (e.ExecuteEvent? && s.account.config.Some? && e.signer in s.account.config.value.guardians
                && Step(s, e, env).account.round == Idle)
            || ((e.ConfigureEvent? || e.CancelEvent? || e.ClearEvent? || e.SetOwnerEvent?)
                && Some(e.signer) == s.account.owner && Step(s, e, env).account.round == Idle)
            || (e.DelegateEvent? && Step(s, e, env).account.round == Idle)
  {
  }

  /** The owner can always end a round, clear recovery and hand the account over. */
  lemma OwnerCan(a: Account, x: Address, env: Env)
    requires a.owner.Some?
    ensures Cancel(a, a.owner.value) == Some(a.(round := Idle))
    ensures Clear(a, a.owner.value) == Some(a.(config := None, round := Idle))
    ensures x != env.self && env.room ==>
              SetOwner(a, a.owner.value, x, env) == Some(Account(Some(x), a.config, Idle, 0, map[]))
    ensures env.room && x != env.self ==> Delegate(a, Some(x), env) == Some(Account(Some(x), None, Idle, 0, map[]))
    ensures env.room ==> Delegate(a, None, env) == Some(Account(None, None, Idle, 0, map[]))
    ensures forall e: Event :: e.SetOwnerEvent? && e.newOwner == env.self ==> Apply(a, e, env) == None
    ensures Delegate(a, Some(env.self), env) == None
  {
  }

  /** A key is granted exactly by the owner, for transfers or calls, within 16 keys, in
      the current epoch and with nothing spent; it is revoked exactly by the owner. */
  lemma GrantIff(a: Account, signer: Address, key: Address, g: Grant, env: Env)
    ensures AddKey(a, signer, key, g, env) ==
            if && Some(signer) == a.owner && env.room && (key in a.grants || |a.grants| < 16)
               && (g.limit > 0 || g.call.Some?)
            then Some(a.(grants := a.grants[key := Grant(g.limit, 0, g.expires, g.target, g.call, a.epoch)])) else None
    ensures RevokeKey(a, signer, key) == if Some(signer) == a.owner then Some(a.(grants := a.grants - {key})) else None
  {
  }

  /** A key other than the owner may make exactly the call its grant names, while the
      grant is in force and not expired; a call changes nothing of the account. */
  lemma CallIff(s: State, key: Address, dest: Address, callee: string, env: Env)
    requires Inv(s)
    ensures KeyCall(s.account, key, dest, callee, env).Some? <==>
              && Some(key) != s.account.owner && LiveGrant(s.log, key).Some? && key in s.account.grants
              && s.account.grants[key].call == Some((dest, callee))
              && (s.account.grants[key].expires == 0 || env.height <= s.account.grants[key].expires)
    ensures KeyCall(s.account, key, dest, callee, env).Some? ==>
              KeyCall(s.account, key, dest, callee, env).value == s.account
  {
    hide RoundInv;
    assert GrantInv(s.account, s.log, key);
  }

  /** A transfer by a session key: exactly those that fit the grant in force, and only
      what was spent under that grant changes. */
  lemma TransferIs(s: State, key: Address, dest: Address, value: nat, env: Env)
    requires Inv(s)
    ensures KeyTransfer(s.account, key, dest, value, env).Some? <==>
              && Some(key) != s.account.owner && env.room && LiveGrant(s.log, key).Some? && key in s.account.grants
              && LiveGrant(s.log, key).value.0 > 0
              && LiveGrant(s.log, key).value.1 + value <= LiveGrant(s.log, key).value.0
              && (s.account.grants[key].expires == 0 || env.height <= s.account.grants[key].expires)
              && (s.account.grants[key].target.None? || s.account.grants[key].target == Some(dest))
    ensures KeyTransfer(s.account, key, dest, value, env).Some? ==>
              KeyTransfer(s.account, key, dest, value, env).value ==
                s.account.(grants := s.account.grants[key :=
                  s.account.grants[key].(spent := LiveGrant(s.log, key).value.1 + value)])
  {
    hide RoundInv;
    assert GrantInv(s.account, s.log, key);
  }
}

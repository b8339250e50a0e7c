/** A smart account's owner, its guardian recovery and its session keys, over
    whole runs. Everything that happened is kept in a log, and what recovery and
    session keys may do is stated about that log. */
module Recovery {
  import opened Wrappers
  import opened Sums

  type Address = nat

  const MAX_UINT64: nat := 0xFFFF_FFFF_FFFF_FFFF
  const WINDOW: nat := 256
  const MAX_GUARDIANS: nat := 16
  const MAX_SESSION_KEYS: nat := 16

  datatype Config = Config(guardians: set<Address>, threshold: nat, delay: nat)

  /** A recovery round: nothing, votes being collected, or a decided owner. */
  datatype Round =
    | Idle
    | Voting(votes: map<Address, Address>, expiresAt: nat)
    | Ready(candidate: Address, approvals: set<Address>, executeAfter: nat, readyUntil: nat)

  /** `limit` zero means the key may not transfer; `call` is the call it may make. */
  datatype Grant = Grant(limit: nat, spent: nat, expires: nat, target: Option<Address>, call: Option<(Address, string)>,
                         epoch: nat)

  datatype Account = Account(owner: Option<Address>, config: Option<Config>, round: Round, epoch: nat,
                             grants: map<Address, Grant>)

  /** What the rest of the state says about an address, and whether storage has room. */
  datatype Env = Env(height: nat, self: Address, contracts: set<Address>, room: bool)

  predicate NewOwnerOk(a: Account, x: Address, env: Env) {
    x != env.self && Some(x) != a.owner && x !in env.contracts
  }

  predicate ConfigOk(c: Config) {
    0 < c.threshold <= |c.guardians| <= MAX_GUARDIANS && c.delay <= MAX_UINT64
  }

  // ---- Recovery ----

  function Configure(a: Account, signer: Address, c: Config, env: Env): Option<Account> {
    if Some(signer) == a.owner && ConfigOk(c) && env.room
       && (forall g :: g in c.guardians ==> g != env.self && Some(g) != a.owner && g !in env.contracts)
    then Some(a.(config := Some(c), round := Idle)) else None
  }

  function Supporters(votes: map<Address, Address>, x: Address): set<Address> {
    set g | g in votes && votes[g] == x
  }

  /** A round past its expiry is gone when the next vote arrives. */
  function Current(r: Round, height: nat): Round {
    match r
    case Idle => Idle
    case Voting(_, e) => if height > e then Idle else r
    case Ready(_, _, _, e) => if height > e then Idle else r
  }

  function VotesOf(r: Round): map<Address, Address> {
    if r.Voting? then r.votes else map[]
  }

  /** A guardian votes. A vote may be changed only if that decides the round. */
  function Approve(a: Account, signer: Address, x: Address, env: Env): Option<Account> {
    if a.config.None? || signer !in a.config.value.guardians || !NewOwnerOk(a, x, env) || !env.room then None
    else
      var c, round := a.config.value, Current(a.round, env.height);
      var votes := VotesOf(round);
      if round.Ready? then None
      else if signer in votes && (votes[signer] == x || |Supporters(votes, x)| + 1 < c.threshold) then None
      else
        var votes' := votes[signer := x];
        var approvals := Supporters(votes', x);
        if |approvals| >= c.threshold then
          var executeAfter := env.height + c.delay;
          if executeAfter + WINDOW > MAX_UINT64 then None
          else Some(a.(round := Ready(x, approvals, executeAfter, executeAfter + WINDOW)))
        else
          var expiresAt := if round.Voting? then round.expiresAt else env.height + WINDOW;
          if expiresAt > MAX_UINT64 then None else Some(a.(round := Voting(votes', expiresAt)))
  }

  /** A guardian carries out a decided recovery inside its window. */
  function Execute(a: Account, signer: Address, x: Address, env: Env): Option<Account> {
    if a.config.None? || signer !in a.config.value.guardians || !NewOwnerOk(a, x, env) || !env.room then None
    else if !a.round.Ready? || a.round.candidate != x then None
    else if env.height > a.round.readyUntil || env.height < a.round.executeAfter || a.epoch == MAX_UINT64 then None
    else Some(a.(owner := Some(x), epoch := a.epoch + 1, round := Idle))
  }

  function Cancel(a: Account, signer: Address): Option<Account> {
    if a.owner == Some(signer) then Some(a.(round := Idle)) else None
  }

  function Clear(a: Account, signer: Address): Option<Account> {
    if a.owner == Some(signer) then Some(a.(config := None, round := Idle)) else None
  }

  /** The owner hands the account over; the round and every session key go. */
  function SetOwner(a: Account, signer: Address, x: Address, env: Env): Option<Account> {
    if a.owner == Some(signer) && x != env.self && env.room
    then Some(a.(owner := Some(x), round := Idle, epoch := 0, grants := map[])) else None
  }

  /** The account's own key attaches or detaches the account code. */
  function Delegate(a: Account, owner: Option<Address>, env: Env): Option<Account> {
    if env.room && owner != Some(env.self) then Some(Account(owner, None, Idle, 0, map[])) else None
  }

  // ---- Session keys ----

  function AddKey(a: Account, signer: Address, key: Address, g: Grant, env: Env): Option<Account> {
    if a.owner != Some(signer) || (key !in a.grants && |a.grants| >= MAX_SESSION_KEYS) || !env.room then None
    else if g.limit == 0 && g.call.None? then None
    else Some(a.(grants := a.grants[key := g.(spent := 0, epoch := a.epoch)]))
  }

  function RevokeKey(a: Account, signer: Address, key: Address): Option<Account> {
    if a.owner == Some(signer) then Some(a.(grants := a.grants - {key})) else None
  }

  predicate Authorised(a: Account, key: Address) {
    key in a.grants && a.grants[key].epoch == a.epoch
  }

  predicate Unexpired(g: Grant, height: nat) { g.expires == 0 || height <= g.expires }

  /** A transfer signed by a session key, and the spending it records. */
  function KeyTransfer(a: Account, key: Address, dest: Address, value: nat, env: Env): Option<Account> {
    if !Authorised(a, key) || Some(key) == a.owner || !env.room then None
    else
      var g := a.grants[key];
      if !Unexpired(g, env.height) || g.limit == 0 || (g.target.Some? && g.target.value != dest) then None
      else if g.spent > g.limit || value > g.limit - g.spent then None
      else Some(a.(grants := a.grants[key := g.(spent := g.spent + value)]))
  }

  function KeyCall(a: Account, key: Address, dest: Address, callee: string, env: Env): Option<Account> {
    if !Authorised(a, key) || Some(key) == a.owner then None
    else
      var g := a.grants[key];
      if Unexpired(g, env.height) && g.call == Some((dest, callee)) then Some(a) else None
  }

  // ---- Events and the log ----

  datatype Event =
    | ConfigureEvent(signer: Address, config: Config)
    | ApproveEvent(signer: Address, newOwner: Address)
    | ExecuteEvent(signer: Address, newOwner: Address)
    | CancelEvent(signer: Address)
    | ClearEvent(signer: Address)
    | SetOwnerEvent(signer: Address, newOwner: Address)
    | DelegateEvent(owner: Option<Address>)
    | AddKeyEvent(signer: Address, key: Address, grant: Grant)
    | RevokeKeyEvent(signer: Address, key: Address)
    | KeyTransferEvent(key: Address, dest: Address, value: nat)
    | KeyCallEvent(key: Address, dest: Address, callee: string)

  function Apply(a: Account, e: Event, env: Env): Option<Account> {
    match e
    case ConfigureEvent(s, c) => Configure(a, s, c, env)
    case ApproveEvent(s, x) => Approve(a, s, x, env)
    case ExecuteEvent(s, x) => Execute(a, s, x, env)
    case CancelEvent(s) => Cancel(a, s)
    case ClearEvent(s) => Clear(a, s)
    case SetOwnerEvent(s, x) => SetOwner(a, s, x, env)
    case DelegateEvent(o) => Delegate(a, o, env)
    case AddKeyEvent(s, k, g) => AddKey(a, s, k, g, env)
    case RevokeKeyEvent(s, k) => RevokeKey(a, s, k)
    case KeyTransferEvent(k, t, v) => KeyTransfer(a, k, t, v, env)
    case KeyCallEvent(k, t, c) => KeyCall(a, k, t, c, env)
  }

  datatype Entry =
    | Voted(height: nat, guardian: Address, newOwner: Address)
    | RoundOver
    | Recovered
    | KeysWiped
    | Granted(key: Address, limit: nat, usesCalls: bool)
    | Revoked(key: Address)
    | Transferred(key: Address, value: nat)
    | Called(key: Address)

  /** What a successful event leaves in the log. */
  function Entries(a: Account, e: Event, env: Env): seq<Entry> {
    match e
    case ConfigureEvent(_, _) => [RoundOver]
    case ApproveEvent(s, x) =>
      if Current(a.round, env.height) != a.round then [RoundOver, Voted(env.height, s, x)]
        else [Voted(env.height, s, x)]
    case ExecuteEvent(_, _) => [RoundOver, Recovered]
    case CancelEvent(_) => [RoundOver]
    case ClearEvent(_) => [RoundOver]
    case SetOwnerEvent(_, _) => [RoundOver, KeysWiped]
    case DelegateEvent(_) => [RoundOver, KeysWiped]
    case AddKeyEvent(_, k, g) => [Granted(k, g.limit, g.call.Some?)]
    case RevokeKeyEvent(_, k) => [Revoked(k)]
    case KeyTransferEvent(k, _, v) => [Transferred(k, v)]
    case KeyCallEvent(k, _, _) => [Called(k)]
  }

  // ---- What the log says ----

  /** The votes cast since the last round ended, each guardian's latest. */
  function Standing(log: seq<Entry>): map<Address, Address> {
    if log == [] then map[]
    else
      match log[|log| - 1]
      case Voted(_, g, x) => Standing(log[..|log| - 1])[g := x]
      case RoundOver => map[]
      case _ => Standing(log[..|log| - 1])
  }

  /** The height of the last vote of the current round. */
  function LastVote(log: seq<Entry>): nat {
    if log == [] then 0
    else
      match log[|log| - 1]
      case Voted(h, _, _) => h
      case _ => LastVote(log[..|log| - 1])
  }

  /** The grant of a key that is in force: its limit and what was transferred under it. */
  function LiveGrant(log: seq<Entry>, key: Address): Option<(nat, nat)> {
    if log == [] then None
    else
      var rest := LiveGrant(log[..|log| - 1], key);
      match log[|log| - 1]
      case Granted(k, limit, _) => if k == key then Some((limit, 0)) else rest
      case Revoked(k) => if k == key then None else rest
      case Recovered => None
      case KeysWiped => None
      case Transferred(k, v) => if k == key && rest.Some? then Some((rest.value.0, rest.value.1 + v)) else rest
      case _ => rest
  }

  // ---- Runs ----

  datatype State = State(account: Account, log: seq<Entry>)

  /** A rejected event leaves everything as it was. */
  function Step(s: State, e: Event, env: Env): State {
    match Apply(s.account, e, env)
    case None => s
    case Some(a) => State(a, s.log + Entries(s.account, e, env))
  }

  function Run(s: State, es: seq<(Event, Env)>): State
    decreases |es|
  {
    if es == [] then s else Run(Step(s, es[0].0, es[0].1), es[1..])
  }

  /** No candidate has enough votes yet. */
  ghost predicate Undecided(votes: map<Address, Address>, threshold: nat) {
    forall x :: |Supporters(votes, x)| < threshold
  }

  /** No other candidate has enough votes. */
  ghost predicate OnlyChoice(votes: map<Address, Address>, x: Address, threshold: nat) {
    forall y :: y != x ==> |Supporters(votes, y)| < threshold
  }

  lemma VoteIsForOne(votes: map<Address, Address>, g: Address, x: Address, threshold: nat)
    requires Undecided(votes, threshold)
    ensures OnlyChoice(votes[g := x], x, threshold)
  {
    var votes' := votes[g := x];
    forall y
      ensures y != x ==> |Supporters(votes', y)| < threshold
    {
      if y != x {
        SubsetSize(Supporters(votes', y), Supporters(votes, y));
      }
    }
  }

  lemma VoteLeavesUndecided(votes: map<Address, Address>, g: Address, x: Address, threshold: nat)
    requires Undecided(votes, threshold) && |Supporters(votes[g := x], x)| < threshold
    ensures Undecided(votes[g := x], threshold)
  {
    var votes' := votes[g := x];
    forall y
      ensures |Supporters(votes', y)| < threshold
    {
      if y != x {
        SubsetSize(Supporters(votes', y), Supporters(votes, y));
      }
    }
  }

  lemma NobodyVoted(threshold: nat)
    requires threshold > 0
    ensures Undecided(map[], threshold)
  {
    forall x
      ensures Supporters(map[], x) == {}
    {
    }
  }

  /** The votes since entry `i` are one round: entry `i` is its first vote, nothing ended
      it since, and no vote of it came later than `until`, 256 blocks after the first. */
  ghost predicate Window(log: seq<Entry>, i: nat, until: nat) {
    && i < |log| && log[i].Voted? && until == log[i].height + 256
    && Standing(log[..i]) == map[]
    && (forall j :: i <= j < |log| ==> !log[j].RoundOver?)
    && (forall j :: i <= j < |log| && log[j].Voted? ==> log[j].height <= until)
  }

  lemma WindowOpens(log: seq<Entry>, height: nat, g: Address, x: Address)
    requires Standing(log) == map[]
    ensures Window(log + [Voted(height, g, x)], |log|, height + 256)
  {
    assert (log + [Voted(height, g, x)])[..|log|] == log;
  }

  lemma WindowStays(log: seq<Entry>, i: nat, until: nat, e: Entry)
    requires Window(log, i, until) && !e.RoundOver? && (e.Voted? ==> e.height <= until)
    ensures Window(log + [e], i, until)
  {
    assert (log + [e])[..i] == log[..i];
  }

  ghost predicate InWindow(log: seq<Entry>) {
    exists i: nat, until: nat :: Window(log, i, until)
  }

  ghost predicate OpenUntil(log: seq<Entry>, until: nat) {
    exists i: nat :: Window(log, i, until)
  }

  lemma OpenStays(log: seq<Entry>, e: Entry)
    requires !e.RoundOver? && !e.Voted?
    ensures forall until :: OpenUntil(log, until) ==> OpenUntil(log + [e], until)
    ensures InWindow(log) ==> InWindow(log + [e])
  {
    forall until | OpenUntil(log, until)
      ensures OpenUntil(log + [e], until)
    {
      var i: nat :| Window(log, i, until);
      WindowStays(log, i, until, e);
    }
    if InWindow(log) {
      var i: nat, until: nat :| Window(log, i, until);
      WindowStays(log, i, until, e);
    }
  }

  /** A vote opens a window or falls into the open one. */
  lemma VoteInWindow(log: seq<Entry>, until: nat, height: nat, g: Address, x: Address)
    requires Standing(log) == map[] || (OpenUntil(log, until) && height <= until)
    ensures var until' := if Standing(log) == map[] then height + 256 else until;
            OpenUntil(log + [Voted(height, g, x)], until')
  {
    if Standing(log) == map[] {
      WindowOpens(log, height, g, x);
    } else {
      var i: nat :| Window(log, i, until);
      WindowStays(log, i, until, Voted(height, g, x));
    }
  }

  lemma OpenIsInWindow(log: seq<Entry>, until: nat)
    requires OpenUntil(log, until)
    ensures InWindow(log)
  {
  }

  /** The stored round is what the log says. */
  ghost predicate RoundInv(a: Account, log: seq<Entry>) {
    && (a.config.Some? ==> ConfigOk(a.config.value))
    && match a.round
       case Idle => Standing(log) == map[]
       case Voting(votes, expiresAt) =>
         && a.config.Some? && votes == Standing(log) && votes != map[] && votes.Keys <= a.config.value.guardians
         && expiresAt <= MAX_UINT64 && OpenUntil(log, expiresAt)
         && Undecided(votes, a.config.value.threshold)
       case Ready(x, approvals, executeAfter, readyUntil) =>
         && a.config.Some? && approvals == Supporters(Standing(log), x)
         && approvals <= a.config.value.guardians && |approvals| >= a.config.value.threshold && InWindow(log)
         && OnlyChoice(Standing(log), x, a.config.value.threshold)
         && executeAfter == LastVote(log) + a.config.value.delay && readyUntil == executeAfter + WINDOW <= MAX_UINT64
  }

  ghost predicate GrantInv(a: Account, log: seq<Entry>, key: Address) {
    && (Authorised(a, key) <==> LiveGrant(log, key).Some?)
    && (Authorised(a, key) ==> LiveGrant(log, key).value == (a.grants[key].limit, a.grants[key].spent))
    && (key in a.grants ==> a.grants[key].epoch <= a.epoch && a.grants[key].spent <= a.grants[key].limit)
  }

  ghost predicate Inv(s: State) {
    RoundInv(s.account, s.log) && forall key :: GrantInv(s.account, s.log, key)
  }

  lemma Append(log: seq<Entry>, e: Entry)
    ensures Standing(log + [e])
              == (match e case Voted(_, g, x) => Standing(log)[g := x] case RoundOver => map[] case _ => Standing(log))
    ensures LastVote(log + [e]) == if e.Voted? then e.height else LastVote(log)
    ensures forall key :: LiveGrant(log + [e], key) ==
              (match e
               case Granted(k, limit, _) => if k == key then Some((limit, 0)) else LiveGrant(log, key)
               case Revoked(k) => if k == key then None else LiveGrant(log, key)
               case Recovered => None
               case KeysWiped => None
               case Transferred(k, v) =>
                 if k == key && LiveGrant(log, key).Some?
                 then Some((LiveGrant(log, key).value.0, LiveGrant(log, key).value.1 + v))
                 else LiveGrant(log, key)
               case _ => LiveGrant(log, key))
  {
    assert (log + [e])[..|log|] == log;
  }

  /** What both halves of the invariant need to know about the new entries. */
  lemma AppendAll(s: State, e: Event, env: Env)
    ensures var es := Entries(s.account, e, env);
            s.log + es == if |es| == 2 then (s.log + [es[0]]) + [es[1]] else s.log + [es[0]]
    ensures 1 <= |Entries(s.account, e, env)| <= 2
  {
  }

  lemma ApproveKeepsRound(s: State, signer: Address, x: Address, env: Env)
    requires Inv(s) && Approve(s.account, signer, x, env).Some?
    ensures var s' := Step(s, ApproveEvent(signer, x), env); RoundInv(s'.account, s'.log)
  {
    hide GrantInv, LiveGrant, Standing, LastVote, Undecided, OpenUntil, InWindow, OnlyChoice;
    var a, e := s.account, ApproveEvent(signer, x);
    var vote := Voted(env.height, signer, x);
    var round := Current(a.round, env.height);
    var until := if round.Voting? then round.expiresAt else 0;
    if round != a.round {
      assert Entries(a, e, env) == [RoundOver, vote];
      Append(s.log, RoundOver);
      Append(s.log + [RoundOver], vote);
      assert s.log + Entries(a, e, env) == (s.log + [RoundOver]) + [vote];
      VoteInWindow(s.log + [RoundOver], until, env.height, signer, x);
      OpenIsInWindow((s.log + [RoundOver]) + [vote], env.height + 256);
    } else {
      assert Entries(a, e, env) == [vote];
      Append(s.log, vote);
      VoteInWindow(s.log, until, env.height, signer, x);
      OpenIsInWindow(s.log + [vote], if Standing(s.log) == map[] then env.height + 256 else until);
    }
    var log' := s.log + Entries(a, e, env);
    assert Standing(log') == VotesOf(round)[signer := x];
    assert LastVote(log') == env.height;
    if !round.Voting? {
      NobodyVoted(a.config.value.threshold);
    }
    VoteIsForOne(VotesOf(round), signer, x, a.config.value.threshold);
    if |Supporters(VotesOf(round)[signer := x], x)| < a.config.value.threshold {
      VoteLeavesUndecided(VotesOf(round), signer, x, a.config.value.threshold);
    }
  }

  lemma StepKeepsRound(s: State, e: Event, env: Env)
    requires Inv(s)
    ensures RoundInv(Step(s, e, env).account, Step(s, e, env).log)
  {
    hide GrantInv, LiveGrant, Standing, LastVote, Undecided, Supporters, OpenUntil, InWindow, OnlyChoice;
    if Apply(s.account, e, env).Some? {
      if e.ApproveEvent? {
        ApproveKeepsRound(s, e.signer, e.newOwner, env);
      } else {
        AppendAll(s, e, env);
        var es := Entries(s.account, e, env);
        Append(s.log, es[0]);
        if |es| == 2 {
          Append(s.log + [es[0]], es[1]);
        } else if !es[0].RoundOver? {
          OpenStays(s.log, es[0]);
        }
      }
    }
  }

  lemma StepKeepsGrant(s: State, e: Event, env: Env, key: Address)
    requires Inv(s)
    ensures GrantInv(Step(s, e, env).account, Step(s, e, env).log, key)
  {
    hide RoundInv, LiveGrant, Standing, LastVote;
    assert GrantInv(s.account, s.log, key);
    if Apply(s.account, e, env).Some? {
      AppendAll(s, e, env);
      var es := Entries(s.account, e, env);
      Append(s.log, es[0]);
      if |es| == 2 {
        Append(s.log + [es[0]], es[1]);
      }
    }
  }

  lemma {:induction false} RunKeepsInv(s: State, es: seq<(Event, Env)>)
    requires Inv(s)
    ensures Inv(Run(s, es))
    decreases |es|
  {
    hide RoundInv, GrantInv, Step;
    if es != [] {
      var e, env := es[0].0, es[0].1;
      StepKeepsRound(s, e, env);
      forall key
        ensures GrantInv(Step(s, e, env).account, Step(s, e, env).log, key)
      {
        StepKeepsGrant(s, e, env, key);
      }
      RunKeepsInv(Step(s, e, env), es[1..]);
    }
  }

  lemma NewAccountInv(owner: Option<Address>)
    ensures Inv(State(Account(owner, None, Idle, 0, map[]), []))
  {
  }

  // ---- What follows for every run ----

  /** The latest vote of `g` is for `x` and was cast since entry `i`, at most 256 blocks
      after it. */
  ghost predicate VotedSince(log: seq<Entry>, i: nat, g: Address, x: Address) {
    exists j :: VoteAt(log, i, j, g, x)
  }

  ghost predicate VoteAt(log: seq<Entry>, i: nat, j: int, g: Address, x: Address) {
    && i <= j < |log| && log[i].Voted? && log[j].Voted? && log[j].guardian == g && log[j].newOwner == x
    && log[j].height <= log[i].height + 256
    && forall k :: j < k < |log| ==> !(log[k].Voted? && log[k].guardian == g)
  }

  /** A standing vote is the latest of its guardian since the round began. */
  lemma {:induction false} StandingVote(log: seq<Entry>, i: nat, until: nat, n: nat, g: Address)
    requires Window(log, i, until) && i <= n <= |log| && g in Standing(log[..n])
    ensures exists j :: i <= j < n && log[j].Voted? && log[j].guardian == g && log[j].newOwner == Standing(log[..n])[g]
                        && forall k :: j < k < n ==> !(log[k].Voted? && log[k].guardian == g)
    decreases n
  {
    if n > i {
      var last := log[n - 1];
      assert log[..n][..n - 1] == log[..n - 1] && log[..n][n - 1] == last;
      if last.Voted? && last.guardian == g {
        assert log[n - 1].Voted?;
      } else {
        StandingVote(log, i, until, n - 1, g);
      }
    }
  }

  /** Recovery hands the account to `x` only when a guardian asks for it, enough
      configured guardians have standing votes for `x`, all of them were cast within 256
      blocks of the first vote of that round, nothing ended the round since, and it is
      inside the window after the deciding vote. */
  lemma RecoveryNeedsGuardians(s: State, signer: Address, x: Address, env: Env)
    requires Inv(s) && Execute(s.account, signer, x, env).Some?
    ensures s.account.config.Some? && signer in s.account.config.value.guardians
    ensures x != env.self && Some(x) != s.account.owner && x !in env.contracts
    ensures var c, support := s.account.config.value, Supporters(Standing(s.log), x);
            && support <= c.guardians && |support| >= c.threshold > 0
            && LastVote(s.log) + c.delay <= env.height <= LastVote(s.log) + c.delay + 256
            && exists i: nat ::
                 && i < |s.log| && s.log[i].Voted?
                 && (forall j :: i <= j < |s.log| ==> !s.log[j].RoundOver?)
                 && forall g :: g in support ==> VotedSince(s.log, i, g, x)
  {
    hide GrantInv, LastVote, Undecided;
    var support := Supporters(Standing(s.log), x);
    var i: nat, until: nat :| Window(s.log, i, until);
    forall g | g in support
      ensures VotedSince(s.log, i, g, x)
    {
      assert s.log[..|s.log|] == s.log;
      StandingVote(s.log, i, until, |s.log|, g);
      var j :| i <= j < |s.log| && s.log[j].Voted? && s.log[j].guardian == g && s.log[j].newOwner == x
               && forall k :: j < k < |s.log| ==> !(s.log[k].Voted? && s.log[k].guardian == g);
      assert VoteAt(s.log, i, j, g, x);
    }
  }

  /** Votes are in the order of their heights. */
  ghost predicate InOrder(log: seq<Entry>) {
    forall i, j :: 0 <= i < j < |log| && log[i].Voted? && log[j].Voted? ==> log[i].height <= log[j].height
  }

  ghost predicate VotesBy(log: seq<Entry>, height: nat) {
    forall i :: 0 <= i < |log| && log[i].Voted? ==> log[i].height <= height
  }

  /** In a run whose heights do not go back, so do the heights of the votes; with the
      above, the votes of a recovery lie within 256 blocks from its first one. */
  lemma {:induction false} RunIsInOrder(s: State, es: seq<(Event, Env)>, height: nat)
    requires InOrder(s.log) && VotesBy(s.log, height)
    requires forall i :: 0 <= i < |es| ==> es[i].1.height >= height
    requires forall i, j :: 0 <= i < j < |es| ==> es[i].1.height <= es[j].1.height
    ensures InOrder(Run(s, es).log)
    decreases |es|
  {
    if es != [] {
      var s' := Step(s, es[0].0, es[0].1);
      assert VotesBy(s'.log, es[0].1.height) && InOrder(s'.log) by {
        hide Apply, Current;
        assert forall i :: 0 <= i < |s.log| ==> s'.log[i] == s.log[i];
      }
      RunIsInOrder(s', es[1..], es[0].1.height);
    }
  }

  /** Nothing else changes the owner but the owner and the account's own key. */
  lemma OwnerChanges(s: State, e: Event, env: Env)
    requires Step(s, e, env).account.owner != s.account.owner
    ensures || (e.SetOwnerEvent? && Some(e.signer) == s.account.owner
                && Step(s, e, env).account.owner == Some(e.newOwner))
            || (e.DelegateEvent? && Step(s, e, env).account.owner == e.owner)
            || (e.ExecuteEvent? && Execute(s.account, e.signer, e.newOwner, env).Some?
                && Step(s, e, env).account.owner == Some(e.newOwner))
  {
  }

  /** A transfer under a grant never takes the sum of transfers past its limit. */
  lemma GrantLimitHolds(s: State, key: Address, dest: Address, value: nat, env: Env)
    requires Inv(s) && KeyTransfer(s.account, key, dest, value, env).Some?
    ensures LiveGrant(s.log, key).Some? && LiveGrant(s.log, key).value.1 + value <= LiveGrant(s.log, key).value.0
  {
    assert GrantInv(s.account, s.log, key);
  }

  /** And it is refused for no other reason: a key other than the owner may make
      exactly the transfers that fit the grant the log shows in force. */
  lemma TransferIff(s: State, key: Address, dest: Address, value: nat, env: Env)
    requires Inv(s) && env.room && Some(key) != s.account.owner
    ensures KeyTransfer(s.account, key, dest, value, env).Some? <==>
              && LiveGrant(s.log, key).Some? && key in s.account.grants
              && LiveGrant(s.log, key).value.0 > 0
              && LiveGrant(s.log, key).value.1 + value <= LiveGrant(s.log, key).value.0
              && Unexpired(s.account.grants[key], env.height)
              && (s.account.grants[key].target.Some? ==> s.account.grants[key].target.value == dest)
  {
    assert GrantInv(s.account, s.log, key);
  }

  /** The vote that brings a candidate to the threshold decides the round, and no
      other vote does. */
  lemma DecidingVote(s: State, signer: Address, x: Address, env: Env)
    requires Inv(s) && Approve(s.account, signer, x, env).Some?
    ensures s.account.config.Some?
    ensures var s' := Step(s, ApproveEvent(signer, x), env);
            s'.account.round.Ready? <==> |Supporters(Standing(s'.log), x)| >= s.account.config.value.threshold
  {
    hide Standing, GrantInv, LiveGrant;
    ApproveKeepsRound(s, signer, x, env);
    var s' := Step(s, ApproveEvent(signer, x), env);
    if s'.account.round.Voting? {
      assert |Supporters(Standing(s'.log), x)| < s.account.config.value.threshold;
    }
  }

  ghost predicate Ends(e: Entry, key: Address) {
    e.Recovered? || e.KeysWiped? || (e.Revoked? && e.key == key)
  }

  /** A grant is in force exactly when nothing after it ended it: no recovery, no
      owner change, no revocation. */
  lemma {:induction false} LiveGrantIff(log: seq<Entry>, key: Address)
    ensures LiveGrant(log, key).Some? <==>
              exists i :: 0 <= i < |log| && log[i].Granted? && log[i].key == key
                          && forall j :: i < j < |log| ==> !Ends(log[j], key)
    decreases |log|
  {
    if log != [] {
      var rest, last := log[..|log| - 1], log[|log| - 1];
      LiveGrantIff(rest, key);
      if last.Granted? && last.key == key {
        assert log[|log| - 1].Granted?;
      } else if LiveGrant(log, key).Some? {
        var i :| 0 <= i < |rest| && rest[i].Granted? && rest[i].key == key
                 && forall j :: i < j < |rest| ==> !Ends(rest[j], key);
        assert log[i].Granted? && log[i].key == key;
      } else {
        assert Ends(last, key) || forall i :: 0 <= i < |rest| ==> rest[i] == log[i];
      }
    }
  }

  /** After a recovery or an owner change no earlier grant authorises anything
      until the key is added again. */
  lemma RecoveryVoidsGrants(s: State, key: Address, i: nat, dest: Address, value: nat, callee: string, env: Env)
    requires Inv(s) && i < |s.log| && Ends(s.log[i], key)
    requires forall j :: i < j < |s.log| ==> !(s.log[j].Granted? && s.log[j].key == key)
    ensures KeyTransfer(s.account, key, dest, value, env).None? && KeyCall(s.account, key, dest, callee, env).None?
  {
    assert GrantInv(s.account, s.log, key);
    LiveGrantIff(s.log, key);
  }
}

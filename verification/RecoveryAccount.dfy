/** The account contract's storage: separate entries for guardians, threshold,
    delay, pending owner, heights, approvals and votes. Every action is proved
    against the account of module Recovery, and no stored-state fault is reachable. */
module RecoveryAccount {
  import opened Wrappers
  import opened Recovery

  datatype Vote = Vote(guardian: Address, newOwner: Address)

  datatype Outcome = Done | Rejected | Fault

  // ---- Lists without repetition ----

  ghost predicate Unique(s: seq<Address>) {
    forall i, j :: 0 <= i < j < |s| ==> s[i] != s[j]
  }

  function Elements(s: seq<Address>): set<Address> { set x | x in s }

  lemma {:induction false} UniqueSize(s: seq<Address>)
    requires Unique(s)
    ensures |Elements(s)| == |s|
    decreases |s|
  {
    if s != [] {
      var rest, last := s[..|s| - 1], s[|s| - 1];
      UniqueSize(rest);
      assert Elements(s) == Elements(rest) + {last};
    }
  }

  method CheckUnique(s: seq<Address>) returns (ok: bool)
    ensures ok <==> Unique(s)
  {
    var seen: set<Address> := {};
    var i := 0;
    while i < |s|
      invariant 0 <= i <= |s| && seen == Elements(s[..i])
      invariant forall j, k :: 0 <= j < k < i ==> s[j] != s[k]
    {
      if s[i] in seen {
        return false;
      }
      seen := seen + {s[i]};
      i := i + 1;
    }
    ok := true;
  }

  // ---- Votes ----

  /** The list of votes and the map it stands for. */
  ghost predicate Represents(votes: seq<Vote>, m: map<Address, Address>) {
    && (forall i, j :: 0 <= i < j < |votes| ==> votes[i].guardian != votes[j].guardian)
    && (forall i :: 0 <= i < |votes| ==> votes[i].guardian in m && m[votes[i].guardian] == votes[i].newOwner)
    && (forall g :: g in m ==> exists i :: 0 <= i < |votes| && votes[i].guardian == g)
  }

  lemma RepresentsAppend(votes: seq<Vote>, m: map<Address, Address>, v: Vote)
    requires Represents(votes, m) && v.guardian !in m
    ensures Represents(votes + [v], m[v.guardian := v.newOwner])
  {
    var votes', m' := votes + [v], m[v.guardian := v.newOwner];
    forall g | g in m'
      ensures exists i :: 0 <= i < |votes'| && votes'[i].guardian == g
    {
      if g != v.guardian {
        var i :| 0 <= i < |votes| && votes[i].guardian == g;
        assert votes'[i].guardian == g;
      } else {
        assert votes'[|votes|].guardian == g;
      }
    }
  }

  lemma RepresentsUpdate(votes: seq<Vote>, m: map<Address, Address>, k: nat, x: Address)
    requires Represents(votes, m) && k < |votes|
    ensures Represents(votes[k := Vote(votes[k].guardian, x)], m[votes[k].guardian := x])
  {
    var votes', m' := votes[k := Vote(votes[k].guardian, x)], m[votes[k].guardian := x];
    forall g | g in m'
      ensures exists i :: 0 <= i < |votes'| && votes'[i].guardian == g
    {
      var i :| 0 <= i < |votes| && votes[i].guardian == g;
      assert votes'[i].guardian == g;
    }
  }

  /** The guardians that vote for an owner, in stored order. */
  method VotesForOwner(votes: seq<Vote>, x: Address, ghost m: map<Address, Address>) returns (r: seq<Address>)
    requires Represents(votes, m)
    ensures Unique(r) && Elements(r) == Supporters(m, x) && |r| == |Supporters(m, x)|
  {
    r := [];
    var i := 0;
    while i < |votes|
      invariant 0 <= i <= |votes| && Unique(r)
      invariant forall j :: 0 <= j < i && votes[j].newOwner == x ==> votes[j].guardian in r
      invariant forall g :: g in r ==> g in m && m[g] == x && exists j :: 0 <= j < i && votes[j].guardian == g
    {
      if votes[i].newOwner == x {
        r := r + [votes[i].guardian];
      }
      i := i + 1;
    }
    forall g | g in Supporters(m, x)
      ensures g in r
    {
      var j :| 0 <= j < |votes| && votes[j].guardian == g;
    }
    assert Elements(r) == Supporters(m, x);
    UniqueSize(r);
  }

  lemma SupportersVote(m: map<Address, Address>, x: Address)
    ensures Supporters(m, x) <= m.Keys
  {
  }

  lemma EmptyRepresents()
    ensures Represents([], map[])
  {
  }

  /** Add or change a vote; a change has to decide the round. */
  method CastVote(base: seq<Vote>, ghost m: map<Address, Address>, signer: Address, x: Address, threshold: nat)
      returns (ok: bool, next: seq<Vote>)
    requires Represents(base, m)
    ensures !ok <==> signer in m && (m[signer] == x || |Supporters(m, x)| + 1 < threshold)
    ensures ok ==> next != [] && Represents(next, m[signer := x])
  {
    next := base;
    var index := 0;
    while index < |base| && base[index].guardian != signer
      invariant 0 <= index <= |base|
      invariant forall i :: 0 <= i < index ==> base[i].guardian != signer
    {
      index := index + 1;
    }
    if index == |base| {
      RepresentsAppend(base, m, Vote(signer, x));
      return true, base + [Vote(signer, x)];
    }
    if base[index].newOwner == x {
      return false, base;
    }
    var supporters := VotesForOwner(base, x, m);
    if |supporters| + 1 < threshold {
      return false, base;
    }
    RepresentsUpdate(base, m, index, x);
    ok, next := true, base[index := Vote(signer, x)];
  }

  // ---- The contract's storage ----

  class SmartAccount {
    var owner: Option<Address>
    var guardians: seq<Address>          // empty: not configured
    var threshold: Option<nat>
    var delay: Option<nat>
    var pendingOwner: Option<Address>
    var executeAfter: Option<nat>
    var expiresAt: Option<nat>
    var approvals: seq<Address>
    var votes: seq<Vote>
    var epoch: nat
    var grants: map<Address, Grant>

    ghost var voteMap: map<Address, Address>

    ghost predicate ConfigValid()
      reads this
    {
      && (guardians == [] <==> threshold.None?) && (guardians == [] <==> delay.None?)
      && Unique(guardians) && |guardians| <= MAX_GUARDIANS
      && (threshold.Some? ==> 0 < threshold.value <= |guardians|)
      && (delay.Some? ==> delay.value <= MAX_UINT64)
    }

    ghost predicate Valid()
      reads this
    {
      && ConfigValid()
      && Represents(votes, voteMap) && voteMap.Keys <= Elements(guardians)
      && (pendingOwner.Some? ==>
           && guardians != [] && executeAfter.Some? && expiresAt.Some? && votes == [] && voteMap == map[]
           && Unique(approvals) && Elements(approvals) <= Elements(guardians) && |approvals| >= threshold.value)
      && (pendingOwner.None? ==>
        executeAfter.None? && approvals == [] && (votes == [] <==> expiresAt.None?)
          && (votes == [] <==> voteMap == map[]))
    }

    ghost function Configuration(): Option<Config>
      reads this
      requires ConfigValid()
    {
      if guardians == [] then None else Some(Config(Elements(guardians), threshold.value, delay.value))
    }

    ghost function View(): Account
      reads this
      requires Valid()
    {
      Account(owner, Configuration(),
              if pendingOwner.Some?
                then Ready(pendingOwner.value, Elements(approvals), executeAfter.value, expiresAt.value)
              else if votes == [] then Idle else Voting(voteMap, expiresAt.value),
              epoch, grants)
    }

    constructor (owner: Address)
      ensures Valid() && View() == Account(Some(owner), None, Idle, 0, map[])
    {
      this.owner, guardians, threshold, delay := Some(owner), [], None, None;
      pendingOwner, executeAfter, expiresAt, approvals, votes := None, None, None, [], [];
      epoch, grants, voteMap := 0, map[], map[];
    }

    method ClearPending()
      requires ConfigValid()
      modifies this`pendingOwner, this`executeAfter, this`expiresAt, this`approvals, this`votes, this`voteMap
      ensures Valid() && pendingOwner.None? && votes == [] && voteMap == map[] && expiresAt.None? && executeAfter.None?
    {
      EmptyRepresents();
      pendingOwner, executeAfter, expiresAt, approvals, votes := None, None, None, [], [];
      voteMap := map[];
    }

    method Configure(signer: Address, list: seq<Address>, threshold: nat, delay: nat, env: Env) returns (r: Outcome)
      requires Valid() && delay <= MAX_UINT64
      modifies this
      ensures Valid() && r != Fault
      ensures r == Done <==>
                Unique(list)
                  && Recovery.Configure(old(View()), signer, Config(Elements(list), threshold, delay), env).Some?
      ensures View() == if r != Done then old(View())
                        else Recovery.Configure(old(View()), signer,
                                                Config(Elements(list), threshold, delay), env).value
    {
      hide Unique, Represents;
      var unique := CheckUnique(list);
      if list == [] || |list| > MAX_GUARDIANS || !unique {
        if unique {
          UniqueSize(list);
        }
        return Rejected;
      }
      UniqueSize(list);
      if Some(signer) != owner || !env.room {
        return Rejected;
      }
      if exists g :: g in list && (g == env.self || Some(g) == owner || g in env.contracts) {
        var g :| g in list && (g == env.self || Some(g) == owner || g in env.contracts);
        assert g in Elements(list);
        return Rejected;
      }
      if threshold == 0 || threshold > |list| {
        return Rejected;
      }
      guardians, this.threshold, this.delay := list, Some(threshold), Some(delay);
      ClearPending();
      r := Done;
    }

    /** The checks made on what is stored; none of them can fail. */
    predicate StoredConfigOk()
      reads this
    {
      threshold.Some? && 0 < threshold.value <= |guardians| && delay.Some?
    }

    method Approve(signer: Address, x: Address, env: Env) returns (r: Outcome)
      requires Valid()
      modifies this
      ensures Valid() && r != Fault
      ensures r == Done <==> Recovery.Approve(old(View()), signer, x, env).Some?
      ensures View() == if r == Done then Recovery.Approve(old(View()), signer, x, env).value else old(View())
    {
      if guardians == [] || signer !in guardians {
        return Rejected;
      }
      if x == env.self || Some(x) == owner || x in env.contracts || !env.room {
        return Rejected;
      }
      if !StoredConfigOk() {
        return Fault;
      }
      if pendingOwner.Some? {
        if expiresAt.None? {
          return Fault;
        }
        if env.height <= expiresAt.value {
          return Rejected;
        }
        r := RecordVote([], map[], None, signer, x, env);
      } else if expiresAt.Some? && env.height > expiresAt.value {
        r := RecordVote([], map[], None, signer, x, env);
      } else {
        r := RecordVote(votes, voteMap, expiresAt, signer, x, env);
      }
    }

    /** Record a vote on top of `base`, the votes that still stand. */
    method RecordVote(base: seq<Vote>, ghost m: map<Address, Address>, expiry: Option<nat>, signer: Address, x: Address,
                      env: Env) returns (r: Outcome)
      requires Valid() && guardians != [] && signer in guardians && NewOwnerOk(View(), x, env) && env.room
      requires Represents(base, m) && m.Keys <= Elements(guardians) && (base == [] <==> expiry.None?)
               && (base == [] <==> m == map[])
      requires Current(View().round, env.height) == if base == [] then Idle else Voting(m, expiry.value)
      modifies this
      ensures Valid() && r != Fault
      ensures r == Done <==> Recovery.Approve(old(View()), signer, x, env).Some?
      ensures View() == if r == Done then Recovery.Approve(old(View()), signer, x, env).value else old(View())
    {
      hide Represents, Unique, Supporters, Current;
      var ok, next := CastVote(base, m, signer, x, threshold.value);
      if !ok {
        return Rejected;
      }
      ghost var m' := m[signer := x];
      assert m'.Keys <= Elements(guardians);
      var support := VotesForOwner(next, x, m');
      if |support| >= threshold.value {
        assert Elements(support) <= Elements(guardians) by { SupportersVote(m', x); }
        r := Decide(x, support, m', env);
      } else if pendingOwner.None? && executeAfter.Some? {
        r := Fault;
      } else {
        r := KeepVoting(next, m', if expiry.Some? then expiry.value else env.height + WINDOW);
      }
    }

    method KeepVoting(next: seq<Vote>, ghost m: map<Address, Address>, until: nat) returns (r: Outcome)
      requires Valid() && guardians != [] && next != [] && m != map[] && Represents(next, m)
               && m.Keys <= Elements(guardians)
      modifies this
      ensures Valid() && r != Fault
      ensures r == Done <==> until <= MAX_UINT64
      ensures View() == if r == Done then old(View()).(round := Voting(m, until)) else old(View())
    {
      hide Represents, Unique;
      if until > MAX_UINT64 {
        return Rejected;
      }
      votes, voteMap, expiresAt := next, m, Some(until);
      pendingOwner, executeAfter, approvals := None, None, [];
      r := Done;
    }

    /** Enough votes: fix the owner, the approvals and the window. */
    method Decide(x: Address, support: seq<Address>, ghost m: map<Address, Address>, env: Env) returns (r: Outcome)
      requires Valid() && guardians != []
      requires Unique(support) && Elements(support) == Supporters(m, x) && m.Keys <= Elements(guardians)
               && |support| >= threshold.value
      modifies this
      ensures Valid() && r != Fault
      ensures r == Done <==> env.height + old(delay.value) + WINDOW <= MAX_UINT64
      ensures r == Done ==>
                View() == old(View()).(round := Ready(x, Supporters(m, x), env.height + old(delay.value),
                                                      env.height + old(delay.value) + WINDOW))
      ensures r != Done ==> View() == old(View())
    {
      hide Unique, Represents;
      SupportersVote(m, x);
      EmptyRepresents();
      var after := env.height + delay.value;
      if after > MAX_UINT64 || after + WINDOW > MAX_UINT64 {
        return Rejected;
      }
      pendingOwner, approvals, executeAfter, expiresAt := Some(x), support, Some(after), Some(after + WINDOW);
      votes, voteMap := [], map[];
      r := Done;
    }

    method Execute(signer: Address, x: Address, env: Env) returns (r: Outcome)
      requires Valid()
      modifies this
      ensures Valid() && r != Fault
      ensures r == Done <==> Recovery.Execute(old(View()), signer, x, env).Some?
      ensures View() == if r == Done then Recovery.Execute(old(View()), signer, x, env).value else old(View())
    {
      if guardians == [] || signer !in guardians {
        return Rejected;
      }
      if x == env.self || Some(x) == owner || x in env.contracts || !env.room {
        return Rejected;
      }
      if !StoredConfigOk() {
        return Fault;
      }
      if pendingOwner.None? {
        if |votes| > 0 && expiresAt.None? {
          return Fault;
        }
        return Rejected;
      }
      if pendingOwner.value != x {
        return Rejected;
      }
      if |approvals| < threshold.value || executeAfter.None? || expiresAt.None? {
        return Fault;
      }
      if env.height > expiresAt.value || env.height < executeAfter.value || epoch == MAX_UINT64 {
        return Rejected;
      }
      owner, epoch := pendingOwner, epoch + 1;
      ClearPending();
      r := Done;
    }

    method Cancel(signer: Address) returns (r: Outcome)
      requires Valid()
      modifies this
      ensures Valid() && r != Fault
      ensures r == Done <==> Recovery.Cancel(old(View()), signer).Some?
      ensures View() == if r == Done then Recovery.Cancel(old(View()), signer).value else old(View())
    {
      if Some(signer) != owner {
        return Rejected;
      }
      ClearPending();
      r := Done;
    }

    method Clear(signer: Address) returns (r: Outcome)
      requires Valid()
      modifies this
      ensures Valid() && r != Fault
      ensures r == Done <==> Recovery.Clear(old(View()), signer).Some?
      ensures View() == if r == Done then Recovery.Clear(old(View()), signer).value else old(View())
    {
      if Some(signer) != owner {
        return Rejected;
      }
      guardians, threshold, delay := [], None, None;
      ClearPending();
      r := Done;
    }

    method SetOwner(signer: Address, x: Address, env: Env) returns (r: Outcome)
      requires Valid()
      modifies this
      ensures Valid() && r != Fault
      ensures r == Done <==> Recovery.SetOwner(old(View()), signer, x, env).Some?
      ensures View() == if r == Done then Recovery.SetOwner(old(View()), signer, x, env).value else old(View())
    {
      if Some(signer) != owner || x == env.self || !env.room {
        return Rejected;
      }
      owner := Some(x);
      ClearPending();
      epoch, grants := 0, map[];
      r := Done;
    }

    method AddSessionKey(signer: Address, key: Address, g: Grant, env: Env) returns (r: Outcome)
      requires Valid()
      modifies this`grants
      ensures Valid() && r != Fault
      ensures r == Done <==> AddKey(old(View()), signer, key, g, env).Some?
      ensures View() == if r == Done then AddKey(old(View()), signer, key, g, env).value else old(View())
    {
      if Some(signer) != owner || (key !in grants && |grants| >= MAX_SESSION_KEYS) {
        return Rejected;
      }
      if (g.limit == 0 && g.call.None?) || !env.room {
        return Rejected;
      }
      grants := grants[key := g.(spent := 0, epoch := epoch)];
      r := Done;
    }

    method RevokeSessionKey(signer: Address, key: Address) returns (r: Outcome)
      requires Valid()
      modifies this`grants
      ensures Valid() && r != Fault
      ensures r == Done <==> RevokeKey(old(View()), signer, key).Some?
      ensures View() == if r == Done then RevokeKey(old(View()), signer, key).value else old(View())
    {
      if Some(signer) != owner {
        return Rejected;
      }
      grants := grants - {key};
      r := Done;
    }

    /** Authorise a transfer signed by a session key and record what it spends. */
    method SessionTransfer(key: Address, dest: Address, value: nat, env: Env) returns (r: Outcome)
      requires Valid()
      modifies this`grants
      ensures Valid() && r != Fault
      ensures r == Done <==> KeyTransfer(old(View()), key, dest, value, env).Some?
      ensures View() == if r == Done then KeyTransfer(old(View()), key, dest, value, env).value else old(View())
    {
      if Some(key) == owner || key !in grants || grants[key].epoch != epoch {
        return Rejected;
      }
      var g := grants[key];
      if g.expires != 0 && env.height > g.expires {
        return Rejected;
      }
      if g.limit == 0 || (g.target.Some? && g.target.value != dest) || g.spent > g.limit || value > g.limit - g.spent
        || !env.room {
        return Rejected;
      }
      grants := grants[key := g.(spent := g.spent + value)];
      r := Done;
    }
  }
}

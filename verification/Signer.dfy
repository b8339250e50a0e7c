/** The private validator's last-sign state. A signature is handed out only after
    the state that covers it is on disk; a write may fail before the rename, or
    after it with the directory not synced, and the process may restart at any
    time. Sign bytes are injective in the canonical message, so they are kept as
    that message. */
module Signer {
  import opened Wrappers

  datatype Kind = Propose | Prevote | Precommit

  /** The canonical message that is signed. `body` is everything but the timestamp
      that is not listed: block id, proof-of-lock round. */
  datatype Canonical = Canonical(chain: string, kind: Kind, height: int, round: int, body: nat, time: int)

  /** A signature covers one canonical message; `salt` is what the signer adds. */
  datatype Signature = Signature(covers: Canonical, salt: nat)

  /** Height, round and step, ordered lexicographically. */
  datatype Hrs = Hrs(height: int, round: int, step: int)

  predicate Before(a: Hrs, b: Hrs) {
    a.height < b.height || (a.height == b.height && (a.round < b.round || (a.round == b.round && a.step < b.step)))
  }

  function StepOf(k: Kind): int {
    match k case Propose => 1 case Prevote => 2 case Precommit => 3
  }

  function HrsOf(m: Canonical): Hrs { Hrs(m.height, m.round, StepOf(m.kind)) }

  datatype LastSign = LastSign(hrs: Hrs, signed: Option<Signature>)

  datatype Check = Fresh | Same | Refused

  /** The consensus library's regression check. */
  function CheckHrs(last: LastSign, hrs: Hrs): (c: Check)
    ensures c == Fresh <==> Before(last.hrs, hrs)
    ensures c == Same <==> last.hrs == hrs && last.signed.Some?
  {
    if last.hrs.height > hrs.height then Refused
    else if last.hrs.height == hrs.height then
      if last.hrs.round > hrs.round then Refused
      else if last.hrs.round == hrs.round then
        if last.hrs.step > hrs.step then Refused
        else if last.hrs.step == hrs.step then (if last.signed.Some? then Same else Refused)
        else Fresh
      else Fresh
    else Fresh
  }

  predicate OnlyTimeDiffers(a: Canonical, b: Canonical) {
    a.(time := 0) == b.(time := 0)
  }

  // ---- Writing the state file ----

  datatype Written = Durable | NotWritten | Uncertain

  datatype Attempt = Renamed | Retryable | Fatal

  const RENAME_ATTEMPTS: nat := 24
  const INITIAL_DELAY: nat := 10
  const MAXIMUM_DELAY: nat := 250

  /** Replace the state file, retrying at most 24 times with a capped, doubling
      delay. `tries(n)` is what the n-th rename would do. */
  method RenameWithRetry(tries: nat -> Attempt) returns (ok: bool, attempts: nat, slept: nat)
    ensures 1 <= attempts <= RENAME_ATTEMPTS
    ensures forall n :: 0 <= n < attempts - 1 ==> tries(n) == Retryable
    ensures ok <==> tries(attempts - 1) == Renamed
    ensures !ok ==> tries(attempts - 1) == Fatal || attempts == RENAME_ATTEMPTS
    ensures slept <= (attempts - 1) * MAXIMUM_DELAY
  {
    var delay := INITIAL_DELAY;
    var attempt := 0;
    slept := 0;
    while attempt < RENAME_ATTEMPTS
      invariant 0 <= attempt < RENAME_ATTEMPTS && 0 <= delay <= MAXIMUM_DELAY && slept <= attempt * MAXIMUM_DELAY
      invariant forall n :: 0 <= n < attempt ==> tries(n) == Retryable
      decreases RENAME_ATTEMPTS - attempt
    {
      if tries(attempt) != Retryable {
        return tries(attempt) == Renamed, attempt + 1, slept;
      }
      if attempt + 1 == RENAME_ATTEMPTS {
        return false, attempt + 1, slept;
      }
      slept := slept + delay;
      delay := delay * 2;
      if delay > MAXIMUM_DELAY {
        delay := MAXIMUM_DELAY;
      }
      attempt := attempt + 1;
    }
    assert false;
  }

  /** What the file system does with one write of the state. */
  datatype FileSystem = FileSystem(directoryOk: bool, created: bool, modeSet: bool, written: bool, synced: bool,
                                   closed: bool, tries: nat -> Attempt, directorySynced: bool)

  ghost predicate RenameSucceeds(tries: nat -> Attempt) {
    exists n :: 0 <= n < RENAME_ATTEMPTS && tries(n) == Renamed && forall m :: 0 <= m < n ==> tries(m) == Retryable
  }

  /** The old file survives every failure before the rename. */
  ghost function WriteOutcome(fs: FileSystem): Written {
    if fs.directoryOk && fs.created && fs.modeSet && fs.written && fs.synced && fs.closed && RenameSucceeds(fs.tries)
    then (if fs.directorySynced then Durable else Uncertain) else NotWritten
  }

  /** A write leaves the old file exactly when a step before the rename fails, all 24
      renames fail in a way that may pass, or one fails for good first; otherwise the
      directory decides. */
  lemma WriteIs(fs: FileSystem)
    ensures WriteOutcome(fs) == NotWritten <==>
              || !fs.directoryOk || !fs.created || !fs.modeSet || !fs.written || !fs.synced || !fs.closed
              || (forall n :: 0 <= n < 24 ==> fs.tries(n) == Retryable)
              || exists n :: 0 <= n < 24 && fs.tries(n) == Fatal && forall m :: 0 <= m < n ==> fs.tries(m) == Retryable
    ensures WriteOutcome(fs) == Durable ==> fs.directorySynced
    ensures WriteOutcome(fs) == Uncertain ==> !fs.directorySynced
  {
    var n := 0;
    while n < 24 && fs.tries(n) == Retryable
      invariant 0 <= n <= 24 && forall m :: 0 <= m < n ==> fs.tries(m) == Retryable
    {
      n := n + 1;
    }
    if n < 24 {
      assert fs.tries(n) == Renamed || fs.tries(n) == Fatal;
    }
  }

  method WriteAtomically(fs: FileSystem) returns (w: Written)
    ensures w == WriteOutcome(fs)
  {
    w := NotWritten;
    if !fs.directoryOk || !fs.created || !fs.modeSet {
      return;
    }
    if !(fs.written && fs.synced) || !fs.closed {
      return;
    }
    var ok, attempts, _ := RenameWithRetry(fs.tries);
    if !ok {
      return;
    }
    w := if fs.directorySynced then Durable else Uncertain;
  }

  // ---- The signer ----

  /** What the outside decides during one request. */
  datatype Env = Env(signs: bool, salt: nat, write: Written)

  /** A request to sign. Votes of an unknown type, and votes with an extension
      that is not on a non-nil precommit, are refused. */
  datatype Request = Request(message: Canonical, knownType: bool, hasExtension: bool, nilBlock: bool)

  predicate WellFormed(q: Request) {
    q.knownType && (q.hasExtension ==> q.message.kind == Precommit && !q.nilBlock)
  }

  datatype Release = Release(message: Canonical, signature: Signature)

  /** `mayLoad` are the states a restart can find on disk. */
  datatype State = State(memory: LastSign, mayLoad: set<LastSign>, released: seq<Release>)

  function AfterWrite(mayLoad: set<LastSign>, next: LastSign, w: Written): set<LastSign> {
    match w
    case Durable => {next}
    case NotWritten => mayLoad
    case Uncertain => mayLoad + {next}
  }

  /** One signing request. A repeated step gets the stored signature again, with
      the stored timestamp put back into the message. */
  ghost function Sign(s: State, q: Request, env: Env): State {
    match CheckHrs(s.memory, HrsOf(q.message))
    case Refused => s
    case Same =>
      var last := s.memory.signed.value;
      if WellFormed(q) && OnlyTimeDiffers(last.covers, q.message)
      then s.(released := s.released + [Release(q.message.(time := last.covers.time), last)]) else s
    case Fresh =>
      if !WellFormed(q) || !env.signs then s
      else
        var signature := Signature(q.message, env.salt);
        var next := LastSign(HrsOf(q.message), Some(signature));
        var mayLoad := AfterWrite(s.mayLoad, next, env.write);
        if env.write == Durable then State(next, mayLoad, s.released + [Release(q.message, signature)])
        else s.(mayLoad := mayLoad)
  }

  datatype Event =
    | SignEvent(request: Request, env: Env)
    | RestartEvent(found: LastSign, settled: bool)

  /** A restart reads one of the states the disk may hold. It is settled when what
      was read is what any later restart would read as well. */
  ghost predicate Possible(s: State, e: Event) {
    e.RestartEvent? ==> e.found in s.mayLoad
  }

  ghost function Step(s: State, e: Event): State
    requires Possible(s, e)
  {
    match e
    case SignEvent(q, env) => Sign(s, q, env)
    case RestartEvent(found, settled) => s.(memory := found, mayLoad := if settled then {found} else s.mayLoad)
  }

  /** A later restart could find something older than, or different from, what was read. */
  ghost predicate CouldRevert(s: State, found: LastSign) {
    exists m :: m in s.mayLoad && m != found && !Before(found.hrs, m.hrs)
  }

  ghost predicate Stable(s: State, e: Event) {
    e.RestartEvent? && !e.settled ==> !CouldRevert(s, e.found)
  }

  ghost predicate StableRun(s: State, es: seq<Event>)
    decreases |es|
  {
    es != [] ==> Possible(s, es[0]) && Stable(s, es[0]) && StableRun(Step(s, es[0]), es[1..])
  }

  ghost predicate PossibleRun(s: State, es: seq<Event>)
    decreases |es|
  {
    es != [] ==> Possible(s, es[0]) && PossibleRun(Step(s, es[0]), es[1..])
  }

  ghost function Run(s: State, es: seq<Event>): State
    requires PossibleRun(s, es)
    decreases |es|
  {
    if es == [] then s else Run(Step(s, es[0]), es[1..])
  }

  // ---- Safety ----

  /** `last` knows about release `r`: it is past it, or holds exactly it. */
  ghost predicate Knows(last: LastSign, r: Release) {
    Before(HrsOf(r.message), last.hrs) || (last.hrs == HrsOf(r.message) && last.signed == Some(r.signature))
  }

  ghost predicate SelfConsistent(last: LastSign) {
    last.signed.Some? ==> HrsOf(last.signed.value.covers) == last.hrs
  }

  ghost predicate Inv(s: State) {
    && (forall i :: 0 <= i < |s.released| ==>
      Knows(s.memory, s.released[i]) && s.released[i].signature.covers == s.released[i].message)
    && (forall m, i :: m in s.mayLoad && 0 <= i < |s.released| ==> Knows(m, s.released[i]))
    && s.memory in s.mayLoad
    && SelfConsistent(s.memory) && (forall m :: m in s.mayLoad ==> SelfConsistent(m))
    && (forall m :: m in s.mayLoad ==> m == s.memory || (Before(s.memory.hrs, m.hrs) && m.signed.Some?))
    && Ordered(s.released)
  }

  /** Releases never go back, and one step has one message and one signature. */
  ghost predicate Ordered(rs: seq<Release>) {
    forall i, j :: 0 <= i < j < |rs| ==>
      Before(HrsOf(rs[i].message), HrsOf(rs[j].message)) || rs[i] == rs[j]
  }

  lemma SignIsSafe(s: State, q: Request, env: Env)
    requires Inv(s)
    ensures Inv(Sign(s, q, env))
    ensures s.released <= Sign(s, q, env).released
  {
    var s' := Sign(s, q, env);
    if s'.released != s.released {
      var r := s'.released[|s.released|];
      forall i | 0 <= i < |s.released|
        ensures Before(HrsOf(s.released[i].message), HrsOf(r.message)) || s.released[i] == r
      {
        assert Knows(s.memory, s.released[i]);
      }
    }
  }

  lemma RestartIsSafe(s: State, found: LastSign, settled: bool)
    requires Inv(s) && found in s.mayLoad && (settled || !CouldRevert(s, found))
    ensures Inv(Step(s, RestartEvent(found, settled)))
  {
  }

  /** Over every run whose restarts are stable: all releases of one step are the
      same message under the same signature, and steps never go back. */
  lemma {:induction false} RunIsSafe(s: State, es: seq<Event>)
    requires Inv(s) && StableRun(s, es)
    ensures PossibleRun(s, es) && Inv(Run(s, es)) && s.released <= Run(s, es).released
    decreases |es|
  {
    hide Inv, Sign;
    if es != [] {
      match es[0] {
        case SignEvent(q, env) => SignIsSafe(s, q, env);
        case RestartEvent(found, settled) => RestartIsSafe(s, found, settled);
      }
      RunIsSafe(Step(s, es[0]), es[1..]);
    }
  }

  lemma NoDoubleSign(s: State, i: nat, j: nat)
    requires Inv(s) && i < j < |s.released|
    ensures !Before(HrsOf(s.released[j].message), HrsOf(s.released[i].message))
    ensures HrsOf(s.released[i].message) == HrsOf(s.released[j].message) ==> s.released[i] == s.released[j]
    ensures s.released[i].signature.covers == s.released[i].message
  {
  }

  lemma FreshInv(hrs: Hrs)
    ensures Inv(State(LastSign(hrs, None), {LastSign(hrs, None)}, []))
  {
  }

  function Conflicting(m: Canonical): Canonical { m.(body := m.body + 1) }

  /** The condition on restarts is exact: after a restart that could still revert,
      signing what was found, a second restart and one more request hand out two
      different signatures for one step. */
  lemma UnstableRestartIsUnsafe(s: State, found: LastSign) returns (q: Request, other: LastSign, q': Request)
    requires Inv(s) && found in s.mayLoad && CouldRevert(s, found)
    ensures var env := Env(true, 0, Durable);
            var s1 := Step(s, RestartEvent(found, false));
            var s2 := Sign(s1, q, env);
            && other in s2.mayLoad
            && var s3 := Step(s2, RestartEvent(other, true));
               var s4 := Sign(s3, q', env);
               && |s4.released| == |s.released| + 2
               && var r, r' := s4.released[|s.released|], s4.released[|s.released| + 1];
                  HrsOf(r.message) == HrsOf(r'.message) && r != r'
  {
    other :| other in s.mayLoad && other != found && !Before(found.hrs, other.hrs);
    var m := found.signed.value.covers;
    q := Request(m, true, false, false);
    assert Before(other.hrs, found.hrs) || other.hrs == found.hrs;
    var m' := if Before(other.hrs, found.hrs) then Conflicting(m) else other.signed.value.covers;
    q' := Request(m', true, false, false);
    assert SelfConsistent(found) && SelfConsistent(other);
  }

  /** The failing case, concretely, from a new state file. The file is renamed but its
      directory is not synced, a restart reads the new file and signs from it, a power
      loss brings the old file back, and another message is signed for the same step. */
  lemma DoubleSignExample()
    ensures var empty := LastSign(Hrs(0, 0, 0), None);
            var m := Canonical("chain", Prevote, 1, 0, 7, 100);
            var written := LastSign(Hrs(1, 0, 2), Some(Signature(m, 0)));
            var q, q' := Request(m, true, false, false), Request(m.(body := 8), true, false, false);
            var es := [SignEvent(q, Env(true, 0, Uncertain)), RestartEvent(written, false),
                       SignEvent(q, Env(true, 0, Durable)), RestartEvent(empty, true),
                       SignEvent(q', Env(true, 0, Durable))];
            && PossibleRun(State(empty, {empty}, []), es)
            && Run(State(empty, {empty}, []), es).released
               == [Release(m, Signature(m, 0)), Release(m.(body := 8), Signature(m.(body := 8), 0))]
            && HrsOf(m) == HrsOf(m.(body := 8))
  {
    var empty := LastSign(Hrs(0, 0, 0), None);
    var m := Canonical("chain", Prevote, 1, 0, 7, 100);
    var written := LastSign(Hrs(1, 0, 2), Some(Signature(m, 0)));
    var q, q' := Request(m, true, false, false), Request(m.(body := 8), true, false, false);
    var e1, e2 := SignEvent(q, Env(true, 0, Uncertain)), RestartEvent(written, false);
    var e3, e4 := SignEvent(q, Env(true, 0, Durable)), RestartEvent(empty, true);
    var e5 := SignEvent(q', Env(true, 0, Durable));
    var s0 := State(empty, {empty}, []);
    var s1 := Step(s0, e1);
    assert s1 == State(empty, {empty, written}, []);
    var s2 := Step(s1, e2);
    var s3 := Step(s2, e3);
    assert s3 == State(written, {empty, written}, [Release(m, Signature(m, 0))]);
    var s4 := Step(s3, e4);
    var s5 := Step(s4, e5);
    RunFirst(s4, e5, []);
    assert [e5] + [] == [e5];
    RunFirst(s3, e4, [e5]);
    assert [e4] + [e5] == [e4, e5];
    RunFirst(s2, e3, [e4, e5]);
    assert [e3] + [e4, e5] == [e3, e4, e5];
    RunFirst(s1, e2, [e3, e4, e5]);
    assert [e2] + [e3, e4, e5] == [e2, e3, e4, e5];
    RunFirst(s0, e1, [e2, e3, e4, e5]);
    assert [e1] + [e2, e3, e4, e5] == [e1, e2, e3, e4, e5];
  }

  lemma RunFirst(s: State, e: Event, es: seq<Event>)
    requires Possible(s, e) && PossibleRun(Step(s, e), es)
    ensures PossibleRun(s, [e] + es) && Run(s, [e] + es) == Run(Step(s, e), es)
  {
    assert ([e] + es)[1..] == es;
  }

  // ---- The condition in terms of restarts and writes ----

  /** A restart could still revert exactly when it takes over a state that the process
      before it did not hold, that is, one whose write was reported as failed. */
  lemma RevertIff(s: State, found: LastSign)
    requires Inv(s) && found in s.mayLoad
    ensures CouldRevert(s, found) <==> found != s.memory
  {
  }

  /** What happened to the state file during an event, if it was written at all. */
  ghost function WriteOf(s: State, e: Event): Option<Written> {
    if e.SignEvent? && CheckHrs(s.memory, HrsOf(e.request.message)) == Fresh && WellFormed(e.request) && e.env.signs
    then Some(e.env.write) else None
  }

  /** No restart between a rename whose directory was not synced and the next durable
      write, unless the disk has settled. */
  ghost predicate QuietRun(s: State, unsynced: bool, es: seq<Event>)
    decreases |es|
  {
    es != [] ==>
      && Possible(s, es[0])
      && (es[0].RestartEvent? && unsynced ==> es[0].settled)
      && QuietRun(Step(s, es[0]),
                  if es[0].RestartEvent? then false
                  else if WriteOf(s, es[0]) == Some(Uncertain) then true
                  else if WriteOf(s, es[0]) == Some(Durable) then false
                  else unsynced,
                  es[1..])
  }

  /** An operator who keeps to that rule never signs twice. */
  lemma {:induction false} QuietRunIsStable(s: State, unsynced: bool, es: seq<Event>)
    requires QuietRun(s, unsynced, es) && (!unsynced ==> s.mayLoad == {s.memory})
    ensures StableRun(s, es)
    decreases |es|
  {
    if es != [] {
      var unsynced' :=
        if es[0].RestartEvent? then false
        else if WriteOf(s, es[0]) == Some(Uncertain) then true
        else if WriteOf(s, es[0]) == Some(Durable) then false
        else unsynced;
      QuietRunIsStable(Step(s, es[0]), unsynced', es[1..]);
    }
  }

  // ---- What one request gives ----

  /** The step of `m` is later than that of `last`: by height, then round, then step,
      where a proposal comes before a prevote and a prevote before a precommit. */
  ghost predicate Later(last: Hrs, m: Canonical) {
    var step := if m.kind == Propose then 1 else if m.kind == Prevote then 2 else 3;
    || m.height > last.height
    || (m.height == last.height && m.round > last.round)
    || (m.height == last.height && m.round == last.round && step > last.step)
  }

  /** The stored signature is for the same step and for a message that differs in its
      timestamp at most. */
  ghost predicate Repeats(last: LastSign, m: Canonical) {
    && last.signed.Some? && last.hrs == Hrs(m.height, m.round, StepOf(m.kind))
    && var c := last.signed.value.covers;
       c.chain == m.chain && c.kind == m.kind && c.height == m.height && c.round == m.round && c.body == m.body
  }

  ghost predicate Proper(q: Request) {
    q.knownType && (!q.hasExtension || (q.message.kind == Precommit && !q.nilBlock))
  }

  /** A later step is signed and released exactly when it is proper, the key signs and
      the new state is durable; a repeat of the last step, whatever its timestamp, gets
      the stored signature with the stored timestamp; nothing else is released. Memory
      moves only with a durable write, and the disk may hold what was renamed. */
  lemma SignIs(s: State, q: Request, env: Env)
    ensures var m, s' := q.message, Sign(s, q, env);
            var signature := Signature(m, env.salt);
            var next := LastSign(Hrs(m.height, m.round, StepOf(m.kind)), Some(signature));
            if Later(s.memory.hrs, m) && Proper(q) && env.signs then
              s' == (if env.write == Durable then State(next, {next}, s.released + [Release(m, signature)])
                     else if env.write == Uncertain then s.(mayLoad := s.mayLoad + {next}) else s)
            else if !Later(s.memory.hrs, m) && Repeats(s.memory, m) && Proper(q) then
              var last := s.memory.signed.value;
              s' == s.(released := s.released + [Release(m.(time := last.covers.time), last)])
            else s' == s
  {
  }

  // ---- The process ----

  /** What a process writes can be loaded again: from a state file that can be, no
      restart of a run refuses the file it finds, unless a negative height or round was
      signed. */
  lemma {:induction false} RunIsLoadable(s: State, es: seq<Event>)
    requires PossibleRun(s, es) && forall x :: x in s.mayLoad ==> DurablePrivValidator.Loadable(x)
    requires forall e :: e in es && e.SignEvent? ==> e.request.message.height >= 0 && e.request.message.round >= 0
    ensures forall x :: x in Run(s, es).mayLoad ==> DurablePrivValidator.Loadable(x)
    ensures DurablePrivValidator.Loadable(LastSign(Hrs(0, 0, 0), None))
    decreases |es|
  {
    if es != [] {
      RunIsLoadable(Step(s, es[0]), es[1..]);
    }
  }

  class DurablePrivValidator {
    var state: LastSign
    ghost var mayLoad: set<LastSign>
    ghost var released: seq<Release>

    ghost function View(): State
      reads this
    {
      State(state, mayLoad, released)
    }

    /** Load the state file; a malformed step is refused. */
    static predicate Loadable(last: LastSign) {
      last.hrs.height >= 0 && last.hrs.round >= 0 && 0 <= last.hrs.step <= 3
    }

    constructor (file: LastSign)
      requires Loadable(file)
      ensures View() == State(file, {file}, [])
    {
      state, mayLoad, released := file, {file}, [];
    }

    method Persist(next: LastSign, fs: FileSystem) returns (w: Written)
      modifies this
      ensures released == old(released) && mayLoad == AfterWrite(old(mayLoad), next, w)
      ensures state == if w == Durable then next else old(state)
      ensures w == WriteOutcome(fs)
    {
      w := WriteAtomically(fs);
      mayLoad := AfterWrite(mayLoad, next, w);
      if w == Durable {
        state := next;
      }
    }

    method SignVote(q: Request, signs: bool, salt: nat, fs: FileSystem) returns (r: Option<Release>)
      requires q.message.kind != Propose
      modifies this
      ensures View() == Sign(old(View()), q, Env(signs, salt, WriteOutcome(fs)))
      ensures released == old(released) + if r.Some? then [r.value] else []
    {
      r := None;
      if !q.knownType {
        return;
      }
      var check := CheckHrs(state, HrsOf(q.message));
      if check == Refused {
        return;
      }
      if q.hasExtension && !(q.message.kind == Precommit && !q.nilBlock) {
        return;
      }
      r := SignChecked(q, check, signs, salt, fs);
    }

    method SignProposal(m: Canonical, signs: bool, salt: nat, fs: FileSystem) returns (r: Option<Release>)
      requires m.kind == Propose
      modifies this
      ensures View() == Sign(old(View()), Request(m, true, false, false), Env(signs, salt, WriteOutcome(fs)))
      ensures released == old(released) + if r.Some? then [r.value] else []
    {
      var check := CheckHrs(state, HrsOf(m));
      if check == Refused {
        return None;
      }
      r := SignChecked(Request(m, true, false, false), check, signs, salt, fs);
    }

    /** The common part: repeat the stored signature, or sign, persist, release. */
    method SignChecked(q: Request, check: Check, signs: bool, salt: nat, fs: FileSystem) returns (r: Option<Release>)
      requires check == CheckHrs(state, HrsOf(q.message)) && check != Refused && WellFormed(q)
      modifies this
      ensures View() == Sign(old(View()), q, Env(signs, salt, WriteOutcome(fs)))
      ensures released == old(released) + if r.Some? then [r.value] else []
    {
      r := None;
      if check == Same {
        var last := state.signed.value;
        if last.covers == q.message || OnlyTimeDiffers(last.covers, q.message) {
          r := Some(Release(q.message.(time := last.covers.time), last));
          released := released + [r.value];
        }
        return;
      }
      if !signs {
        return;
      }
      var signature := Signature(q.message, salt);
      var w := Persist(LastSign(HrsOf(q.message), Some(signature)), fs);
      if w != Durable {
        return;
      }
      r := Some(Release(q.message, signature));
      released := released + [r.value];
    }

    /** Start again from what the file holds. */
    method Restart(file: LastSign, settled: bool) returns (ok: bool)
      requires file in mayLoad
      modifies this
      ensures ok <==> Loadable(file)
      ensures ok ==> View() == Step(old(View()), RestartEvent(file, settled))
      ensures !ok ==> View() == old(View())
    {
      ok := Loadable(file);
      if ok {
        state := file;
        mayLoad := if settled then {file} else mayLoad;
      }
    }
  }
}

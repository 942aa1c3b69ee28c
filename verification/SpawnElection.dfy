/** internal/daemon/spawn.go: many callers of EnsureRunning and the daemons they spawn,
    as interleaved steps over the lock on the pid file and the socket path. */
module SpawnElection {
  import opened Options

  /** What a run may contain besides the plain protocol: a spawner that stops waiting before its
      daemon answers, a daemon that exits, a probe that times out on a serving daemon, and a
      caller whose directory, pid file, lock or child process cannot be had. */
  datatype Config = Config(givesUp: bool, exits: bool, slowProbes: bool, setupFails: bool)

  /** Where a caller of EnsureRunning stands. */
  datatype Caller =
    | Start | Opening | WantLock | Reprobe | Stating | Removing | Spawning
    | Waiting(daemon: nat) | Leaving(ok: bool) | Done(ok: bool)

  datatype Daemon = Starting | Cleared | Listening | Serving | Dead

  datatype Socket = Absent | Stale | Owned(daemon: nat)

  datatype State = State(callers: seq<Caller>, lock: Option<nat>, socket: Socket, daemons: seq<Daemon>)

  // ----- Steps -----

  /** A ping would be answered. */
  predicate Answers(s: State) {
    s.socket.Owned? && s.socket.daemon < |s.daemons| && s.daemons[s.socket.daemon].Serving?
  }

  predicate ProbeFails(cfg: Config, s: State) { !Answers(s) || cfg.slowProbes }

  function Move(s: State, c: nat, pc: Caller): State
    requires c < |s.callers|
  {
    s.(callers := s.callers[c := pc])
  }

  ghost predicate CallerStep(cfg: Config, s: State, c: nat, t: State)
    requires c < |s.callers|
  {
    match s.callers[c]
    case Start => (Answers(s) && t == Move(s, c, Done(true))) || (ProbeFails(cfg, s) && t == Move(s, c, Opening))
    case Opening => t == Move(s, c, WantLock) || (cfg.setupFails && t == Move(s, c, Done(false)))
    case WantLock => (s.lock.None? && t == Move(s, c, Reprobe).(lock := Some(c))) || (cfg.setupFails && t == Move(s, c, Done(false)))
    case Reprobe => (Answers(s) && t == Move(s, c, Leaving(true))) || (ProbeFails(cfg, s) && t == Move(s, c, Stating))
    case Stating => t == Move(s, c, if s.socket.Absent? then Spawning else Removing)
    case Removing => t == Move(s, c, Spawning).(socket := Absent) || t == Move(s, c, Spawning)
    case Spawning =>
      t == Move(s, c, Waiting(|s.daemons|)).(daemons := s.daemons + [Starting]) ||
      (cfg.setupFails && t == Move(s, c, Leaving(false)))
    case Waiting(_) => (Answers(s) && t == Move(s, c, Leaving(true))) || (cfg.givesUp && t == Move(s, c, Leaving(false)))
    case Leaving(ok) => t == Move(s, c, Done(ok)).(lock := None)
    case Done(_) => false
  }

  function Turn(s: State, d: nat, phase: Daemon): State
    requires d < |s.daemons|
  {
    s.(daemons := s.daemons[d := phase])
  }

  /** NewServer clears the path and then binds it; binding fails on a path that exists. */
  ghost predicate DaemonStep(cfg: Config, s: State, d: nat, t: State)
    requires d < |s.daemons|
  {
    || (s.daemons[d].Starting? && t == Turn(s, d, Cleared).(socket := Absent))
    || (s.daemons[d].Cleared? && t == if s.socket.Absent? then Turn(s, d, Listening).(socket := Owned(d)) else Turn(s, d, Dead))
    || (s.daemons[d].Listening? && t == Turn(s, d, Serving))
    || (cfg.exits && !s.daemons[d].Dead? && (t == Turn(s, d, Dead) || t == Turn(s, d, Dead).(socket := Absent)))
  }

  ghost predicate Step(cfg: Config, s: State, t: State) {
    (exists c :: 0 <= c < |s.callers| && CallerStep(cfg, s, c, t)) ||
    (exists d :: 0 <= d < |s.daemons| && DaemonStep(cfg, s, d, t))
  }

  /** Nobody has started; there may be a socket left by a crash, or one daemon already serving. */
  predicate Initial(s: State) {
    (forall c :: 0 <= c < |s.callers| ==> s.callers[c].Start?) && s.lock.None? &&
    ((s.daemons == [] && !s.socket.Owned?) || (s.daemons == [Serving] && s.socket == Owned(0)))
  }

  ghost predicate IsRun(cfg: Config, run: seq<State>) {
    run != [] && Initial(run[0]) && forall i :: 0 <= i < |run| - 1 ==> Step(cfg, run[i], run[i + 1])
  }

  // ----- What is promised -----

  predicate HoldsLock(c: Caller) {
    c.Reprobe? || c.Stating? || c.Removing? || c.Spawning? || c.Waiting? || c.Leaving?
  }

  /** A live daemon's socket outlives the step, unless that daemon itself exits. */
  predicate KeepsLiveSocket(s: State, t: State) {
    s.socket.Owned? && s.socket.daemon < |s.daemons| && !s.daemons[s.socket.daemon].Dead? &&
    s.socket.daemon < |t.daemons| && !t.daemons[s.socket.daemon].Dead?
    ==> t.socket == s.socket
  }

  /** At most one daemon, and every caller that succeeded can reach it. */
  predicate SafeState(s: State) {
    |s.daemons| <= 1 &&
    forall c {:trigger s.callers[c]} :: 0 <= c < |s.callers| && (s.callers[c] == Leaving(true) || s.callers[c] == Done(true)) ==> Answers(s)
  }

  ghost predicate SafeRun(run: seq<State>) {
    (forall i :: 0 <= i < |run| ==> SafeState(run[i])) &&
    (forall i :: 0 <= i < |run| - 1 ==> KeepsLiveSocket(run[i], run[i + 1]))
  }

  /** The daemon answers before its spawner stops waiting, stays up, and answers every probe. */
  predicate Patient(cfg: Config) { !cfg.givesUp && !cfg.exits && !cfg.slowProbes }

  // ----- What a return value says -----

  predicate Succeeds(c: Caller) { c == Leaving(true) || c == Done(true) }

  predicate Fails(c: Caller) { c == Leaving(false) || c == Done(false) }

  /** The step from one state of a run to the next. */
  lemma StepOf(cfg: Config, run: seq<State>, i: nat)
    requires IsRun(cfg, run) && i + 1 < |run|
    ensures Step(cfg, run[i], run[i + 1])
  {
  }

  /** A caller that stands elsewhere after a step has taken it. */
  lemma MovedCaller(cfg: Config, s: State, t: State, c: nat)
    requires Step(cfg, s, t)
    ensures |s.callers| == |t.callers|
    ensures c < |s.callers| && s.callers[c] != t.callers[c] ==> CallerStep(cfg, s, c, t)
  {
    if k :| 0 <= k < |s.callers| && CallerStep(cfg, s, k, t) {
      CallerShape(cfg, s, k, t);
    }
  }

  lemma ResultStep(cfg: Config, s: State, c: nat, t: State)
    requires c < |s.callers| && CallerStep(cfg, s, c, t)
    ensures Succeeds(t.callers[c]) && !Succeeds(s.callers[c]) ==> Answers(s)
    ensures Fails(t.callers[c]) && !Fails(s.callers[c]) ==> if s.callers[c].Waiting? then cfg.givesUp else cfg.setupFails
    ensures Electing(t.callers[c]) && !Electing(s.callers[c]) ==> s.callers[c].Reprobe? && ProbeFails(cfg, s)
  {
  }

  /** Whatever fails, nil is returned only on a probe that a serving daemon answered. */
  lemma {:induction false} NilOnlyOnAnswer(cfg: Config, run: seq<State>, i: nat, c: nat)
    requires IsRun(cfg, run) && i + 1 < |run| && c < |run[i].callers| && c < |run[i + 1].callers|
    requires !Succeeds(run[i].callers[c]) && Succeeds(run[i + 1].callers[c])
    ensures Answers(run[i])
  {
    StepOf(cfg, run, i);
    MovedCaller(cfg, run[i], run[i + 1], c);
    ResultStep(cfg, run[i], c, run[i + 1]);
  }

  /** An error is returned only when the caller's set-up fails, or when the spawner has waited out
      its time. */
  lemma {:induction false} ErrorOnlyOnFailure(cfg: Config, run: seq<State>, i: nat, c: nat)
    requires IsRun(cfg, run) && i + 1 < |run| && c < |run[i].callers| && c < |run[i + 1].callers|
    requires !Fails(run[i].callers[c]) && Fails(run[i + 1].callers[c])
    ensures if run[i].callers[c].Waiting? then cfg.givesUp else cfg.setupFails
  {
    StepOf(cfg, run, i);
    MovedCaller(cfg, run[i], run[i + 1], c);
    ResultStep(cfg, run[i], c, run[i + 1]);
  }

  /** Between its probe under the lock and its spawn. */
  predicate Electing(c: Caller) { c.Stating? || c.Removing? || c.Spawning? }

  /** In state `j` caller `c` holds the lock and probes in vain. */
  predicate ProbesInVain(cfg: Config, s: State, c: nat) {
    c < |s.callers| && s.callers[c].Reprobe? && s.lock == Some(c) && ProbeFails(cfg, s)
  }

  lemma ElectedStep(cfg: Config, run: seq<State>, i: nat, c: nat)
    requires IsRun(cfg, run) && i + 1 < |run| && c < |run[i + 1].callers| && Electing(run[i + 1].callers[c])
    ensures c < |run[i].callers| && (Electing(run[i].callers[c]) || ProbesInVain(cfg, run[i], c))
  {
    StepOf(cfg, run, i);
    MovedCaller(cfg, run[i], run[i + 1], c);
    if !Electing(run[i].callers[c]) {
      ResultStep(cfg, run[i], c, run[i + 1]);
      MutualExclusion(cfg, run, i);
      HolderIs(run[i], c);
    }
  }

  /** Only a caller that probed in vain while it held the lock goes on to unlink and to spawn. */
  lemma {:induction false} SpawnsOnlyUnanswered(cfg: Config, run: seq<State>, i: nat, c: nat) returns (j: nat)
    requires IsRun(cfg, run) && i < |run| && c < |run[i].callers| && Electing(run[i].callers[c])
    ensures j < i && ProbesInVain(cfg, run[j], c)
    ensures forall k {:trigger run[k]} :: j < k <= i ==> c < |run[k].callers| && Electing(run[k].callers[c])
    decreases i
  {
    NotAtFirst(cfg, run, i, c);
    ElectedStep(cfg, run, i - 1, c);
    if Electing(run[i - 1].callers[c]) {
      j := SpawnsOnlyUnanswered(cfg, run, i - 1, c);
    } else {
      j := i - 1;
    }
  }

  lemma NotAtFirst(cfg: Config, run: seq<State>, i: nat, c: nat)
    requires IsRun(cfg, run) && i < |run| && c < |run[i].callers| && !run[i].callers[c].Start?
    ensures i > 0
  {
  }

  lemma HolderIs(s: State, c: nat)
    requires LockInv(s) && c < |s.callers| && HoldsLock(s.callers[c])
    ensures s.lock == Some(c)
  {
  }

  /** A step adds at most one daemon, and then some caller was about to spawn it. */
  lemma {:induction false} DaemonsOnlySpawned(cfg: Config, run: seq<State>, i: nat) returns (c: nat)
    requires IsRun(cfg, run) && i + 1 < |run| && |run[i + 1].daemons| != |run[i].daemons|
    ensures c < |run[i].callers| && run[i].callers[c].Spawning? && run[i + 1].daemons == run[i].daemons + [Starting]
  {
    StepOf(cfg, run, i);
    c :| 0 <= c < |run[i].callers| && CallerStep(cfg, run[i], c, run[i + 1]);
  }

  // ----- The lock -----

  predicate LockInv(s: State) {
    (s.lock.Some? ==> s.lock.value < |s.callers|) &&
    forall c {:trigger s.callers[c]} :: 0 <= c < |s.callers| ==> (HoldsLock(s.callers[c]) <==> s.lock == Some(c))
  }

  /** However the daemons behave, only the holder of the lock is between probing and leaving. */
  lemma {:induction false} MutualExclusion(cfg: Config, run: seq<State>, i: nat)
    requires IsRun(cfg, run) && i < |run|
    ensures LockInv(run[i])
  {
    if i > 0 {
      MutualExclusion(cfg, run, i - 1);
      assert Step(cfg, run[i - 1], run[i - 1 + 1]);
      LockKept(cfg, run[i - 1], run[i]);
    }
  }

  lemma LockKept(cfg: Config, s: State, t: State)
    requires Step(cfg, s, t) && LockInv(s)
    ensures LockInv(t)
  {
    if c :| 0 <= c < |s.callers| && CallerStep(cfg, s, c, t) {
      CallerShape(cfg, s, c, t);
    }
  }

  /** A step moves one caller, and changes the lock only to take it when free or to leave it. */
  lemma CallerShape(cfg: Config, s: State, c: nat, t: State)
    requires c < |s.callers| && CallerStep(cfg, s, c, t)
    ensures t.callers == s.callers[c := t.callers[c]]
    ensures t.lock == if t.callers[c].Reprobe? then Some(c) else if s.callers[c].Leaving? then None else s.lock
    ensures t.callers[c].Reprobe? ==> s.lock.None? && !HoldsLock(s.callers[c])
    ensures s.callers[c].Leaving? ==> !HoldsLock(t.callers[c])
    ensures !t.callers[c].Reprobe? && !s.callers[c].Leaving? ==> HoldsLock(t.callers[c]) == HoldsLock(s.callers[c])
  {
  }

  // ----- The invariant behind safety -----

  /** The one daemon is on its way up while its spawner waits with the lock, or it is serving. */
  predicate SocketInv(s: State) {
    (s.daemons == [] && !s.socket.Owned?) || (|s.daemons| == 1 && FirstDaemonInv(s))
  }

  predicate FirstDaemonInv(s: State)
    requires |s.daemons| == 1
  {
    match s.daemons[0]
    case Starting => !s.socket.Owned?
    case Cleared => s.socket.Absent?
    case Listening | Serving => s.socket == Owned(0)
    case Dead => false
  }

  predicate SpawnerInv(s: State) {
    s.daemons != [] && !s.daemons[0].Serving? ==> s.lock.Some? && s.lock.value < |s.callers| && s.callers[s.lock.value].Waiting?
  }

  predicate CallerInv(s: State, c: Caller) {
    match c
    case Stating | Removing | Spawning => s.daemons == []
    case Waiting(_) => s.daemons != []
    case Leaving(ok) => ok ==> Answers(s)
    case Done(ok) => ok ==> Answers(s)
    case _ => true
  }

  predicate Inv(s: State) {
    LockInv(s) && SocketInv(s) && SpawnerInv(s) &&
    forall c {:trigger s.callers[c]} :: 0 <= c < |s.callers| ==> CallerInv(s, s.callers[c])
  }

  lemma CallerKeepsSocket(cfg: Config, s: State, c: nat, t: State)
    requires Patient(cfg) && Inv(s) && c < |s.callers| && CallerStep(cfg, s, c, t)
    ensures SocketInv(t) && SpawnerInv(t) && KeepsLiveSocket(s, t)
    ensures Answers(s) ==> Answers(t)
    ensures s.daemons != t.daemons ==> s.daemons == [] && s.lock == Some(c)
  {
    CallerShape(cfg, s, c, t);
  }

  lemma CallerKeeps(cfg: Config, s: State, c: nat, t: State)
    requires Patient(cfg) && Inv(s) && c < |s.callers| && CallerStep(cfg, s, c, t)
    ensures Inv(t) && KeepsLiveSocket(s, t)
  {
    LockKept(cfg, s, t);
    CallerShape(cfg, s, c, t);
    CallerKeepsSocket(cfg, s, c, t);
  }

  lemma DaemonKeeps(cfg: Config, s: State, d: nat, t: State)
    requires Patient(cfg) && Inv(s) && d < |s.daemons| && DaemonStep(cfg, s, d, t)
    ensures Inv(t) && KeepsLiveSocket(s, t)
  {
    LockKept(cfg, s, t);
  }

  lemma {:induction false} InvHolds(cfg: Config, run: seq<State>, i: nat)
    requires Patient(cfg) && IsRun(cfg, run) && i < |run|
    ensures Inv(run[i])
    ensures i > 0 ==> KeepsLiveSocket(run[i - 1], run[i])
  {
    if i > 0 {
      InvHolds(cfg, run, i - 1);
      var s, t := run[i - 1], run[i];
      assert Step(cfg, s, run[i - 1 + 1]);
      if c :| 0 <= c < |s.callers| && CallerStep(cfg, s, c, t) {
        CallerKeeps(cfg, s, c, t);
      } else {
        var d :| 0 <= d < |s.daemons| && DaemonStep(cfg, s, d, t);
        DaemonKeeps(cfg, s, d, t);
      }
    }
  }

  /** Any number of callers, any interleaving: one daemon at most, its socket never unlinked,
      and success only while it serves. */
  lemma {:induction false} SingleSpawn(cfg: Config, run: seq<State>)
    requires Patient(cfg) && IsRun(cfg, run)
    ensures SafeRun(run)
  {
    forall i | 0 <= i < |run| ensures SafeState(run[i]) { InvHolds(cfg, run, i); }
    forall i | 0 <= i < |run| - 1 ensures KeepsLiveSocket(run[i], run[i + 1]) { InvHolds(cfg, run, i + 1); }
  }

  // ----- Every call returns -----

  function CallerRank(c: Caller): nat {
    match c
    case Start => 12
    case Opening => 11
    case WantLock => 10
    case Reprobe => 9
    case Stating => 8
    case Removing => 7
    case Spawning => 6
    case Waiting(_) => 2
    case Leaving(_) => 1
    case Done(_) => 0
  }

  function DaemonRank(d: Daemon): nat {
    match d
    case Starting => 3
    case Cleared => 2
    case Listening => 1
    case Serving => 0
    case Dead => 0
  }

  function CallerRanks(cs: seq<Caller>): nat {
    if cs == [] then 0 else CallerRank(cs[0]) + CallerRanks(cs[1..])
  }

  function DaemonRanks(ds: seq<Daemon>): nat {
    if ds == [] then 0 else DaemonRank(ds[0]) + DaemonRanks(ds[1..])
  }

  function Measure(s: State): nat { CallerRanks(s.callers) + DaemonRanks(s.daemons) }

  lemma {:induction false} CallerMoves(cs: seq<Caller>, c: nat, pc: Caller)
    requires c < |cs|
    ensures CallerRanks(cs[c := pc]) == CallerRanks(cs) - CallerRank(cs[c]) + CallerRank(pc)
  {
    if c == 0 {
      assert cs[0 := pc][1..] == cs[1..];
    } else {
      CallerMoves(cs[1..], c - 1, pc);
      assert cs[c := pc][1..] == cs[1..][c - 1 := pc];
    }
  }

  lemma {:induction false} DaemonMoves(ds: seq<Daemon>, d: nat, phase: Daemon)
    requires d < |ds|
    ensures DaemonRanks(ds[d := phase]) == DaemonRanks(ds) - DaemonRank(ds[d]) + DaemonRank(phase)
  {
    if d == 0 {
      assert ds[0 := phase][1..] == ds[1..];
    } else {
      DaemonMoves(ds[1..], d - 1, phase);
      assert ds[d := phase][1..] == ds[1..][d - 1 := phase];
    }
  }

  lemma {:induction false} DaemonAdds(ds: seq<Daemon>, d: Daemon)
    ensures DaemonRanks(ds + [d]) == DaemonRanks(ds) + DaemonRank(d)
  {
    if ds == [] {
      assert ds + [d] == [d];
    } else {
      DaemonAdds(ds[1..], d);
      assert (ds + [d])[1..] == ds[1..] + [d];
    }
  }

  lemma CallerProgress(cfg: Config, s: State, c: nat, t: State)
    requires c < |s.callers| && CallerStep(cfg, s, c, t)
    ensures Measure(t) < Measure(s)
  {
    assert |t.callers| == |s.callers| && t.callers == s.callers[c := t.callers[c]];
    CallerMoves(s.callers, c, t.callers[c]);
    DaemonAdds(s.daemons, Starting);
  }

  lemma DaemonProgress(cfg: Config, s: State, d: nat, t: State)
    requires !cfg.exits && d < |s.daemons| && DaemonStep(cfg, s, d, t)
    ensures Measure(t) < Measure(s)
  {
    DaemonMoves(s.daemons, d, t.daemons[d]);
  }

  /** No run is longer than its first state allows. */
  lemma {:induction false} RunsEnd(cfg: Config, run: seq<State>, i: nat)
    requires Patient(cfg) && IsRun(cfg, run) && i < |run|
    ensures i + Measure(run[i]) <= Measure(run[0])
  {
    if i > 0 {
      RunsEnd(cfg, run, i - 1);
      var s, t := run[i - 1], run[i];
      assert Step(cfg, s, run[i - 1 + 1]);
      if c :| 0 <= c < |s.callers| && CallerStep(cfg, s, c, t) {
        CallerProgress(cfg, s, c, t);
      } else {
        var d :| 0 <= d < |s.daemons| && DaemonStep(cfg, s, d, t);
        DaemonProgress(cfg, s, d, t);
      }
    }
  }

  /** While some caller has not returned, some step without a failure can be taken. */
  lemma {:induction false} NoDeadlock(cfg: Config, s: State, c: nat) returns (t: State)
    requires !cfg.exits && Inv(s) && c < |s.callers| && !s.callers[c].Done?
    ensures Step(cfg, s, t)
    decreases s.callers[c].WantLock?
  {
    if s.callers[c].WantLock? && s.lock.Some? {
      t := NoDeadlock(cfg, s, s.lock.value);
    } else if s.callers[c].Waiting? && !Answers(s) {
      t := if s.daemons[0].Starting? then Turn(s, 0, Cleared).(socket := Absent)
           else if s.daemons[0].Cleared? then Turn(s, 0, Listening).(socket := Owned(0))
           else Turn(s, 0, Serving);
      assert DaemonStep(cfg, s, 0, t);
    } else {
      t := Next(s, c);
      assert CallerStep(cfg, s, c, t);
    }
  }

  function Next(s: State, c: nat): State
    requires c < |s.callers|
  {
    match s.callers[c]
    case Start => Move(s, c, if Answers(s) then Done(true) else Opening)
    case Opening => Move(s, c, WantLock)
    case WantLock => Move(s, c, Reprobe).(lock := Some(c))
    case Reprobe => Move(s, c, if Answers(s) then Leaving(true) else Stating)
    case Stating => Move(s, c, if s.socket.Absent? then Spawning else Removing)
    case Removing => Move(s, c, Spawning).(socket := Absent)
    case Spawning => Move(s, c, Waiting(|s.daemons|)).(daemons := s.daemons + [Starting])
    case Waiting(_) => Move(s, c, Leaving(true))
    case Leaving(ok) => Move(s, c, Done(ok)).(lock := None)
    case Done(_) => s
  }

  ghost predicate Stuck(cfg: Config, s: State) { forall t :: !Step(cfg, s, t) }

  predicate NoneFailed(s: State) {
    forall c {:trigger s.callers[c]} :: 0 <= c < |s.callers| ==> s.callers[c] != Leaving(false) && s.callers[c] != Done(false)
  }

  lemma {:induction false} NoneFails(cfg: Config, run: seq<State>, i: nat)
    requires !cfg.givesUp && !cfg.setupFails && IsRun(cfg, run) && i < |run|
    ensures NoneFailed(run[i]) && |run[i].callers| == |run[0].callers|
  {
    if i > 0 {
      NoneFails(cfg, run, i - 1);
      var s, t := run[i - 1], run[i];
      assert Step(cfg, s, run[i - 1 + 1]);
      if c :| 0 <= c < |s.callers| && CallerStep(cfg, s, c, t) {
        CallerShape(cfg, s, c, t);
      }
    }
  }

  /** A run that can go no further has returned nil to every caller, with a daemon serving. */
  lemma {:induction false} EveryCallSucceeds(cfg: Config, run: seq<State>)
    requires Patient(cfg) && !cfg.setupFails && IsRun(cfg, run)
    requires Stuck(cfg, run[|run| - 1])
    ensures var last := run[|run| - 1];
            forall c :: 0 <= c < |last.callers| ==> last.callers[c] == Done(true) && Answers(last)
  {
    var last := run[|run| - 1];
    InvHolds(cfg, run, |run| - 1);
    NoneFails(cfg, run, |run| - 1);
    forall c | 0 <= c < |last.callers| ensures last.callers[c] == Done(true) && Answers(last) {
      if !last.callers[c].Done? {
        var t := NoDeadlock(cfg, last, c);
      }
    }
  }

  // ----- Each of the three assumptions is needed -----

  ghost predicate Reaches(cfg: Config, s: State) { exists run :: IsRun(cfg, run) && run[|run| - 1] == s }

  lemma Begin(cfg: Config, s: State)
    requires Initial(s)
    ensures Reaches(cfg, s)
  {
    assert IsRun(cfg, [s]);
  }

  lemma Then(cfg: Config, s: State, t: State)
    requires Reaches(cfg, s) && Step(cfg, s, t)
    ensures Reaches(cfg, t)
  {
    var run :| IsRun(cfg, run) && run[|run| - 1] == s;
    var longer := run + [t];
    forall i | 0 <= i < |longer| - 1 ensures Step(cfg, longer[i], longer[i + 1]) {
      if i < |run| - 1 {
        assert Step(cfg, run[i], run[i + 1]);
      }
    }
    assert IsRun(cfg, longer) && longer[|longer| - 1] == t;
  }

  /** The step `Next` gives, when it is one. */
  lemma Goes(cfg: Config, s: State, c: nat) returns (t: State)
    requires Reaches(cfg, s) && c < |s.callers| && CallerStep(cfg, s, c, Next(s, c))
    ensures t == Next(s, c) && Reaches(cfg, t)
  {
    t := Next(s, c);
    Then(cfg, s, t);
  }

  /** A caller that finds the socket path empty or dead goes on to spawn. */
  lemma Spawns(cfg: Config, s: State, c: nat) returns (t: State)
    requires Reaches(cfg, s) && c < |s.callers| && s.callers[c].Start? && s.lock.None?
    requires !Answers(s) && s.socket.Absent?
    ensures Reaches(cfg, t)
    ensures t == State(s.callers[c := Waiting(|s.daemons|)], Some(c), Absent, s.daemons + [Starting])
  {
    t := Goes(cfg, s, c);
    t := Goes(cfg, t, c);
    t := Goes(cfg, t, c);
    t := Goes(cfg, t, c);
    t := Goes(cfg, t, c);
    t := Goes(cfg, t, c);
    assert t.callers == s.callers[c := Waiting(|s.daemons|)];
  }

  lemma Fresh(cfg: Config) returns (s: State)
    ensures s == State([Start, Start], None, Absent, []) && Reaches(cfg, s)
  {
    s := State([Start, Start], None, Absent, []);
    Begin(cfg, s);
  }

  /** A spawner that stops waiting lets the next caller spawn again. */
  lemma GivingUpSpawnsTwo(cfg: Config) returns (s: State)
    requires cfg.givesUp
    ensures Reaches(cfg, s) && |s.daemons| == 2
  {
    s := Fresh(cfg);
    s := Spawns(cfg, s, 0);
    var left := Move(s, 0, Leaving(false));
    assert CallerStep(cfg, s, 0, left);
    Then(cfg, s, left);
    s := Goes(cfg, left, 0);
    s := Spawns(cfg, s, 1);
  }

  /** The first caller's daemon serves and the caller has returned. */
  lemma FirstServes(cfg: Config) returns (s: State)
    ensures Reaches(cfg, s) && s == State([Done(true), Start], None, Owned(0), [Serving])
  {
    s := Fresh(cfg);
    s := Spawns(cfg, s, 0);
    s := Rises(cfg, s);
    s := Goes(cfg, s, 0);
    s := Goes(cfg, s, 0);
  }

  lemma Rises(cfg: Config, s: State) returns (t: State)
    requires Reaches(cfg, s) && s.daemons == [Starting] && s.socket.Absent?
    ensures Reaches(cfg, t) && t == s.(daemons := [Serving], socket := Owned(0))
  {
    var t1 := s.(daemons := [Cleared]);
    assert DaemonStep(cfg, s, 0, t1);
    Then(cfg, s, t1);
    var t2 := s.(daemons := [Listening], socket := Owned(0));
    assert DaemonStep(cfg, t1, 0, t2);
    Then(cfg, t1, t2);
    t := s.(daemons := [Serving], socket := Owned(0));
    assert DaemonStep(cfg, t2, 0, t);
    Then(cfg, t2, t);
  }

  lemma ExitingSpawnsTwo(cfg: Config) returns (s: State)
    requires cfg.exits
    ensures Reaches(cfg, s) && |s.daemons| == 2
  {
    s := FirstServes(cfg);
    var t := s.(daemons := [Dead], socket := Absent);
    assert DaemonStep(cfg, s, 0, t);
    Then(cfg, s, t);
    s := Spawns(cfg, t, 1);
  }

  /** A probe that times out twice on a serving daemon unlinks its socket and spawns another. */
  lemma SlowProbeSpawnsTwo(cfg: Config) returns (s: State)
    requires cfg.slowProbes
    ensures Reaches(cfg, s) && |s.daemons| == 2
  {
    s := FirstServes(cfg);
    var t := Move(s, 1, Opening);
    assert CallerStep(cfg, s, 1, t);
    Then(cfg, s, t);
    t := Goes(cfg, t, 1);
    t := Goes(cfg, t, 1);
    s := t;
    t := Move(s, 1, Stating);
    assert CallerStep(cfg, s, 1, t);
    Then(cfg, s, t);
    t := Goes(cfg, t, 1);
    t := Goes(cfg, t, 1);
    s := Goes(cfg, t, 1);
  }

  /** The election is safe in every run exactly when the three assumptions hold. */
  lemma {:induction false} SafeExactly(cfg: Config)
    ensures (forall run :: IsRun(cfg, run) ==> SafeRun(run)) <==> Patient(cfg)
  {
    if Patient(cfg) {
      forall run | IsRun(cfg, run) ensures SafeRun(run) { SingleSpawn(cfg, run); }
    } else {
      var s: State;
      if cfg.givesUp {
        s := GivingUpSpawnsTwo(cfg);
      } else if cfg.exits {
        s := ExitingSpawnsTwo(cfg);
      } else {
        s := SlowProbeSpawnsTwo(cfg);
      }
      var run :| IsRun(cfg, run) && run[|run| - 1] == s;
      assert !SafeState(run[|run| - 1]);
    }
  }
}

/** internal/astflow/super_call.go: super-call counts over the paths of a constructor. */
module SuperFlow {
  import opened Options
  import opened Syntax
  import opened Completions
  import opened Paths
  import opened Outcomes
  import opened SuperCount

  datatype PathState = PathState(
    aliveSuper: SuperCallStatus, aliveExists: bool,
    bareExitSuper: SuperCallStatus, bareExitExists: bool,
    cleanExitExists: bool, broke: bool)

  const PassThrough := PathState(SuperNone, true, SuperNone, false, false, false)

  /** How the analysis reads a constructor: whether its counts mind what may be skipped, and
      which bare returns it records. */
  datatype Reading = Reading(exactCounts: bool, bareReturns: bool, loopReturns: bool)

  /** The code: its own scan, and no look into the body of a do-while. */
  const AsWritten := Reading(false, true, false)

  /** With the true counts and the bare returns out of do-while bodies. */
  const Amended := Reading(true, true, true)

  /** Only the bare returns that the code does not record. */
  const LoopReturns := Reading(false, false, true)

  function Count(rd: Reading, e: Expr): SuperCallStatus { if rd.exactCounts then Counted(e) else InExpr(e) }

  function StepSuper(s: PathState, calls: SuperCallStatus): PathState {
    if calls == SuperNone || !s.aliveExists then s
    else s.(aliveSuper := ComposeSuper(s.aliveSuper, calls))
  }

  function ExitAlive(s: PathState, cleanExit: bool): PathState {
    if !s.aliveExists then s
    else
      var out :=
        if cleanExit then s.(cleanExitExists := true)
        else if s.bareExitExists then s.(bareExitSuper := MergeSuper(s.bareExitSuper, s.aliveSuper))
        else s.(bareExitSuper := s.aliveSuper, bareExitExists := true);
      out.(aliveSuper := SuperNone, aliveExists := false)
  }

  /** `b` happens to every path that is alive after `a`.  When none is, the alive count of
      `a` is carried along stale. */
  function ComposeSequential(a: PathState, b: PathState): PathState {
    if a.broke || !a.aliveExists then a
    else
      var shifted := ComposeSuper(a.aliveSuper, b.bareExitSuper);
      PathState(
        ComposeSuper(a.aliveSuper, b.aliveSuper), b.aliveExists,
        if !b.bareExitExists then a.bareExitSuper
        else if a.bareExitExists then MergeSuper(a.bareExitSuper, shifted)
        else shifted,
        a.bareExitExists || b.bareExitExists,
        a.cleanExitExists || b.cleanExitExists, b.broke)
  }

  function MergeBranches(a: PathState, b: PathState): PathState {
    PathState(
      if a.aliveExists && b.aliveExists then MergeSuper(a.aliveSuper, b.aliveSuper)
      else if a.aliveExists then a.aliveSuper
      else if b.aliveExists then b.aliveSuper
      else SuperNone,
      a.aliveExists || b.aliveExists,
      if a.bareExitExists && b.bareExitExists then MergeSuper(a.bareExitSuper, b.bareExitSuper)
      else if a.bareExitExists then a.bareExitSuper
      else if b.bareExitExists then b.bareExitSuper
      else SuperNone,
      a.bareExitExists || b.bareExitExists,
      a.cleanExitExists || b.cleanExitExists, a.broke && b.broke)
  }

  /** Exits inside a loop body propagate; any super call inside may repeat. */
  function LoopState(inner: PathState): PathState {
    PathState(
      if inner.aliveSuper != SuperNone then SuperMultiple else SuperNone, true,
      if inner.bareExitExists then inner.bareExitSuper else SuperNone, inner.bareExitExists,
      inner.cleanExitExists, false)
  }

  /** The verdict on the paths that are judged, and nothing else. */
  function Conclude(s: PathState): SuperCallStatus {
    if s.aliveExists && s.bareExitExists then MergeSuper(s.aliveSuper, s.bareExitSuper)
    else if s.aliveExists then s.aliveSuper
    else if s.bareExitExists then s.bareExitSuper
    else SuperAlways
  }

  function Finalize(s: PathState): SuperCallStatus {
    if s.aliveSuper == SuperMultiple || s.bareExitSuper == SuperMultiple then SuperMultiple
    else if s.aliveExists && s.bareExitExists then MergeSuper(s.aliveSuper, s.bareExitSuper)
    else if s.aliveExists then s.aliveSuper
    else if s.bareExitExists then s.bareExitSuper
    else SuperAlways
  }

  // ----- The analysis as a function -----

  function StateOf(rd: Reading, s: Stmt): PathState
    decreases s, 0
  {
    match s
    case Simple(e) => StepSuper(PassThrough, Count(rd, e))
    case Var(decls) => StepAll(rd, PassThrough, decls)
    case Block(stmts) => SeqState(rd, PassThrough, stmts)
    case If(cond, thn, els) =>
      ComposeSequential(StepSuper(PassThrough, Count(rd, cond)),
                        MergeBranches(StateOf(rd, thn), if els.Some? then StateOf(rd, els.value) else PassThrough))
    case Switch(_, clauses) => SwitchState(rd, clauses)
    case Try(block, handler, finalizer) =>
      var body := MergeBranches(SeqState(rd, PassThrough, block),
                                if handler.Catch? then SeqState(rd, PassThrough, handler.body) else PassThrough);
      if finalizer.SomeBlock? then ComposeSequential(body, SeqState(rd, PassThrough, finalizer.body)) else body
    case Return(arg) =>
      ExitAlive(StepSuper(PassThrough, if arg.Some? then Count(rd, arg.value) else SuperNone), arg.Some? || !rd.bareReturns)
    case Throw(e) => ExitAlive(StepSuper(PassThrough, Count(rd, e)), true)
    case Break => PathState(SuperNone, false, SuperNone, false, false, true)
    case Continue => PathState(SuperNone, false, SuperNone, false, false, true)
    case Loop(_, body) => LoopState(StateOf(rd, body))
    case DoWhile(body, test) =>
      // The code takes the last child for the body, which is the test.
      var round := LoopState(StepSuper(PassThrough, Count(rd, test)));
      if rd.loopReturns && ReturnedVoid in Out(body) then round.(bareExitExists := true) else round
    case Labeled(body) => StateOf(rd, body)
  }

  function StepAll(rd: Reading, acc: PathState, es: seq<Expr>): PathState
    decreases es
  {
    if es == [] then acc else StepAll(rd, StepSuper(acc, Count(rd, es[0])), es[1..])
  }

  function SeqState(rd: Reading, acc: PathState, stmts: seq<Stmt>): PathState
    decreases stmts, 0
  {
    if stmts == [] then acc
    else
      var next := ComposeSequential(acc, StateOf(rd, stmts[0]));
      if next.broke || !next.aliveExists then next else SeqState(rd, next, stmts[1..])
  }

  /** What entering the switch at clause `j` leads to. */
  function EntryState(rd: Reading, clauses: seq<Clause>, j: nat): PathState
    requires j <= |clauses|
    decreases clauses, |clauses| - j
  {
    if j == |clauses| then PassThrough
    else
      var body := SeqState(rd, PassThrough, clauses[j].body);
      if body.broke then body.(broke := false, aliveExists := true)
      else if !body.aliveExists then body
      else ComposeSequential(body, EntryState(rd, clauses, j + 1))
  }

  function MergedStates(rd: Reading, clauses: seq<Clause>, k: nat): PathState
    requires k < |clauses|
    decreases clauses, |clauses| + k + 1
  {
    if k == 0 then EntryState(rd, clauses, 0)
    else MergeBranches(MergedStates(rd, clauses, k - 1), EntryState(rd, clauses, k))
  }

  function SwitchState(rd: Reading, clauses: seq<Clause>): PathState
    decreases clauses, 2 * |clauses| + 1
  {
    if clauses == [] then PassThrough
    else
      var result := MergedStates(rd, clauses, |clauses| - 1);
      if HasDefault(clauses) then result else MergeBranches(result, PassThrough)
  }

  function ConstructorSuperCallStatus(body: seq<Stmt>): SuperCallStatus {
    Finalize(ComposeSequential(PassThrough, SeqState(AsWritten, PassThrough, body)))
  }

  /** The status with all that the code overlooks put right. */
  function AmendedStatus(body: seq<Stmt>): SuperCallStatus { Conclude(SeqState(Amended, PassThrough, body)) }

  // ----- The analysis as the source runs it -----

  method AnalyzeNode(s: Stmt) returns (out: PathState)
    ensures out == StateOf(AsWritten, s)
    decreases s, 1
  {
    match s {
      case Simple(e) =>
        var c := SuperInExpr(e);
        out := StepSuper(PassThrough, c);
      case Var(decls) =>
        out := PassThrough;
        for i := 0 to |decls|
          invariant StepAll(AsWritten, out, decls[i..]) == StepAll(AsWritten, PassThrough, decls)
        {
          assert decls[i..][1..] == decls[i + 1..];
          var c := SuperInExpr(decls[i]);
          out := StepSuper(out, c);
        }
      case Block(stmts) =>
        out := AnalyzeStmtSeq(stmts);
      case If(cond, thn, els) =>
        var c := SuperInExpr(cond);
        var thenDelta := AnalyzeNode(thn);
        var elseDelta := PassThrough;
        if els.Some? {
          elseDelta := AnalyzeNode(els.value);
        }
        out := ComposeSequential(StepSuper(PassThrough, c), MergeBranches(thenDelta, elseDelta));
      case Switch(_, clauses) =>
        out := AnalyzeSwitchNode(clauses);
      case Try(block, handler, finalizer) =>
        var tryS := AnalyzeStmtSeq(block);
        var catchS := PassThrough;
        if handler.Catch? {
          catchS := AnalyzeStmtSeq(handler.body);
        }
        out := MergeBranches(tryS, catchS);
        if finalizer.SomeBlock? {
          var finallyS := AnalyzeStmtSeq(finalizer.body);
          out := ComposeSequential(out, finallyS);
        }
      case Return(arg) =>
        var c := SuperNone;
        if arg.Some? {
          c := SuperInExpr(arg.value);
        }
        out := ExitAlive(StepSuper(PassThrough, c), arg.Some?);
      case Throw(e) =>
        var c := SuperInExpr(e);
        out := ExitAlive(StepSuper(PassThrough, c), true);
      case Break =>
        out := PathState(SuperNone, false, SuperNone, false, false, true);
      case Continue =>
        out := PathState(SuperNone, false, SuperNone, false, false, true);
      case Loop(_, body) =>
        var inner := AnalyzeNode(body);
        out := LoopState(inner);
      case DoWhile(_, test) =>
        var c := SuperInExpr(test);
        out := LoopState(StepSuper(PassThrough, c));
      case Labeled(body) =>
        out := AnalyzeNode(body);
    }
  }

  method AnalyzeStmtSeq(stmts: seq<Stmt>) returns (acc: PathState)
    ensures acc == SeqState(AsWritten, PassThrough, stmts)
    decreases stmts, 0
  {
    acc := PassThrough;
    for i := 0 to |stmts|
      invariant SeqState(AsWritten, acc, stmts[i..]) == SeqState(AsWritten, PassThrough, stmts)
    {
      assert stmts[i..][1..] == stmts[i + 1..];
      var d := AnalyzeNode(stmts[i]);
      acc := ComposeSequential(acc, d);
      if acc.broke || !acc.aliveExists {
        return acc;
      }
    }
  }

  method AnalyzeSwitchNode(clauses: seq<Clause>) returns (result: PathState)
    ensures result == SwitchState(AsWritten, clauses)
    decreases clauses, 1
  {
    if |clauses| == 0 {
      return PassThrough;
    }
    var deltas := EntryStates(clauses);
    result := deltas[0];
    for k := 1 to |clauses|
      invariant result == MergedStates(AsWritten, clauses, k - 1)
    {
      result := MergeBranches(result, deltas[k]);
    }
    var hasDefault := exists c :: c in clauses && c.Default?;
    if !hasDefault {
      result := MergeBranches(result, PassThrough);
    }
  }

  method EntryStates(clauses: seq<Clause>) returns (deltas: array<PathState>)
    ensures deltas.Length == |clauses|
    ensures forall j {:trigger deltas[j]} :: 0 <= j < |clauses| ==> deltas[j] == EntryState(AsWritten, clauses, j)
    decreases clauses, 0
  {
    deltas := new PathState[|clauses|](_ => PassThrough);
    var next := PassThrough;
    var i := |clauses|;
    while i > 0
      invariant 0 <= i <= |clauses|
      invariant next == EntryState(AsWritten, clauses, i)
      invariant forall j {:trigger deltas[j]} :: i <= j < |clauses| ==> deltas[j] == EntryState(AsWritten, clauses, j)
    {
      i := i - 1;
      var body := AnalyzeStmtSeq(clauses[i].body);
      var entry;
      if body.broke {
        entry := body.(broke := false, aliveExists := true);
      } else if !body.aliveExists {
        entry := body;
      } else {
        entry := ComposeSequential(body, next);
      }
      deltas[i] := entry;
      next := entry;
    }
  }
}

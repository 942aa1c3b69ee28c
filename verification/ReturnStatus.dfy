/** internal/astflow/return_status.go: how a function body returns, computed by merging
    branch outcomes over the syntax tree. */
module ReturnFlow {
  import opened Options
  import opened Syntax
  import opened Completions
  import opened Paths
  import opened Jumps
  import opened Outcomes

  datatype ReturnStatus =
    | NotReturn | AlwaysExplicit | AlwaysImplicit | AlwaysMixed
    | SomeExplicit | SomeImplicit | SomeMixed
    | AbruptBreak                               // ended by `break` or `continue`
  {
    predicate MustReturn() {
      AlwaysExplicit? || AlwaysImplicit? || AlwaysMixed?
    }

    predicate MayReturnExplicit() {
      AlwaysExplicit? || AlwaysMixed? || SomeExplicit? || SomeMixed?
    }

    predicate HasExplicitVoidReturn() {
      AlwaysImplicit? || AlwaysMixed? || SomeImplicit? || SomeMixed?
    }
  }

  function MakeStatus(must: bool, explicit: bool, bare: bool): ReturnStatus {
    if must && explicit && bare then AlwaysMixed
    else if must && explicit then AlwaysExplicit
    else if must && bare then AlwaysImplicit
    else if explicit && bare then SomeMixed
    else if explicit then SomeExplicit
    else if bare then SomeImplicit
    else NotReturn
  }

  function MergeBranches(a: ReturnStatus, b: ReturnStatus): ReturnStatus {
    MakeStatus(a.MustReturn() && b.MustReturn(),
               a.MayReturnExplicit() || b.MayReturnExplicit(),
               a.HasExplicitVoidReturn() || b.HasExplicitVoidReturn())
  }

  function MergeFallthrough(prev: ReturnStatus, cur: ReturnStatus): ReturnStatus {
    MakeStatus(cur.MustReturn(),
               prev.MayReturnExplicit() || cur.MayReturnExplicit(),
               prev.HasExplicitVoidReturn() || cur.HasExplicitVoidReturn())
  }

  function DemoteToSome(s: ReturnStatus): ReturnStatus {
    match s
    case AlwaysExplicit => SomeExplicit
    case AlwaysImplicit => SomeImplicit
    case AlwaysMixed => SomeMixed
    case _ => s
  }

  // ----- The analysis as a function -----

  datatype Walk = Walk(status: ReturnStatus, brokeOut: bool)

  function StatusOf(s: Stmt): ReturnStatus
    decreases s, 1
  {
    match s
    case Simple(_) => NotReturn
    case Var(_) => NotReturn
    case Block(stmts) => WalkFrom(stmts, false, false).status
    case If(_, thn, els) => MergeBranches(StatusOf(thn), if els.Some? then StatusOf(els.value) else NotReturn)
    case Switch(_, clauses) => SwitchStatus(clauses)
    case Try(block, handler, finalizer) =>
      var tryS := WalkFrom(block, false, false).status;
      var finallyS := if finalizer.SomeBlock? then WalkFrom(finalizer.body, false, false).status else NotReturn;
      if finallyS.MustReturn() then finallyS
      else if handler.Catch? then MergeBranches(tryS, WalkFrom(handler.body, false, false).status)
      else tryS
    case Return(arg) => if arg.Some? then AlwaysExplicit else AlwaysImplicit
    case Throw(_) => AlwaysExplicit
    case Break => AbruptBreak
    case Continue => AbruptBreak
    case Loop(_, body) => DemoteToSome(StatusOf(body))
    case DoWhile(_, _) => NotReturn             // the last child of a do-while is its test
    case Labeled(body) => StatusOf(body)
  }

  /** The statements left to walk, given what earlier ones may return. */
  function WalkFrom(stmts: seq<Stmt>, mayExplicit: bool, mayImplicit: bool): Walk
    decreases stmts, 0
  {
    if stmts == [] then Walk(MakeStatus(false, mayExplicit, mayImplicit), false)
    else
      var s := StatusOf(stmts[0]);
      var e := mayExplicit || s.MayReturnExplicit();
      var i := mayImplicit || s.HasExplicitVoidReturn();
      if s.AbruptBreak? then Walk(MakeStatus(false, mayExplicit, mayImplicit), true)
      else if s.MustReturn() then Walk(MakeStatus(true, e, i), false)
      else WalkFrom(stmts[1..], e, i)
  }

  /** The status of entering the switch at clause `j`. */
  function EntryStatus(clauses: seq<Clause>, j: nat): ReturnStatus
    requires j <= |clauses|
    decreases clauses, |clauses| - j
  {
    if j == |clauses| then NotReturn
    else
      var w := WalkFrom(clauses[j].body, false, false);
      if w.brokeOut || w.status.MustReturn() then w.status
      else MergeFallthrough(w.status, EntryStatus(clauses, j + 1))
  }

  /** Entries 0 to k merged as branches. */
  function MergedEntries(clauses: seq<Clause>, k: nat): ReturnStatus
    requires k < |clauses|
    decreases clauses, |clauses| + k + 1
  {
    if k == 0 then EntryStatus(clauses, 0)
    else MergeBranches(MergedEntries(clauses, k - 1), EntryStatus(clauses, k))
  }

  function SwitchStatus(clauses: seq<Clause>): ReturnStatus
    decreases clauses, 2 * |clauses| + 1
  {
    if clauses == [] then NotReturn
    else
      var result := MergedEntries(clauses, |clauses| - 1);
      if HasDefault(clauses) then result else MergeBranches(result, NotReturn)
  }

  // ----- The analysis as the source runs it -----

  method AnalyzeBlock(s: Stmt) returns (status: ReturnStatus)
    ensures status == StatusOf(s)
    decreases s, 1
  {
    match s {
      case Block(stmts) =>
        var w := WalkStatements(stmts);
        status := w.status;
      case If(_, thn, els) =>
        var thenS := AnalyzeBlock(thn);
        var elseS := NotReturn;
        if els.Some? {
          elseS := AnalyzeBlock(els.value);
        }
        status := MergeBranches(thenS, elseS);
      case Switch(_, clauses) =>
        status := AnalyzeSwitch(clauses);
      case Try(_, _, _) =>
        status := AnalyzeTry(s);
      case Return(arg) =>
        status := if arg.Some? then AlwaysExplicit else AlwaysImplicit;
      case Throw(_) =>
        status := AlwaysExplicit;
      case Break =>
        status := AbruptBreak;
      case Continue =>
        status := AbruptBreak;
      case Loop(_, body) =>
        var inner := AnalyzeBlock(body);
        status := DemoteToSome(inner);
      case Labeled(body) =>
        status := AnalyzeBlock(body);
      case _ =>
        status := NotReturn;
    }
  }

  method WalkStatements(stmts: seq<Stmt>) returns (w: Walk)
    ensures w == WalkFrom(stmts, false, false)
    decreases stmts, 0
  {
    var mayExplicit, mayImplicit := false, false;
    for i := 0 to |stmts|
      invariant WalkFrom(stmts[i..], mayExplicit, mayImplicit) == WalkFrom(stmts, false, false)
    {
      assert stmts[i..][0] == stmts[i] && stmts[i..][1..] == stmts[i + 1..];
      var s := AnalyzeBlock(stmts[i]);
      if s == AbruptBreak {
        return Walk(MakeStatus(false, mayExplicit, mayImplicit), true);
      }
      if s.MayReturnExplicit() {
        mayExplicit := true;
      }
      if s.HasExplicitVoidReturn() {
        mayImplicit := true;
      }
      if s.MustReturn() {
        return Walk(MakeStatus(true, mayExplicit, mayImplicit), false);
      }
    }
    return Walk(MakeStatus(false, mayExplicit, mayImplicit), false);
  }

  method AnalyzeSwitch(clauses: seq<Clause>) returns (result: ReturnStatus)
    ensures result == SwitchStatus(clauses)
    decreases clauses, 1
  {
    if |clauses| == 0 {
      return NotReturn;
    }
    var infos := EntryStatuses(clauses);
    result := infos[0];
    for k := 1 to |clauses|
      invariant result == MergedEntries(clauses, k - 1)
    {
      result := MergeBranches(result, infos[k]);
    }
    var hasDefault := exists c :: c in clauses && c.Default?;
    if !hasDefault {
      result := MergeBranches(result, NotReturn);
    }
  }

  /** The right-to-left pass: each entry absorbs what the clauses after it can do. */
  method EntryStatuses(clauses: seq<Clause>) returns (infos: array<ReturnStatus>)
    ensures infos.Length == |clauses|
    ensures forall j {:trigger infos[j]} :: 0 <= j < |clauses| ==> infos[j] == EntryStatus(clauses, j)
    decreases clauses, 0
  {
    infos := new ReturnStatus[|clauses|];
    var nextOuter := NotReturn;
    var i := |clauses|;
    while i > 0
      invariant 0 <= i <= |clauses|
      invariant nextOuter == EntryStatus(clauses, i)
      invariant forall j {:trigger infos[j]} :: i <= j < |clauses| ==> infos[j] == EntryStatus(clauses, j)
    {
      i := i - 1;
      var w := WalkStatements(clauses[i].body);
      var outer;
      if w.brokeOut {
        outer := w.status;
      } else if w.status.MustReturn() {
        outer := w.status;
      } else {
        outer := MergeFallthrough(w.status, nextOuter);
      }
      infos[i] := outer;
      nextOuter := outer;
    }
  }

  method AnalyzeTry(s: Stmt) returns (status: ReturnStatus)
    requires s.Try?
    ensures status == StatusOf(s)
    decreases s, 0
  {
    var tryW := WalkStatements(s.block);
    var catchS, finallyS := NotReturn, NotReturn;
    if s.handler.Catch? {
      var w := WalkStatements(s.handler.body);
      catchS := w.status;
    }
    if s.finalizer.SomeBlock? {
      var w := WalkStatements(s.finalizer.body);
      finallyS := w.status;
    }
    if finallyS.MustReturn() {
      return finallyS;
    }
    if s.handler.Catch? {
      return MergeBranches(tryW.status, catchS);
    }
    return tryW.status;
  }

  // ----- Must-return soundness -----

  /** Every `break` aimed at a switch is a direct statement of one of its clauses. */
  predicate DirectBreaks(s: Stmt) {
    match s
    case Block(stmts) => forall x :: x in stmts ==> DirectBreaks(x)
    case If(_, thn, els) => DirectBreaks(thn) && (els.Some? ==> DirectBreaks(els.value))
    case Switch(_, clauses) =>
      forall c :: c in clauses ==> forall x :: x in c.body ==> DirectBreaks(x) && (x.Break? || Stays(x, Broke))
    case Try(block, handler, finalizer) =>
      && (forall x :: x in block ==> DirectBreaks(x))
      && (handler.Catch? ==> forall x :: x in handler.body ==> DirectBreaks(x))
      && (finalizer.SomeBlock? ==> forall x :: x in finalizer.body ==> DirectBreaks(x))
    case Labeled(body) => DirectBreaks(body)
    case _ => true
  }

  lemma {:induction false} MustLeaves(s: Stmt)
    requires DirectBreaks(s) && StatusOf(s).MustReturn()
    ensures Normal !in Out(s)
    decreases s, 1
  {
    match s
    case Block(stmts) => WalkLeaves(stmts, false, false);
    case If(_, thn, els) =>
      MustLeaves(thn);
      MustLeaves(els.value);
    case Switch(_, clauses) =>
      SwitchMustResult(clauses);
      EntriesLeave(clauses, 0);
      assert clauses[0..] == clauses;
    case Try(_, _, _) => TryLeaves(s);
    case Labeled(body) => MustLeaves(body);
    case Return(_) =>
    case Throw(_) =>
  }

  predicate DirectIn(stmts: seq<Stmt>) { forall x :: x in stmts ==> x.Break? || Stays(x, Broke) }

  lemma {:induction false} WalkLeaves(stmts: seq<Stmt>, e: bool, i: bool)
    requires (forall x :: x in stmts ==> DirectBreaks(x)) && WalkFrom(stmts, e, i).status.MustReturn()
    ensures Normal !in OutList(stmts)
    ensures DirectIn(stmts) ==> Broke !in OutList(stmts)
    decreases stmts, 0
  {
    var s := StatusOf(stmts[0]);
    if DirectIn(stmts) {
      StaysOut(stmts[0], Broke);
    }
    if s.MustReturn() {
      MustLeaves(stmts[0]);
    } else {
      WalkLeaves(stmts[1..], e || s.MayReturnExplicit(), i || s.HasExplicitVoidReturn());
    }
  }

  /** A clause whose walk did not end in `break` cannot break out of its switch. */
  lemma {:induction false} WalkNoBreak(stmts: seq<Stmt>, e: bool, i: bool)
    requires (forall x :: x in stmts ==> DirectBreaks(x)) && DirectIn(stmts) && !WalkFrom(stmts, e, i).brokeOut
    ensures Broke !in OutList(stmts)
    decreases stmts, 0
  {
    if stmts != [] {
      var s := StatusOf(stmts[0]);
      assert !stmts[0].Break?;
      StaysOut(stmts[0], Broke);
      if s.MustReturn() {
        MustLeaves(stmts[0]);
      } else {
        WalkNoBreak(stmts[1..], e || s.MayReturnExplicit(), i || s.HasExplicitVoidReturn());
      }
    }
  }

  lemma {:induction false} EntryLeaves(clauses: seq<Clause>, j: nat)
    requires forall c :: c in clauses ==> (forall x :: x in c.body ==> DirectBreaks(x)) && DirectIn(c.body)
    requires j <= |clauses| && EntryStatus(clauses, j).MustReturn()
    ensures Normal !in Leave(OutFrom(clauses[j..]))
    decreases clauses, |clauses| - j
  {
    assert clauses[j..][0] == clauses[j] && clauses[j..][1..] == clauses[j + 1..];
    if WalkFrom(clauses[j].body, false, false).status.MustReturn() {
      WalkLeaves(clauses[j].body, false, false);
    } else {
      EntryLeaves(clauses, j + 1);
      WalkNoBreak(clauses[j].body, false, false);
    }
  }

  lemma {:induction false} EntriesLeave(clauses: seq<Clause>, j: nat)
    requires forall c :: c in clauses ==> (forall x :: x in c.body ==> DirectBreaks(x)) && DirectIn(c.body)
    requires j <= |clauses| && SwitchStatus(clauses).MustReturn()
    ensures Normal !in OutEntries(clauses[j..])
    decreases clauses, |clauses| + 1, |clauses| - j
  {
    if j < |clauses| {
      assert clauses[j..][1..] == clauses[j + 1..];
      SwitchMust(clauses, j);
      EntryLeaves(clauses, j);
      EntriesLeave(clauses, j + 1);
    }
  }

  lemma {:induction false} MergedMust(clauses: seq<Clause>, k: nat, j: nat)
    requires j <= k < |clauses| && MergedEntries(clauses, k).MustReturn()
    ensures EntryStatus(clauses, j).MustReturn()
    decreases k
  {
    if j < k {
      MergedMust(clauses, k - 1, j);
    }
  }

  lemma SwitchMust(clauses: seq<Clause>, j: nat)
    requires SwitchStatus(clauses).MustReturn() && j < |clauses|
    ensures EntryStatus(clauses, j).MustReturn()
  {
    SwitchMustResult(clauses);
    MergedMust(clauses, |clauses| - 1, j);
  }

  lemma SwitchMustResult(clauses: seq<Clause>)
    requires SwitchStatus(clauses).MustReturn()
    ensures clauses != [] && HasDefault(clauses) && MergedEntries(clauses, |clauses| - 1).MustReturn()
  {
  }

  lemma {:induction false} TryLeaves(s: Stmt)
    requires s.Try? && DirectBreaks(s) && StatusOf(s).MustReturn()
    ensures Normal !in Out(s)
    decreases s, 0
  {
    if s.finalizer.SomeBlock? && WalkFrom(s.finalizer.body, false, false).status.MustReturn() {
      WalkLeaves(s.finalizer.body, false, false);
    } else {
      WalkLeaves(s.block, false, false);
      if s.handler.Catch? {
        WalkLeaves(s.handler.body, false, false);
      }
    }
  }

  /** A statement the analysis calls MustReturn never completes normally. */
  lemma {:induction false} MustReturnSound(s: Stmt)
    requires DirectBreaks(s) && StatusOf(s).MustReturn()
    ensures !Can(s, Normal)
  {
    MustLeaves(s);
    OutExact(s, Normal);
  }

  // ----- Function bodies -----

  datatype FunctionBody = NoBody | ConciseBody(e: Expr) | BlockBody(stmts: seq<Stmt>)

  function FunctionBodyReturnStatus(body: FunctionBody): ReturnStatus {
    match body
    case NoBody => NotReturn
    case ConciseBody(_) => AlwaysExplicit
    case BlockBody(stmts) => StatusOf(Block(stmts))
  }

  /** A MustReturn block body never runs off its end. */
  lemma MustReturnBodyNeverFallsOff(body: FunctionBody, r: Run)
    requires body.BlockBody? && DirectBreaks(Block(body.stmts)) && FunctionBodyReturnStatus(body).MustReturn()
    requires RunsList(body.stmts, r)
    ensures r.end != Normal
  {
    MustLeaves(Block(body.stmts));
    ListEnds(body.stmts, r);
  }

  // ----- Breaks nested below a clause -----

  /** Whatever a statement contains, the verdict MustReturn is right exactly when normal
      completion is not among the completions its syntax allows. */
  lemma {:induction false} MustReturnExact(s: Stmt)
    requires StatusOf(s).MustReturn()
    ensures !Can(s, Normal) <==> Normal !in Out(s)
    ensures !DirectBreaks(s) || Normal !in Out(s)
  {
    OutExact(s, Normal);
    if DirectBreaks(s) {
      MustLeaves(s);
    }
  }

  /** For a switch: when no clause entered can come to a `break`, at any depth. */
  lemma {:induction false} MustReturnSwitchExact(s: Stmt)
    requires s.Switch? && StatusOf(s).MustReturn()
    requires forall c :: c in s.clauses ==> forall x :: x in c.body ==> DirectBreaks(x)
    ensures Can(s, Normal) <==> exists i: nat :: i < |s.clauses| && Broke in OutFrom(s.clauses[i..])
  {
    OutExact(s, Normal);
    SwitchMustResult(s.clauses);
    if Normal in Out(s) {
      var i, d := EntryOf(s.clauses, Normal);
      SwitchMust(s.clauses, i);
      EntryNotNormal(s.clauses, i);
    }
    if i: nat :| i < |s.clauses| && Broke in OutFrom(s.clauses[i..]) {
      EntryIncluded(s.clauses, i, Broke);
    }
  }

  lemma {:induction false} EntryNotNormal(clauses: seq<Clause>, j: nat)
    requires forall c :: c in clauses ==> forall x :: x in c.body ==> DirectBreaks(x)
    requires j <= |clauses| && EntryStatus(clauses, j).MustReturn()
    ensures Normal !in OutFrom(clauses[j..])
    decreases |clauses| - j
  {
    assert clauses[j..][0] == clauses[j] && clauses[j..][1..] == clauses[j + 1..];
    if WalkFrom(clauses[j].body, false, false).status.MustReturn() {
      WalkLeaves(clauses[j].body, false, false);
    } else {
      EntryNotNormal(clauses, j + 1);
    }
  }

  /** `switch (x) { default: if (c) break; return y; }` */
  function NestedBreak(x: Expr, c: Expr, y: Expr): Stmt {
    Switch(x, [Default([If(c, Break, None), Return(Some(y))])])
  }

  lemma NestedBreakIsUnsound(x: Expr, c: Expr, y: Expr)
    ensures StatusOf(NestedBreak(x, c, y)) == AlwaysExplicit && Can(NestedBreak(x, c, y), Normal)
  {
    var s := NestedBreak(x, c, y);
    NestedBreakStatus(x, c, y);
    assert Broke in Out(If(c, Break, None));
    assert Broke in OutList(s.clauses[0].body);
    assert Broke in OutFrom(s.clauses);
    OutExact(s, Normal);
  }

  lemma NestedBreakStatus(x: Expr, c: Expr, y: Expr)
    ensures StatusOf(NestedBreak(x, c, y)) == AlwaysExplicit
  {
    GuardedBreakStatus(c);
    TwoSteps(If(c, Break, None), Return(Some(y)));
    OneClause(Default([If(c, Break, None), Return(Some(y))]));
  }

  /** A branch that breaks does not show in the status of its if. */
  lemma GuardedBreakStatus(c: Expr)
    ensures StatusOf(If(c, Break, None)) == NotReturn
  {
    assert StatusOf(Break) == AbruptBreak;
  }

  lemma TwoSteps(s: Stmt, t: Stmt)
    requires StatusOf(s) == NotReturn && StatusOf(t) == AlwaysExplicit
    ensures WalkFrom([s, t], false, false) == Walk(AlwaysExplicit, false)
  {
    WalkStep(s, [t]);
    assert [s] + [t] == [s, t];
    WalkStep(t, []);
    assert [t] + [] == [t];
  }

  lemma WalkStep(s: Stmt, rest: seq<Stmt>)
    ensures StatusOf(s) == NotReturn ==> WalkFrom([s] + rest, false, false) == WalkFrom(rest, false, false)
    ensures StatusOf(s) == AlwaysExplicit ==> WalkFrom([s] + rest, false, false) == Walk(AlwaysExplicit, false)
  {
    assert ([s] + rest)[1..] == rest;
  }

  lemma OneClause(c: Clause)
    requires c.Default? && WalkFrom(c.body, false, false).status.MustReturn()
    ensures SwitchStatus([c]) == WalkFrom(c.body, false, false).status
  {
    assert [c][0] in [c];
    assert MergedEntries([c], 0) == EntryStatus([c], 0);
  }

  // ----- Exactness -----

  /** Switches whose breaks are direct; a try whose block can fault, but throws nothing that is
      caught; a finally block that always returns or never does; loops that can come to their end,
      without jumps, and do-whiles that do not return. */
  predicate Branching(s: Stmt) {
    match s
    case Simple(_) => true
    case Var(_) => true
    case Return(_) => true
    case Throw(_) => true
    case Block(stmts) => forall x :: x in stmts ==> Branching(x)
    case If(_, thn, els) => Branching(thn) && (els.Some? ==> Branching(els.value))
    case Switch(_, clauses) => forall c :: c in clauses ==> forall x :: x in c.body ==> x.Break? || Branching(x)
    case Try(block, handler, finalizer) =>
      && (forall x :: x in block ==> Branching(x))
      && (handler.Catch? ==>
            Faulted in OutList(block) && Threw !in OutList(block) && forall x :: x in handler.body ==> Branching(x))
      && (finalizer.SomeBlock? ==>
            (forall x :: x in finalizer.body ==> Branching(x)) &&
            (WalkFrom(finalizer.body, false, false).status.MustReturn() || !Returns(OutList(finalizer.body))))
    case Loop(_, body) => Branching(body) && Normal in Out(s)
    case DoWhile(body, _) => !Returns(Out(body)) && Normal in Out(s)
    case Labeled(body) => Branching(body)
    case _ => false
  }

  predicate ReturnsExplicitly(out: set<Completion>) { Returned in out || Threw in out }

  predicate Returns(out: set<Completion>) { ReturnsExplicitly(out) || ReturnedVoid in out }

  /** `status` says exactly which completions are possible: `out`, or what `e` and `i` add. */
  predicate Exactly(status: ReturnStatus, out: set<Completion>, e: bool, i: bool) {
    && !status.AbruptBreak?
    && (status.MustReturn() <==> Normal !in out && Broke !in out)
    && (status.MayReturnExplicit() <==> e || Returned in out || Threw in out)
    && (status.HasExplicitVoidReturn() <==> i || ReturnedVoid in out)
  }

  /** The status is MakeStatus of the true outcome set. */
  lemma {:induction false} ReturnStatusExact(s: Stmt)
    requires Branching(s)
    ensures StatusOf(s) == MakeStatus(!Can(s, Normal), Can(s, Returned) || Can(s, Threw), Can(s, ReturnedVoid))
  {
    StatusExact(s);
    OutExact(s, Normal);
    OutExact(s, Returned);
    OutExact(s, Threw);
    OutExact(s, ReturnedVoid);
    Reads(StatusOf(s));
  }

  /** A status is what MakeStatus makes of the questions it answers. */
  lemma Reads(status: ReturnStatus)
    requires !status.AbruptBreak? && (status.MustReturn() ==> status.MayReturnExplicit() || status.HasExplicitVoidReturn())
    ensures status == MakeStatus(status.MustReturn(), status.MayReturnExplicit(), status.HasExplicitVoidReturn())
  {
  }

  lemma {:induction false} StatusExact(s: Stmt)
    requires Branching(s)
    ensures Exactly(StatusOf(s), Out(s), false, false) && Broke !in Out(s)
    decreases s, 1
  {
    match s
    case Block(stmts) =>
      WalkExact(stmts, false, false);
      NoDirectBreak(stmts);
    case If(_, thn, els) =>
      StatusExact(thn);
      if els.Some? {
        StatusExact(els.value);
      }
    case Switch(_, clauses) => SwitchExact(s);
    case Try(_, _, _) => TryExact(s);
    case Loop(_, body) =>
      StatusExact(body);
      LoopOut(s);
    case DoWhile(_, _) =>
    case Labeled(body) => StatusExact(body);
    case _ =>
  }

  lemma LoopOut(s: Stmt)
    requires s.Loop?
    ensures Broke !in Out(s) && forall c :: c in Out(s) && c != Normal && c != Faulted <==> c in Out(s.body) - Inside - {Faulted}
  {
    assert Normal in OutAll(s.header.init);
  }

  lemma {:induction false} TryExact(s: Stmt)
    requires s.Try? && Branching(s)
    ensures Exactly(StatusOf(s), Out(s), false, false) && Broke !in Out(s)
    decreases s, 0
  {
    var block, handler := OutList(s.block), if s.handler.Catch? then OutCatch(s.handler) else {};
    WalkExact(s.block, false, false);
    NoDirectBreak(s.block);
    NonemptyList(s.block);
    if s.handler.Catch? {
      WalkExact(s.handler.body, false, false);
      NoDirectBreak(s.handler.body);
      NonemptyList(s.handler.body);
    }
    var tried := if s.handler.Catch? then MergeBranches(WalkFrom(s.block, false, false).status, WalkFrom(s.handler.body, false, false).status)
                 else WalkFrom(s.block, false, false).status;
    var guarded := Guarded(block, s.handler.Catch?, handler);
    assert Exactly(tried, guarded, false, false) && Broke !in guarded && guarded != {};
    if s.finalizer.SomeBlock? {
      WalkExact(s.finalizer.body, false, false);
      NoDirectBreak(s.finalizer.body);
      NonemptyList(s.finalizer.body);
      FinallyExact(tried, guarded, WalkFrom(s.finalizer.body, false, false).status, OutList(s.finalizer.body));
    }
  }

  lemma FinallyExact(tried: ReturnStatus, guarded: set<Completion>, status: ReturnStatus, finalizer: set<Completion>)
    requires Exactly(tried, guarded, false, false) && Exactly(status, finalizer, false, false)
    requires Broke !in guarded && Broke !in finalizer && guarded != {}
    requires status.MustReturn() || !Returns(finalizer)
    ensures Exactly(if status.MustReturn() then status else tried, After(guarded, finalizer), false, false)
    ensures Broke !in After(guarded, finalizer)
  {
  }

  /** Such code has runs. */
  lemma {:induction false} Nonempty(s: Stmt)
    requires Branching(s)
    ensures Out(s) != {}
    decreases s, 1
  {
    match s
    case Block(stmts) => NonemptyList(stmts);
    case Try(_, _, _) => TryNonempty(s);
    case Labeled(body) => Nonempty(body);
    case Return(arg) => assert (if arg.Some? then Faulted else ReturnedVoid) in Out(s);
    case Loop(_, _) =>
    case DoWhile(_, _) =>
    case _ => FaultsInHead(s);
  }

  lemma FaultsInHead(s: Stmt)
    requires s.Simple? || s.Var? || s.If? || s.Switch? || s.Throw?
    ensures Faulted in Out(s)
  {
  }

  lemma {:induction false} TryNonempty(s: Stmt)
    requires s.Try? && Branching(s)
    ensures Out(s) != {}
    decreases s, 0
  {
    NonemptyList(s.block);
    if s.handler.Catch? {
      NonemptyList(s.handler.body);
    }
    if s.finalizer.SomeBlock? {
      NonemptyList(s.finalizer.body);
    }
  }

  lemma {:induction false} NonemptyList(stmts: seq<Stmt>)
    requires forall x :: x in stmts ==> Branching(x)
    ensures OutList(stmts) != {}
    decreases stmts, 0
  {
    if stmts != [] {
      Nonempty(stmts[0]);
      NonemptyList(stmts[1..]);
      ThenNonempty(Out(stmts[0]), OutList(stmts[1..]));
    }
  }

  lemma ThenNonempty(first: set<Completion>, rest: set<Completion>)
    requires first != {} && rest != {}
    ensures Then(first, rest) != {}
  {
    var c :| c in first;
    var d :| d in rest;
    assert (if c == Normal then d else c) in Then(first, rest);
  }

  lemma {:induction false} WalkExact(stmts: seq<Stmt>, e: bool, i: bool)
    requires forall x :: x in stmts ==> x.Break? || Branching(x)
    ensures Exactly(WalkFrom(stmts, e, i).status, OutList(stmts), e, i)
    ensures WalkFrom(stmts, e, i).brokeOut == (Broke in OutList(stmts))
    ensures !(Normal in OutList(stmts) && Broke in OutList(stmts))
    decreases stmts, 0
  {
    if stmts != [] && !stmts[0].Break? {
      var s := StatusOf(stmts[0]);
      StatusExact(stmts[0]);
      if !s.MustReturn() {
        WalkExact(stmts[1..], e || s.MayReturnExplicit(), i || s.HasExplicitVoidReturn());
      }
    }
  }

  lemma {:induction false} NoDirectBreak(stmts: seq<Stmt>)
    requires forall x :: x in stmts ==> Branching(x)
    ensures Broke !in OutList(stmts)
    decreases stmts, 0
  {
    if stmts != [] {
      StatusExact(stmts[0]);
      NoDirectBreak(stmts[1..]);
    }
  }

  lemma {:induction false} EntryExact(clauses: seq<Clause>, j: nat)
    requires j <= |clauses| && forall c :: c in clauses ==> forall x :: x in c.body ==> x.Break? || Branching(x)
    ensures Exactly(EntryStatus(clauses, j), OutFrom(clauses[j..]), false, false)
    decreases clauses, |clauses| - j
  {
    if j < |clauses| {
      assert clauses[j..][0] == clauses[j] && clauses[j..][1..] == clauses[j + 1..];
      WalkExact(clauses[j].body, false, false);
      EntryExact(clauses, j + 1);
    }
  }

  /** Entering at any of the first `k + 1` clauses. */
  function EntriesUpTo(clauses: seq<Clause>, k: nat): set<Completion>
    requires k < |clauses|
  {
    Leave(OutFrom(clauses[k..])) + if k == 0 then {} else EntriesUpTo(clauses, k - 1)
  }

  lemma {:induction false} AllEntries(clauses: seq<Clause>, k: nat, c: Completion)
    requires k < |clauses| && c in EntriesUpTo(clauses, k)
    ensures c in OutEntries(clauses)
  {
    if c in Leave(OutFrom(clauses[k..])) {
      var d := if c in OutFrom(clauses[k..]) && c != Broke then c else Broke;
      EntryIncluded(clauses, k, d);
    } else {
      AllEntries(clauses, k - 1, c);
    }
  }

  lemma {:induction false} EntryUpTo(clauses: seq<Clause>, k: nat, i: nat, c: Completion)
    requires i <= k < |clauses| && c in OutFrom(clauses[i..])
    ensures AfterBreak(c) in EntriesUpTo(clauses, k)
  {
    if i < k {
      EntryUpTo(clauses, k - 1, i, c);
    }
  }

  lemma EntryFound(clauses: seq<Clause>, k: nat, c: Completion)
    requires k + 1 == |clauses| && c in OutEntries(clauses)
    ensures c in EntriesUpTo(clauses, k)
  {
    var i, d := EntryOf(clauses, c);
    EntryUpTo(clauses, k, i, d);
  }

  /** The two orders of going through the entries agree. */
  lemma EntriesAgree(clauses: seq<Clause>, k: nat)
    requires k + 1 == |clauses|
    ensures forall c :: c in OutEntries(clauses) <==> c in EntriesUpTo(clauses, k)
  {
    forall c | c in OutEntries(clauses) ensures c in EntriesUpTo(clauses, k) { EntryFound(clauses, k, c); }
    forall c | c in EntriesUpTo(clauses, k) ensures c in OutEntries(clauses) { AllEntries(clauses, k, c); }
  }

  lemma {:induction false} MergedExact(clauses: seq<Clause>, k: nat)
    requires k < |clauses| && forall c :: c in clauses ==> forall x :: x in c.body ==> x.Break? || Branching(x)
    ensures Exactly(MergedEntries(clauses, k), EntriesUpTo(clauses, k), false, false) && Broke !in EntriesUpTo(clauses, k)
    decreases clauses, |clauses| + k + 1
  {
    EntryExact(clauses, k);
    if k > 0 {
      MergedExact(clauses, k - 1);
    }
  }

  lemma {:induction false} SwitchExact(s: Stmt)
    requires s.Switch? && Branching(s)
    ensures Exactly(StatusOf(s), Out(s), false, false) && Broke !in Out(s)
    decreases s, 0
  {
    if s.clauses != [] {
      var n := |s.clauses| - 1;
      MergedExact(s.clauses, n);
      EntriesAgree(s.clauses, n);
      SwitchOut(s);
      LeavesExactly(MergedEntries(s.clauses, n), OutEntries(s.clauses), Out(s), HasDefault(s.clauses));
    }
  }

  lemma SwitchOut(s: Stmt)
    requires s.Switch?
    ensures forall c :: c in Out(s) <==> c == Faulted || c in OutEntries(s.clauses) || (c == Normal && !HasDefault(s.clauses))
  {
  }

  /** Leaving the switch, or passing it by when it has no default. */
  lemma LeavesExactly(status: ReturnStatus, entries: set<Completion>, out: set<Completion>, hasDefault: bool)
    requires Exactly(status, entries, false, false) && Broke !in entries
    requires forall c :: c in out <==> c == Faulted || c in entries || (c == Normal && !hasDefault)
    ensures Exactly(if hasDefault then status else MergeBranches(status, NotReturn), out, false, false) && Broke !in out
  {
  }
}

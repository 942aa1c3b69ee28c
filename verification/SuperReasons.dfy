/** Why the status of a constructor can differ from the true one, on plain code. */
module SuperReasons {
  import opened Options
  import opened Syntax
  import opened Completions
  import opened Paths
  import opened Jumps
  import opened Outcomes
  import opened SuperCount
  import opened SuperFlow
  import opened SuperSound
  import opened SuperExact

  // ----- What the three readings have in common -----

  /** `all` records what `some` and `others` record together, about the same paths. */
  predicate Joins(all: PathState, some: PathState, others: PathState) {
    && all.aliveExists == some.aliveExists == others.aliveExists
    && all.aliveSuper == some.aliveSuper == others.aliveSuper
    && all.broke == some.broke == others.broke
    && all.bareExitExists == (some.bareExitExists || others.bareExitExists)
    && all.bareExitSuper == (if some.bareExitExists && others.bareExitExists
                             then MergeSuper(some.bareExitSuper, others.bareExitSuper)
                             else if some.bareExitExists then some.bareExitSuper else others.bareExitSuper)
    && Shaped(some) && Shaped(others)
  }

  lemma ComposeJoins(a: PathState, b: PathState, c: PathState, x: PathState, y: PathState, z: PathState)
    requires Joins(a, b, c) && Joins(x, y, z)
    ensures Joins(ComposeSequential(a, x), ComposeSequential(b, y), ComposeSequential(c, z))
  {
    ShiftMerged(a.aliveSuper, y.bareExitSuper, z.bareExitSuper);
  }

  lemma ShiftMerged(a: SuperCallStatus, p: SuperCallStatus, q: SuperCallStatus)
    ensures ComposeSuper(a, MergeSuper(p, q)) == MergeSuper(ComposeSuper(a, p), ComposeSuper(a, q))
  {
  }

  lemma MergeJoins(a: PathState, b: PathState, c: PathState, x: PathState, y: PathState, z: PathState)
    requires Joins(a, b, c) && Joins(x, y, z)
    ensures Joins(MergeBranches(a, x), MergeBranches(b, y), MergeBranches(c, z))
  {
  }

  /** Every expression that counts is counted right. */
  predicate WellCounted(s: Stmt) {
    match s
    case Simple(e) => Scanned(e)
    case Var(decls) => forall d :: d in decls ==> Scanned(d)
    case Block(stmts) => forall x :: x in stmts ==> WellCounted(x)
    case If(cond, thn, els) => Scanned(cond) && WellCounted(thn) && (els.Some? ==> WellCounted(els.value))
    case Switch(_, clauses) => forall c :: c in clauses ==> forall x :: x in c.body ==> WellCounted(x)
    case Try(block, handler, finalizer) =>
      && (forall x :: x in block ==> WellCounted(x))
      && (handler.Catch? ==> forall x :: x in handler.body ==> WellCounted(x))
      && (finalizer.SomeBlock? ==> forall x :: x in finalizer.body ==> WellCounted(x))
    case Loop(_, body) => WellCounted(body)
    case DoWhile(_, test) => Scanned(test)
    case Labeled(body) => WellCounted(body)
    case _ => true
  }

  lemma {:induction false} StateJoins(s: Stmt)
    requires WellCounted(s)
    ensures Joins(StateOf(Amended, s), StateOf(AsWritten, s), StateOf(LoopReturns, s))
    decreases s, 1
  {
    match s
    case Var(decls) => StepsJoin(PassThrough, decls);
    case Block(stmts) => SeqJoins(PassThrough, PassThrough, PassThrough, stmts);
    case If(cond, thn, els) =>
      StateJoins(thn);
      if els.Some? {
        StateJoins(els.value);
      }
      IfJoins(s);
    case Switch(_, clauses) =>
      if clauses != [] {
        MergedJoins(clauses, |clauses| - 1);
        var n := |clauses| - 1;
        MergeJoins(MergedStates(Amended, clauses, n), MergedStates(AsWritten, clauses, n), MergedStates(LoopReturns, clauses, n),
                   PassThrough, PassThrough, PassThrough);
      }
    case Try(_, _, _) => TryJoins(s);
    case Loop(_, body) => StateJoins(body);
    case Labeled(body) => StateJoins(body);
    case _ =>
  }

  lemma {:induction false} TryJoins(s: Stmt)
    requires s.Try? && WellCounted(s)
    ensures Joins(StateOf(Amended, s), StateOf(AsWritten, s), StateOf(LoopReturns, s))
    decreases s, 0
  {
    var p := PassThrough;
    SeqJoins(p, p, p, s.block);
    var x, y, z := p, p, p;
    if s.handler.Catch? {
      SeqJoins(p, p, p, s.handler.body);
      x, y, z := SeqState(Amended, p, s.handler.body), SeqState(AsWritten, p, s.handler.body), SeqState(LoopReturns, p, s.handler.body);
    }
    var a, b, c := SeqState(Amended, p, s.block), SeqState(AsWritten, p, s.block), SeqState(LoopReturns, p, s.block);
    MergeJoins(a, b, c, x, y, z);
    if s.finalizer.SomeBlock? {
      var f := s.finalizer.body;
      SeqJoins(p, p, p, f);
      ComposeJoins(MergeBranches(a, x), MergeBranches(b, y), MergeBranches(c, z),
                   SeqState(Amended, p, f), SeqState(AsWritten, p, f), SeqState(LoopReturns, p, f));
    }
  }

  lemma IfJoins(s: Stmt)
    requires s.If? && Scanned(s.cond) && Joins(StateOf(Amended, s.thn), StateOf(AsWritten, s.thn), StateOf(LoopReturns, s.thn))
    requires s.els.Some? ==>
               Joins(StateOf(Amended, s.els.value), StateOf(AsWritten, s.els.value), StateOf(LoopReturns, s.els.value))
    ensures Joins(StateOf(Amended, s), StateOf(AsWritten, s), StateOf(LoopReturns, s))
  {
    var c := StepSuper(PassThrough, Counted(s.cond));
    var x, y, z := StateOf(Amended, s.thn), StateOf(AsWritten, s.thn), StateOf(LoopReturns, s.thn);
    var u := if s.els.Some? then StateOf(Amended, s.els.value) else PassThrough;
    var v := if s.els.Some? then StateOf(AsWritten, s.els.value) else PassThrough;
    var w := if s.els.Some? then StateOf(LoopReturns, s.els.value) else PassThrough;
    MergeJoins(x, y, z, u, v, w);
    ComposeJoins(c, c, c, MergeBranches(x, u), MergeBranches(y, v), MergeBranches(z, w));
  }

  lemma {:induction false} StepsJoin(acc: PathState, es: seq<Expr>)
    requires (forall e :: e in es ==> Scanned(e)) && !acc.bareExitExists && Shaped(acc)
    ensures Joins(StepAll(Amended, acc, es), StepAll(AsWritten, acc, es), StepAll(LoopReturns, acc, es))
    decreases es
  {
    if es != [] {
      assert Scanned(es[0]);
      StepsJoin(StepSuper(acc, InExpr(es[0])), es[1..]);
    }
  }

  lemma {:induction false} SeqJoins(a: PathState, b: PathState, c: PathState, stmts: seq<Stmt>)
    requires Joins(a, b, c) && forall s :: s in stmts ==> WellCounted(s)
    ensures Joins(SeqState(Amended, a, stmts), SeqState(AsWritten, b, stmts), SeqState(LoopReturns, c, stmts))
    decreases stmts, 0
  {
    if stmts != [] {
      var x, y, z := StateOf(Amended, stmts[0]), StateOf(AsWritten, stmts[0]), StateOf(LoopReturns, stmts[0]);
      StateJoins(stmts[0]);
      ComposeJoins(a, b, c, x, y, z);
      SeqJoins(ComposeSequential(a, x), ComposeSequential(b, y), ComposeSequential(c, z), stmts[1..]);
    }
  }

  lemma {:induction false} EntryJoins(clauses: seq<Clause>, j: nat)
    requires j <= |clauses| && forall c :: c in clauses ==> forall x :: x in c.body ==> WellCounted(x)
    ensures Joins(EntryState(Amended, clauses, j), EntryState(AsWritten, clauses, j), EntryState(LoopReturns, clauses, j))
    decreases clauses, |clauses| - j
  {
    if j < |clauses| {
      var body := clauses[j].body;
      SeqJoins(PassThrough, PassThrough, PassThrough, body);
      EntryJoins(clauses, j + 1);
      ComposeJoins(SeqState(Amended, PassThrough, body), SeqState(AsWritten, PassThrough, body),
                   SeqState(LoopReturns, PassThrough, body), EntryState(Amended, clauses, j + 1),
                   EntryState(AsWritten, clauses, j + 1), EntryState(LoopReturns, clauses, j + 1));
    }
  }

  lemma {:induction false} MergedJoins(clauses: seq<Clause>, k: nat)
    requires k < |clauses| && forall c :: c in clauses ==> forall x :: x in c.body ==> WellCounted(x)
    ensures Joins(MergedStates(Amended, clauses, k), MergedStates(AsWritten, clauses, k), MergedStates(LoopReturns, clauses, k))
    decreases clauses, |clauses| + k + 1
  {
    EntryJoins(clauses, k);
    if k > 0 {
      MergedJoins(clauses, k - 1);
      MergeJoins(MergedStates(Amended, clauses, k - 1), MergedStates(AsWritten, clauses, k - 1),
                 MergedStates(LoopReturns, clauses, k - 1), EntryState(Amended, clauses, k),
                 EntryState(AsWritten, clauses, k), EntryState(LoopReturns, clauses, k));
    }
  }

  // ----- The program without its do-whiles, and with only their bare returns -----

  datatype Edit = LeaveOut | GiveValues

  /** The statement with every do-while left out, or with a value given to every bare return
      that is not in a do-while. */
  function Edited(m: Edit, s: Stmt): Stmt
    decreases s
  {
    match s
    case Block(stmts) => Block(EditedAll(m, stmts))
    case If(cond, thn, els) => If(cond, Edited(m, thn), if els.Some? then Some(Edited(m, els.value)) else None)
    case Switch(head, clauses) => Switch(head, EditedClauses(m, clauses))
    case Try(block, handler, finalizer) =>
      Try(EditedAll(m, block), if handler.Catch? then Catch(handler.binding, EditedAll(m, handler.body)) else NoCatch,
          if finalizer.SomeBlock? then SomeBlock(EditedAll(m, finalizer.body)) else NoBlock)
    case Return(arg) => if m.GiveValues? && arg.None? then Return(Some(Atom)) else s
    case Loop(header, body) => Loop(header, Edited(m, body))
    case DoWhile(_, _) => if m.LeaveOut? then Block([]) else s
    case Labeled(body) => Labeled(Edited(m, body))
    case _ => s
  }

  function EditedAll(m: Edit, stmts: seq<Stmt>): (r: seq<Stmt>)
    ensures |r| == |stmts| && forall i :: 0 <= i < |r| ==> r[i] == Edited(m, stmts[i])
    decreases stmts
  {
    if stmts == [] then [] else [Edited(m, stmts[0])] + EditedAll(m, stmts[1..])
  }

  function EditedClause(m: Edit, c: Clause): Clause
    decreases c
  {
    if c.Case? then Case(c.test, EditedAll(m, c.body)) else Default(EditedAll(m, c.body))
  }

  function EditedClauses(m: Edit, clauses: seq<Clause>): (r: seq<Clause>)
    ensures |r| == |clauses| && forall i :: 0 <= i < |r| ==> r[i] == EditedClause(m, clauses[i])
    decreases clauses
  {
    if clauses == [] then [] else [EditedClause(m, clauses[0])] + EditedClauses(m, clauses[1..])
  }

  predicate Tame(s: Stmt) { Plain(s, false) || Plain(s, true) || PlainInLoop(s) }

  predicate AllTame(stmts: seq<Stmt>) { forall x :: x in stmts ==> Tame(x) }

  predicate ClausesTame(clauses: seq<Clause>) { forall c :: c in clauses ==> AllTame(c.body) }

  lemma TameParts(s: Stmt)
    requires Tame(s)
    ensures s.Block? ==> AllTame(s.stmts)
    ensures s.If? ==> Tame(s.thn) && (s.els.Some? ==> Tame(s.els.value))
    ensures s.Switch? ==> ClausesTame(s.clauses)
    ensures s.Loop? ==> Tame(s.body)
    ensures s.DoWhile? ==> NoSuper(s.test) && Normal in Out(s)
    ensures s.Try? ==> Plain(s, false)
    ensures s.Labeled? ==> Tame(s.body)
  {
    if !s.Block? && !s.If? && !s.Break? && !s.Continue? {
      assert PlainInLoop(s) ==> Plain(s, false);
      assert Plain(s, false) || Plain(s, true);
      if s.Switch? {
        forall c | c in s.clauses ensures AllTame(c.body) {
          assert forall x :: x in c.body ==> Plain(x, true);
        }
      }
    }
  }

  /** The same of them stays inside, and no bare return is new. */
  predicate Agree(a: set<Completion>, b: set<Completion>) {
    (forall c :: c in Inside ==> (c in a <==> c in b)) && (ReturnedVoid in b ==> ReturnedVoid in a)
  }

  lemma {:induction false} EditedOut(m: Edit, s: Stmt)
    requires Tame(s)
    ensures Agree(Out(s), Out(Edited(m, s)))
    decreases s, 1
  {
    TameParts(s);
    match s
    case Block(stmts) => EditedOutList(m, stmts);
    case If(_, thn, els) =>
      EditedOut(m, thn);
      if els.Some? {
        EditedOut(m, els.value);
      }
    case Switch(_, clauses) =>
      EditedOutEntries(m, clauses);
      EditedDefault(m, clauses);
    case Try(_, _, _) => EditedOutTry(m, s);
    case Loop(header, body) =>
      EditedOut(m, body);
      assert Normal in OutAll(header.init);
    case Labeled(body) => EditedOut(m, body);
    case _ =>
  }

  lemma {:induction false} EditedOutTry(m: Edit, s: Stmt)
    requires s.Try? && Plain(s, false)
    ensures Agree(Out(s), Out(Edited(m, s)))
    decreases s, 0
  {
    EditedOutList(m, s.block);
    if s.handler.Catch? {
      EditedOutList(m, s.handler.body);
      EditedFaultable(m, s.block);
    }
    if s.finalizer.SomeBlock? {
      EditedOutList(m, s.finalizer.body);
    }
  }

  lemma EditedFaultable(m: Edit, stmts: seq<Stmt>)
    requires Faultable(stmts)
    ensures Faultable(EditedAll(m, stmts)) && Faulted in OutList(stmts) && Faulted in OutList(EditedAll(m, stmts))
  {
    assert EditedAll(m, stmts)[0] == stmts[0];
  }

  lemma {:induction false} EditedOutList(m: Edit, stmts: seq<Stmt>)
    requires AllTame(stmts)
    ensures Agree(OutList(stmts), OutList(EditedAll(m, stmts)))
    decreases stmts, 0
  {
    if stmts != [] {
      EditedOut(m, stmts[0]);
      EditedOutList(m, stmts[1..]);
      assert EditedAll(m, stmts)[1..] == EditedAll(m, stmts[1..]);
    }
  }

  lemma {:induction false} EditedOutFrom(m: Edit, clauses: seq<Clause>)
    requires ClausesTame(clauses)
    ensures Agree(OutFrom(clauses), OutFrom(EditedClauses(m, clauses)))
    decreases clauses, 0
  {
    if clauses != [] {
      EditedOutList(m, clauses[0].body);
      EditedOutFrom(m, clauses[1..]);
      assert EditedClauses(m, clauses)[1..] == EditedClauses(m, clauses[1..]);
    }
  }

  lemma {:induction false} EditedOutEntries(m: Edit, clauses: seq<Clause>)
    requires ClausesTame(clauses)
    ensures Agree(OutEntries(clauses), OutEntries(EditedClauses(m, clauses)))
    decreases clauses, 1
  {
    if clauses != [] {
      EditedOutFrom(m, clauses);
      EditedOutEntries(m, clauses[1..]);
      assert EditedClauses(m, clauses)[1..] == EditedClauses(m, clauses[1..]);
    }
  }

  lemma {:induction false} EditedDefault(m: Edit, clauses: seq<Clause>)
    ensures HasDefault(clauses) <==> HasDefault(EditedClauses(m, clauses))
  {
    var edited := EditedClauses(m, clauses);
    if c :| c in clauses && c.Default? {
      var i :| 0 <= i < |clauses| && clauses[i] == c;
      assert edited[i].Default? && edited[i] in edited;
    }
    if c :| c in edited && c.Default? {
      var i :| 0 <= i < |edited| && edited[i] == c;
      assert clauses[i].Default? && clauses[i] in clauses;
    }
  }

  lemma {:induction false} EditedFree(m: Edit, s: Stmt)
    requires SuperFree(s)
    ensures SuperFree(Edited(m, s))
    decreases s
  {
    match s
    case Block(stmts) => EditedAllFree(m, stmts);
    case If(_, thn, els) =>
      EditedFree(m, thn);
      if els.Some? {
        EditedFree(m, els.value);
      }
    case Switch(_, clauses) =>
      forall i | 0 <= i < |clauses|
        ensures QuietTest(EditedClause(m, clauses[i])) && forall x :: x in EditedClause(m, clauses[i]).body ==> SuperFree(x)
      {
        assert QuietTest(clauses[i]);
        EditedAllFree(m, clauses[i].body);
      }
    case Try(block, handler, finalizer) =>
      EditedAllFree(m, block);
      if handler.Catch? {
        EditedAllFree(m, handler.body);
      }
      if finalizer.SomeBlock? {
        EditedAllFree(m, finalizer.body);
      }
    case Loop(_, body) => EditedFree(m, body);
    case Labeled(body) => EditedFree(m, body);
    case _ =>
  }

  lemma {:induction false} EditedAllFree(m: Edit, stmts: seq<Stmt>)
    requires forall x :: x in stmts ==> SuperFree(x)
    ensures forall x :: x in EditedAll(m, stmts) ==> SuperFree(x)
    decreases stmts
  {
    forall i | 0 <= i < |stmts| ensures SuperFree(Edited(m, stmts[i])) {
      EditedFree(m, stmts[i]);
    }
  }

  lemma {:induction false} EditedPlain(m: Edit, s: Stmt, inClause: bool)
    requires Plain(s, inClause)
    ensures Plain(Edited(m, s), inClause)
    decreases s, 0
  {
    match s
    case Block(stmts) =>
      forall i | 0 <= i < |stmts| ensures Plain(Edited(m, stmts[i]), inClause) {
        EditedPlain(m, stmts[i], inClause);
      }
    case If(_, thn, els) =>
      EditedPlain(m, thn, false);
      if els.Some? {
        EditedPlain(m, els.value, false);
      }
    case Switch(_, clauses) =>
      forall i | 0 <= i < |clauses|
        ensures QuietTest(EditedClause(m, clauses[i])) && forall x :: x in EditedClause(m, clauses[i]).body ==> Plain(x, true)
      {
        assert QuietTest(clauses[i]);
        EditedListPlain(m, clauses[i].body, true);
      }
    case Try(_, _, _) => EditedTryPlain(m, s);
    case Loop(_, body) =>
      EditedOut(m, s);
      if SuperFree(body) && PlainInLoop(body) {
        EditedFree(m, body);
        EditedInLoop(m, body);
      } else {
        EditedPlain(m, body, false);
        EditedPasses(m, body);
      }
    case Labeled(body) => EditedPlain(m, body, inClause);
    case _ =>
  }

  lemma EditedPasses(m: Edit, s: Stmt)
    requires Tame(s) && Passes(Out(s))
    ensures Passes(Out(Edited(m, s)))
  {
    EditedOut(m, s);
  }

  lemma {:induction false} EditedTryPlain(m: Edit, s: Stmt)
    requires s.Try? && Plain(s, false)
    ensures Plain(Edited(m, s), false)
    decreases s, -1
  {
    EditedListPlain(m, s.block, false);
    EditedAllFree(m, s.block);
    EditedOutList(m, s.block);
    if s.handler.Catch? {
      EditedListPlain(m, s.handler.body, false);
      EditedFaultable(m, s.block);
    }
    if s.finalizer.SomeBlock? {
      EditedListPlain(m, s.finalizer.body, false);
      EditedAllFree(m, s.finalizer.body);
      EditedOutList(m, s.finalizer.body);
    }
  }

  lemma {:induction false} EditedListPlain(m: Edit, stmts: seq<Stmt>, inClause: bool)
    requires forall x :: x in stmts ==> Plain(x, inClause)
    ensures forall x :: x in EditedAll(m, stmts) ==> Plain(x, inClause)
    decreases stmts
  {
    forall i | 0 <= i < |stmts| ensures Plain(Edited(m, stmts[i]), inClause) {
      EditedPlain(m, stmts[i], inClause);
    }
  }

  lemma {:induction false} EditedInLoop(m: Edit, s: Stmt)
    requires PlainInLoop(s)
    ensures PlainInLoop(Edited(m, s))
    decreases s, 1
  {
    match s
    case Break =>
    case Continue =>
    case Block(stmts) =>
      forall i | 0 <= i < |stmts| ensures PlainInLoop(Edited(m, stmts[i])) {
        EditedInLoop(m, stmts[i]);
      }
    case If(_, thn, els) =>
      EditedInLoop(m, thn);
      if els.Some? {
        EditedInLoop(m, els.value);
      }
    case _ => EditedPlain(m, s, false);
  }

  // ----- The readings of the code are the amended one of the edited program -----

  function ReadingOf(m: Edit): Reading { if m.LeaveOut? then AsWritten else LoopReturns }

  lemma {:induction false} EditedState(m: Edit, s: Stmt)
    requires Tame(s) && WellCounted(s)
    ensures StateOf(Amended, Edited(m, s)) == StateOf(ReadingOf(m), s)
    decreases s, 0
  {
    TameParts(s);
    match s
    case Var(decls) => CountedSteps(m, PassThrough, decls);
    case Block(stmts) => EditedSeq(m, PassThrough, stmts);
    case If(cond, thn, els) =>
      EditedState(m, thn);
      if els.Some? {
        EditedState(m, els.value);
      }
    case Switch(_, clauses) =>
      EditedDefault(m, clauses);
      if clauses != [] {
        EditedMerged(m, clauses, |clauses| - 1);
      }
    case Return(arg) => EditedReturn(m, s);
    case Try(_, _, _) => EditedTry(m, s);
    case Loop(_, body) => EditedState(m, body);
    case DoWhile(_, _) => EditedDoWhile(m, s);
    case Labeled(body) => EditedState(m, body);
    case _ =>
  }

  lemma {:induction false} EditedTry(m: Edit, s: Stmt)
    requires s.Try? && Plain(s, false) && WellCounted(s)
    ensures StateOf(Amended, Edited(m, s)) == StateOf(ReadingOf(m), s)
    decreases s, -1
  {
    EditedSeq(m, PassThrough, s.block);
    if s.handler.Catch? {
      EditedSeq(m, PassThrough, s.handler.body);
    }
    if s.finalizer.SomeBlock? {
      EditedSeq(m, PassThrough, s.finalizer.body);
    }
  }

  lemma EditedReturn(m: Edit, s: Stmt)
    requires s.Return?
    ensures StateOf(Amended, Edited(m, s)) == StateOf(ReadingOf(m), s)
  {
  }

  lemma EditedDoWhile(m: Edit, s: Stmt)
    requires s.DoWhile? && NoSuper(s.test) && Scanned(s.test)
    ensures StateOf(Amended, Edited(m, s)) == StateOf(ReadingOf(m), s)
  {
  }

  lemma {:induction false} CountedSteps(m: Edit, acc: PathState, es: seq<Expr>)
    requires forall e :: e in es ==> Scanned(e)
    ensures StepAll(Amended, acc, es) == StepAll(ReadingOf(m), acc, es)
    decreases es
  {
    if es != [] {
      assert Scanned(es[0]);
      CountedSteps(m, StepSuper(acc, InExpr(es[0])), es[1..]);
    }
  }

  lemma {:induction false} EditedSeq(m: Edit, acc: PathState, stmts: seq<Stmt>)
    requires AllTame(stmts) && forall x :: x in stmts ==> WellCounted(x)
    ensures SeqState(Amended, acc, EditedAll(m, stmts)) == SeqState(ReadingOf(m), acc, stmts)
    decreases stmts, 0
  {
    if stmts != [] {
      EditedState(m, stmts[0]);
      assert EditedAll(m, stmts)[1..] == EditedAll(m, stmts[1..]);
      EditedSeq(m, ComposeSequential(acc, StateOf(ReadingOf(m), stmts[0])), stmts[1..]);
    }
  }

  lemma {:induction false} EditedEntry(m: Edit, clauses: seq<Clause>, j: nat)
    requires ClausesTame(clauses) && j <= |clauses| && forall c :: c in clauses ==> forall x :: x in c.body ==> WellCounted(x)
    ensures EntryState(Amended, EditedClauses(m, clauses), j) == EntryState(ReadingOf(m), clauses, j)
    decreases clauses, |clauses| - j
  {
    if j < |clauses| {
      EditedSeq(m, PassThrough, clauses[j].body);
      EditedEntry(m, clauses, j + 1);
    }
  }

  lemma {:induction false} EditedMerged(m: Edit, clauses: seq<Clause>, k: nat)
    requires ClausesTame(clauses) && k < |clauses| && forall c :: c in clauses ==> forall x :: x in c.body ==> WellCounted(x)
    ensures MergedStates(Amended, EditedClauses(m, clauses), k) == MergedStates(ReadingOf(m), clauses, k)
    decreases clauses, |clauses| + k + 1
  {
    EditedEntry(m, clauses, k);
    if k > 0 {
      EditedMerged(m, clauses, k - 1);
    }
    MergedStep(Amended, EditedClauses(m, clauses), k);
    MergedStep(ReadingOf(m), clauses, k);
  }

  lemma MergedStep(rd: Reading, clauses: seq<Clause>, k: nat)
    requires k < |clauses|
    ensures MergedStates(rd, clauses, k) ==
            if k == 0 then EntryState(rd, clauses, k)
            else MergeBranches(MergedStates(rd, clauses, k - 1), EntryState(rd, clauses, k))
  {
  }

  /** So each of them is exact for the edited body. */
  lemma {:induction false} EditedExact(m: Edit, body: seq<Stmt>)
    requires forall s :: s in body ==> Plain(s, false) && WellCounted(s)
    ensures forall s :: s in EditedAll(m, body) ==> Plain(s, false)
    ensures SeqState(Amended, PassThrough, EditedAll(m, body)) == SeqState(ReadingOf(m), PassThrough, body)
  {
    forall i | 0 <= i < |body| ensures Plain(Edited(m, body[i]), false) {
      EditedPlain(m, body[i], false);
    }
    EditedSeq(m, PassThrough, body);
  }

  // ----- When the constructor status is wrong -----

  /** The body never completes normally, and some path has made two calls by the first
      statement that cannot. */
  ghost predicate ArrivesTwice(body: seq<Stmt>) { Normal !in OutList(body) && SomeTwice(Arriving(body)) }

  ghost predicate SomeTwice(counts: iset<nat>) { exists k :: k in counts && k >= 2 }

  /** The call counts of the judged runs that do not return out of a do-while. */
  ghost function Kept(body: seq<Stmt>): iset<nat> { Judged(EditedAll(LeaveOut, body)) }

  /** The call counts of the bare returns out of do-whiles. */
  ghost function Lost(body: seq<Stmt>): iset<nat> { CountsList(EditedAll(GiveValues, body), ReturnedVoid) }

  /** The bare returns out of do-whiles call for another status than the other judged runs. */
  ghost predicate LosesReturn(body: seq<Stmt>) {
    Lost(body) != iset{} &&
    if Kept(body) == iset{} then Alpha(Lost(body)) != SuperAlways else Alpha(Kept(body) + Lost(body)) != Alpha(Kept(body))
  }

  /** The status differs from the true one exactly when two calls are counted on paths that end
      otherwise, or else when a bare return out of a do-while matters. */
  lemma {:induction false} ConstructorExact(body: seq<Stmt>)
    requires forall s :: s in body ==> Plain(s, false) && WellCounted(s)
    ensures ConstructorSuperCallStatus(body) != TrueStatus(body) <==>
            if ArrivesTwice(body) then !SomeTwice(Judged(body)) else LosesReturn(body)
  {
    var all, some, lost := SeqState(Amended, PassThrough, body), SeqState(AsWritten, PassThrough, body), SeqState(LoopReturns, PassThrough, body);
    SeqJoins(PassThrough, PassThrough, PassThrough, body);
    AmendedExact(body);
    Verdicts(all, some, lost);
    StaleIsTwice(body);
    TwiceJudged(body);
    if !Stale(all) {
      KeptAndLost(body);
      if Lost(body) != iset{} {
        LostMatters(body);
      }
    }
  }

  /** What the code records is what is kept, and the rest is what is lost. */
  lemma KeptAndLost(body: seq<Stmt>)
    requires forall s :: s in body ==> Plain(s, false) && WellCounted(s)
    ensures Conclude(SeqState(AsWritten, PassThrough, body)) == TrueStatus(EditedAll(LeaveOut, body))
    ensures var lost := SeqState(LoopReturns, PassThrough, body);
            (lost.bareExitExists <==> Lost(body) != iset{}) && (lost.bareExitExists ==> lost.bareExitSuper == Alpha(Lost(body)))
  {
    EditedExact(LeaveOut, body);
    AmendedExact(EditedAll(LeaveOut, body));
    EditedExact(GiveValues, body);
    ListExact(EditedAll(GiveValues, body), false);
  }

  lemma LostMatters(body: seq<Stmt>)
    requires Lost(body) != iset{}
    ensures var kept := TrueStatus(EditedAll(LeaveOut, body));
            MergeSuper(kept, Alpha(Lost(body))) != kept <==> LosesReturn(body)
  {
    if Kept(body) != iset{} {
      MergeIsUnion(Kept(body), Lost(body));
    }
  }

  predicate Stale(st: PathState) { !st.aliveExists && st.aliveSuper == SuperMultiple }

  lemma Verdicts(all: PathState, some: PathState, lost: PathState)
    requires Joins(all, some, lost)
    ensures Finalize(ComposeSequential(PassThrough, some)) == Finalize(some)
    ensures if Stale(all) then Finalize(some) == SuperMultiple
            else Finalize(some) == Conclude(some) &&
                 (Finalize(some) != Conclude(all) <==>
                  lost.bareExitExists && MergeSuper(Conclude(some), lost.bareExitSuper) != Conclude(some))
  {
  }

  lemma StaleIsTwice(body: seq<Stmt>)
    requires forall s :: s in body ==> Plain(s, false)
    ensures Stale(SeqState(Amended, PassThrough, body)) <==> ArrivesTwice(body)
  {
    AliveIsNormal(body, false);
    ListExact(body, false);
    ListStale(body, false);
  }

  lemma TwiceJudged(body: seq<Stmt>)
    ensures TrueStatus(body) == SuperMultiple <==> SomeTwice(Judged(body))
  {
  }

  lemma FirstOf(acc: PathState, s: Stmt, rest: seq<Stmt>)
    ensures var next := ComposeSequential(acc, StateOf(AsWritten, s));
            SeqState(AsWritten, acc, [s] + rest) ==
            if next.broke || !next.aliveExists then next else SeqState(AsWritten, next, rest)
    ensures OutList([s] + rest) == Then(Out(s), OutList(rest))
  {
    assert ([s] + rest)[0] == s && ([s] + rest)[1..] == rest;
  }

  /** `super(); super(); throw e;` is reported as Multiple although no judged run exists. */
  lemma StaleMultipleHappens(e: Expr)
    ensures var body := [Simple(SuperCall([])), Simple(SuperCall([])), Throw(e)];
            ConstructorSuperCallStatus(body) == SuperMultiple && TrueStatus(body) == SuperAlways
  {
    var call := Simple(SuperCall([]));
    var once, twice := PassThrough.(aliveSuper := SuperAlways), PassThrough.(aliveSuper := SuperMultiple);
    assert InExprs(SuperNone, []) == SuperNone;
    assert StateOf(AsWritten, call) == once;
    FirstOf(twice, Throw(e), []);
    FirstOf(once, call, [Throw(e)]);
    FirstOf(PassThrough, call, [call, Throw(e)]);
    var body := [call] + ([call] + ([Throw(e)] + []));
    assert body == [call, call, Throw(e)] && [call] + ([Throw(e)] + []) == [call, Throw(e)] && [Throw(e)] + [] == [Throw(e)];
    NeverJudged(body);
  }

  lemma NeverJudged(body: seq<Stmt>)
    requires Normal !in OutList(body) && ReturnedVoid !in OutList(body)
    ensures Judged(body) == iset{}
  {
    forall c | c == Normal || c == ReturnedVoid ensures CountsList(body, c) == iset{} {
      OutListExact(body, c);
      CanListNonempty(body, c);
    }
  }
}

/** What a constructor's status promises about every run of it. */
module SuperSound {
  import opened Options
  import opened Syntax
  import opened Completions
  import opened Paths
  import opened Jumps
  import opened Outcomes
  import opened SuperCount
  import opened SuperFlow

  // ----- Code without super calls -----

  predicate NoSuper(e: Expr) { Counted(e) == SuperNone }

  predicate SuperFree(s: Stmt) {
    match s
    case Simple(e) => NoSuper(e)
    case Var(decls) => forall d :: d in decls ==> NoSuper(d)
    case Block(stmts) => forall x :: x in stmts ==> SuperFree(x)
    case If(cond, thn, els) => NoSuper(cond) && SuperFree(thn) && (els.Some? ==> SuperFree(els.value))
    case Switch(head, clauses) =>
      NoSuper(head) && forall c :: c in clauses ==> QuietTest(c) && forall x :: x in c.body ==> SuperFree(x)
    case Try(block, handler, finalizer) =>
      && (forall x :: x in block ==> SuperFree(x))
      && (handler.Catch? ==> NoneSuper(handler.binding) && forall x :: x in handler.body ==> SuperFree(x))
      && (finalizer.SomeBlock? ==> forall x :: x in finalizer.body ==> SuperFree(x))
    case Return(arg) => arg.Some? ==> NoSuper(arg.value)
    case Throw(e) => NoSuper(e)
    case Break => true
    case Continue => true
    case Loop(header, body) => QuietHeader(header) && SuperFree(body)
    case DoWhile(body, test) => SuperFree(body) && NoSuper(test)
    case Labeled(body) => SuperFree(body)
  }

  predicate NoneSuper(es: seq<Expr>) { forall e :: e in es ==> NoSuper(e) }

  predicate QuietHeader(h: Header) { NoneSuper(h.init) && NoneSuper(h.test) && NoneSuper(h.binding) && NoneSuper(h.step) }

  predicate QuietTest(c: Clause) { c.Case? ==> NoSuper(c.test) }

  lemma NoSuperIsZero(e: Expr, k: nat)
    requires NoSuper(e) && k in PathCounts(e)
    ensures k == 0
  {
    CountedExact(e);
    OnlyZero(PathCounts(e));
  }

  lemma {:induction false} NoSuperAllZero(es: seq<Expr>, k: nat)
    requires (forall e :: e in es ==> NoSuper(e)) && k in PathCountsAll(es)
    ensures k == 0
    decreases es
  {
    if es != [] {
      var i: nat :| i in PathCounts(es[0]) && i <= k && k - i in PathCountsAll(es[1..]);
      NoSuperIsZero(es[0], i);
      NoSuperAllZero(es[1..], k - i);
    }
  }

  lemma QuietEvaluates(e: Expr, r: Run)
    requires NoSuper(e) && Evaluates(PathCounts(e), r)
    ensures r.calls == 0
  {
    var k :| k in PathCounts(e) && r.calls <= k;
    NoSuperIsZero(e, k);
  }

  lemma QuietEvaluatesAll(es: seq<Expr>, r: Run)
    requires (forall e :: e in es ==> NoSuper(e)) && Evaluates(PathCountsAll(es), r)
    ensures r.calls == 0
  {
    var k :| k in PathCountsAll(es) && r.calls <= k;
    NoSuperAllZero(es, k);
  }

  lemma QuietAll(es: seq<Expr>, r: Run)
    requires NoneSuper(es) && EvaluatesAll(es, r)
    ensures r.calls == 0
  {
    if es != [] {
      QuietEvaluatesAll(es, r);
    }
  }

  lemma {:induction false} QuietTests(clauses: seq<Clause>, e: Expr)
    requires (forall c :: c in clauses ==> QuietTest(c)) && e in Tests(clauses)
    ensures NoSuper(e)
  {
    assert QuietTest(clauses[0]);
    if !(clauses[0].Case? && e == clauses[0].test) {
      QuietTests(clauses[1..], e);
    }
  }

  /** Evaluating a quiet switch's head and labels makes no super call. */
  lemma QuietHead(s: Stmt, i: nat, r: Run)
    requires s.Switch? && NoSuper(s.head) && (forall c :: c in s.clauses ==> QuietTest(c))
    requires || Evaluates(PathCountsAll([s.head] + Tests(s.clauses)), r)
             || (i < |s.clauses| && Evaluates(PathCountsAll([s.head] + TestsBefore(s.clauses, i)), r))
    ensures r.calls == 0
  {
    var es := [s.head] + (if Evaluates(PathCountsAll([s.head] + Tests(s.clauses)), r) then Tests(s.clauses)
                          else TestsBefore(s.clauses, i));
    forall e | e in es ensures NoSuper(e) {
      if e != s.head {
        if e in Tests(s.clauses) {
          QuietTests(s.clauses, e);
        } else {
          QuietTests(s.clauses[..i + 1], e);
        }
      }
    }
    QuietEvaluatesAll(es, r);
  }

  lemma {:induction false} SuperFreeRun(s: Stmt, r: Run)
    requires SuperFree(s) && Runs(s, r)
    ensures r.calls == 0
    decreases s, r, 1
  {
    match s
    case Simple(e) => QuietEvaluates(e, r);
    case Var(decls) => QuietEvaluatesAll(decls, r);
    case Block(stmts) => SuperFreeRunList(stmts, r);
    case If(cond, thn, els) =>
      if Chained(r) {
        QuietEvaluates(cond, r.first);
        if Runs(thn, r.second) {
          SuperFreeRun(thn, r.second);
        } else if els.Some? {
          SuperFreeRun(els.value, r.second);
        }
      } else {
        QuietEvaluates(cond, r);
      }
    case Switch(_, clauses) => SuperFreeSwitch(s, r);
    case Try(_, _, finalizer) =>
      if finalizer.NoBlock? {
        SuperFreeGuarded(s, r);
      } else {
        SuperFreeGuarded(s, r.first);
        SuperFreeRunList(finalizer.body, r.second);
      }
    case Return(arg) =>
      if arg.Some? {
        QuietLeaf(arg.value, r);
      }
    case Throw(e) => QuietLeaf(e, r);
    case Loop(header, body) =>
      if Chained(r) {
        QuietAll(header.init, r.first);
        SuperFreeLoop(header, body, r.second);
      } else {
        QuietAll(header.init, r);
      }
    case DoWhile(body, test) => SuperFreeDo(body, test, r);
    case Labeled(body) => SuperFreeRun(body, r);
    case _ =>
  }

  lemma QuietLeaf(e: Expr, r: Run)
    requires NoSuper(e) && (Evaluates(PathCounts(e), r) || r.calls in PathCounts(e))
    ensures r.calls == 0
  {
    if r.calls in PathCounts(e) {
      NoSuperIsZero(e, r.calls);
    } else {
      QuietEvaluates(e, r);
    }
  }

  lemma {:induction false} SuperFreeSwitch(s: Stmt, r: Run)
    requires s.Switch? && SuperFree(s) && Runs(s, r)
    ensures r.calls == 0
    decreases s, r, 0
  {
    if r.Leaf? {
      QuietHead(s, 0, r);
    } else if i: nat :| i < |s.clauses| && Evaluates(PathCountsAll([s.head] + TestsBefore(s.clauses, i)), r.first) &&
                        RunsFrom(s.clauses[i..], r.second) {
      QuietHead(s, i, r.first);
      SuperFreeRunFrom(s.clauses[i..], r.second);
    } else {
      QuietHead(s, 0, r.first);
    }
  }

  lemma {:induction false} SuperFreeGuarded(s: Stmt, r: Run)
    requires s.Try? && SuperFree(s) && RunsGuarded(s, r)
    ensures r.calls == 0
    decreases s, r, 0
  {
    if RunsList(s.block, r) {
      SuperFreeRunList(s.block, r);
    } else {
      SuperFreeRunList(s.block, r.first);
      if Chained(r.second) {
        QuietAll(s.handler.binding, r.second.first);
        SuperFreeRunList(s.handler.body, r.second.second);
      } else {
        QuietAll(s.handler.binding, r.second);
      }
    }
  }

  lemma {:induction false} SuperFreeRunList(stmts: seq<Stmt>, r: Run)
    requires (forall x :: x in stmts ==> SuperFree(x)) && RunsList(stmts, r)
    ensures r.calls == 0
    decreases stmts, r, 0
  {
    if stmts != [] {
      if Runs(stmts[0], r) && r.end != Normal {
        SuperFreeRun(stmts[0], r);
      } else {
        SuperFreeRun(stmts[0], r.first);
        SuperFreeRunList(stmts[1..], r.second);
      }
    }
  }

  lemma {:induction false} SuperFreeRunFrom(clauses: seq<Clause>, r: Run)
    requires (forall c :: c in clauses ==> forall x :: x in c.body ==> SuperFree(x)) && RunsFrom(clauses, r)
    ensures r.calls == 0
    decreases clauses, r, 0
  {
    if clauses != [] {
      if RunsList(clauses[0].body, r) && r.end != Normal {
        SuperFreeRunList(clauses[0].body, r);
      } else {
        SuperFreeRunList(clauses[0].body, r.first);
        SuperFreeRunFrom(clauses[1..], r.second);
      }
    }
  }

  lemma {:induction false} SuperFreeLoop(header: Header, body: Stmt, r: Run)
    requires QuietHeader(header) && SuperFree(body) && RunsLoop(header, body, r)
    ensures r.calls == 0
    decreases body, r, 0
  {
    if header.test != [] && EvaluatesAll(header.test, r) {
      QuietAll(header.test, r);
    } else if EvaluatesAll(header.test + header.binding, r) && r.end != Normal {
      QuietAll(header.test + header.binding, r);
    } else {
      QuietAll(header.test + header.binding, r.first.first);
      SuperFreeRun(body, r.first.second);
      if r.first.end == Normal || r.first.end == Continued {
        if EvaluatesAll(header.step, r.second) && r.second.end != Normal {
          QuietAll(header.step, r.second);
        } else {
          QuietAll(header.step, r.second.first);
          SuperFreeLoop(header, body, r.second.second);
        }
      }
    }
  }

  lemma {:induction false} SuperFreeDo(body: Stmt, test: Expr, r: Run)
    requires NoSuper(test) && SuperFree(body) && RunsDo(body, test, r)
    ensures r.calls == 0
    decreases body, r, 0
  {
    SuperFreeRun(body, r.first);
    if r.first.end == Normal || r.first.end == Continued {
      if Evaluates(PathCounts(test), r.second) {
        QuietEvaluates(test, r.second);
      } else {
        QuietEvaluates(test, r.second.first);
        SuperFreeDo(body, test, r.second.second);
      }
    }
  }

  // ----- The fragment the count is trusted on -----

  /** What a `break` at this point is aimed at, and whether the analysis can follow it. */
  datatype BreakContext = Untracked | InClause | InLoop

  /** No super call in a switch head or label, a loop head or a do-while; breaks of a switch only in
      clause lists and blocks there; no `break` or `continue` of a loop that calls super; a try does
      not call super before its handler, nor in its finally block, which does not return; and no
      hasty loop where the paths after it are certain to leave. */
  predicate Fit(s: Stmt, ctx: BreakContext) {
    match s
    case Break => ctx != Untracked
    case Block(stmts) => forall x :: x in stmts ==> Fit(x, ctx)
    case If(_, thn, els) =>
      var inner := if ctx == InLoop then InLoop else Untracked;
      && Fit(thn, inner) && Lasts(thn)
      && (els.Some? ==> Fit(els.value, inner) && Lasts(els.value))
    case Switch(head, clauses) =>
      && NoSuper(head) && (forall c :: c in clauses ==> QuietTest(c) && forall x :: x in c.body ==> Fit(x, InClause))
      && (AnyHasty(clauses) ==> forall j: nat :: j < |clauses| ==> Normal in Leave(OutFrom(clauses[j..])))
    case Try(block, handler, finalizer) =>
      && (forall x :: x in block ==> Fit(x, Untracked)) && LastsList(block)
      && (handler.Catch? ==>
            && (forall x :: x in handler.body ==> Fit(x, Untracked)) && LastsList(handler.body) && NoneSuper(handler.binding)
            && ((forall x :: x in block ==> SuperFree(x)) || !(Normal in OutList(handler.body) || ReturnedVoid in OutList(handler.body))))
      && (finalizer.SomeBlock? ==>
            (forall x :: x in finalizer.body ==> SuperFree(x) && Fit(x, Untracked)) && ReturnedVoid !in OutList(finalizer.body))
    case Loop(header, body) =>
      QuietHeader(header) && ((SuperFree(body) && Fit(body, InLoop)) || (Fit(body, Untracked) && Continued !in Out(body)))
    case DoWhile(body, test) => SuperFree(body) && NoSuper(test)
    case Labeled(body) => Fit(body, ctx)
    case _ => true
  }

  /** It contains a loop whose body may go round after a super call, or return bare: the returns of
      later rounds come after calls that are counted only for the paths that go on. */
  predicate Hasty(s: Stmt) {
    match s
    case Block(stmts) => exists x :: x in stmts && Hasty(x)
    case If(_, thn, els) => Hasty(thn) || (els.Some? && Hasty(els.value))
    case Switch(_, clauses) => exists c :: c in clauses && exists x :: x in c.body && Hasty(x)
    case Try(block, handler, finalizer) =>
      (exists x :: x in block && Hasty(x)) || (handler.Catch? && exists x :: x in handler.body && Hasty(x))
    case Loop(_, body) =>
      Hasty(body) || (StateOf(Amended, body).aliveSuper != SuperNone && Normal in Out(body) && ReturnedVoid in Out(body))
    case Labeled(body) => Hasty(body)
    case _ => false
  }

  predicate AnyHasty(clauses: seq<Clause>) { exists c :: c in clauses && exists x :: x in c.body && Hasty(x) }

  predicate HastyList(stmts: seq<Stmt>) { exists x :: x in stmts && Hasty(x) }

  /** A path that goes on shows the calls of a hasty loop. */
  predicate Lasts(s: Stmt) { Hasty(s) ==> Normal in Out(s) }

  predicate LastsList(stmts: seq<Stmt>) { HastyList(stmts) ==> Normal in OutList(stmts) }

  lemma {:induction false} UntrackedStays(s: Stmt)
    requires Fit(s, Untracked)
    ensures Stays(s, Broke)
  {
    match s
    case Block(stmts) => forall x | x in stmts ensures Stays(x, Broke) { UntrackedStays(x); }
    case If(_, thn, els) =>
      UntrackedStays(thn);
      if els.Some? {
        UntrackedStays(els.value);
      }
    case Try(block, handler, finalizer) =>
      forall x | x in block ensures Stays(x, Broke) { UntrackedStays(x); }
      if handler.Catch? {
        forall x | x in handler.body ensures Stays(x, Broke) { UntrackedStays(x); }
      }
      if finalizer.SomeBlock? {
        forall x | x in finalizer.body ensures Stays(x, Broke) { UntrackedStays(x); }
      }
    case Labeled(body) => UntrackedStays(body);
    case _ =>
  }

  // ----- Every run is accounted for -----

  /** `st` covers a path that completed with `c` after `k` calls. */
  predicate Accounts(st: PathState, c: Completion, k: nat, ctx: BreakContext) {
    && (c == Normal ==> st.aliveExists && Within(k, st.aliveSuper))
    && (c == ReturnedVoid ==> st.bareExitExists && Within(k, st.bareExitSuper))
    && (c == Broke && ctx == InClause ==> st.broke && Within(k, st.aliveSuper))
  }

  /** Or the path returned bare out of a hasty loop, and `st` says so. */
  predicate Covered(st: PathState, c: Completion, k: nat, ctx: BreakContext, hasty: bool) {
    Accounts(st, c, k, ctx) || (hasty && c == ReturnedVoid && st.aliveSuper == SuperMultiple)
  }

  /** A path is either alive or broken off, and only bare exits have a bare-exit count. */
  predicate Shaped(st: PathState) { !(st.broke && st.aliveExists) && (!st.bareExitExists ==> st.bareExitSuper == SuperNone) }

  lemma ComposeCovers(a: PathState, b: PathState, i: nat, c: Completion, k: nat, ctx: BreakContext, hasty: bool)
    requires Accounts(a, Normal, i, ctx) && Covered(b, c, k, ctx, hasty) && Shaped(a)
    ensures Covered(ComposeSequential(a, b), c, i + k, ctx, hasty)
  {
  }

  lemma {:induction false} StateShaped(rd: Reading, s: Stmt)
    ensures Shaped(StateOf(rd, s))
    decreases s, 0
  {
    match s
    case Var(decls) => StepAllShaped(rd, PassThrough, decls);
    case Block(stmts) => SeqShaped(rd, PassThrough, stmts);
    case If(_, thn, els) =>
      StateShaped(rd, thn);
      if els.Some? {
        StateShaped(rd, els.value);
      }
    case Switch(_, clauses) =>
      if clauses != [] {
        MergedShaped(rd, clauses, |clauses| - 1);
      }
    case Try(block, handler, finalizer) =>
      SeqShaped(rd, PassThrough, block);
      if handler.Catch? {
        SeqShaped(rd, PassThrough, handler.body);
      }
      if finalizer.SomeBlock? {
        SeqShaped(rd, PassThrough, finalizer.body);
      }
    case Labeled(body) => StateShaped(rd, body);
    case _ =>
  }

  lemma {:induction false} StepAllShaped(rd: Reading, acc: PathState, es: seq<Expr>)
    requires Shaped(acc) && !acc.broke
    ensures Shaped(StepAll(rd, acc, es)) && !StepAll(rd, acc, es).broke
    decreases es
  {
    if es != [] {
      StepAllShaped(rd, StepSuper(acc, Count(rd, es[0])), es[1..]);
    }
  }

  lemma {:induction false} SeqShaped(rd: Reading, acc: PathState, stmts: seq<Stmt>)
    requires Shaped(acc)
    ensures Shaped(SeqState(rd, acc, stmts))
    decreases stmts, 0
  {
    if stmts != [] {
      StateShaped(rd, stmts[0]);
      SeqShaped(rd, ComposeSequential(acc, StateOf(rd, stmts[0])), stmts[1..]);
    }
  }

  lemma {:induction false} EntryShaped(rd: Reading, clauses: seq<Clause>, j: nat)
    requires j <= |clauses|
    ensures Shaped(EntryState(rd, clauses, j)) && !EntryState(rd, clauses, j).broke
    decreases clauses, |clauses| - j
  {
    if j < |clauses| {
      SeqShaped(rd, PassThrough, clauses[j].body);
      EntryShaped(rd, clauses, j + 1);
    }
  }

  lemma {:induction false} MergedShaped(rd: Reading, clauses: seq<Clause>, k: nat)
    requires k < |clauses|
    ensures Shaped(MergedStates(rd, clauses, k)) && !MergedStates(rd, clauses, k).broke
    decreases clauses, |clauses| + k + 1
  {
    EntryShaped(rd, clauses, k);
    if k > 0 {
      MergedShaped(rd, clauses, k - 1);
    }
  }

  lemma {:induction false} StateAccounts(s: Stmt, ctx: BreakContext, r: Run)
    requires Fit(s, ctx) && Runs(s, r)
    ensures Covered(StateOf(Amended, s), r.end, r.calls, ctx, Hasty(s))
    decreases s, 1
  {
    match s
    case Simple(e) => StepAccounts(e, r);
    case Var(decls) =>
      StepAllCounts(PassThrough, decls);
      assert PathCounts(Compound(decls)) == PathCountsAll(decls) && Counted(Compound(decls)) == CountedAll(decls);
      StepAccounts(Compound(decls), r);
    case Block(stmts) => SeqAccounts(PassThrough, stmts, ctx, r, 0);
    case If(_, _, _) => IfAccounts(s, ctx, r);
    case Switch(_, _) => SwitchAccounts(s, r);
    case Try(_, _, _) => TryAccounts(s, r);
    case Loop(_, _) => LoopAccounts(s, r);
    case DoWhile(_, _) => DoWhileAccounts(s, r);
    case Labeled(body) => StateAccounts(body, ctx, r);
    case _ =>
  }

  lemma {:induction false} StepAllCounts(acc: PathState, es: seq<Expr>)
    requires acc.aliveExists
    ensures StepAll(Amended, acc, es) == StepSuper(acc, CountedAll(es))
    decreases es
  {
    if es != [] {
      StepAllCounts(StepSuper(acc, Counted(es[0])), es[1..]);
    }
  }

  lemma StepAccounts(e: Expr, r: Run)
    requires Evaluates(PathCounts(e), r)
    ensures forall ctx :: Accounts(StepSuper(PassThrough, Counted(e)), r.end, r.calls, ctx)
  {
    if r.end == Normal {
      CountedExact(e);
      AlphaCovers(PathCounts(e), r.calls);
    }
  }

  /** Running `stmts` after a path that has made `i` calls so far. */
  lemma {:induction false} SeqAccounts(acc: PathState, stmts: seq<Stmt>, ctx: BreakContext, r: Run, i: nat)
    requires (forall x :: x in stmts ==> Fit(x, ctx)) && RunsList(stmts, r)
    requires Shaped(acc) && Accounts(acc, Normal, i, ctx)
    ensures Covered(SeqState(Amended, acc, stmts), r.end, i + r.calls, ctx, HastyList(stmts))
    decreases stmts, 0
  {
    if stmts != [] {
      var d := StateOf(Amended, stmts[0]);
      var next := ComposeSequential(acc, d);
      StateShaped(Amended, stmts[0]);
      HastyCons(stmts);
      if Runs(stmts[0], r) && r.end != Normal {
        StateAccounts(stmts[0], ctx, r);
        ComposeCovers(acc, d, i, r.end, r.calls, ctx, Hasty(stmts[0]));
        SeqKeeps(next, stmts[1..], r.end, i + r.calls, ctx, HastyList(stmts));
      } else {
        StateAccounts(stmts[0], ctx, r.first);
        ComposeCovers(acc, d, i, Normal, r.first.calls, ctx, Hasty(stmts[0]));
        SeqAccounts(next, stmts[1..], ctx, r.second, i + r.first.calls);
      }
    }
  }

  lemma HastyCons(stmts: seq<Stmt>)
    requires stmts != []
    ensures HastyList(stmts) <==> Hasty(stmts[0]) || HastyList(stmts[1..])
  {
    assert stmts == [stmts[0]] + stmts[1..];
  }

  lemma {:induction false} SeqKeeps(acc: PathState, stmts: seq<Stmt>, c: Completion, k: nat, ctx: BreakContext, hasty: bool)
    requires c != Normal && Covered(acc, c, k, ctx, hasty) && Shaped(acc) && (c == Broke && ctx == InClause ==> acc.broke)
    ensures Covered(SeqState(Amended, acc, stmts), c, k, ctx, hasty)
    decreases stmts
  {
    if stmts != [] {
      var next := ComposeSequential(acc, StateOf(Amended, stmts[0]));
      StateShaped(Amended, stmts[0]);
      if !next.broke && next.aliveExists {
        SeqKeeps(next, stmts[1..], c, k, ctx, hasty);
      }
    }
  }

  lemma {:induction false} IfAccounts(s: Stmt, ctx: BreakContext, r: Run)
    requires s.If? && Fit(s, ctx) && Runs(s, r)
    ensures Covered(StateOf(Amended, s), r.end, r.calls, ctx, Hasty(s))
    decreases s, 0
  {
    if Chained(r) {
      var a := StateOf(Amended, s.thn);
      var b := if s.els.Some? then StateOf(Amended, s.els.value) else PassThrough;
      var inner := if ctx == InLoop then InLoop else Untracked;
      StepAccounts(s.cond, r.first);
      if Runs(s.thn, r.second) {
        BranchAccounts(s.thn, inner, r.second);
        MergeCovers(a, b, r.end, r.second.calls, inner, Hasty(s.thn));
      } else if s.els.Some? {
        BranchAccounts(s.els.value, inner, r.second);
        MergeCovers(b, a, r.end, r.second.calls, inner, Hasty(s.els.value));
      } else {
        MergeCovers(b, a, r.end, r.second.calls, inner, false);
      }
      MergeCommutes(a, b);
      IfNotBroken(s, ctx, r);
      ComposeCovers(StepSuper(PassThrough, Counted(s.cond)), MergeBranches(a, b), r.first.calls, r.end, r.second.calls, ctx, Hasty(s));
    }
  }

  lemma {:induction false} BranchAccounts(s: Stmt, ctx: BreakContext, r: Run)
    requires Fit(s, ctx) && Lasts(s) && Runs(s, r)
    ensures Covered(StateOf(Amended, s), r.end, r.calls, ctx, Hasty(s)) && (Hasty(s) ==> StateOf(Amended, s).aliveExists)
    decreases s, 2
  {
    StateAccounts(s, ctx, r);
    if Hasty(s) {
      var q := Reach(s, Normal);
      StateAccounts(s, ctx, q);
    }
  }

  lemma {:induction false} PartAccounts(stmts: seq<Stmt>, r: Run)
    requires (forall x :: x in stmts ==> Fit(x, Untracked)) && LastsList(stmts) && RunsList(stmts, r)
    ensures var st := SeqState(Amended, PassThrough, stmts);
            Covered(st, r.end, r.calls, Untracked, HastyList(stmts)) && (HastyList(stmts) ==> st.aliveExists)
    decreases stmts, 1
  {
    SeqAccounts(PassThrough, stmts, Untracked, r, 0);
    if HastyList(stmts) {
      var q := ReachList(stmts, Normal);
      SeqAccounts(PassThrough, stmts, Untracked, q, 0);
    }
  }

  lemma MergeCovers(a: PathState, b: PathState, c: Completion, k: nat, ctx: BreakContext, hasty: bool)
    requires Covered(a, c, k, ctx, hasty) && (hasty ==> a.aliveExists) && ctx != InClause
    ensures Covered(MergeBranches(a, b), c, k, ctx, hasty)
  {
  }

  lemma MergeCommutes(a: PathState, b: PathState)
    ensures MergeBranches(a, b) == MergeBranches(b, a)
  {
  }

  lemma IfNotBroken(s: Stmt, ctx: BreakContext, r: Run)
    requires s.If? && Fit(s, ctx) && Runs(s, r)
    ensures ctx == InLoop || r.end != Broke
  {
    if ctx != InLoop {
      UntrackedStays(s.thn);
      if s.els.Some? {
        UntrackedStays(s.els.value);
      }
      StaysInside(s, Broke, r);
    }
  }

  lemma {:induction false} TryAccounts(s: Stmt, r: Run)
    requires s.Try? && Fit(s, Untracked) && Runs(s, r)
    ensures forall ctx :: Covered(StateOf(Amended, s), r.end, r.calls, ctx, Hasty(s))
    decreases s, 0
  {
    var body := TryState(s);
    UntrackedStays(s);
    StaysInside(s, Broke, r);
    if s.finalizer.NoBlock? {
      GuardedAccounts(s, r);
    } else {
      GuardedAccounts(s, r.first);
      SuperFreeRunList(s.finalizer.body, r.second);
      ListEnds(s.finalizer.body, r.second);
      SeqAccounts(PassThrough, s.finalizer.body, Untracked, r.second, 0);
      FinallyCovers(body, s.finalizer.body, r.first.end, r.first.calls, r.second.end, Hasty(s));
    }
  }

  /** Of a try without its finally block. */
  function TryState(s: Stmt): PathState
    requires s.Try?
  {
    MergeBranches(SeqState(Amended, PassThrough, s.block),
                  if s.handler.Catch? then SeqState(Amended, PassThrough, s.handler.body) else PassThrough)
  }

  lemma {:induction false} GuardedAccounts(s: Stmt, r: Run)
    requires s.Try? && Fit(s, Untracked) && RunsGuarded(s, r)
    ensures Covered(TryState(s), r.end, r.calls, Untracked, Hasty(s))
    decreases s, -1
  {
    var a := SeqState(Amended, PassThrough, s.block);
    if RunsList(s.block, r) {
      PartAccounts(s.block, r);
      MergeCovers(a, if s.handler.Catch? then SeqState(Amended, PassThrough, s.handler.body) else PassThrough,
                  r.end, r.calls, Untracked, HastyList(s.block));
    } else if EvaluatesAll(s.handler.binding, r.second) && r.end != Normal {
    } else {
      var b := SeqState(Amended, PassThrough, s.handler.body);
      var q := r.second.second;
      ListEnds(s.handler.body, q);
      if r.end == Normal || r.end == ReturnedVoid {
        SuperFreeRunList(s.block, r.first);
        QuietAll(s.handler.binding, r.second.first);
        PartAccounts(s.handler.body, q);
        MergeCovers(b, a, r.end, r.calls, Untracked, HastyList(s.handler.body));
        MergeCommutes(a, b);
      }
    }
  }

  /** A finally block that makes no calls and does not return keeps what the paths did. */
  lemma FinallyCovers(body: PathState, stmts: seq<Stmt>, c: Completion, k: nat, end: Completion, hasty: bool)
    requires Covered(body, c, k, Untracked, hasty) && end != ReturnedVoid
    requires end == Normal && c == Normal ==> Accounts(SeqState(Amended, PassThrough, stmts), Normal, 0, Untracked)
    ensures Covered(ComposeSequential(body, SeqState(Amended, PassThrough, stmts)), if end == Normal then c else end, k, Untracked, hasty)
  {
  }

  lemma {:induction false} LoopAccounts(s: Stmt, r: Run)
    requires s.Loop? && Fit(s, Untracked) && Runs(s, r)
    ensures forall ctx :: Covered(StateOf(Amended, s), r.end, r.calls, ctx, Hasty(s))
    decreases s, 0
  {
    if Chained(r) {
      QuietAll(s.header.init, r.first);
      LoopCatches(s.header, s.body, Broke, r.second);
      if SuperFree(s.body) && Fit(s.body, InLoop) {
        QuietRounds(s.header, s.body, r.second);
      } else {
        RoundsAccount(s.header, s.body, r.second);
      }
    } else {
      QuietAll(s.header.init, r);
    }
  }

  /** What the rounds of a loop come to, in terms of the state of one. */
  predicate RoundsTold(st: PathState, c: Completion, k: nat, again: bool, hasty: bool) {
    && (c == Normal && st.aliveSuper == SuperNone ==> k == 0)
    && (c == ReturnedVoid && (st.aliveSuper == SuperNone || !again) ==> Covered(st, c, k, Untracked, hasty))
    && (c == ReturnedVoid && st.aliveSuper != SuperNone && again ==> hasty)
    && c != Broke
  }

  lemma {:induction false} QuietRounds(header: Header, body: Stmt, r: Run)
    requires QuietHeader(header) && SuperFree(body) && Fit(body, InLoop) && RunsLoop(header, body, r)
    ensures RoundsTold(StateOf(Amended, body), r.end, r.calls, false, Hasty(body))
    decreases body, 2
  {
    SuperFreeLoop(header, body, r);
    LoopCatches(header, body, Broke, r);
    if r.end == ReturnedVoid {
      var q := BareReturnOfRound(header, body, r);
      SuperFreeRun(body, q);
      StateAccounts(body, InLoop, q);
    }
  }

  lemma {:induction false} RoundsAccount(header: Header, body: Stmt, r: Run)
    requires QuietHeader(header) && Fit(body, Untracked) && Continued !in Out(body) && RunsLoop(header, body, r)
    ensures RoundsTold(StateOf(Amended, body), r.end, r.calls, Normal in Out(body), Hasty(Loop(header, body)))
    decreases body, 2, r
  {
    if RoundRuns(header, body, r) {
      var q := r.first.second;
      RoundEnds(header, body, q);
      if q.end == Normal && r.end != Faulted {
        RoundsAccount(header, body, r.second.second);
        RoundAdds(StateOf(Amended, body), q.calls, r.end, r.second.second.calls, Normal in Out(body), Hasty(Loop(header, body)));
      }
    } else {
      HeadEnds(header, body, r);
    }
  }

  /** The body runs, and after it the loop ends, its step faults, or it goes on. */
  ghost predicate RoundRuns(header: Header, body: Stmt, r: Run) {
    && r.Join? && r.first.Join? && Runs(body, r.first.second)
    && var q := r.first.second;
       if q.end == Normal || q.end == Continued
       then r.end == Faulted || (r.second.Join? && RunsLoop(header, body, r.second.second) &&
                                 r.end == r.second.second.end && r.calls == q.calls + r.second.second.calls)
       else r.end == AfterBreak(q.end) && r.calls == q.calls
  }

  lemma HeadEnds(header: Header, body: Stmt, r: Run)
    requires QuietHeader(header) && RunsLoop(header, body, r) && !RoundRuns(header, body, r)
    ensures r.calls == 0 && (r.end == Normal || r.end == Faulted)
  {
    if header.test != [] && EvaluatesAll(header.test, r) {
      QuietAll(header.test, r);
    } else if EvaluatesAll(header.test + header.binding, r) && r.end != Normal {
      QuietAll(header.test + header.binding, r);
    } else {
      QuietAll(header.test + header.binding, r.first.first);
      if !(EvaluatesAll(header.step, r.second) && r.second.end != Normal) && (r.first.end == Normal || r.first.end == Continued) {
        QuietAll(header.step, r.second.first);
      }
    }
  }

  /** A round goes on, or it is the last. */
  lemma {:induction false} RoundEnds(header: Header, body: Stmt, r: Run)
    requires Fit(body, Untracked) && Continued !in Out(body) && Runs(body, r)
    ensures r.end != Broke && r.end != Continued
    ensures r.end == Normal ==> Accounts(StateOf(Amended, body), Normal, r.calls, Untracked) && Normal in Out(body)
    ensures r.end != Normal ==> RoundsTold(StateOf(Amended, body), r.end, r.calls, Normal in Out(body), Hasty(Loop(header, body)))
    decreases body, 2, r
  {
    RunEnds(body, r);
    UntrackedStays(body);
    StaysInside(body, Broke, r);
    StateAccounts(body, Untracked, r);
  }

  lemma RoundAdds(st: PathState, i: nat, c: Completion, k: nat, again: bool, hasty: bool)
    requires Accounts(st, Normal, i, Untracked) && RoundsTold(st, c, k, again, hasty) && again
    ensures RoundsTold(st, c, i + k, again, hasty)
  {
  }

  lemma DoWhileAccounts(s: Stmt, r: Run)
    requires s.DoWhile? && Fit(s, InLoop) && Runs(s, r)
    ensures forall ctx :: Accounts(StateOf(Amended, s), r.end, r.calls, ctx)
  {
    SuperFreeRun(s, r);
    DoCatches(s.body, s.test, Broke, r);
    RunEnds(s, r);
  }

  lemma {:induction false} BareReturnOfRound(header: Header, body: Stmt, r: Run) returns (q: Run)
    requires RunsLoop(header, body, r) && r.end == ReturnedVoid
    ensures Runs(body, q) && q.end == ReturnedVoid
    decreases r
  {
    if r.first.end == Normal || r.first.end == Continued {
      q := BareReturnOfRound(header, body, r.second.second);
    } else {
      q := r.first.second;
    }
  }

  /** A path that enters at clause `j`, seen from after the switch. */
  lemma {:induction false} EntryAccounts(clauses: seq<Clause>, j: nat, r: Run)
    requires forall c :: c in clauses ==> forall x :: x in c.body ==> Fit(x, InClause)
    requires j <= |clauses| && RunsFrom(clauses[j..], r)
    ensures Covered(EntryState(Amended, clauses, j), AfterBreak(r.end), r.calls, Untracked, AnyHasty(clauses))
    decreases clauses, |clauses| - j
  {
    if j < |clauses| {
      var stmts := clauses[j].body;
      var hasty := AnyHasty(clauses);
      assert clauses[j..][0] == clauses[j] && clauses[j..][1..] == clauses[j + 1..];
      assert HastyList(clauses[j].body) ==> hasty;
      if RunsList(stmts, r) && r.end != Normal {
        SeqAccounts(PassThrough, stmts, InClause, r, 0);
        EntryKeeps(clauses, j, r.end, r.calls, hasty);
      } else {
        SeqAccounts(PassThrough, stmts, InClause, r.first, 0);
        EntryAccounts(clauses, j + 1, r.second);
        EntryFallsThrough(clauses, j, r.first.calls, AfterBreak(r.end), r.second.calls, hasty);
      }
    }
  }

  lemma EntryKeeps(clauses: seq<Clause>, j: nat, c: Completion, k: nat, hasty: bool)
    requires j < |clauses| && c != Normal && Covered(SeqState(Amended, PassThrough, clauses[j].body), c, k, InClause, hasty)
    ensures Covered(EntryState(Amended, clauses, j), AfterBreak(c), k, Untracked, hasty)
  {
    SeqShaped(Amended, PassThrough, clauses[j].body);
  }

  lemma EntryFallsThrough(clauses: seq<Clause>, j: nat, i: nat, c: Completion, k: nat, hasty: bool)
    requires j < |clauses| && Accounts(SeqState(Amended, PassThrough, clauses[j].body), Normal, i, InClause)
    requires Covered(EntryState(Amended, clauses, j + 1), c, k, Untracked, hasty)
    ensures Covered(EntryState(Amended, clauses, j), c, i + k, Untracked, hasty)
  {
    var body := SeqState(Amended, PassThrough, clauses[j].body);
    SeqShaped(Amended, PassThrough, clauses[j].body);
    ComposeCovers(body, EntryState(Amended, clauses, j + 1), i, c, k, Untracked, hasty);
  }

  lemma {:induction false} MergedAccounts(clauses: seq<Clause>, k: nat, j: nat, c: Completion, n: nat, hasty: bool)
    requires j <= k < |clauses| && Covered(EntryState(Amended, clauses, j), c, n, Untracked, hasty)
    requires hasty ==> EntryState(Amended, clauses, j).aliveExists
    ensures Covered(MergedStates(Amended, clauses, k), c, n, Untracked, hasty)
    ensures hasty ==> MergedStates(Amended, clauses, k).aliveExists
    decreases k
  {
    if j < k {
      MergedAccounts(clauses, k - 1, j, c, n, hasty);
      MergeCovers(MergedStates(Amended, clauses, k - 1), EntryState(Amended, clauses, k), c, n, Untracked, hasty);
    } else if k > 0 {
      MergeCovers(EntryState(Amended, clauses, k), MergedStates(Amended, clauses, k - 1), c, n, Untracked, hasty);
      MergeCommutes(EntryState(Amended, clauses, k), MergedStates(Amended, clauses, k - 1));
    }
  }

  lemma {:induction false} SwitchAccounts(s: Stmt, r: Run)
    requires s.Switch? && Fit(s, Untracked) && Runs(s, r)
    ensures forall ctx :: Covered(StateOf(Amended, s), r.end, r.calls, ctx, Hasty(s))
    decreases s, 0
  {
    if r.Join? {
      assert r.end != Broke;
      if i: nat :| i < |s.clauses| && Evaluates(PathCountsAll([s.head] + TestsBefore(s.clauses, i)), r.first) &&
                   RunsFrom(s.clauses[i..], r.second) {
        QuietHead(s, i, r.first);
        EntryAccounts(s.clauses, i, r.second);
        EntryGoesOn(s.clauses, i);
        SwitchFromEntry(s.clauses, i, r.end, r.calls, Hasty(s));
      } else {
        QuietHead(s, 0, r.first);
        SwitchSkips(s.clauses);
      }
    }
  }

  lemma {:induction false} EntryGoesOn(clauses: seq<Clause>, i: nat)
    requires forall c :: c in clauses ==> forall x :: x in c.body ==> Fit(x, InClause)
    requires i < |clauses| && (AnyHasty(clauses) ==> Normal in Leave(OutFrom(clauses[i..])))
    ensures AnyHasty(clauses) ==> EntryState(Amended, clauses, i).aliveExists
    decreases clauses, |clauses| + 1
  {
    if AnyHasty(clauses) {
      var q := ReachFrom(clauses[i..], if Normal in OutFrom(clauses[i..]) then Normal else Broke);
      EntryAccounts(clauses, i, q);
    }
  }

  lemma SwitchFromEntry(clauses: seq<Clause>, i: nat, c: Completion, k: nat, hasty: bool)
    requires i < |clauses| && c != Broke && Covered(EntryState(Amended, clauses, i), c, k, Untracked, hasty)
    requires hasty ==> EntryState(Amended, clauses, i).aliveExists
    ensures forall ctx :: Covered(SwitchState(Amended, clauses), c, k, ctx, hasty)
  {
    var merged := MergedStates(Amended, clauses, |clauses| - 1);
    MergedAccounts(clauses, |clauses| - 1, i, c, k, hasty);
    MergeCovers(merged, PassThrough, c, k, Untracked, hasty);
    assert SwitchState(Amended, clauses) == merged || SwitchState(Amended, clauses) == MergeBranches(merged, PassThrough);
  }

  lemma SwitchSkips(clauses: seq<Clause>)
    requires !HasDefault(clauses)
    ensures forall ctx :: Accounts(SwitchState(Amended, clauses), Normal, 0, ctx)
  {
    if clauses != [] {
      var merged := MergedStates(Amended, clauses, |clauses| - 1);
      MergeCovers(PassThrough, merged, Normal, 0, Untracked, false);
      MergeCommutes(merged, PassThrough);
    }
  }

  // ----- The constructor theorem -----

  /** With the amended reading, every run that ends normally or by bare return made a number
      of super calls that the status allows. */
  lemma {:induction false} AmendedSound(body: seq<Stmt>, r: Run)
    requires (forall x :: x in body ==> Fit(x, Untracked)) && LastsList(body) && RunsList(body, r)
    requires r.end == Normal || r.end == ReturnedVoid
    ensures Within(r.calls, AmendedStatus(body))
  {
    PartAccounts(body, r);
  }

  /** The verdict allows all that the amended verdict allows. */
  predicate Covers(verdict: SuperCallStatus, amended: SuperCallStatus) { MergeSuper(verdict, amended) == verdict }

  /** SuperAlways: every run that ends normally or by bare return made exactly one super
      call.  Anything but SuperMultiple: no such run made two. */
  lemma {:induction false} ConstructorSound(body: seq<Stmt>, r: Run)
    requires (forall x :: x in body ==> Fit(x, Untracked)) && LastsList(body) && RunsList(body, r)
    requires Covers(ConstructorSuperCallStatus(body), AmendedStatus(body))
    requires r.end == Normal || r.end == ReturnedVoid
    ensures ConstructorSuperCallStatus(body) == SuperAlways ==> r.calls == 1
    ensures ConstructorSuperCallStatus(body) != SuperMultiple ==> r.calls <= 1
    ensures ConstructorSuperCallStatus(body) == SuperNone ==> r.calls == 0
  {
    AmendedSound(body, r);
  }

  // ----- Where the code overlooks nothing -----

  /** Every count is right, and no do-while body returns bare. */
  predicate Overt(s: Stmt) {
    match s
    case Simple(e) => Scanned(e)
    case Var(decls) => forall d :: d in decls ==> Scanned(d)
    case Block(stmts) => forall x :: x in stmts ==> Overt(x)
    case If(cond, thn, els) => Scanned(cond) && Overt(thn) && (els.Some? ==> Overt(els.value))
    case Switch(_, clauses) => forall c :: c in clauses ==> forall x :: x in c.body ==> Overt(x)
    case Try(block, handler, finalizer) =>
      && (forall x :: x in block ==> Overt(x))
      && (handler.Catch? ==> forall x :: x in handler.body ==> Overt(x))
      && (finalizer.SomeBlock? ==> forall x :: x in finalizer.body ==> Overt(x))
    case Loop(_, body) => Overt(body)
    case DoWhile(body, test) => Scanned(test) && ReturnedVoid !in Out(body)
    case Labeled(body) => Overt(body)
    case _ => true
  }

  lemma {:induction false} SameState(s: Stmt)
    requires Overt(s)
    ensures StateOf(AsWritten, s) == StateOf(Amended, s)
    decreases s, 0
  {
    match s
    case Var(decls) => SameSteps(PassThrough, decls);
    case Block(stmts) => SameSeq(PassThrough, stmts);
    case If(_, thn, els) =>
      SameState(thn);
      if els.Some? {
        SameState(els.value);
      }
    case Switch(_, clauses) =>
      if clauses != [] {
        SameMerged(clauses, |clauses| - 1);
      }
    case Try(block, handler, finalizer) =>
      SameSeq(PassThrough, block);
      if handler.Catch? {
        SameSeq(PassThrough, handler.body);
      }
      if finalizer.SomeBlock? {
        SameSeq(PassThrough, finalizer.body);
      }
    case Loop(_, body) => SameState(body);
    case Labeled(body) => SameState(body);
    case _ =>
  }

  lemma {:induction false} SameSteps(acc: PathState, es: seq<Expr>)
    requires forall e :: e in es ==> Scanned(e)
    ensures StepAll(AsWritten, acc, es) == StepAll(Amended, acc, es)
    decreases es
  {
    if es != [] {
      assert Scanned(es[0]);
      SameSteps(StepSuper(acc, InExpr(es[0])), es[1..]);
    }
  }

  lemma {:induction false} SameSeq(acc: PathState, stmts: seq<Stmt>)
    requires forall x :: x in stmts ==> Overt(x)
    ensures SeqState(AsWritten, acc, stmts) == SeqState(Amended, acc, stmts)
    decreases stmts, 0
  {
    if stmts != [] {
      SameState(stmts[0]);
      SameSeq(ComposeSequential(acc, StateOf(Amended, stmts[0])), stmts[1..]);
    }
  }

  lemma {:induction false} SameEntry(clauses: seq<Clause>, j: nat)
    requires j <= |clauses| && forall c :: c in clauses ==> forall x :: x in c.body ==> Overt(x)
    ensures EntryState(AsWritten, clauses, j) == EntryState(Amended, clauses, j)
    decreases clauses, |clauses| - j
  {
    if j < |clauses| {
      SameSeq(PassThrough, clauses[j].body);
      SameEntry(clauses, j + 1);
    }
  }

  lemma {:induction false} SameMerged(clauses: seq<Clause>, k: nat)
    requires k < |clauses| && forall c :: c in clauses ==> forall x :: x in c.body ==> Overt(x)
    ensures MergedStates(AsWritten, clauses, k) == MergedStates(Amended, clauses, k)
    decreases clauses, |clauses| + k + 1
  {
    SameEntry(clauses, k);
    if k > 0 {
      SameMerged(clauses, k - 1);
    }
  }

  /** On such code the verdict covers the amended one. */
  lemma {:induction false} OvertCovers(body: seq<Stmt>)
    requires forall x :: x in body ==> Overt(x)
    ensures Covers(ConstructorSuperCallStatus(body), AmendedStatus(body))
  {
    SameSeq(PassThrough, body);
    SeqShaped(Amended, PassThrough, body);
  }

  /** There the clauses hold wherever the body has its hasty loops. */
  lemma {:induction false} OvertSound(body: seq<Stmt>, r: Run)
    requires (forall x :: x in body ==> Fit(x, Untracked) && Overt(x)) && RunsList(body, r)
    requires r.end == Normal || r.end == ReturnedVoid
    ensures ConstructorSuperCallStatus(body) == SuperAlways ==> r.calls == 1
    ensures ConstructorSuperCallStatus(body) != SuperMultiple ==> r.calls <= 1
    ensures ConstructorSuperCallStatus(body) == SuperNone ==> r.calls == 0
  {
    SameSeq(PassThrough, body);
    SeqShaped(Amended, PassThrough, body);
    SeqAccounts(PassThrough, body, Untracked, r, 0);
  }

  // ----- What the code overlooks -----

  /** `do { return; } while (t); super();` counts as SuperAlways, yet returns without super:
      the body of a do-while is never looked at. */
  lemma DoWhileReturnIsUnsound(t: Expr)
    requires InExpr(t) == SuperNone
    ensures var body := [DoWhile(Return(None), t), Simple(SuperCall([]))];
            && ConstructorSuperCallStatus(body) == SuperAlways
            && RunsList(body, Join(ReturnedVoid, 0, Leaf(ReturnedVoid, 0), Skip))
  {
    var loop, call := DoWhile(Return(None), t), Simple(SuperCall([]));
    OneCall(call);
    IdleFirstStatement(loop, call);
    assert Runs(loop, Join(ReturnedVoid, 0, Leaf(ReturnedVoid, 0), Skip));
  }

  lemma IdleFirstStatement(s: Stmt, t: Stmt)
    requires StateOf(AsWritten, s) == PassThrough
    ensures SeqState(AsWritten, PassThrough, [s, t]) == SeqState(AsWritten, PassThrough, [t])
  {
    assert [s, t][1..] == [t];
  }

  lemma OneCall(call: Stmt)
    requires call.Simple? && InExpr(call.e) == SuperAlways
    ensures SeqState(AsWritten, PassThrough, [call]) == PassThrough.(aliveSuper := SuperAlways)
    ensures ConstructorSuperCallStatus([call]) == SuperAlways
  {
    var one := PassThrough.(aliveSuper := SuperAlways);
    assert [call][1..] == [];
    assert StateOf(AsWritten, call) == one;
    assert SeqState(AsWritten, PassThrough, [call]) == SeqState(AsWritten, one, []);
  }

  /** The state of a do-while accounts for its bare returns exactly when its body has none. */
  lemma {:induction false} DoWhileReturnExact(s: Stmt)
    requires s.DoWhile?
    ensures (forall r :: Runs(s, r) && r.end == ReturnedVoid ==> Accounts(StateOf(AsWritten, s), r.end, r.calls, Untracked)) <==>
            ReturnedVoid !in Out(s.body)
  {
    if ReturnedVoid in Out(s.body) {
      var r := Reach(s, ReturnedVoid);
    }
    forall r | Runs(s, r) && r.end == ReturnedVoid ensures ReturnedVoid in Out(s.body) {
      RunEnds(s, r);
    }
  }

  /** `x ||= super();` counts as SuperAlways, yet a run with `x` truthy makes no call. */
  lemma SkippedSuperIsUnsound()
    ensures var body := [Simple(Skipping(Atom, [Link([SuperCall([])])]))];
            ConstructorSuperCallStatus(body) == SuperAlways && exists r :: RunsList(body, r) && r.end == Normal && r.calls == 0
  {
    var super, e := SuperCall([]), Skipping(Atom, [Link([SuperCall([])])]);
    var link := e.links[0];
    assert [super][1..] == [] && e.links[1..] == [];
    assert InExprs(SuperNone, []) == SuperNone && InExpr(super) == SuperAlways;
    assert InExprs(SuperNone, link.parts) == InExprs(SuperAlways, []);
    assert InLinks(SuperNone, e.links) == InLinks(SuperAlways, []);
    OneCall(Simple(e));
    assert 0 in PathCountsLinks(e.links);
    SumsetMember(PathCounts(Atom), PathCountsLinks(e.links), 0, 0);
    var r := Join(Normal, 0, Leaf(Normal, 0), Skip);
    assert [Simple(e)][1..] == [] && RunsList([], Skip);
    assert Runs(Simple(e), Leaf(Normal, 0));
    assert RunsList([Simple(e)], r);
  }
}

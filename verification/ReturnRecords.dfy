/** internal/astflow/return_status.go: which returns the status of a function records. */
module ReturnRecords {
  import opened Options
  import opened Syntax
  import opened Completions
  import opened Paths
  import opened Jumps
  import opened Outcomes
  import opened ReturnFlow

  /** A jump, or what the analysis takes for one: a loop or label around nothing but a jump. */
  predicate LooksJump(s: Stmt) {
    match s
    case Break => true
    case Continue => true
    case Loop(_, body) => LooksJump(body)
    case Labeled(body) => LooksJump(body)
    case _ => false
  }

  lemma {:induction false} AbruptExactly(s: Stmt)
    ensures StatusOf(s).AbruptBreak? <==> LooksJump(s)
    decreases s, 1
  {
    match s
    case Block(stmts) => WalkNotAbrupt(stmts, false, false);
    case Switch(_, clauses) =>
      if clauses != [] {
        MergedNotAbrupt(clauses, |clauses| - 1);
      }
    case Try(block, handler, finalizer) =>
      WalkNotAbrupt(block, false, false);
      if finalizer.SomeBlock? {
        WalkNotAbrupt(finalizer.body, false, false);
      }
    case Loop(_, body) => AbruptExactly(body);
    case Labeled(body) => AbruptExactly(body);
    case _ =>
  }

  lemma {:induction false} WalkNotAbrupt(stmts: seq<Stmt>, e: bool, i: bool)
    ensures !WalkFrom(stmts, e, i).status.AbruptBreak?
    decreases stmts, 0
  {
    if stmts != [] {
      var s := StatusOf(stmts[0]);
      WalkNotAbrupt(stmts[1..], e || s.MayReturnExplicit(), i || s.HasExplicitVoidReturn());
    }
  }

  lemma {:induction false} MergedNotAbrupt(clauses: seq<Clause>, k: nat)
    requires k < |clauses|
    ensures !MergedEntries(clauses, k).AbruptBreak?
  {
    if k == 0 {
      WalkNotAbrupt(clauses[0].body, false, false);
    }
  }

  // ----- No return is missed -----

  /** Breaks of a switch are direct statements of its clauses; no loop is nothing but a jump; a
      do-while does not return; a finally block always returns or never does. */
  predicate Followed(s: Stmt) {
    match s
    case Block(stmts) => forall x :: x in stmts ==> Followed(x)
    case If(_, thn, els) => Followed(thn) && (els.Some? ==> Followed(els.value))
    case Switch(_, clauses) =>
      forall c :: c in clauses ==> forall x :: x in c.body ==> Followed(x) && (x.Break? || Stays(x, Broke))
    case Try(block, handler, finalizer) =>
      && (forall x :: x in block ==> Followed(x))
      && (handler.Catch? ==> forall x :: x in handler.body ==> Followed(x))
      && (finalizer.SomeBlock? ==>
            (forall x :: x in finalizer.body ==> Followed(x)) &&
            (WalkFrom(finalizer.body, false, false).status.MustReturn() || !Returns(OutList(finalizer.body))))
    case Loop(_, body) => Followed(body) && !LooksJump(body)
    case DoWhile(body, _) => !Returns(Out(body))
    case Labeled(body) => Followed(body)
    case _ => true
  }

  lemma {:induction false} FollowedDirect(s: Stmt)
    requires Followed(s)
    ensures DirectBreaks(s)
  {
    match s
    case Block(stmts) => forall x | x in stmts ensures DirectBreaks(x) { FollowedDirect(x); }
    case If(_, thn, els) =>
      FollowedDirect(thn);
      if els.Some? {
        FollowedDirect(els.value);
      }
    case Switch(_, clauses) =>
      forall c, x | c in clauses && x in c.body ensures DirectBreaks(x) { FollowedDirect(x); }
    case Try(block, handler, finalizer) =>
      forall x | x in block ensures DirectBreaks(x) { FollowedDirect(x); }
      if handler.Catch? {
        forall x | x in handler.body ensures DirectBreaks(x) { FollowedDirect(x); }
      }
      if finalizer.SomeBlock? {
        forall x | x in finalizer.body ensures DirectBreaks(x) { FollowedDirect(x); }
      }
    case Labeled(body) => FollowedDirect(body);
    case _ =>
  }

  /** What can be returned is recorded. */
  predicate Records(status: ReturnStatus, out: set<Completion>) {
    (ReturnsExplicitly(out) ==> status.MayReturnExplicit()) && (ReturnedVoid in out ==> status.HasExplicitVoidReturn())
  }

  lemma {:induction false} StatusRecords(s: Stmt)
    requires Followed(s)
    ensures Records(StatusOf(s), Out(s))
    ensures LooksJump(s) ==> Normal !in Out(s)
    decreases s, 1
  {
    match s
    case Block(stmts) => WalkRecords(stmts, false, false);
    case If(_, thn, els) =>
      StatusRecords(thn);
      if els.Some? {
        StatusRecords(els.value);
      }
    case Switch(_, _) => SwitchRecords(s);
    case Try(_, _, _) => TryRecords(s);
    case Loop(_, body) =>
      StatusRecords(body);
      AbruptExactly(body);
    case Labeled(body) => StatusRecords(body);
    case _ =>
  }

  lemma {:induction false} WalkRecords(stmts: seq<Stmt>, e: bool, i: bool)
    requires forall x :: x in stmts ==> Followed(x)
    ensures Records(WalkFrom(stmts, e, i).status, OutList(stmts))
    ensures (e ==> WalkFrom(stmts, e, i).status.MayReturnExplicit()) && (i ==> WalkFrom(stmts, e, i).status.HasExplicitVoidReturn())
    ensures WalkFrom(stmts, e, i).brokeOut || WalkFrom(stmts, e, i).status.MustReturn() ==> Normal !in OutList(stmts)
    decreases stmts, 0
  {
    if stmts != [] {
      var s := StatusOf(stmts[0]);
      StatusRecords(stmts[0]);
      AbruptExactly(stmts[0]);
      if s.MustReturn() {
        FollowedDirect(stmts[0]);
        MustLeaves(stmts[0]);
      } else if !s.AbruptBreak? {
        WalkRecords(stmts[1..], e || s.MayReturnExplicit(), i || s.HasExplicitVoidReturn());
      }
    }
  }

  lemma {:induction false} EntryRecords(clauses: seq<Clause>, j: nat)
    requires j <= |clauses| && forall c :: c in clauses ==> forall x :: x in c.body ==> Followed(x)
    ensures Records(EntryStatus(clauses, j), OutFrom(clauses[j..]))
    decreases clauses, |clauses| - j
  {
    if j < |clauses| {
      assert clauses[j..][0] == clauses[j] && clauses[j..][1..] == clauses[j + 1..];
      WalkRecords(clauses[j].body, false, false);
      EntryRecords(clauses, j + 1);
    }
  }

  lemma {:induction false} MergedRecords(clauses: seq<Clause>, k: nat)
    requires k < |clauses| && forall c :: c in clauses ==> forall x :: x in c.body ==> Followed(x)
    ensures Records(MergedEntries(clauses, k), EntriesUpTo(clauses, k))
    decreases clauses, |clauses| + k + 1
  {
    EntryRecords(clauses, k);
    if k > 0 {
      MergedRecords(clauses, k - 1);
    }
  }

  lemma {:induction false} SwitchRecords(s: Stmt)
    requires s.Switch? && Followed(s)
    ensures Records(StatusOf(s), Out(s))
    decreases s, 0
  {
    SwitchOut(s);
    if s.clauses != [] {
      var n := |s.clauses| - 1;
      MergedRecords(s.clauses, n);
      EntriesAgree(s.clauses, n);
    }
  }

  lemma {:induction false} TryRecords(s: Stmt)
    requires s.Try? && Followed(s)
    ensures Records(StatusOf(s), Out(s))
    decreases s, 0
  {
    WalkRecords(s.block, false, false);
    if s.handler.Catch? {
      WalkRecords(s.handler.body, false, false);
    }
    var guarded := Guarded(OutList(s.block), s.handler.Catch?, if s.handler.Catch? then OutCatch(s.handler) else {});
    if s.finalizer.SomeBlock? {
      WalkRecords(s.finalizer.body, false, false);
      AfterReturns(guarded, OutList(s.finalizer.body));
    }
  }

  lemma AfterReturns(guarded: set<Completion>, finalizer: set<Completion>)
    ensures Normal !in finalizer ==> After(guarded, finalizer) <= finalizer
    ensures !Returns(finalizer) ==>
              (ReturnsExplicitly(After(guarded, finalizer)) ==> ReturnsExplicitly(guarded)) &&
              (ReturnedVoid in After(guarded, finalizer) ==> ReturnedVoid in guarded)
  {
  }

  /** Every value or bare return, and every throw, that a run can end with is recorded. */
  lemma {:induction false} ReturnsRecorded(s: Stmt)
    requires Followed(s)
    ensures Can(s, Returned) || Can(s, Threw) ==> StatusOf(s).MayReturnExplicit()
    ensures Can(s, ReturnedVoid) ==> StatusOf(s).HasExplicitVoidReturn()
  {
    StatusRecords(s);
    OutExact(s, Returned);
    OutExact(s, Threw);
    OutExact(s, ReturnedVoid);
  }

  // ----- And nothing else -----

  /** Every statement that is walked on from can complete normally. */
  predicate Passable(stmts: seq<Stmt>) {
    forall x :: x in stmts ==> LooksJump(x) || StatusOf(x).MustReturn() || Normal in Out(x)
  }

  /** No statement is unreachable, but behind a jump or a statement judged to return; nothing thrown
      in a block is caught, though something can be; a finally block does not return. */
  predicate Reached(s: Stmt) {
    match s
    case Block(stmts) => Passable(stmts) && forall x :: x in stmts ==> Reached(x)
    case If(_, thn, els) => Reached(thn) && (els.Some? ==> Reached(els.value))
    case Switch(_, clauses) => forall c :: c in clauses ==> Passable(c.body) && forall x :: x in c.body ==> Reached(x)
    case Try(block, handler, finalizer) =>
      && Passable(block) && (forall x :: x in block ==> Reached(x))
      && (handler.Catch? ==>
            Faulted in OutList(block) && Threw !in OutList(block) &&
            Passable(handler.body) && forall x :: x in handler.body ==> Reached(x))
      && (finalizer.SomeBlock? ==>
            !WalkFrom(finalizer.body, false, false).status.MustReturn() && Normal in OutList(finalizer.body))
    case Loop(_, body) => Reached(body)
    case Labeled(body) => Reached(body)
    case _ => true
  }

  /** What is recorded can be returned, or was recorded before. */
  predicate Backed(status: ReturnStatus, out: set<Completion>, e: bool, i: bool) {
    (status.MayReturnExplicit() ==> e || ReturnsExplicitly(out)) && (status.HasExplicitVoidReturn() ==> i || ReturnedVoid in out)
  }

  lemma {:induction false} StatusBacked(s: Stmt)
    requires Reached(s)
    ensures Backed(StatusOf(s), Out(s), false, false)
    decreases s, 1
  {
    match s
    case Block(stmts) => WalkBacked(stmts, false, false);
    case If(_, thn, els) =>
      StatusBacked(thn);
      if els.Some? {
        StatusBacked(els.value);
      }
    case Switch(_, _) => SwitchBacked(s);
    case Try(_, _, _) => TryBacked(s);
    case Loop(header, body) =>
      StatusBacked(body);
      assert Normal in OutAll(header.init);
    case Labeled(body) => StatusBacked(body);
    case _ =>
  }

  lemma {:induction false} WalkBacked(stmts: seq<Stmt>, e: bool, i: bool)
    requires Passable(stmts) && forall x :: x in stmts ==> Reached(x)
    ensures Backed(WalkFrom(stmts, e, i).status, OutList(stmts), e, i)
    ensures WalkFrom(stmts, e, i).brokeOut || WalkFrom(stmts, e, i).status.MustReturn() || Normal in OutList(stmts)
    decreases stmts, 0
  {
    if stmts != [] {
      var s := StatusOf(stmts[0]);
      StatusBacked(stmts[0]);
      AbruptExactly(stmts[0]);
      if !s.MustReturn() && !s.AbruptBreak? {
        WalkBacked(stmts[1..], e || s.MayReturnExplicit(), i || s.HasExplicitVoidReturn());
      }
    }
  }

  lemma {:induction false} EntryBacked(clauses: seq<Clause>, j: nat)
    requires j <= |clauses| && forall c :: c in clauses ==> Passable(c.body) && forall x :: x in c.body ==> Reached(x)
    ensures Backed(EntryStatus(clauses, j), OutFrom(clauses[j..]), false, false)
    decreases clauses, |clauses| - j
  {
    if j < |clauses| {
      assert clauses[j..][0] == clauses[j] && clauses[j..][1..] == clauses[j + 1..];
      WalkBacked(clauses[j].body, false, false);
      EntryBacked(clauses, j + 1);
    }
  }

  lemma {:induction false} MergedBacked(clauses: seq<Clause>, k: nat)
    requires k < |clauses| && forall c :: c in clauses ==> Passable(c.body) && forall x :: x in c.body ==> Reached(x)
    ensures Backed(MergedEntries(clauses, k), EntriesUpTo(clauses, k), false, false)
    decreases clauses, |clauses| + k + 1
  {
    EntryBacked(clauses, k);
    if k > 0 {
      MergedBacked(clauses, k - 1);
    }
  }

  lemma {:induction false} SwitchBacked(s: Stmt)
    requires s.Switch? && Reached(s)
    ensures Backed(StatusOf(s), Out(s), false, false)
    decreases s, 0
  {
    SwitchOut(s);
    assert StatusOf(s) == SwitchStatus(s.clauses);
    if s.clauses != [] {
      var n := |s.clauses| - 1;
      MergedBacked(s.clauses, n);
      EntriesAgree(s.clauses, n);
      SkippedBacked(MergedEntries(s.clauses, n), EntriesUpTo(s.clauses, n), Out(s));
    }
  }

  lemma SkippedBacked(status: ReturnStatus, entries: set<Completion>, out: set<Completion>)
    requires Backed(status, entries, false, false) && forall c :: c in entries ==> c in out
    ensures Backed(status, out, false, false) && Backed(MergeBranches(status, NotReturn), out, false, false)
  {
  }

  lemma {:induction false} TryBacked(s: Stmt)
    requires s.Try? && Reached(s)
    ensures Backed(StatusOf(s), Out(s), false, false)
    decreases s, 0
  {
    WalkBacked(s.block, false, false);
    if s.handler.Catch? {
      WalkBacked(s.handler.body, false, false);
      assert Normal in OutAll(s.handler.binding);
    }
  }

  /** Where nothing is missed and nothing unreachable, the status records exactly the returns that
      runs end with. */
  lemma {:induction false} RecordsExact(s: Stmt)
    requires Followed(s) && Reached(s)
    ensures StatusOf(s).MayReturnExplicit() <==> Can(s, Returned) || Can(s, Threw)
    ensures StatusOf(s).HasExplicitVoidReturn() <==> Can(s, ReturnedVoid)
  {
    StatusBacked(s);
    ReturnsRecorded(s);
    OutExact(s, Returned);
    OutExact(s, Threw);
    OutExact(s, ReturnedVoid);
  }

  // ----- Returns that are missed -----

  /** After `while (c) break;` the walk stops, so the return in `while (c) break; return y;` is
      missed. */
  lemma BareBreakIsUnsound(h: Header, y: Expr)
    requires h.test != []
    ensures var s := Block([Loop(h, Break), Return(Some(y))]);
            StatusOf(s) == NotReturn && Can(s, Returned)
  {
    var loop, ret := Loop(h, Break), Return(Some(y));
    WalkStops(loop, ret);
    LoopThenReturn(loop, ret);
  }

  lemma WalkStops(s: Stmt, t: Stmt)
    requires StatusOf(s).AbruptBreak?
    ensures StatusOf(Block([s, t])) == NotReturn
  {
  }

  lemma LoopThenReturn(s: Stmt, t: Stmt)
    requires Normal in Out(s) && Returned in Out(t)
    ensures Can(Block([s, t]), Returned)
  {
    assert [s, t][1..] == [t] && [t][1..] == [];
    assert Returned in OutList([t]);
    OutExact(Block([s, t]), Returned);
  }

  /** A finally block that can return, but need not, is not looked at. */
  lemma FinallyReturnIsUnsound(c: Expr, x: Expr)
    ensures var s := Try([Simple(x)], NoCatch, SomeBlock([If(c, Return(None), None)]));
            StatusOf(s) == NotReturn && Can(s, ReturnedVoid)
  {
    var s := Try([Simple(x)], NoCatch, SomeBlock([If(c, Return(None), None)]));
    TryNotReturn(Simple(x), If(c, Return(None), None));
    TryThenReturn(Simple(x), If(c, Return(None), None));
  }

  lemma TryNotReturn(s: Stmt, t: Stmt)
    requires StatusOf(s) == NotReturn && !StatusOf(t).MustReturn()
    ensures StatusOf(Try([s], NoCatch, SomeBlock([t]))) == NotReturn
  {
    WalkOne(s);
    WalkOne(t);
  }

  lemma WalkOne(s: Stmt)
    ensures StatusOf(s) == NotReturn ==> WalkFrom([s], false, false).status == NotReturn
    ensures !StatusOf(s).MustReturn() ==> !WalkFrom([s], false, false).status.MustReturn()
  {
    assert [s][1..] == [];
  }

  lemma TryThenReturn(s: Stmt, t: Stmt)
    requires Normal in Out(s) && ReturnedVoid in Out(t)
    ensures Can(Try([s], NoCatch, SomeBlock([t])), ReturnedVoid)
  {
    OutOne(s);
    OutOne(t);
    OutExact(Try([s], NoCatch, SomeBlock([t])), ReturnedVoid);
  }

  lemma OutOne(s: Stmt)
    ensures OutList([s]) == Out(s)
  {
    assert [s][1..] == [];
    assert Then(Out(s), {Normal}) == Out(s);
  }
}

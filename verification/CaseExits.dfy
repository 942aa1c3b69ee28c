/** internal/rules/nofallthrough/rule.go: whether a case body always leaves its clause. */
module CaseExits {
  import opened Options
  import opened Syntax
  import opened Completions
  import opened Paths
  import opened Jumps
  import opened Outcomes

  predicate BodyAlwaysExitsCase(s: Stmt) {
    match s
    case Return(_) => true
    case Throw(_) => true
    case Block(stmts) => exists x :: x in stmts && BodyAlwaysExitsCase(x)
    case If(_, thn, els) => els.Some? && BodyAlwaysExitsCase(thn) && BodyAlwaysExitsCase(els.value)
    case _ => false
  }

  predicate StatementAlwaysExits(s: Stmt) {
    match s
    case Return(_) => true
    case Throw(_) => true
    case Break => true
    case Continue => true
    case Block(stmts) => exists x :: x in stmts && StatementAlwaysExits(x)
    case If(_, thn, els) => els.Some? && StatementAlwaysExits(thn) && StatementAlwaysExits(els.value)
    case Try(block, handler, finalizer) =>
      || (finalizer.SomeBlock? && exists x :: x in finalizer.body && StatementAlwaysExits(x))
      || ((exists x :: x in block && StatementAlwaysExits(x)) &&
          (handler.Catch? ==> exists x :: x in handler.body && StatementAlwaysExits(x)))
    case DoWhile(body, _) => BodyAlwaysExitsCase(body)
    case _ => false
  }

  predicate CaseExits(stmts: seq<Stmt>) {
    exists x :: x in stmts && StatementAlwaysExits(x)
  }

  /** No do-while the check looks into has a `break` or `continue` of its own. */
  predicate CleanDoWhiles(s: Stmt) {
    match s
    case Block(stmts) => forall x :: x in stmts ==> CleanDoWhiles(x)
    case If(_, thn, els) => CleanDoWhiles(thn) && (els.Some? ==> CleanDoWhiles(els.value))
    case Try(block, handler, finalizer) =>
      && (forall x :: x in block ==> CleanDoWhiles(x))
      && (handler.Catch? ==> forall x :: x in handler.body ==> CleanDoWhiles(x))
      && (finalizer.SomeBlock? ==> forall x :: x in finalizer.body ==> CleanDoWhiles(x))
    case DoWhile(body, _) => Stays(body, Broke) && Stays(body, Continued)
    case _ => true
  }

  /** A list with a statement that cannot complete normally cannot complete normally. */
  lemma {:induction false} BlockedList(stmts: seq<Stmt>, x: Stmt)
    requires x in stmts && Normal !in Out(x)
    ensures Normal !in OutList(stmts)
  {
    if stmts[0] != x {
      BlockedList(stmts[1..], x);
    }
  }

  lemma {:induction false} BodyLeaves(s: Stmt)
    requires BodyAlwaysExitsCase(s)
    ensures Normal !in Out(s)
  {
    match s
    case Block(stmts) =>
      var x :| x in stmts && BodyAlwaysExitsCase(x);
      BodyLeaves(x);
      BlockedList(stmts, x);
    case If(_, thn, els) =>
      BodyLeaves(thn);
      BodyLeaves(els.value);
    case _ =>
  }

  lemma {:induction false} BodyExits(s: Stmt)
    requires BodyAlwaysExitsCase(s)
    ensures !Can(s, Normal)
  {
    BodyLeaves(s);
    OutExact(s, Normal);
  }

  lemma {:induction false} StatementLeaves(s: Stmt)
    requires CleanDoWhiles(s) && StatementAlwaysExits(s)
    ensures Normal !in Out(s)
    decreases s, 1
  {
    match s
    case Block(stmts) => CaseLeaves(stmts);
    case If(_, thn, els) =>
      StatementLeaves(thn);
      StatementLeaves(els.value);
    case Try(block, handler, finalizer) =>
      if finalizer.SomeBlock? && CaseExits(finalizer.body) {
        CaseLeaves(finalizer.body);
      } else {
        CaseLeaves(block);
        if handler.Catch? {
          CaseLeaves(handler.body);
        }
      }
    case DoWhile(body, _) =>
      BodyLeaves(body);
      StaysOut(body, Broke);
      StaysOut(body, Continued);
    case _ =>
  }

  lemma {:induction false} CaseLeaves(stmts: seq<Stmt>)
    requires (forall x :: x in stmts ==> CleanDoWhiles(x)) && CaseExits(stmts)
    ensures Normal !in OutList(stmts)
    decreases stmts, 0
  {
    var x :| x in stmts && StatementAlwaysExits(x);
    StatementLeaves(x);
    BlockedList(stmts, x);
  }

  lemma {:induction false} StatementExitsSound(s: Stmt)
    requires CleanDoWhiles(s) && StatementAlwaysExits(s)
    ensures !Can(s, Normal)
  {
    StatementLeaves(s);
    OutExact(s, Normal);
  }

  /** A clause the rule accepts never runs off its end into the next clause. */
  lemma {:induction false} CaseExitsSound(stmts: seq<Stmt>)
    requires (forall x :: x in stmts ==> CleanDoWhiles(x)) && CaseExits(stmts)
    ensures !CanList(stmts, Normal)
  {
    CaseLeaves(stmts);
    OutListExact(stmts, Normal);
  }

  // ----- Do-while bodies that break or continue -----

  /** Whatever the clause contains, accepting it is right exactly when normal completion is
      not among the completions its syntax allows. */
  lemma {:induction false} CaseExitsExact(stmts: seq<Stmt>)
    requires CaseExits(stmts)
    ensures !CanList(stmts, Normal) <==> Normal !in OutList(stmts)
    ensures (forall x :: x in stmts ==> CleanDoWhiles(x)) ==> Normal !in OutList(stmts)
  {
    OutListExact(stmts, Normal);
    if forall x :: x in stmts ==> CleanDoWhiles(x) {
      CaseLeaves(stmts);
    }
  }

  /** An accepted do-while completes normally exactly when its body can come to a `break`
      or `continue` of the loop. */
  lemma {:induction false} DoWhileExitExact(s: Stmt)
    requires s.DoWhile? && StatementAlwaysExits(s)
    ensures Can(s, Normal) <==> Broke in Out(s.body) || Continued in Out(s.body)
  {
    BodyLeaves(s.body);
    OutExact(s, Normal);
  }

  /** `do { if (c) break; return y; } while (t);` is accepted yet can fall through. */
  lemma BreakingDoWhileIsUnsound(c: Expr, y: Expr, t: Expr)
    ensures var s := DoWhile(Block([If(c, Break, None), Return(Some(y))]), t);
            StatementAlwaysExits(s) && Can(s, Normal)
  {
    var cond, ret := If(c, Break, None), Return(Some(y));
    assert ret in [cond, ret] && BodyAlwaysExitsCase(ret);
    assert Broke in Out(cond);
    assert Broke in OutList([cond, ret]);
    DoWhileExitExact(DoWhile(Block([cond, ret]), t));
  }

  // ----- Nothing that leaves is overlooked -----

  /** No switch, loop or label; a try that catches can throw; no do-while but one that the check can
      look into. */
  predicate Readable(s: Stmt) {
    match s
    case Block(stmts) => forall x :: x in stmts ==> Readable(x)
    case If(_, thn, els) => Readable(thn) && (els.Some? ==> Readable(els.value))
    case Try(block, handler, finalizer) =>
      && (forall x :: x in block ==> Readable(x))
      && (handler.Catch? ==> (Threw in OutList(block) || Faulted in OutList(block)) && forall x :: x in handler.body ==> Readable(x))
      && (finalizer.SomeBlock? ==> forall x :: x in finalizer.body ==> Readable(x))
    case DoWhile(body, _) => Branching(body)
    case Switch(_, _) => false
    case Loop(_, _) => false
    case Labeled(_) => false
    case _ => true
  }

  /** Simple statements, returns, throws, blocks and ifs. */
  predicate Branching(s: Stmt) {
    match s
    case Simple(_) => true
    case Var(_) => true
    case Return(_) => true
    case Throw(_) => true
    case Block(stmts) => forall x :: x in stmts ==> Branching(x)
    case If(_, thn, els) => Branching(thn) && (els.Some? ==> Branching(els.value))
    case _ => false
  }

  lemma {:induction false} OpenList(stmts: seq<Stmt>)
    requires forall x :: x in stmts ==> Normal in Out(x)
    ensures Normal in OutList(stmts)
  {
    if stmts != [] {
      OpenList(stmts[1..]);
    }
  }

  lemma {:induction false} BodyExact(s: Stmt)
    requires Branching(s)
    ensures BodyAlwaysExitsCase(s) <==> Normal !in Out(s)
  {
    match s
    case Block(stmts) =>
      forall x | x in stmts ensures BodyAlwaysExitsCase(x) <==> Normal !in Out(x) { BodyExact(x); }
      if x :| x in stmts && BodyAlwaysExitsCase(x) {
        BlockedList(stmts, x);
      } else {
        OpenList(stmts);
      }
    case If(_, thn, els) =>
      BodyExact(thn);
      if els.Some? {
        BodyExact(els.value);
      }
    case _ =>
  }

  lemma BranchingStays(s: Stmt)
    requires Branching(s)
    ensures Broke !in Out(s) && Continued !in Out(s)
  {
    NoJumps(s);
    StaysOut(s, Broke);
    StaysOut(s, Continued);
  }

  lemma {:induction false} NoJumps(s: Stmt)
    requires Branching(s)
    ensures Stays(s, Broke) && Stays(s, Continued)
  {
    match s
    case Block(stmts) => forall x | x in stmts ensures Stays(x, Broke) && Stays(x, Continued) { NoJumps(x); }
    case If(_, thn, els) =>
      NoJumps(thn);
      if els.Some? {
        NoJumps(els.value);
      }
    case _ =>
  }

  lemma {:induction false} StatementExact(s: Stmt)
    requires Readable(s)
    ensures StatementAlwaysExits(s) <==> Normal !in Out(s)
    decreases s, 1
  {
    match s
    case Block(stmts) => ListExact(stmts);
    case If(_, thn, els) =>
      StatementExact(thn);
      if els.Some? {
        StatementExact(els.value);
      }
    case Try(block, handler, finalizer) =>
      ListExact(block);
      if handler.Catch? {
        ListExact(handler.body);
      }
      if finalizer.SomeBlock? {
        ListExact(finalizer.body);
      }
    case DoWhile(body, _) =>
      BodyExact(body);
      BranchingStays(body);
    case _ =>
  }

  lemma {:induction false} ListExact(stmts: seq<Stmt>)
    requires forall x :: x in stmts ==> Readable(x)
    ensures CaseExits(stmts) <==> Normal !in OutList(stmts)
    decreases stmts, 0
  {
    forall x | x in stmts ensures StatementAlwaysExits(x) <==> Normal !in Out(x) { StatementExact(x); }
    if x :| x in stmts && StatementAlwaysExits(x) {
      BlockedList(stmts, x);
    } else {
      OpenList(stmts);
    }
  }

  /** A clause of such statements is accepted exactly when no run goes off its end. */
  lemma {:induction false} AcceptedExact(stmts: seq<Stmt>)
    requires forall x :: x in stmts ==> Readable(x)
    ensures CaseExits(stmts) <==> !CanList(stmts, Normal)
  {
    ListExact(stmts);
    OutListExact(stmts, Normal);
  }
}

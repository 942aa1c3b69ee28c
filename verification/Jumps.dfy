/** Which jumps can leave a statement: unlabelled `break` and `continue`, and bare
    `return`.  `jump` is the completion such a jump produces. */
module Jumps {
  import opened Options
  import opened Syntax
  import opened Completions

  predicate IsJump(c: Completion) { c == Broke || c == Continued || c == ReturnedVoid }

  /** No jump of this kind inside `s` is aimed outside `s`. */
  predicate Stays(s: Stmt, jump: Completion) {
    match s
    case Break => jump != Broke
    case Continue => jump != Continued
    case Block(stmts) => forall x :: x in stmts ==> Stays(x, jump)
    case If(_, thn, els) => Stays(thn, jump) && (els.Some? ==> Stays(els.value, jump))
    case Switch(_, clauses) => jump == Broke || forall c :: c in clauses ==> forall x :: x in c.body ==> Stays(x, jump)
    case Try(block, handler, finalizer) =>
      && (forall x :: x in block ==> Stays(x, jump))
      && (handler.Catch? ==> forall x :: x in handler.body ==> Stays(x, jump))
      && (finalizer.SomeBlock? ==> forall x :: x in finalizer.body ==> Stays(x, jump))
    case Return(arg) => arg.Some? || jump != ReturnedVoid
    case Loop(_, body) => jump != ReturnedVoid || Stays(body, jump)
    case DoWhile(body, _) => jump != ReturnedVoid || Stays(body, jump)
    case Labeled(body) => Stays(body, jump)
    case _ => true
  }

  lemma {:induction false} StaysInside(s: Stmt, jump: Completion, r: Run)
    requires IsJump(jump) && Stays(s, jump) && Runs(s, r)
    ensures r.end != jump
    decreases s, r
  {
    match s
    case Block(stmts) => StaysInsideList(stmts, jump, r);
    case If(_, thn, els) =>
      if Chained(r) {
        if Runs(thn, r.second) {
          StaysInside(thn, jump, r.second);
        } else if els.Some? {
          StaysInside(els.value, jump, r.second);
        }
      }
    case Switch(_, clauses) =>
      if r.Join? && jump != Broke {
        if i: nat :| i < |clauses| && RunsFrom(clauses[i..], r.second) {
          StaysInsideFrom(clauses[i..], jump, r.second);
        }
      }
    case Try(block, handler, finalizer) =>
      var g := if finalizer.NoBlock? then r else r.first;
      if RunsList(block, g) {
        StaysInsideList(block, jump, g);
      } else {
        StaysInsideCatch(handler, jump, g.second);
      }
      if finalizer.SomeBlock? {
        StaysInsideList(finalizer.body, jump, r.second);
      }
    case Loop(head, body) =>
      if Chained(r) {
        LoopCatches(head, body, jump, r.second);
      }
    case DoWhile(body, test) => DoCatches(body, test, jump, r);
    case Labeled(body) => StaysInside(body, jump, r);
    case _ =>
  }

  lemma {:induction false} StaysInsideCatch(h: Handler, jump: Completion, r: Run)
    requires IsJump(jump) && h.Catch? && (forall x :: x in h.body ==> Stays(x, jump)) && RunsCatch(h, r)
    ensures r.end != jump
    decreases h, r
  {
    if !(EvaluatesAll(h.binding, r) && r.end != Normal) {
      StaysInsideList(h.body, jump, r.second);
    }
  }

  lemma {:induction false} StaysInsideList(stmts: seq<Stmt>, jump: Completion, r: Run)
    requires IsJump(jump)
    requires (forall x :: x in stmts ==> Stays(x, jump)) && RunsList(stmts, r)
    ensures r.end != jump
    decreases stmts, r
  {
    if stmts != [] {
      if Runs(stmts[0], r) && r.end != Normal {
        StaysInside(stmts[0], jump, r);
      } else {
        StaysInsideList(stmts[1..], jump, r.second);
      }
    }
  }

  lemma {:induction false} StaysInsideFrom(clauses: seq<Clause>, jump: Completion, r: Run)
    requires IsJump(jump)
    requires (forall c :: c in clauses ==> forall x :: x in c.body ==> Stays(x, jump)) && RunsFrom(clauses, r)
    ensures r.end != jump
    decreases clauses, r
  {
    if clauses != [] {
      if RunsList(clauses[0].body, r) && r.end != Normal {
        StaysInsideList(clauses[0].body, jump, r);
      } else {
        StaysInsideFrom(clauses[1..], jump, r.second);
      }
    }
  }

  /** A loop is the target of every `break` and `continue` that reaches it. */
  lemma {:induction false} LoopCatches(head: Header, body: Stmt, jump: Completion, r: Run)
    requires IsJump(jump) && (jump == ReturnedVoid ==> Stays(body, jump)) && RunsLoop(head, body, r)
    ensures r.end != jump
    decreases body, r
  {
    if r.Join? {
      if r.first.end == Normal || r.first.end == Continued {
        if Chained(r.second) {
          LoopCatches(head, body, jump, r.second.second);
        }
      } else if jump == ReturnedVoid {
        StaysInside(body, jump, r.first.second);
      }
    }
  }

  lemma {:induction false} DoCatches(body: Stmt, test: Expr, jump: Completion, r: Run)
    requires IsJump(jump) && (jump == ReturnedVoid ==> Stays(body, jump)) && RunsDo(body, test, r)
    ensures r.end != jump
    decreases body, r
  {
    if r.second.Join? {
      DoCatches(body, test, jump, r.second.second);
    } else if jump == ReturnedVoid {
      StaysInside(body, jump, r.first);
    }
  }
}

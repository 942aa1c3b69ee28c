/** The completions a statement can have, computed from its syntax alone. */
module Outcomes {
  import opened Options
  import opened Syntax
  import opened Completions
  import opened Paths
  import opened Jumps

  /** Jumps a loop catches, and what lets it go round again. */
  const Inside: set<Completion> := {Normal, Broke, Continued}

  function Out(s: Stmt): set<Completion>
    decreases s, 0
  {
    match s
    case Simple(_) => {Normal, Faulted}
    case Var(_) => {Normal, Faulted}
    case Block(stmts) => OutList(stmts)
    case If(_, thn, els) => {Faulted} + Out(thn) + (if els.Some? then Out(els.value) else {Normal})
    case Switch(_, clauses) => {Faulted} + OutEntries(clauses) + (if HasDefault(clauses) then {} else {Normal})
    case Try(block, handler, finalizer) =>
      var guarded := Guarded(OutList(block), handler.Catch?, if handler.Catch? then OutCatch(handler) else {});
      if finalizer.SomeBlock? then After(guarded, OutList(finalizer.body)) else guarded
    case Return(arg) => if arg.Some? then {Returned, Faulted} else {ReturnedVoid}
    case Throw(_) => {Threw, Faulted}
    case Break => {Broke}
    case Continue => {Continued}
    case Loop(head, body) => Then(OutAll(head.init), Turns(head, Out(body)))
    case DoWhile(body, _) => Rounds(Out(body))
    case Labeled(body) => Out(body)
  }

  /** Evaluating all of a list. */
  function OutAll(es: seq<Expr>): set<Completion> { if es == [] then {Normal} else {Normal, Faulted} }

  /** The rounds of a loop whose body completes with one of `body`. */
  function Turns(head: Header, body: set<Completion>): set<Completion> {
    (if head.test != [] then {Normal} else {}) +
    (if head.test + head.binding != [] then {Faulted} else {}) +
    (body - Inside) + (if Broke in body then {Normal} else {}) +
    (if (Normal in body || Continued in body) && head.step != [] then {Faulted} else {})
  }

  function OutCatch(h: Handler): set<Completion>
    requires h.Catch?
    decreases h, 1
  {
    Then(OutAll(h.binding), OutList(h.body))
  }

  /** A do-while whose body completes with one of `body`. */
  function Rounds(body: set<Completion>): set<Completion> {
    (body - Inside) + (if Broke in body then {Normal} else {}) +
    (if Normal in body || Continued in body then {Normal, Faulted} else {})
  }

  function Guarded(block: set<Completion>, caught: bool, handler: set<Completion>): set<Completion> {
    if !caught then block
    else (block - {Threw, Faulted}) + (if Threw in block || Faulted in block then handler else {})
  }

  function After(guarded: set<Completion>, finalizer: set<Completion>): set<Completion> {
    if guarded == {} then {} else (finalizer - {Normal}) + (if Normal in finalizer then guarded else {})
  }

  function Then(first: set<Completion>, rest: set<Completion>): set<Completion> {
    (first - {Normal}) + (if Normal in first then rest else {})
  }

  function OutList(stmts: seq<Stmt>): set<Completion>
    decreases stmts, 0
  {
    if stmts == [] then {Normal} else Then(Out(stmts[0]), OutList(stmts[1..]))
  }

  /** From the entry clause on, each falling through to the next. */
  function OutFrom(clauses: seq<Clause>): set<Completion>
    decreases clauses, 0
  {
    if clauses == [] then {Normal} else Then(OutList(clauses[0].body), OutFrom(clauses[1..]))
  }

  function Leave(inside: set<Completion>): set<Completion> {
    if Broke in inside then inside - {Broke} + {Normal} else inside
  }

  /** Entering at any of the clauses and leaving the switch. */
  function OutEntries(clauses: seq<Clause>): set<Completion>
    decreases clauses, 1
  {
    if clauses == [] then {} else Leave(OutFrom(clauses)) + OutEntries(clauses[1..])
  }

  // ----- Every run ends as computed -----

  lemma {:induction false} RunEnds(s: Stmt, r: Run)
    requires Runs(s, r)
    ensures r.end in Out(s)
    decreases s, r, 1
  {
    match s
    case Block(stmts) => ListEnds(stmts, r);
    case If(_, thn, els) =>
      if Chained(r) {
        if Runs(thn, r.second) {
          RunEnds(thn, r.second);
        } else if els.Some? {
          RunEnds(els.value, r.second);
        }
      }
    case Switch(_, clauses) =>
      if r.Join? {
        if i: nat :| i < |clauses| && RunsFrom(clauses[i..], r.second) {
          FromEnds(clauses[i..], r.second);
          EntryIncluded(clauses, i, r.second.end);
        }
      }
    case Try(_, _, finalizer) =>
      if finalizer.NoBlock? {
        GuardedEnds(s, r);
      } else {
        GuardedEnds(s, r.first);
        ListEnds(finalizer.body, r.second);
      }
    case Loop(head, body) =>
      if Chained(r) {
        LoopEnds(head, body, r.second);
      }
    case DoWhile(body, test) => DoEnds(body, test, r);
    case Labeled(body) => RunEnds(body, r);
    case _ =>
  }

  lemma {:induction false} ListEnds(stmts: seq<Stmt>, r: Run)
    requires RunsList(stmts, r)
    ensures r.end in OutList(stmts)
    decreases stmts, r, 0
  {
    if stmts != [] {
      if Runs(stmts[0], r) && r.end != Normal {
        RunEnds(stmts[0], r);
      } else {
        RunEnds(stmts[0], r.first);
        ListEnds(stmts[1..], r.second);
      }
    }
  }

  lemma {:induction false} FromEnds(clauses: seq<Clause>, r: Run)
    requires RunsFrom(clauses, r)
    ensures r.end in OutFrom(clauses)
    decreases clauses, r, 0
  {
    if clauses != [] {
      if RunsList(clauses[0].body, r) && r.end != Normal {
        ListEnds(clauses[0].body, r);
      } else {
        ListEnds(clauses[0].body, r.first);
        FromEnds(clauses[1..], r.second);
      }
    }
  }

  lemma {:induction false} EntryIncluded(clauses: seq<Clause>, i: nat, c: Completion)
    requires i < |clauses| && c in OutFrom(clauses[i..])
    ensures AfterBreak(c) in OutEntries(clauses)
    decreases i
  {
    if i == 0 {
      assert clauses[0..] == clauses;
    } else {
      assert clauses[1..][i - 1..] == clauses[i..];
      EntryIncluded(clauses[1..], i - 1, c);
    }
  }

  lemma {:induction false} GuardedEnds(s: Stmt, r: Run)
    requires s.Try? && RunsGuarded(s, r)
    ensures r.end in Guarded(OutList(s.block), s.handler.Catch?, if s.handler.Catch? then OutCatch(s.handler) else {})
    decreases s, r, 0
  {
    if RunsList(s.block, r) && !(IsThrow(r.end) && s.handler.Catch?) {
      ListEnds(s.block, r);
    } else {
      ListEnds(s.block, r.first);
      if Chained(r.second) && RunsList(s.handler.body, r.second.second) {
        ListEnds(s.handler.body, r.second.second);
      }
    }
  }

  lemma {:induction false} LoopEnds(head: Header, body: Stmt, r: Run)
    requires RunsLoop(head, body, r)
    ensures r.end in Turns(head, Out(body))
    decreases body, r, 0
  {
    if !(head.test != [] && EvaluatesAll(head.test, r)) && !(EvaluatesAll(head.test + head.binding, r) && r.end != Normal) {
      RunEnds(body, r.first.second);
      if r.first.end == Normal || r.first.end == Continued {
        if !(EvaluatesAll(head.step, r.second) && r.second.end != Normal) {
          LoopEnds(head, body, r.second.second);
        }
      }
    }
  }

  lemma {:induction false} DoEnds(body: Stmt, test: Expr, r: Run)
    requires RunsDo(body, test, r)
    ensures r.end in Rounds(Out(body))
    decreases body, r, 0
  {
    RunEnds(body, r.first);
    if r.first.end == Normal || r.first.end == Continued {
      if !Evaluates(PathCounts(test), r.second) {
        DoEnds(body, test, r.second.second);
      }
    }
  }

  // ----- Every computed completion has a run -----

  lemma Cost(es: seq<Expr>) returns (k: nat)
    ensures k in PathCountsAll(es)
  {
    PathCountsAllNonempty(es);
    k :| k in PathCountsAll(es);
  }

  /** An evaluation of a list that ends so. */
  lemma ReachAll(es: seq<Expr>, c: Completion) returns (r: Run)
    requires c in OutAll(es)
    ensures EvaluatesAll(es, r) && r.end == c
  {
    if es == [] {
      r := Skip;
    } else {
      var k := Cost(es);
      r := Leaf(c, k);
    }
  }

  lemma CostOf(e: Expr) returns (k: nat)
    ensures k in PathCounts(e)
  {
    PathCountsNonempty(e);
    k :| k in PathCounts(e);
  }

  lemma {:induction false} Reach(s: Stmt, c: Completion) returns (r: Run)
    requires c in Out(s)
    ensures Runs(s, r) && r.end == c
    decreases s, 1
  {
    match s
    case Simple(e) =>
      var k := CostOf(e);
      r := Leaf(c, k);
    case Var(decls) =>
      var k := Cost(decls);
      r := Leaf(c, k);
    case Block(stmts) => r := ReachList(stmts, c);
    case If(cond, thn, els) =>
      var k := CostOf(cond);
      if c == Faulted {
        r := Leaf(Faulted, k);
      } else {
        var q := Skip;
        if c in Out(thn) {
          q := Reach(thn, c);
        } else if els.Some? {
          q := Reach(els.value, c);
        }
        r := Join(c, k + q.calls, Leaf(Normal, k), q);
      }
    case Switch(_, _) => r := ReachSwitch(s, c);
    case Try(_, _, _) => r := ReachTry(s, c);
    case Return(arg) =>
      var k := 0;
      if arg.Some? {
        k := CostOf(arg.value);
      }
      r := Leaf(c, k);
    case Throw(e) =>
      var k := CostOf(e);
      r := Leaf(c, k);
    case Break => r := Leaf(Broke, 0);
    case Continue => r := Leaf(Continued, 0);
    case Loop(_, _) => r := ReachLoop(s, c);
    case DoWhile(_, _) => r := ReachDo(s, c);
    case Labeled(body) => r := Reach(body, c);
  }

  lemma {:induction false} ReachList(stmts: seq<Stmt>, c: Completion) returns (r: Run)
    requires c in OutList(stmts)
    ensures RunsList(stmts, r) && r.end == c
    decreases stmts, 0
  {
    if stmts == [] {
      r := Skip;
    } else if c != Normal && c in Out(stmts[0]) {
      r := Reach(stmts[0], c);
    } else {
      var p := Reach(stmts[0], Normal);
      var q := ReachList(stmts[1..], c);
      r := Join(c, p.calls + q.calls, p, q);
    }
  }

  lemma {:induction false} ReachFrom(clauses: seq<Clause>, c: Completion) returns (r: Run)
    requires c in OutFrom(clauses)
    ensures RunsFrom(clauses, r) && r.end == c
    decreases clauses, 0
  {
    if clauses == [] {
      r := Skip;
    } else if c != Normal && c in OutList(clauses[0].body) {
      r := ReachList(clauses[0].body, c);
    } else {
      var p := ReachList(clauses[0].body, Normal);
      var q := ReachFrom(clauses[1..], c);
      r := Join(c, p.calls + q.calls, p, q);
    }
  }

  lemma {:induction false} EntryOf(clauses: seq<Clause>, c: Completion) returns (i: nat, d: Completion)
    requires c in OutEntries(clauses)
    ensures i < |clauses| && d in OutFrom(clauses[i..]) && AfterBreak(d) == c
  {
    if c in Leave(OutFrom(clauses)) {
      i := 0;
      d := if c in OutFrom(clauses) && c != Broke then c else Broke;
      assert clauses[0..] == clauses;
    } else {
      i, d := EntryOf(clauses[1..], c);
      assert clauses[1..][i..] == clauses[i + 1..];
      i := i + 1;
    }
  }

  lemma {:induction false} ReachSwitch(s: Stmt, c: Completion) returns (r: Run)
    requires s.Switch? && c in Out(s)
    ensures Runs(s, r) && r.end == c
    decreases s, 0
  {
    if c == Faulted {
      var k := Cost([s.head] + Tests(s.clauses));
      r := Leaf(Faulted, k);
    } else if c in OutEntries(s.clauses) {
      var i, d := EntryOf(s.clauses, c);
      var k := Cost([s.head] + TestsBefore(s.clauses, i));
      var q := ReachFrom(s.clauses[i..], d);
      r := Join(c, k + q.calls, Leaf(Normal, k), q);
      assert Evaluates(PathCountsAll([s.head] + TestsBefore(s.clauses, i)), r.first) && RunsFrom(s.clauses[i..], r.second);
    } else {
      var k := Cost([s.head] + Tests(s.clauses));
      r := Join(Normal, k, Leaf(Normal, k), Skip);
    }
  }

  lemma {:induction false} ReachGuarded(s: Stmt, c: Completion) returns (r: Run)
    requires s.Try?
    requires c in Guarded(OutList(s.block), s.handler.Catch?, if s.handler.Catch? then OutCatch(s.handler) else {})
    ensures RunsGuarded(s, r) && r.end == c
    decreases s, 0, 0
  {
    if c in OutList(s.block) && !(IsThrow(c) && s.handler.Catch?) {
      r := ReachList(s.block, c);
    } else {
      var p := ReachList(s.block, if Threw in OutList(s.block) then Threw else Faulted);
      var q := ReachCatch(s.handler, c);
      r := Join(c, p.calls + q.calls, p, q);
    }
  }

  lemma {:induction false} ReachTry(s: Stmt, c: Completion) returns (r: Run)
    requires s.Try? && c in Out(s)
    ensures Runs(s, r) && r.end == c
    decreases s, 0, 1
  {
    if s.finalizer.NoBlock? {
      r := ReachGuarded(s, c);
    } else {
      var over := c != Normal && c in OutList(s.finalizer.body);
      var g := c;
      if over {
        g :| g in Guarded(OutList(s.block), s.handler.Catch?, if s.handler.Catch? then OutCatch(s.handler) else {});
      }
      var p := ReachGuarded(s, g);
      var q := ReachList(s.finalizer.body, if over then c else Normal);
      r := Join(c, p.calls + q.calls, p, q);
    }
  }

  lemma {:induction false} ReachCatch(h: Handler, c: Completion) returns (r: Run)
    requires h.Catch? && c in OutCatch(h)
    ensures RunsCatch(h, r) && r.end == c
    decreases h, 1
  {
    if c != Normal && c in OutAll(h.binding) {
      r := ReachAll(h.binding, c);
    } else {
      var p := ReachAll(h.binding, Normal);
      var q := ReachList(h.body, c);
      r := Join(c, p.calls + q.calls, p, q);
    }
  }

  lemma {:induction false} ReachLoop(s: Stmt, c: Completion) returns (r: Run)
    requires s.Loop? && c in Out(s)
    ensures Runs(s, r) && r.end == c
    decreases s, 0
  {
    if c != Normal && c in OutAll(s.header.init) {
      r := ReachAll(s.header.init, c);
    } else {
      var p := ReachAll(s.header.init, Normal);
      var q := ReachTurns(s.header, s.body, c);
      r := Join(c, p.calls + q.calls, p, q);
    }
  }

  lemma {:induction false} ReachTurns(head: Header, body: Stmt, c: Completion) returns (r: Run)
    requires c in Turns(head, Out(body))
    ensures RunsLoop(head, body, r) && r.end == c
    decreases body, 3
  {
    if c == Normal && head.test != [] {
      r := ReachAll(head.test, Normal);
      TestEnds(head, body, r);
    } else if c == Faulted && head.test + head.binding != [] {
      r := ReachAll(head.test + head.binding, Faulted);
      TestEnds(head, body, r);
    } else if (c == Normal && Broke in Out(body)) || c in Out(body) - Inside {
      r := ReachStop(head, body, if c == Normal then Broke else c);
    } else {
      r := ReachStep(head, body);
    }
  }

  lemma TestEnds(head: Header, body: Stmt, r: Run)
    requires (head.test != [] && EvaluatesAll(head.test, r)) || (EvaluatesAll(head.test + head.binding, r) && r.end != Normal)
    ensures RunsLoop(head, body, r)
  {
  }

  /** The first round ends the loop. */
  lemma {:induction false} ReachStop(head: Header, body: Stmt, c: Completion) returns (r: Run)
    requires c in Out(body) && c != Normal && c != Continued
    ensures RunsLoop(head, body, r) && r.end == AfterBreak(c)
    decreases body, 2
  {
    var p := ReachAll(head.test + head.binding, Normal);
    var q := Reach(body, c);
    var round := Join(q.end, p.calls + q.calls, p, q);
    r := Join(AfterBreak(c), round.calls, round, Skip);
  }

  /** The step after the first round faults. */
  lemma {:induction false} ReachStep(head: Header, body: Stmt) returns (r: Run)
    requires (Normal in Out(body) || Continued in Out(body)) && head.step != []
    ensures RunsLoop(head, body, r) && r.end == Faulted
    decreases body, 2
  {
    var p := ReachAll(head.test + head.binding, Normal);
    var q := Reach(body, if Normal in Out(body) then Normal else Continued);
    var round := Join(q.end, p.calls + q.calls, p, q);
    var step := ReachAll(head.step, Faulted);
    r := Join(Faulted, round.calls + step.calls, round, step);
  }

  lemma {:induction false} ReachDo(s: Stmt, c: Completion) returns (r: Run)
    requires s.DoWhile? && c in Out(s)
    ensures Runs(s, r) && r.end == c
    decreases s, 0
  {
    var body := Out(s.body);
    if c == Normal && Broke in body {
      var q := Reach(s.body, Broke);
      r := Join(Normal, q.calls, q, Skip);
    } else if c in body - Inside {
      var q := Reach(s.body, c);
      r := Join(c, q.calls, q, Skip);
    } else {
      var q := Reach(s.body, if Normal in body then Normal else Continued);
      var n := CostOf(s.test);
      r := Join(c, q.calls + n, q, Leaf(c, n));
    }
  }

  // ----- The computed completions are the true ones -----

  /** Exact for every statement: loops, try, and jumps at any depth. */
  lemma {:induction false} OutExact(s: Stmt, c: Completion)
    ensures c in Out(s) <==> Can(s, c)
  {
    if c in Out(s) {
      var r := Reach(s, c);
      assert Completes(s, c, r.calls);
    }
    if Can(s, c) {
      var k :| Completes(s, c, k);
      var r :| Runs(s, r) && r.end == c && r.calls == k;
      RunEnds(s, r);
    }
  }

  lemma {:induction false} OutListExact(stmts: seq<Stmt>, c: Completion)
    ensures c in OutList(stmts) <==> CanList(stmts, c)
  {
    if c in OutList(stmts) {
      var r := ReachList(stmts, c);
      assert CompletesList(stmts, c, r.calls);
    }
    if CanList(stmts, c) {
      var k :| CompletesList(stmts, c, k);
      var r :| RunsList(stmts, r) && r.end == c && r.calls == k;
      ListEnds(stmts, r);
    }
  }

  /** A jump that stays inside is not among the completions. */
  lemma StaysOut(s: Stmt, jump: Completion)
    requires IsJump(jump) && Stays(s, jump)
    ensures jump !in Out(s)
  {
    if jump in Out(s) {
      var r := Reach(s, jump);
      StaysInside(s, jump, r);
    }
  }
}

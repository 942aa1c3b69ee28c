/** What a statement can do when it runs: ECMA-262 (2023) section 6.2.4 completion
    records, with conditions chosen freely and loops run any number of times.  A run is
    a tree that records how the statement completed and how many `super(...)` calls it
    made on the way, so one semantics serves every analyser. */
module Completions {
  import opened Options
  import opened Syntax

  /** `Threw` is the completion of a throw statement; `Faulted` is a throw completion that
      evaluating some expression raised.  Both are throw completions to a handler. */
  datatype Completion = Normal | Broke | Continued | Returned | ReturnedVoid | Threw | Faulted

  datatype Run =
    | Leaf(end: Completion, calls: nat)
    | Join(end: Completion, calls: nat, first: Run, second: Run)

  // ----- How many super calls an expression can make -----

  ghost predicate IsSum(s: iset<nat>, t: iset<nat>, k: nat) {
    exists i: nat :: i in s && i <= k && k - i in t
  }

  ghost function Sumset(s: iset<nat>, t: iset<nat>): iset<nat> {
    iset k: nat | IsSum(s, t, k)
  }

  /** The numbers of super calls over all complete evaluations of `e`. */
  ghost function PathCounts(e: Expr): iset<nat>
    decreases e
  {
    match e
    case Atom => iset{0}
    case FunctionLike(heads) => PathCountsAll(heads)
    case SuperCall(args) => Sumset(PathCountsAll(args), iset{1})
    case Call(callee, args) => Sumset(PathCounts(callee), PathCountsAll(args))
    case Conditional(c, t, f) => Sumset(PathCounts(c), PathCounts(t) + PathCounts(f))
    case Logical(l, r) => Sumset(PathCounts(l), PathCounts(r) + iset{0})
    case Skipping(first, links) => Sumset(PathCounts(first), PathCountsLinks(links))
    case Compound(parts) => PathCountsAll(parts)
  }

  ghost function PathCountsAll(es: seq<Expr>): iset<nat>
    decreases es
  {
    if es == [] then iset{0} else Sumset(PathCounts(es[0]), PathCountsAll(es[1..]))
  }

  /** At every link the evaluation may stop. */
  ghost function PathCountsLinks(links: seq<Link>): iset<nat>
    decreases links
  {
    if links == [] then iset{0}
    else iset{0} + Sumset(PathCountsAll(links[0].parts), PathCountsLinks(links[1..]))
  }

  // ----- Runs -----

  /** An expression evaluates completely, or faults part of the way through. */
  ghost predicate Evaluates(counts: iset<nat>, r: Run) {
    r.Leaf? &&
    match r.end
    case Normal => r.calls in counts
    case Faulted => exists k :: k in counts && r.calls <= k
    case _ => false
  }

  /** Evaluates all of a list; nothing is evaluated, and nothing faults, in an empty one. */
  ghost predicate EvaluatesAll(es: seq<Expr>, r: Run) {
    if es == [] then r == Skip else Evaluates(PathCountsAll(es), r)
  }

  /** `r.second` ran after `r.first` had completed normally. */
  ghost predicate Chained(r: Run) {
    r.Join? && r.first.end == Normal && r.end == r.second.end && r.calls == r.first.calls + r.second.calls
  }

  const Skip := Leaf(Normal, 0)

  predicate IsThrow(c: Completion) { c == Threw || c == Faulted }

  /** Unlabelled `break` ends the statement it is aimed at normally. */
  function AfterBreak(c: Completion): Completion { if c == Broke then Normal else c }

  /** The labels evaluated before the switch is entered at clause `i` (section 14.12). */
  function TestsBefore(clauses: seq<Clause>, i: nat): seq<Expr>
    requires i < |clauses|
  {
    if clauses[i].Default? then Tests(clauses) else Tests(clauses[..i + 1])
  }

  ghost predicate Runs(s: Stmt, r: Run)
    decreases s, r, 1
  {
    match s
    case Simple(e) => Evaluates(PathCounts(e), r)
    case Var(decls) => Evaluates(PathCountsAll(decls), r)
    case Block(body) => RunsList(body, r)
    case If(cond, thn, els) =>
      (Evaluates(PathCounts(cond), r) && r.end != Normal) ||
      (Chained(r) && Evaluates(PathCounts(cond), r.first) &&
       (Runs(thn, r.second) || (if els.Some? then Runs(els.value, r.second) else r.second == Skip)))
    case Switch(head, clauses) =>
      (Evaluates(PathCountsAll([head] + Tests(clauses)), r) && r.end != Normal) ||
      (r.Join? && r.first.end == Normal && r.calls == r.first.calls + r.second.calls &&
       r.end == AfterBreak(r.second.end) &&
       ((exists i :: 0 <= i < |clauses| &&
           Evaluates(PathCountsAll([head] + TestsBefore(clauses, i)), r.first) && RunsFrom(clauses[i..], r.second)) ||
        (!HasDefault(clauses) && Evaluates(PathCountsAll([head] + Tests(clauses)), r.first) && r.second == Skip)))
    case Try(block, handler, finalizer) =>
      if finalizer.NoBlock? then
        RunsGuarded(s, r)
      else
        r.Join? && RunsGuarded(s, r.first) && RunsList(finalizer.body, r.second) &&
        r.calls == r.first.calls + r.second.calls &&
        r.end == (if r.second.end == Normal then r.first.end else r.second.end)
    case Return(arg) =>
      if arg.None? then r == Leaf(ReturnedVoid, 0)
      else (Evaluates(PathCounts(arg.value), r) && r.end != Normal) ||
           (r.Leaf? && r.end == Returned && r.calls in PathCounts(arg.value))
    case Throw(e) =>
      (Evaluates(PathCounts(e), r) && r.end != Normal) ||
      (r.Leaf? && r.end == Threw && r.calls in PathCounts(e))
    case Break => r == Leaf(Broke, 0)
    case Continue => r == Leaf(Continued, 0)
    case Loop(head, body) =>
      (EvaluatesAll(head.init, r) && r.end != Normal) ||
      (Chained(r) && EvaluatesAll(head.init, r.first) && RunsLoop(head, body, r.second))
    case DoWhile(body, test) => RunsDo(body, test, r)
    case Labeled(body) => Runs(body, r)
  }

  ghost predicate RunsList(stmts: seq<Stmt>, r: Run)
    decreases stmts, r
  {
    if stmts == [] then r == Skip
    else (Runs(stmts[0], r) && r.end != Normal) ||
         (Chained(r) && Runs(stmts[0], r.first) && RunsList(stmts[1..], r.second))
  }

  /** Clause bodies from the entry clause on, each falling through to the next. */
  ghost predicate RunsFrom(clauses: seq<Clause>, r: Run)
    decreases clauses, r
  {
    if clauses == [] then r == Skip
    else (RunsList(clauses[0].body, r) && r.end != Normal) ||
         (Chained(r) && RunsList(clauses[0].body, r.first) && RunsFrom(clauses[1..], r.second))
  }

  /** A try block and its handler (section 14.15), before the finalizer. */
  ghost predicate RunsGuarded(s: Stmt, r: Run)
    requires s.Try?
    decreases s, r, 0
  {
    (RunsList(s.block, r) && !(IsThrow(r.end) && s.handler.Catch?)) ||
    (s.handler.Catch? && r.Join? && RunsList(s.block, r.first) && IsThrow(r.first.end) &&
     RunsCatch(s.handler, r.second) && r.end == r.second.end && r.calls == r.first.calls + r.second.calls)
  }

  /** A catch clause binds what was thrown and runs its block. */
  ghost predicate RunsCatch(h: Handler, r: Run)
    requires h.Catch?
    decreases h, r
  {
    (EvaluatesAll(h.binding, r) && r.end != Normal) ||
    (Chained(r) && EvaluatesAll(h.binding, r.first) && RunsList(h.body, r.second))
  }

  /** The rounds of a loop: its test ends it, or the body runs, then the step, and the loop
      goes on. */
  ghost predicate RunsLoop(head: Header, body: Stmt, r: Run)
    decreases body, r
  {
    (head.test != [] && EvaluatesAll(head.test, r)) ||
    (EvaluatesAll(head.test + head.binding, r) && r.end != Normal) ||
    (r.Join? && Chained(r.first) && EvaluatesAll(head.test + head.binding, r.first.first) && Runs(body, r.first.second) &&
     if r.first.end == Normal || r.first.end == Continued
     then r.end == r.second.end && r.calls == r.first.calls + r.second.calls &&
          ((EvaluatesAll(head.step, r.second) && r.second.end != Normal) ||
           (Chained(r.second) && EvaluatesAll(head.step, r.second.first) && RunsLoop(head, body, r.second.second)))
     else r.second == Skip && r.end == AfterBreak(r.first.end) && r.calls == r.first.calls)
  }

  ghost predicate RunsDo(body: Stmt, test: Expr, r: Run)
    decreases body, r
  {
    r.Join? && Runs(body, r.first) &&
    if r.first.end == Normal || r.first.end == Continued
    then r.end == r.second.end && r.calls == r.first.calls + r.second.calls &&
         (Evaluates(PathCounts(test), r.second) ||
          (Chained(r.second) && Evaluates(PathCounts(test), r.second.first) && RunsDo(body, test, r.second.second)))
    else r.second == Skip && r.end == AfterBreak(r.first.end) && r.calls == r.first.calls
  }
}

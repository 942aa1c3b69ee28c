/** How each run of a statement can end and how many super calls it can have made by then,
    two standing for two or more: computed from the syntax alone. */
module Tallies {
  import opened Options
  import opened Syntax
  import opened Completions
  import opened Paths

  function Cap(k: nat): nat { if k < 2 then k else 2 }

  datatype Tally = Tally(end: Completion, calls: nat)

  function Of(r: Run): Tally { Tally(r.end, Cap(r.calls)) }

  /** What `next` ends with, after as many calls more. */
  function Add(calls: nat, next: Tally): Tally { Tally(next.end, Cap(calls + next.calls)) }

  // ----- Expressions -----

  const Caps: set<nat> := {0, 1, 2}

  function Plus(s: set<nat>, t: set<nat>): set<nat> { set c | c in Caps && Sums(s, t, c) }

  predicate Sums(s: set<nat>, t: set<nat>, c: nat) { exists i, j :: i in s && j in t && c == Cap(i + j) }

  function Costs(e: Expr): set<nat>
    decreases e
  {
    match e
    case Atom => {0}
    case FunctionLike(heads) => CostsAll(heads)
    case SuperCall(args) => Plus(CostsAll(args), {1})
    case Call(callee, args) => Plus(Costs(callee), CostsAll(args))
    case Conditional(c, t, f) => Plus(Costs(c), Costs(t) + Costs(f))
    case Logical(l, r) => Plus(Costs(l), Costs(r) + {0})
    case Skipping(first, links) => Plus(Costs(first), CostsLinks(links))
    case Compound(parts) => CostsAll(parts)
  }

  function CostsAll(es: seq<Expr>): set<nat>
    decreases es
  {
    if es == [] then {0} else Plus(Costs(es[0]), CostsAll(es[1..]))
  }

  function CostsLinks(links: seq<Link>): set<nat>
    decreases links
  {
    if links == [] then {0} else {0} + Plus(CostsAll(links[0].parts), CostsLinks(links[1..]))
  }

  /** `caps` are the counts, capped. */
  ghost predicate Capped(caps: set<nat>, counts: iset<nat>) {
    (forall k :: k in counts ==> Cap(k) in caps) && (forall c :: c in caps ==> IsCap(c, counts))
  }

  ghost predicate IsCap(c: nat, counts: iset<nat>) { exists k :: k in counts && Cap(k) == c }

  lemma CappedSum(a: set<nat>, s: iset<nat>, b: set<nat>, t: iset<nat>)
    requires Capped(a, s) && Capped(b, t)
    ensures Capped(Plus(a, b), Sumset(s, t))
  {
    forall k | k in Sumset(s, t) ensures Cap(k) in Plus(a, b) {
      var i: nat :| i in s && i <= k && k - i in t;
      Summed(a, b, Cap(i), Cap(k - i));
    }
    forall c | c in Plus(a, b) ensures IsCap(c, Sumset(s, t)) {
      var x, y := PlusSplit(a, b, c);
      SumIsCap(x, s, y, t);
    }
  }

  lemma Summed(s: set<nat>, t: set<nat>, i: nat, j: nat)
    requires i in s && j in t
    ensures Cap(i + j) in Plus(s, t)
  {
    assert Sums(s, t, Cap(i + j)) && Cap(i + j) in Caps;
  }

  lemma SumIsCap(x: nat, s: iset<nat>, y: nat, t: iset<nat>)
    requires IsCap(x, s) && IsCap(y, t)
    ensures IsCap(Cap(x + y), Sumset(s, t))
  {
    var i :| i in s && Cap(i) == x;
    var j :| j in t && Cap(j) == y;
    SumsetMember(s, t, i, j);
    assert Cap(i + j) == Cap(x + y);
  }

  lemma CappedUnion(a: set<nat>, s: iset<nat>, b: set<nat>, t: iset<nat>)
    requires Capped(a, s) && Capped(b, t)
    ensures Capped(a + b, s + t)
  {
    forall c | c in a + b ensures IsCap(c, s + t) {
      assert IsCap(c, s) || IsCap(c, t);
    }
  }

  lemma CappedOne(k: nat)
    requires k < 2
    ensures Capped({k}, iset{k})
  {
    assert Cap(k) == k && IsCap(k, iset{k});
  }

  lemma {:induction false} CostsExact(e: Expr)
    ensures Capped(Costs(e), PathCounts(e))
    decreases e
  {
    match e
    case Atom => CappedOne(0);
    case FunctionLike(heads) => CostsAllExact(heads);
    case SuperCall(args) =>
      CostsAllExact(args);
      CappedOne(1);
      CappedSum(CostsAll(args), PathCountsAll(args), {1}, iset{1});
    case Call(callee, args) =>
      CostsExact(callee);
      CostsAllExact(args);
      CappedSum(Costs(callee), PathCounts(callee), CostsAll(args), PathCountsAll(args));
    case Conditional(c, t, f) =>
      CostsExact(c);
      CostsExact(t);
      CostsExact(f);
      CappedUnion(Costs(t), PathCounts(t), Costs(f), PathCounts(f));
      CappedSum(Costs(c), PathCounts(c), Costs(t) + Costs(f), PathCounts(t) + PathCounts(f));
    case Logical(l, r) =>
      CostsExact(l);
      CostsExact(r);
      CappedOne(0);
      CappedUnion(Costs(r), PathCounts(r), {0}, iset{0});
      CappedSum(Costs(l), PathCounts(l), Costs(r) + {0}, PathCounts(r) + iset{0});
    case Skipping(first, links) =>
      CostsExact(first);
      CostsLinksExact(links);
      CappedSum(Costs(first), PathCounts(first), CostsLinks(links), PathCountsLinks(links));
    case Compound(parts) => CostsAllExact(parts);
  }

  lemma {:induction false} CostsAllExact(es: seq<Expr>)
    ensures Capped(CostsAll(es), PathCountsAll(es))
    decreases es
  {
    if es == [] {
      CappedOne(0);
    } else {
      CostsExact(es[0]);
      CostsAllExact(es[1..]);
      CappedSum(Costs(es[0]), PathCounts(es[0]), CostsAll(es[1..]), PathCountsAll(es[1..]));
    }
  }

  lemma {:induction false} CostsLinksExact(links: seq<Link>)
    ensures Capped(CostsLinks(links), PathCountsLinks(links))
    decreases links
  {
    CappedOne(0);
    if links != [] {
      CostsAllExact(links[0].parts);
      CostsLinksExact(links[1..]);
      var a, s := CostsAll(links[0].parts), PathCountsAll(links[0].parts);
      CappedSum(a, s, CostsLinks(links[1..]), PathCountsLinks(links[1..]));
      CappedUnion({0}, iset{0}, Plus(a, CostsLinks(links[1..])), Sumset(s, PathCountsLinks(links[1..])));
    }
  }

  // ----- Statements -----

  const Ends: set<Completion> := {Normal, Broke, Continued, Returned, ReturnedVoid, Threw, Faulted}

  const All: set<Tally> := set c, k | c in Ends && k in Caps :: Tally(c, k)

  lemma InAll(t: Tally)
    requires t.calls <= 2
    ensures t in All
  {
    assert t.calls in Caps;
    match t.end
    case Normal => assert Normal in Ends;
    case Broke => assert Broke in Ends;
    case Continued => assert Continued in Ends;
    case Returned => assert Returned in Ends;
    case ReturnedVoid => assert ReturnedVoid in Ends;
    case Threw => assert Threw in Ends;
    case Faulted => assert Faulted in Ends;
  }

  function At(end: Completion, costs: set<nat>): set<Tally> { set t | t in All && t.end == end && t.calls in costs }

  /** Part of an evaluation that costs one of these. */
  function Below(costs: set<nat>): set<nat> { set j | j in Caps && IsBelow(costs, j) }

  predicate IsBelow(costs: set<nat>, j: nat) { exists k :: k in costs && j <= k }

  function Evaluated(costs: set<nat>): set<Tally> { At(Normal, costs) + At(Faulted, Below(costs)) }

  /** `rest` after any of these costs. */
  function Shift(costs: set<nat>, rest: set<Tally>): set<Tally> { set t | t in All && Shifts(costs, rest, t) }

  predicate Shifts(costs: set<nat>, rest: set<Tally>, t: Tally) { exists k, u :: k in costs && u in rest && t == Add(k, u) }

  /** The costs of ending so. */
  function Ending(end: Completion, ts: set<Tally>): set<nat> { set k | k in Caps && Tally(end, k) in ts }

  function Then(first: set<Tally>, rest: set<Tally>): set<Tally> {
    (set t | t in first && t.end != Normal) + Shift(Ending(Normal, first), rest)
  }

  function Leave(inside: set<Tally>): set<Tally> { set t | t in All && Leaves(inside, t) }

  predicate Leaves(inside: set<Tally>, t: Tally) { exists u :: u in inside && t == Tally(AfterBreak(u.end), u.calls) }

  function Guarded(block: set<Tally>, caught: bool, handler: set<Tally>): set<Tally> {
    (set t | t in block && !(IsThrow(t.end) && caught)) +
    (if caught then Shift(Ending(Threw, block) + Ending(Faulted, block), handler) else {})
  }

  function Finally(guarded: set<Tally>, finalizer: set<Tally>): set<Tally> {
    set t | t in All && Finishes(guarded, finalizer, t)
  }

  predicate Finishes(guarded: set<Tally>, finalizer: set<Tally>, t: Tally) {
    exists p, q :: p in guarded && q in finalizer && t == Finish(p, q)
  }

  function Finish(p: Tally, q: Tally): Tally { Tally(if q.end == Normal then p.end else q.end, Cap(p.calls + q.calls)) }

  /** The costs of going round: none, one of `round`, or several times. */
  function Rounds(round: set<nat>): set<nat> { {0} + round + Plus(round, round) }

  function GoesOn(body: set<Tally>): set<nat> { Ending(Normal, body) + Ending(Continued, body) }

  /** A round of the body that ends the loop. */
  function Stops(body: set<Tally>): set<Tally> { set t | t in All && StopsAs(body, t) }

  predicate StopsAs(body: set<Tally>, t: Tally) {
    exists u :: u in body && u.end != Normal && u.end != Continued && t == Tally(AfterBreak(u.end), u.calls)
  }

  /** Evaluating all of a list. */
  function AllOf(es: seq<Expr>): set<Tally> { if es == [] then {Tally(Normal, 0)} else Evaluated(CostsAll(es)) }

  function Faults(ts: set<Tally>): set<Tally> { set t | t in ts && t.end != Normal }

  /** The costs of entering the body and going on after it. */
  function Going(enter: set<Tally>, body: set<Tally>): set<nat> { Plus(Ending(Normal, enter), GoesOn(body)) }

  function Turn(enter: set<Tally>, step: set<Tally>, body: set<Tally>): set<nat> { Plus(Going(enter, body), Ending(Normal, step)) }

  /** The last round: the test leaves, entering the body faults, the body stops, or the step faults. */
  function Last(test: set<Tally>, enter: set<Tally>, step: set<Tally>, body: set<Tally>): set<Tally> {
    test + Faults(enter) + Shift(Ending(Normal, enter), Stops(body)) + Shift(Going(enter, body), Faults(step))
  }

  function Looping(test: set<Tally>, enter: set<Tally>, step: set<Tally>, body: set<Tally>): set<Tally> {
    Shift(Rounds(Turn(enter, step, body)), Last(test, enter, step, body))
  }

  function Test(h: Header): set<Tally> { if h.test == [] then {} else AllOf(h.test) }

  function LoopingOf(h: Header, body: set<Tally>): set<Tally> {
    Looping(Test(h), AllOf(h.test + h.binding), AllOf(h.step), body)
  }

  function Doing(body: set<Tally>, test: set<nat>): set<Tally> {
    Shift(Rounds(Plus(GoesOn(body), test)), Stops(body) + Shift(GoesOn(body), Evaluated(test)))
  }

  function TalliesOf(s: Stmt): set<Tally>
    decreases s, 0
  {
    match s
    case Simple(e) => Evaluated(Costs(e))
    case Var(decls) => Evaluated(CostsAll(decls))
    case Block(stmts) => TalliesOfList(stmts)
    case If(cond, thn, els) =>
      Then(Evaluated(Costs(cond)), TalliesOf(thn) + if els.Some? then TalliesOf(els.value) else {Tally(Normal, 0)})
    case Switch(head, clauses) =>
      var all := CostsAll([head] + Tests(clauses));
      At(Faulted, Below(all)) + TalliesOfEntries(head, clauses, 0) + (if HasDefault(clauses) then {} else At(Normal, all))
    case Try(block, handler, finalizer) =>
      var guarded := Guarded(TalliesOfList(block), handler.Catch?, if handler.Catch? then TalliesOfCatch(handler) else {});
      if finalizer.SomeBlock? then Finally(guarded, TalliesOfList(finalizer.body)) else guarded
    case Return(arg) =>
      if arg.None? then {Tally(ReturnedVoid, 0)}
      else At(Faulted, Below(Costs(arg.value))) + At(Returned, Costs(arg.value))
    case Throw(e) => At(Faulted, Below(Costs(e))) + At(Threw, Costs(e))
    case Break => {Tally(Broke, 0)}
    case Continue => {Tally(Continued, 0)}
    case Loop(header, body) => Then(AllOf(header.init), LoopingOf(header, TalliesOf(body)))
    case DoWhile(body, test) => Doing(TalliesOf(body), Costs(test))
    case Labeled(body) => TalliesOf(body)
  }

  function TalliesOfCatch(h: Handler): set<Tally>
    requires h.Catch?
    decreases h, 1
  {
    Then(AllOf(h.binding), TalliesOfList(h.body))
  }

  function TalliesOfList(stmts: seq<Stmt>): set<Tally>
    decreases stmts, 0
  {
    if stmts == [] then {Tally(Normal, 0)} else Then(TalliesOf(stmts[0]), TalliesOfList(stmts[1..]))
  }

  /** From clause `i` on, each falling through to the next. */
  function TalliesOfFrom(clauses: seq<Clause>, i: nat): set<Tally>
    requires i <= |clauses|
    decreases clauses, |clauses| - i
  {
    if i == |clauses| then {Tally(Normal, 0)} else Then(TalliesOfList(clauses[i].body), TalliesOfFrom(clauses, i + 1))
  }

  /** Entering at clause `i` or a later one, and leaving the switch. */
  function TalliesOfEntries(head: Expr, clauses: seq<Clause>, i: nat): set<Tally>
    requires i <= |clauses|
    decreases clauses, 2 * |clauses| + 2 - i
  {
    if i == |clauses| then {}
    else TalliesOfEntry(head, clauses, i) + TalliesOfEntries(head, clauses, i + 1)
  }

  function TalliesOfEntry(head: Expr, clauses: seq<Clause>, i: nat): set<Tally>
    requires i < |clauses|
    decreases clauses, 2 * |clauses| - i
  {
    Shift(CostsAll([head] + TestsBefore(clauses, i)), Leave(TalliesOfFrom(clauses, i)))
  }

  // ----- Every run is tallied -----

  lemma CapSum(a: nat, b: nat)
    ensures Cap(a + b) == Cap(Cap(a) + b) == Cap(a + Cap(b)) == Cap(Cap(a) + Cap(b))
  {
  }

  lemma Shifted(costs: set<nat>, rest: set<Tally>, k: nat, t: Tally)
    requires k in costs && t in rest
    ensures Add(k, t) in Shift(costs, rest)
  {
    InAll(Add(k, t));
    assert Shifts(costs, rest, Add(k, t));
  }

  lemma EvaluatedCovers(caps: set<nat>, counts: iset<nat>, r: Run)
    requires Capped(caps, counts) && Evaluates(counts, r)
    ensures Of(r) in Evaluated(caps)
    ensures r.end == Faulted ==> Of(r) in At(Faulted, Below(caps))
    ensures r.end == Normal ==> Cap(r.calls) in caps
  {
    InAll(Of(r));
    if r.end == Faulted {
      var k :| k in counts && r.calls <= k;
      assert Cap(k) in caps && Cap(r.calls) <= Cap(k);
      assert IsBelow(caps, Cap(r.calls));
    }
  }

  lemma AllTallied(es: seq<Expr>, r: Run)
    requires EvaluatesAll(es, r)
    ensures Of(r) in AllOf(es)
  {
    if es != [] {
      CostsAllExact(es);
      EvaluatedCovers(CostsAll(es), PathCountsAll(es), r);
    }
  }

  /** `r` goes on with `q` after as many calls as `p` made. */
  lemma ThenCovers(first: set<Tally>, rest: set<Tally>, p: Run, q: Run, end: Completion, calls: nat)
    requires Of(p) in first && p.end == Normal && Tally(end, Cap(q.calls)) in rest && calls == p.calls + q.calls
    ensures Tally(end, Cap(calls)) in Then(first, rest)
  {
    CapSum(p.calls, q.calls);
    assert Cap(p.calls) in Ending(Normal, first);
    Shifted(Ending(Normal, first), rest, Cap(p.calls), Tally(end, Cap(q.calls)));
  }

  lemma {:induction false} RunTallied(s: Stmt, r: Run)
    requires Runs(s, r)
    ensures Of(r) in TalliesOf(s)
    decreases s, r, 1
  {
    match s
    case Simple(e) =>
      CostsExact(e);
      EvaluatedCovers(Costs(e), PathCounts(e), r);
    case Var(decls) =>
      CostsAllExact(decls);
      EvaluatedCovers(CostsAll(decls), PathCountsAll(decls), r);
    case Block(stmts) => ListTallied(stmts, r);
    case If(_, _, _) => IfTallied(s, r);
    case Switch(_, _) => SwitchTallied(s, r);
    case Try(_, _, _) => TryTallied(s, r);
    case Return(arg) =>
      if arg.Some? {
        ExitTallied(arg.value, Returned, r);
      }
    case Throw(e) => ExitTallied(e, Threw, r);
    case Loop(_, _) => LoopTallied(s, r);
    case DoWhile(body, test) => DoTallied(body, test, r);
    case Labeled(body) => RunTallied(body, r);
    case _ =>
  }

  lemma ExitTallied(e: Expr, end: Completion, r: Run)
    requires end != Normal && end != Faulted
    requires (Evaluates(PathCounts(e), r) && r.end != Normal) || (r.end == end && r.calls in PathCounts(e))
    ensures Of(r) in At(Faulted, Below(Costs(e))) + At(end, Costs(e))
  {
    CostsExact(e);
    if Evaluates(PathCounts(e), r) {
      EvaluatedCovers(Costs(e), PathCounts(e), r);
    }
  }

  lemma {:induction false} IfTallied(s: Stmt, r: Run)
    requires s.If? && Runs(s, r)
    ensures Of(r) in TalliesOf(s)
    decreases s, r, 0
  {
    CostsExact(s.cond);
    var rest := TalliesOf(s.thn) + if s.els.Some? then TalliesOf(s.els.value) else {Tally(Normal, 0)};
    if Evaluates(PathCounts(s.cond), r) && r.end != Normal {
      EvaluatedCovers(Costs(s.cond), PathCounts(s.cond), r);
    } else {
      EvaluatedCovers(Costs(s.cond), PathCounts(s.cond), r.first);
      if Runs(s.thn, r.second) {
        RunTallied(s.thn, r.second);
      } else if s.els.Some? {
        RunTallied(s.els.value, r.second);
      }
      ThenCovers(Evaluated(Costs(s.cond)), rest, r.first, r.second, r.end, r.calls);
    }
  }

  lemma {:induction false} ListTallied(stmts: seq<Stmt>, r: Run)
    requires RunsList(stmts, r)
    ensures Of(r) in TalliesOfList(stmts)
    decreases stmts, r, 0
  {
    if stmts != [] {
      if Runs(stmts[0], r) && r.end != Normal {
        RunTallied(stmts[0], r);
      } else {
        RunTallied(stmts[0], r.first);
        ListTallied(stmts[1..], r.second);
        ThenCovers(TalliesOf(stmts[0]), TalliesOfList(stmts[1..]), r.first, r.second, r.end, r.calls);
      }
    }
  }

  lemma {:induction false} FromTallied(clauses: seq<Clause>, i: nat, r: Run)
    requires i <= |clauses| && RunsFrom(clauses[i..], r)
    ensures Of(r) in TalliesOfFrom(clauses, i)
    decreases clauses, r, |clauses| - i
  {
    if i < |clauses| {
      assert clauses[i..][0] == clauses[i] && clauses[i..][1..] == clauses[i + 1..];
      if RunsList(clauses[i].body, r) && r.end != Normal {
        ListTallied(clauses[i].body, r);
      } else {
        ListTallied(clauses[i].body, r.first);
        FromTallied(clauses, i + 1, r.second);
        ThenCovers(TalliesOfList(clauses[i].body), TalliesOfFrom(clauses, i + 1), r.first, r.second, r.end, r.calls);
      }
    }
  }

  lemma EntriesFrom(head: Expr, clauses: seq<Clause>, i: nat, t: Tally)
    requires i < |clauses|
    ensures t in TalliesOfEntries(head, clauses, i) <==>
            t in TalliesOfEntry(head, clauses, i) || t in TalliesOfEntries(head, clauses, i + 1)
  {
  }

  lemma {:induction false} EntryTallied(head: Expr, clauses: seq<Clause>, i: nat, j: nat, t: Tally)
    requires i <= j < |clauses| && t in TalliesOfEntry(head, clauses, j)
    ensures t in TalliesOfEntries(head, clauses, i)
    decreases j - i
  {
    EntriesFrom(head, clauses, i, t);
    if i < j {
      EntryTallied(head, clauses, i + 1, j, t);
    }
  }

  lemma {:induction false} SwitchTallied(s: Stmt, r: Run)
    requires s.Switch? && Runs(s, r)
    ensures Of(r) in TalliesOf(s)
    decreases s, r, 0
  {
    SwitchExact(s, Of(r));
    if Evaluates(PathCountsAll([s.head] + Tests(s.clauses)), r) && r.end != Normal {
      TestsCover(s, r);
    } else {
      var i := EntryOf(s, r);
      if i < |s.clauses| {
        EntryCovers(s, i, r);
      } else {
        TestsCover(s, r.first);
      }
    }
  }

  lemma SwitchExact(s: Stmt, t: Tally)
    requires s.Switch?
    ensures t in TalliesOf(s) <==>
            || t in At(Faulted, Below(AllTests(s))) || t in TalliesOfEntries(s.head, s.clauses, 0)
            || (!HasDefault(s.clauses) && t in At(Normal, AllTests(s)))
  {
  }

  function AllTests(s: Stmt): set<nat>
    requires s.Switch?
  {
    CostsAll([s.head] + Tests(s.clauses))
  }

  lemma TestsCover(s: Stmt, r: Run)
    requires s.Switch? && Evaluates(PathCountsAll([s.head] + Tests(s.clauses)), r)
    ensures if r.end == Normal then Of(r) in At(Normal, AllTests(s)) else Of(r) in At(Faulted, Below(AllTests(s)))
  {
    var all := [s.head] + Tests(s.clauses);
    CostsAllExact(all);
    EvaluatedCovers(CostsAll(all), PathCountsAll(all), r);
  }

  /** The clause that `r` enters the switch at, or none. */
  lemma EntryOf(s: Stmt, r: Run) returns (i: nat)
    requires s.Switch? && Runs(s, r) && !(Evaluates(PathCountsAll([s.head] + Tests(s.clauses)), r) && r.end != Normal)
    ensures r.Join? && r.first.end == Normal && r.calls == r.first.calls + r.second.calls && r.end == AfterBreak(r.second.end)
    ensures i <= |s.clauses|
    ensures if i < |s.clauses| then Enters(s, i, r)
            else !HasDefault(s.clauses) && Evaluates(PathCountsAll([s.head] + Tests(s.clauses)), r.first) && r.second == Skip
  {
    var all := [s.head] + Tests(s.clauses);
    if !HasDefault(s.clauses) && Evaluates(PathCountsAll(all), r.first) && r.second == Skip {
      i := |s.clauses|;
    } else {
      var j :| 0 <= j < |s.clauses| && Evaluates(PathCountsAll([s.head] + TestsBefore(s.clauses, j)), r.first) && RunsFrom(s.clauses[j..], r.second);
      i := j;
    }
  }

  ghost predicate Enters(s: Stmt, i: nat, r: Run)
    requires s.Switch? && i < |s.clauses|
  {
    r.Join? && Evaluates(PathCountsAll([s.head] + TestsBefore(s.clauses, i)), r.first) && RunsFrom(s.clauses[i..], r.second)
  }

  lemma {:induction false} EntryCovers(s: Stmt, i: nat, r: Run)
    requires s.Switch? && i < |s.clauses| && Enters(s, i, r) && r.first.end == Normal
    requires r.calls == r.first.calls + r.second.calls && r.end == AfterBreak(r.second.end)
    ensures Of(r) in TalliesOfEntries(s.head, s.clauses, 0)
    decreases s, r, -1
  {
    var before := [s.head] + TestsBefore(s.clauses, i);
    CostsAllExact(before);
    EvaluatedCovers(CostsAll(before), PathCountsAll(before), r.first);
    FromTallied(s.clauses, i, r.second);
    LeaveCovers(CostsAll(before), TalliesOfFrom(s.clauses, i), r);
    EntryTallied(s.head, s.clauses, 0, i, Of(r));
  }

  lemma LeaveCovers(costs: set<nat>, inside: set<Tally>, r: Run)
    requires r.Join? && Cap(r.first.calls) in costs && Of(r.second) in inside
    requires r.calls == r.first.calls + r.second.calls && r.end == AfterBreak(r.second.end)
    ensures Of(r) in Shift(costs, Leave(inside))
  {
    CapSum(r.first.calls, r.second.calls);
    InAll(Tally(r.end, Cap(r.second.calls)));
    assert Leaves(inside, Tally(r.end, Cap(r.second.calls)));
    Shifted(costs, Leave(inside), Cap(r.first.calls), Tally(r.end, Cap(r.second.calls)));
  }

  lemma {:induction false} TryTallied(s: Stmt, r: Run)
    requires s.Try? && Runs(s, r)
    ensures Of(r) in TalliesOf(s)
    decreases s, r, 0
  {
    assert TalliesOf(s) == if s.finalizer.SomeBlock? then Finally(GuardedOf(s), TalliesOfList(s.finalizer.body)) else GuardedOf(s);
    if s.finalizer.NoBlock? {
      GuardedTallied(s, r);
    } else {
      GuardedTallied(s, r.first);
      ListTallied(s.finalizer.body, r.second);
      FinallyCovers(GuardedOf(s), TalliesOfList(s.finalizer.body), r);
    }
  }

  lemma FinallyCovers(guarded: set<Tally>, finalizer: set<Tally>, r: Run)
    requires r.Join? && Of(r.first) in guarded && Of(r.second) in finalizer && r.calls == r.first.calls + r.second.calls
    requires r.end == (if r.second.end == Normal then r.first.end else r.second.end)
    ensures Of(r) in Finally(guarded, finalizer)
  {
    CapSum(r.first.calls, r.second.calls);
    InAll(Of(r));
    assert Of(r) == Finish(Of(r.first), Of(r.second));
    assert Finishes(guarded, finalizer, Of(r));
  }

  lemma {:induction false} GuardedTallied(s: Stmt, r: Run)
    requires s.Try? && RunsGuarded(s, r)
    ensures Of(r) in GuardedOf(s)
    decreases s, r, -1
  {
    if RunsList(s.block, r) && !(IsThrow(r.end) && s.handler.Catch?) {
      ListTallied(s.block, r);
    } else {
      ListTallied(s.block, r.first);
      CatchTallied(s.handler, r.second);
      CaughtCovers(TalliesOfList(s.block), TalliesOfCatch(s.handler), r);
    }
  }

  lemma {:induction false} CatchTallied(h: Handler, r: Run)
    requires h.Catch? && RunsCatch(h, r)
    ensures Of(r) in TalliesOfCatch(h)
    decreases h, r, 1
  {
    if EvaluatesAll(h.binding, r) && r.end != Normal {
      AllTallied(h.binding, r);
    } else {
      AllTallied(h.binding, r.first);
      ListTallied(h.body, r.second);
      ThenCovers(AllOf(h.binding), TalliesOfList(h.body), r.first, r.second, r.end, r.calls);
    }
  }

  lemma CaughtCovers(block: set<Tally>, handler: set<Tally>, r: Run)
    requires r.Join? && Of(r.first) in block && IsThrow(r.first.end) && Of(r.second) in handler
    requires r.end == r.second.end && r.calls == r.first.calls + r.second.calls
    ensures Of(r) in Guarded(block, true, handler)
  {
    CapSum(r.first.calls, r.second.calls);
    assert Cap(r.first.calls) in Ending(r.first.end, block);
    Shifted(Ending(Threw, block) + Ending(Faulted, block), handler, Cap(r.first.calls), Of(r.second));
  }

  function GuardedOf(s: Stmt): set<Tally>
    requires s.Try?
  {
    Guarded(TalliesOfList(s.block), s.handler.Catch?, if s.handler.Catch? then TalliesOfCatch(s.handler) else {})
  }

  // Loops

  lemma RoundMore(round: set<nat>, k: nat, c: nat)
    requires k in round && c in Rounds(round) && forall i :: i in round ==> i <= 2
    ensures Cap(k + c) in Rounds(round)
  {
    if c in Plus(round, round) {
      var i, j := PlusSplit(round, round, c);
      Summed(round, round, k, i);
      Summed(round, round, k, j);
      if i == 0 || k == 0 {
        assert Cap(k + c) == Cap(k + j) || Cap(k + c) == Cap(i + j);
      } else {
        assert Cap(k + c) == 2 == Cap(k + i);
      }
    } else if c == 0 {
      assert Cap(k + c) == k;
    } else {
      Summed(round, round, k, c);
    }
  }

  lemma ShiftMore(round: set<nat>, last: set<Tally>, k: nat, t: Tally)
    requires k in round && t in Shift(Rounds(round), last) && forall i :: i in round ==> i <= 2
    ensures Add(k, t) in Shift(Rounds(round), last)
  {
    var c, l := ShiftSplit(Rounds(round), last, t);
    RoundMore(round, k, c);
    CapSum(c, l.calls);
    Shifted(Rounds(round), last, Cap(k + c), l);
    CapSum(k, c + l.calls);
    CapSum(k + c, l.calls);
  }

  lemma NoRounds(round: set<nat>, last: set<Tally>, t: Tally)
    requires t in last && t.calls <= 2
    ensures t in Shift(Rounds(round), last)
  {
    Shifted(Rounds(round), last, 0, t);
    assert Add(0, t) == t;
  }

  lemma {:induction false} LoopTallied(s: Stmt, r: Run)
    requires s.Loop? && Runs(s, r)
    ensures Of(r) in TalliesOf(s)
    decreases s, r, 0
  {
    if EvaluatesAll(s.header.init, r) && r.end != Normal {
      AllTallied(s.header.init, r);
    } else {
      AllTallied(s.header.init, r.first);
      RoundsTallied(s.header, s.body, r.second);
      ThenCovers(AllOf(s.header.init), LoopingOf(s.header, TalliesOf(s.body)), r.first, r.second, r.end, r.calls);
    }
  }

  lemma {:induction false} RoundsTallied(h: Header, body: Stmt, r: Run)
    requires RunsLoop(h, body, r)
    ensures Of(r) in LoopingOf(h, TalliesOf(body))
    decreases body, r, 2
  {
    if h.test != [] && EvaluatesAll(h.test, r) {
      AllTallied(h.test, r);
      LeaveTallied(h, TalliesOf(body), Of(r));
    } else if EvaluatesAll(h.test + h.binding, r) && r.end != Normal {
      AllTallied(h.test + h.binding, r);
      LeaveTallied(h, TalliesOf(body), Of(r));
    } else {
      RoundTallied(h, body, r);
    }
  }

  lemma {:induction false} RoundTallied(h: Header, body: Stmt, r: Run)
    requires r.Join? && Chained(r.first) && EvaluatesAll(h.test + h.binding, r.first.first) && Runs(body, r.first.second)
    requires if r.first.end == Normal || r.first.end == Continued
             then r.end == r.second.end && r.calls == r.first.calls + r.second.calls && GoesRound(h, body, r.second)
             else r.end == AfterBreak(r.first.end) && r.calls == r.first.calls
    ensures Of(r) in LoopingOf(h, TalliesOf(body))
    decreases body, r, 1
  {
    AllTallied(h.test + h.binding, r.first.first);
    RunTallied(body, r.first.second);
    if r.first.end == Normal || r.first.end == Continued {
      GoingCovers(AllOf(h.test + h.binding), TalliesOf(body), r.first.first, r.first.second);
      StepTallied(h, body, r.first.calls, r.second);
    } else {
      StopsCover(h, TalliesOf(body), r.first.first, r.first.second);
    }
  }

  /** The step after a round faults, or the loop goes on after it. */
  ghost predicate GoesRound(h: Header, body: Stmt, r: Run) {
    (EvaluatesAll(h.step, r) && r.end != Normal) ||
    (Chained(r) && EvaluatesAll(h.step, r.first) && RunsLoop(h, body, r.second))
  }

  lemma {:induction false} StepTallied(h: Header, body: Stmt, k: nat, r: Run)
    requires GoesRound(h, body, r) && Cap(k) in Going(AllOf(h.test + h.binding), TalliesOf(body))
    ensures Tally(r.end, Cap(k + r.calls)) in LoopingOf(h, TalliesOf(body))
    decreases body, r, 3
  {
    if EvaluatesAll(h.step, r) && r.end != Normal {
      AllTallied(h.step, r);
      StepFaults(h, TalliesOf(body), k, r);
    } else {
      AllTallied(h.step, r.first);
      RoundsTallied(h, body, r.second);
      TurnCovers(h, TalliesOf(body), k, r.first, r.second);
    }
  }

  lemma LeaveTallied(h: Header, body: set<Tally>, t: Tally)
    requires t in Test(h) || (t in AllOf(h.test + h.binding) && t.end != Normal)
    requires t.calls <= 2
    ensures t in LoopingOf(h, body)
  {
    LastCovers(Test(h), AllOf(h.test + h.binding), AllOf(h.step), body, t);
  }

  lemma LastCovers(test: set<Tally>, enter: set<Tally>, step: set<Tally>, body: set<Tally>, t: Tally)
    requires t in Last(test, enter, step, body) && t.calls <= 2
    ensures t in Looping(test, enter, step, body)
  {
    NoRounds(Turn(enter, step, body), Last(test, enter, step, body), t);
  }

  lemma GoingCovers(enter: set<Tally>, body: set<Tally>, p: Run, q: Run)
    requires Of(p) in enter && p.end == Normal && Of(q) in body && (q.end == Normal || q.end == Continued)
    ensures Cap(p.calls + q.calls) in Going(enter, body)
  {
    CapSum(p.calls, q.calls);
    assert Cap(p.calls) in Ending(Normal, enter) && Cap(q.calls) in GoesOn(body);
    Summed(Ending(Normal, enter), GoesOn(body), Cap(p.calls), Cap(q.calls));
  }

  lemma StopsCover(h: Header, body: set<Tally>, p: Run, q: Run)
    requires Of(p) in AllOf(h.test + h.binding) && p.end == Normal && Of(q) in body && q.end != Normal && q.end != Continued
    ensures Tally(AfterBreak(q.end), Cap(p.calls + q.calls)) in LoopingOf(h, body)
  {
    StopCovers(body, q);
    EndingCovers(AllOf(h.test + h.binding), p);
    ShiftedBy(Ending(Normal, AllOf(h.test + h.binding)), Stops(body), p.calls, AfterBreak(q.end), q.calls);
    LastCovers(Test(h), AllOf(h.test + h.binding), AllOf(h.step), body, Tally(AfterBreak(q.end), Cap(p.calls + q.calls)));
  }

  lemma EndingCovers(ts: set<Tally>, p: Run)
    requires Of(p) in ts
    ensures Cap(p.calls) in Ending(p.end, ts)
  {
    assert Cap(p.calls) in Caps;
  }

  lemma ShiftedBy(costs: set<nat>, rest: set<Tally>, k: nat, end: Completion, calls: nat)
    requires Cap(k) in costs && Tally(end, Cap(calls)) in rest
    ensures Tally(end, Cap(k + calls)) in Shift(costs, rest)
  {
    CapSum(k, calls);
    Shifted(costs, rest, Cap(k), Tally(end, Cap(calls)));
  }

  lemma StepFaults(h: Header, body: set<Tally>, k: nat, w: Run)
    requires Cap(k) in Going(AllOf(h.test + h.binding), body) && Of(w) in AllOf(h.step) && w.end != Normal
    ensures Tally(w.end, Cap(k + w.calls)) in LoopingOf(h, body)
  {
    ShiftedBy(Going(AllOf(h.test + h.binding), body), Faults(AllOf(h.step)), k, w.end, w.calls);
    LastCovers(Test(h), AllOf(h.test + h.binding), AllOf(h.step), body, Tally(w.end, Cap(k + w.calls)));
  }

  lemma TurnCovers(h: Header, body: set<Tally>, k: nat, w: Run, rest: Run)
    requires Cap(k) in Going(AllOf(h.test + h.binding), body) && Of(w) in AllOf(h.step) && w.end == Normal
    requires Of(rest) in LoopingOf(h, body)
    ensures Tally(rest.end, Cap(k + (w.calls + rest.calls))) in LoopingOf(h, body)
  {
    EndingCovers(AllOf(h.step), w);
    CapSum(k, w.calls);
    Summed(Going(AllOf(h.test + h.binding), body), Ending(Normal, AllOf(h.step)), Cap(k), Cap(w.calls));
    LoopingMore(Test(h), AllOf(h.test + h.binding), AllOf(h.step), body, Cap(k + w.calls), Of(rest));
    CapSum(k + w.calls, rest.calls);
  }

  lemma LoopingMore(test: set<Tally>, enter: set<Tally>, step: set<Tally>, body: set<Tally>, k: nat, t: Tally)
    requires k in Turn(enter, step, body) && t in Looping(test, enter, step, body)
    ensures Add(k, t) in Looping(test, enter, step, body)
  {
    ShiftMore(Turn(enter, step, body), Last(test, enter, step, body), k, t);
  }

  lemma StopCovers(body: set<Tally>, q: Run)
    requires Of(q) in body && q.end != Normal && q.end != Continued
    ensures Tally(AfterBreak(q.end), Cap(q.calls)) in Stops(body)
  {
    InAll(Tally(AfterBreak(q.end), Cap(q.calls)));
    assert StopsAs(body, Tally(AfterBreak(q.end), Cap(q.calls)));
  }

  lemma {:induction false} DoTallied(body: Stmt, test: Expr, r: Run)
    requires RunsDo(body, test, r)
    ensures Of(r) in Doing(TalliesOf(body), Costs(test))
    decreases body, r, 2
  {
    CostsExact(test);
    RunTallied(body, r.first);
    if r.first.end == Normal || r.first.end == Continued {
      if Evaluates(PathCounts(test), r.second) {
        EvaluatedCovers(Costs(test), PathCounts(test), r.second);
        DoLast(TalliesOf(body), Costs(test), r);
      } else {
        EvaluatedCovers(Costs(test), PathCounts(test), r.second.first);
        DoTallied(body, test, r.second.second);
        DoMore(TalliesOf(body), Costs(test), r);
      }
    } else {
      DoStops(TalliesOf(body), Costs(test), r);
    }
  }

  lemma DoStops(inside: set<Tally>, costs: set<nat>, r: Run)
    requires r.Join? && Of(r.first) in inside && r.first.end != Normal && r.first.end != Continued
    requires r.end == AfterBreak(r.first.end) && r.calls == r.first.calls
    ensures Of(r) in Doing(inside, costs)
  {
    StopCovers(inside, r.first);
    NoRounds(Plus(GoesOn(inside), costs), Stops(inside) + Shift(GoesOn(inside), Evaluated(costs)), Of(r));
  }

  lemma DoLast(inside: set<Tally>, costs: set<nat>, r: Run)
    requires r.Join? && Of(r.first) in inside && (r.first.end == Normal || r.first.end == Continued)
    requires Of(r.second) in Evaluated(costs) && r.end == r.second.end && r.calls == r.first.calls + r.second.calls
    ensures Of(r) in Doing(inside, costs)
  {
    CapSum(r.first.calls, r.second.calls);
    assert Cap(r.first.calls) in GoesOn(inside);
    Shifted(GoesOn(inside), Evaluated(costs), Cap(r.first.calls), Of(r.second));
    NoRounds(Plus(GoesOn(inside), costs), Stops(inside) + Shift(GoesOn(inside), Evaluated(costs)), Of(r));
  }

  lemma DoMore(inside: set<Tally>, costs: set<nat>, r: Run)
    requires r.Join? && r.second.Join? && r.end == r.second.end == r.second.second.end
    requires r.calls == r.first.calls + r.second.calls && r.second.calls == r.second.first.calls + r.second.second.calls
    requires Of(r.first) in inside && (r.first.end == Normal || r.first.end == Continued) && Cap(r.second.first.calls) in costs
    requires Of(r.second.second) in Doing(inside, costs)
    ensures Of(r) in Doing(inside, costs)
  {
    var k := r.first.calls + r.second.first.calls;
    DoRound(inside, costs, r.first, r.second.first.calls);
    DoingMore(inside, costs, Cap(k), Of(r.second.second));
    CapSum(k, r.second.second.calls);
  }

  lemma DoRound(inside: set<Tally>, costs: set<nat>, q: Run, k: nat)
    requires Of(q) in inside && (q.end == Normal || q.end == Continued) && Cap(k) in costs
    ensures Cap(q.calls + k) in Plus(GoesOn(inside), costs)
  {
    CapSum(q.calls, k);
    assert Cap(q.calls) in GoesOn(inside);
    Summed(GoesOn(inside), costs, Cap(q.calls), Cap(k));
  }

  lemma DoingMore(inside: set<Tally>, costs: set<nat>, k: nat, t: Tally)
    requires k in Plus(GoesOn(inside), costs) && t in Doing(inside, costs)
    ensures Add(k, t) in Doing(inside, costs)
  {
    ShiftMore(Plus(GoesOn(inside), costs), Stops(inside) + Shift(GoesOn(inside), Evaluated(costs)), k, t);
  }

  // ----- Every tally has a run -----

  lemma CostFound(costs: set<nat>, counts: iset<nat>, c: nat) returns (k: nat)
    requires Capped(costs, counts) && c in costs
    ensures k in counts && Cap(k) == c
  {
    assert IsCap(c, counts);
    k :| k in counts && Cap(k) == c;
  }

  lemma EvaluatedFound(costs: set<nat>, counts: iset<nat>, t: Tally) returns (r: Run)
    requires Capped(costs, counts) && t in Evaluated(costs)
    ensures Evaluates(counts, r) && Of(r) == t
  {
    if t in At(Normal, costs) {
      var k := CostFound(costs, counts, t.calls);
      r := Leaf(Normal, k);
    } else {
      r := FaultFound(costs, counts, t);
    }
  }

  lemma FaultFound(costs: set<nat>, counts: iset<nat>, t: Tally) returns (r: Run)
    requires Capped(costs, counts) && t in At(Faulted, Below(costs))
    ensures Evaluates(counts, r) && Of(r) == t && r.end == Faulted
  {
    var j := t.calls;
    assert IsBelow(costs, j);
    var c :| c in costs && j <= c;
    var k := CostFound(costs, counts, c);
    r := Leaf(Faulted, j);
    assert k in counts && j <= k;
  }

  lemma AllFound(es: seq<Expr>, t: Tally) returns (r: Run)
    requires t in AllOf(es)
    ensures EvaluatesAll(es, r) && Of(r) == t
  {
    if es == [] {
      r := Skip;
    } else {
      CostsAllExact(es);
      r := EvaluatedFound(CostsAll(es), PathCountsAll(es), t);
    }
  }

  lemma ExitFound(e: Expr, end: Completion, t: Tally) returns (r: Run)
    requires t in At(Faulted, Below(Costs(e))) + At(end, Costs(e)) && end != Normal && end != Faulted
    ensures (Evaluates(PathCounts(e), r) && r.end != Normal) || (r.Leaf? && r.end == end && r.calls in PathCounts(e))
    ensures Of(r) == t
  {
    CostsExact(e);
    if t in At(Faulted, Below(Costs(e))) {
      r := FaultFound(Costs(e), PathCounts(e), t);
    } else {
      var k := CostFound(Costs(e), PathCounts(e), t.calls);
      r := Leaf(end, k);
    }
  }

  lemma ShiftSplit(costs: set<nat>, rest: set<Tally>, t: Tally) returns (k: nat, u: Tally)
    requires t in Shift(costs, rest)
    ensures k in costs && u in rest && t == Add(k, u)
  {
    assert Shifts(costs, rest, t);
    k, u :| k in costs && u in rest && t == Add(k, u);
  }

  /** What happens first, and what then. */
  lemma ThenSplit(first: set<Tally>, rest: set<Tally>, t: Tally) returns (p: Tally, q: Tally)
    requires t in Then(first, rest)
    ensures p in first
    ensures if p.end == Normal then q in rest && t == Add(p.calls, q) else t == p
  {
    if t in first && t.end != Normal {
      p, q := t, t;
    } else {
      var k, u := ShiftSplit(Ending(Normal, first), rest, t);
      p, q := Tally(Normal, k), u;
    }
  }

  /** One run after another. */
  function Both(p: Run, q: Run): Run { Join(q.end, p.calls + q.calls, p, q) }

  lemma BothTally(p: Run, q: Run)
    ensures Of(Both(p, q)) == Add(Of(p).calls, Of(q))
  {
    CapSum(p.calls, q.calls);
  }

  lemma {:induction false} RunFound(s: Stmt, t: Tally) returns (r: Run)
    requires t in TalliesOf(s)
    ensures Runs(s, r) && Of(r) == t
    decreases s, 1
  {
    match s
    case Simple(e) =>
      CostsExact(e);
      r := EvaluatedFound(Costs(e), PathCounts(e), t);
    case Var(decls) =>
      CostsAllExact(decls);
      r := EvaluatedFound(CostsAll(decls), PathCountsAll(decls), t);
    case Block(stmts) => r := ListFound(stmts, t);
    case If(_, _, _) => r := IfFound(s, t);
    case Switch(_, _) => r := SwitchFound(s, t);
    case Try(_, _, _) => r := TryFound(s, t);
    case Return(arg) =>
      if arg.Some? {
        r := ExitFound(arg.value, Returned, t);
      } else {
        r := Leaf(ReturnedVoid, 0);
      }
    case Throw(e) => r := ExitFound(e, Threw, t);
    case Break => r := Leaf(Broke, 0);
    case Continue => r := Leaf(Continued, 0);
    case Loop(_, _) => r := LoopFound(s, t);
    case DoWhile(_, _) => r := DoFound(s, t);
    case Labeled(body) => r := RunFound(body, t);
  }

  lemma IfSplit(s: Stmt, t: Tally) returns (p: Tally, q: Tally)
    requires s.If? && t in TalliesOf(s)
    ensures p in Evaluated(Costs(s.cond)) && if p.end == Normal then t == Add(p.calls, q) else t == p
    ensures p.end == Normal ==>
              || q in TalliesOf(s.thn)
              || if s.els.Some? then q in TalliesOf(s.els.value) else q == Tally(Normal, 0)
  {
    p, q := ThenSplit(Evaluated(Costs(s.cond)), TalliesOf(s.thn) + if s.els.Some? then TalliesOf(s.els.value) else {Tally(Normal, 0)}, t);
  }

  lemma {:induction false} IfFound(s: Stmt, t: Tally) returns (r: Run)
    requires s.If? && t in TalliesOf(s)
    ensures Runs(s, r) && Of(r) == t
    decreases s, 0
  {
    CostsExact(s.cond);
    var p, q := IfSplit(s, t);
    var first := EvaluatedFound(Costs(s.cond), PathCounts(s.cond), p);
    if p.end != Normal {
      r := first;
    } else {
      var second := Skip;
      if q in TalliesOf(s.thn) {
        second := RunFound(s.thn, q);
      } else if s.els.Some? {
        second := RunFound(s.els.value, q);
      }
      BothTally(first, second);
      r := Both(first, second);
    }
  }

  lemma {:induction false} ListFound(stmts: seq<Stmt>, t: Tally) returns (r: Run)
    requires t in TalliesOfList(stmts)
    ensures RunsList(stmts, r) && Of(r) == t
    decreases stmts, 0
  {
    if stmts == [] {
      r := Skip;
    } else {
      var p, q := ThenSplit(TalliesOf(stmts[0]), TalliesOfList(stmts[1..]), t);
      var first := RunFound(stmts[0], p);
      if p.end != Normal {
        r := first;
      } else {
        var second := ListFound(stmts[1..], q);
        BothTally(first, second);
        r := Both(first, second);
      }
    }
  }

  lemma {:induction false} FromFound(clauses: seq<Clause>, i: nat, t: Tally) returns (r: Run)
    requires i <= |clauses| && t in TalliesOfFrom(clauses, i)
    ensures RunsFrom(clauses[i..], r) && Of(r) == t
    decreases clauses, |clauses| - i
  {
    if i == |clauses| {
      r := Skip;
    } else {
      assert clauses[i..][0] == clauses[i] && clauses[i..][1..] == clauses[i + 1..];
      var p, q := ThenSplit(TalliesOfList(clauses[i].body), TalliesOfFrom(clauses, i + 1), t);
      var first := ListFound(clauses[i].body, p);
      if p.end != Normal {
        r := first;
      } else {
        var second := FromFound(clauses, i + 1, q);
        BothTally(first, second);
        r := Both(first, second);
      }
    }
  }

  lemma {:induction false} EntryFound(head: Expr, clauses: seq<Clause>, i: nat, t: Tally) returns (j: nat)
    requires i <= |clauses| && t in TalliesOfEntries(head, clauses, i)
    ensures j < |clauses| && t in TalliesOfEntry(head, clauses, j)
    decreases |clauses| - i
  {
    assert i < |clauses|;
    EntriesFrom(head, clauses, i, t);
    if t in TalliesOfEntry(head, clauses, i) {
      j := i;
    } else {
      j := EntryFound(head, clauses, i + 1, t);
    }
  }

  lemma {:induction false} SwitchFound(s: Stmt, t: Tally) returns (r: Run)
    requires s.Switch? && t in TalliesOf(s)
    ensures Runs(s, r) && Of(r) == t
    decreases s, 0
  {
    SwitchExact(s, t);
    var all := [s.head] + Tests(s.clauses);
    CostsAllExact(all);
    if t in At(Faulted, Below(AllTests(s))) {
      r := FaultFound(CostsAll(all), PathCountsAll(all), t);
    } else if t in TalliesOfEntries(s.head, s.clauses, 0) {
      var i := EntryFound(s.head, s.clauses, 0, t);
      r := EnteredFound(s, i, t);
    } else {
      var k := CostFound(CostsAll(all), PathCountsAll(all), t.calls);
      r := Join(Normal, k, Leaf(Normal, k), Skip);
    }
  }

  lemma {:induction false} EnteredFound(s: Stmt, i: nat, t: Tally) returns (r: Run)
    requires s.Switch? && i < |s.clauses| && t in TalliesOfEntry(s.head, s.clauses, i)
    ensures Runs(s, r) && Of(r) == t
    decreases s, 0, 0
  {
    var before := [s.head] + TestsBefore(s.clauses, i);
    CostsAllExact(before);
    var c, u := ShiftSplit(CostsAll(before), Leave(TalliesOfFrom(s.clauses, i)), t);
    assert Leaves(TalliesOfFrom(s.clauses, i), u);
    var w :| w in TalliesOfFrom(s.clauses, i) && u == Tally(AfterBreak(w.end), w.calls);
    var k := CostFound(CostsAll(before), PathCountsAll(before), c);
    var q := FromFound(s.clauses, i, w);
    CapSum(k, q.calls);
    r := Join(AfterBreak(q.end), k + q.calls, Leaf(Normal, k), q);
    assert Evaluates(PathCountsAll([s.head] + TestsBefore(s.clauses, i)), r.first) && RunsFrom(s.clauses[i..], r.second);
  }

  lemma {:induction false} TryFound(s: Stmt, t: Tally) returns (r: Run)
    requires s.Try? && t in TalliesOf(s)
    ensures Runs(s, r) && Of(r) == t
    decreases s, 0, 1
  {
    assert TalliesOf(s) == if s.finalizer.SomeBlock? then Finally(GuardedOf(s), TalliesOfList(s.finalizer.body)) else GuardedOf(s);
    if s.finalizer.NoBlock? {
      r := GuardedFound(s, t);
    } else {
      var p, q := FinallySplit(GuardedOf(s), TalliesOfList(s.finalizer.body), t);
      var first := GuardedFound(s, p);
      var second := ListFound(s.finalizer.body, q);
      CapSum(first.calls, second.calls);
      r := Join(t.end, first.calls + second.calls, first, second);
    }
  }

  lemma FinallySplit(guarded: set<Tally>, finalizer: set<Tally>, t: Tally) returns (p: Tally, q: Tally)
    requires t in Finally(guarded, finalizer)
    ensures p in guarded && q in finalizer && t == Finish(p, q)
  {
    assert Finishes(guarded, finalizer, t);
    p, q :| p in guarded && q in finalizer && t == Finish(p, q);
  }

  lemma {:induction false} GuardedFound(s: Stmt, t: Tally) returns (r: Run)
    requires s.Try? && t in GuardedOf(s)
    ensures RunsGuarded(s, r) && Of(r) == t
    decreases s, 0, 0
  {
    if t in TalliesOfList(s.block) && !(IsThrow(t.end) && s.handler.Catch?) {
      r := ListFound(s.block, t);
    } else {
      var p, q := CaughtSplit(TalliesOfList(s.block), TalliesOfCatch(s.handler), t);
      var first := ListFound(s.block, p);
      var second := CatchFound(s.handler, q);
      BothTally(first, second);
      r := Both(first, second);
    }
  }

  lemma {:induction false} CatchFound(h: Handler, t: Tally) returns (r: Run)
    requires h.Catch? && t in TalliesOfCatch(h)
    ensures RunsCatch(h, r) && Of(r) == t
    decreases h, 1
  {
    var p, q := ThenSplit(AllOf(h.binding), TalliesOfList(h.body), t);
    var first := AllFound(h.binding, p);
    if p.end != Normal {
      r := first;
    } else {
      var second := ListFound(h.body, q);
      BothTally(first, second);
      r := Both(first, second);
    }
  }

  lemma CaughtSplit(block: set<Tally>, handler: set<Tally>, t: Tally) returns (p: Tally, q: Tally)
    requires t in Shift(Ending(Threw, block) + Ending(Faulted, block), handler)
    ensures p in block && IsThrow(p.end) && q in handler && t == Add(p.calls, q)
  {
    var k, u := ShiftSplit(Ending(Threw, block) + Ending(Faulted, block), handler, t);
    p, q := if k in Ending(Threw, block) then Tally(Threw, k) else Tally(Faulted, k), u;
  }

  // Loops

  /** A tally after none, one or two rounds. */
  lemma RoundsSplit(round: set<nat>, last: set<Tally>, t: Tally) returns (n: nat, i: nat, j: nat, l: Tally)
    requires t in Shift(Rounds(round), last)
    ensures l in last && n <= 2 && (n >= 1 ==> i in round) && (n == 2 ==> j in round)
    ensures t == if n == 0 then Add(0, l) else if n == 1 then Add(i, l) else Add(Cap(i + j), l)
  {
    var c, u := ShiftSplit(Rounds(round), last, t);
    l := u;
    if c == 0 {
      n, i, j := 0, 0, 0;
    } else if c in round {
      n, i, j := 1, c, c;
    } else {
      n := 2;
      i, j := PlusSplit(round, round, c);
    }
  }

  lemma PlusSplit(s: set<nat>, t: set<nat>, c: nat) returns (i: nat, j: nat)
    requires c in Plus(s, t)
    ensures i in s && j in t && c == Cap(i + j)
  {
    assert Sums(s, t, c);
    i, j :| i in s && j in t && c == Cap(i + j);
  }

  lemma StopsSplit(body: set<Tally>, t: Tally) returns (q: Tally)
    requires t in Stops(body)
    ensures q in body && q.end != Normal && q.end != Continued && t == Tally(AfterBreak(q.end), q.calls)
  {
    assert StopsAs(body, t);
    q :| q in body && q.end != Normal && q.end != Continued && t == Tally(AfterBreak(q.end), q.calls);
  }

  lemma GoesOnSplit(body: set<Tally>, k: nat) returns (q: Tally)
    requires k in GoesOn(body)
    ensures q in body && (q.end == Normal || q.end == Continued) && q.calls == k
  {
    q := if k in Ending(Normal, body) then Tally(Normal, k) else Tally(Continued, k);
  }

  lemma AddTwice(i: nat, j: nat, l: Tally)
    ensures Add(Cap(i + j), l) == Add(i, Add(j, l))
  {
  }

  lemma LoopSplit(s: Stmt, t: Tally) returns (p: Tally, q: Tally)
    requires s.Loop? && t in TalliesOf(s)
    ensures p in AllOf(s.header.init)
    ensures if p.end == Normal then q in LoopingOf(s.header, TalliesOf(s.body)) && t == Add(p.calls, q) else t == p
  {
    p, q := ThenSplit(AllOf(s.header.init), LoopingOf(s.header, TalliesOf(s.body)), t);
  }

  lemma LoopRuns(s: Stmt, first: Run, second: Run)
    requires s.Loop? && EvaluatesAll(s.header.init, first) && first.end == Normal && RunsLoop(s.header, s.body, second)
    ensures Runs(s, Both(first, second))
  {
  }

  lemma {:induction false} LoopFound(s: Stmt, t: Tally) returns (r: Run)
    requires s.Loop? && t in TalliesOf(s)
    ensures Runs(s, r) && Of(r) == t
    decreases s, 0
  {
    var p, q := LoopSplit(s, t);
    var first := AllFound(s.header.init, p);
    if p.end != Normal {
      r := first;
    } else {
      var second := LoopingFound(s.header, s.body, q);
      BothTally(first, second);
      LoopRuns(s, first, second);
      r := Both(first, second);
    }
  }

  lemma {:induction false} LoopingFound(h: Header, body: Stmt, t: Tally) returns (r: Run)
    requires t in LoopingOf(h, TalliesOf(body))
    ensures RunsLoop(h, body, r) && Of(r) == t
    decreases body, 4
  {
    var enter, step, inside := AllOf(h.test + h.binding), AllOf(h.step), TalliesOf(body);
    var n, i, j, l := RoundsSplit(Turn(enter, step, inside), Last(Test(h), enter, step, inside), t);
    r := LastFound(h, body, l);
    if n == 2 {
      r := MoreFound(h, body, j, r);
      AddTwice(i, j, l);
    }
    if n >= 1 {
      r := MoreFound(h, body, i, r);
    }
  }

  lemma StopRuns(h: Header, body: Stmt, p: Run, q: Run)
    requires EvaluatesAll(h.test + h.binding, p) && p.end == Normal && Runs(body, q) && q.end != Normal && q.end != Continued
    ensures RunsLoop(h, body, Join(AfterBreak(q.end), p.calls + q.calls, Both(p, q), Skip))
  {
    assert Chained(Both(p, q));
  }

  lemma FaultRuns(h: Header, body: Stmt, p: Run, q: Run, w: Run)
    requires EvaluatesAll(h.test + h.binding, p) && p.end == Normal && Runs(body, q) && (q.end == Normal || q.end == Continued)
    requires EvaluatesAll(h.step, w) && w.end != Normal
    ensures RunsLoop(h, body, Both(Both(p, q), w))
  {
    assert Chained(Both(p, q));
  }

  lemma TurnRuns(h: Header, body: Stmt, p: Run, q: Run, w: Run, rest: Run)
    requires EvaluatesAll(h.test + h.binding, p) && p.end == Normal && Runs(body, q) && (q.end == Normal || q.end == Continued)
    requires EvaluatesAll(h.step, w) && w.end == Normal && RunsLoop(h, body, rest)
    ensures RunsLoop(h, body, Both(Both(p, q), Both(w, rest)))
  {
    assert Chained(Both(p, q)) && Chained(Both(w, rest));
  }

  lemma {:induction false} LastFound(h: Header, body: Stmt, t: Tally) returns (r: Run)
    requires t in Last(Test(h), AllOf(h.test + h.binding), AllOf(h.step), TalliesOf(body))
    ensures RunsLoop(h, body, r) && Of(r) == t
    decreases body, 3
  {
    var enter, step, inside := AllOf(h.test + h.binding), AllOf(h.step), TalliesOf(body);
    if t in Test(h) {
      r := AllFound(h.test, t);
    } else if t in Faults(enter) {
      r := AllFound(h.test + h.binding, t);
    } else if t in Shift(Ending(Normal, enter), Stops(inside)) {
      var p, q := StopFound(h, body, t);
      StopRuns(h, body, p, q);
      r := Join(AfterBreak(q.end), p.calls + q.calls, Both(p, q), Skip);
    } else {
      var c, u := ShiftSplit(Going(enter, inside), Faults(step), t);
      var p, q := GoingFound(h, body, c);
      var w := AllFound(h.step, u);
      FaultRuns(h, body, p, q, w);
      CapSum(p.calls + q.calls, w.calls);
      r := Both(Both(p, q), w);
    }
  }

  lemma {:induction false} StopFound(h: Header, body: Stmt, t: Tally) returns (p: Run, q: Run)
    requires t in Shift(Ending(Normal, AllOf(h.test + h.binding)), Stops(TalliesOf(body)))
    ensures EvaluatesAll(h.test + h.binding, p) && p.end == Normal && Runs(body, q) && q.end != Normal && q.end != Continued
    ensures t == Tally(AfterBreak(q.end), Cap(p.calls + q.calls))
    decreases body, 2
  {
    var c, u := ShiftSplit(Ending(Normal, AllOf(h.test + h.binding)), Stops(TalliesOf(body)), t);
    p := AllFound(h.test + h.binding, Tally(Normal, c));
    var w := StopsSplit(TalliesOf(body), u);
    q := RunFound(body, w);
    CapSum(p.calls, q.calls);
  }

  lemma {:induction false} GoingFound(h: Header, body: Stmt, c: nat) returns (p: Run, q: Run)
    requires c in Going(AllOf(h.test + h.binding), TalliesOf(body))
    ensures EvaluatesAll(h.test + h.binding, p) && p.end == Normal && Runs(body, q) && (q.end == Normal || q.end == Continued)
    ensures c == Cap(p.calls + q.calls)
    decreases body, 2
  {
    var a, b := PlusSplit(Ending(Normal, AllOf(h.test + h.binding)), GoesOn(TalliesOf(body)), c);
    p := AllFound(h.test + h.binding, Tally(Normal, a));
    var w := GoesOnSplit(TalliesOf(body), b);
    q := RunFound(body, w);
    CapSum(p.calls, q.calls);
  }

  /** One round more in front. */
  lemma {:induction false} MoreFound(h: Header, body: Stmt, c: nat, rest: Run) returns (r: Run)
    requires c in Turn(AllOf(h.test + h.binding), AllOf(h.step), TalliesOf(body)) && RunsLoop(h, body, rest)
    ensures RunsLoop(h, body, r) && Of(r) == Add(c, Of(rest))
    decreases body, 3
  {
    var a, b := PlusSplit(Going(AllOf(h.test + h.binding), TalliesOf(body)), Ending(Normal, AllOf(h.step)), c);
    var p, q := GoingFound(h, body, a);
    var w := AllFound(h.step, Tally(Normal, b));
    TurnRuns(h, body, p, q, w, rest);
    TurnTally(p, q, w, rest, c);
    r := Both(Both(p, q), Both(w, rest));
  }

  lemma TurnTally(p: Run, q: Run, w: Run, rest: Run, c: nat)
    requires c == Cap(Cap(p.calls + q.calls) + Cap(w.calls))
    ensures Of(Both(Both(p, q), Both(w, rest))) == Add(c, Of(rest))
  {
    CapSum(p.calls + q.calls, w.calls);
    CapSum(p.calls + q.calls + w.calls, rest.calls);
  }

  lemma {:induction false} DoFound(s: Stmt, t: Tally) returns (r: Run)
    requires s.DoWhile? && t in TalliesOf(s)
    ensures Runs(s, r) && Of(r) == t
    decreases s, 0
  {
    var inside, costs := TalliesOf(s.body), Costs(s.test);
    var n, i, j, l := RoundsSplit(Plus(GoesOn(inside), costs), Stops(inside) + Shift(GoesOn(inside), Evaluated(costs)), t);
    r := DoLastFound(s.body, s.test, l);
    if n == 2 {
      r := DoMoreFound(s.body, s.test, j, r);
      AddTwice(i, j, l);
    }
    if n >= 1 {
      r := DoMoreFound(s.body, s.test, i, r);
    }
  }

  lemma DoLastRuns(body: Stmt, test: Expr, q: Run, second: Run)
    requires Runs(body, q) && (q.end == Normal || q.end == Continued) && Evaluates(PathCounts(test), second)
    ensures RunsDo(body, test, Both(q, second))
  {
  }

  lemma DoMoreRuns(body: Stmt, test: Expr, q: Run, k: nat, rest: Run)
    requires Runs(body, q) && (q.end == Normal || q.end == Continued) && k in PathCounts(test) && RunsDo(body, test, rest)
    ensures RunsDo(body, test, Both(q, Both(Leaf(Normal, k), rest)))
  {
    var second := Both(Leaf(Normal, k), rest);
    assert Chained(second) && Evaluates(PathCounts(test), second.first);
  }

  lemma {:induction false} DoLastFound(body: Stmt, test: Expr, t: Tally) returns (r: Run)
    requires t in Stops(TalliesOf(body)) + Shift(GoesOn(TalliesOf(body)), Evaluated(Costs(test)))
    ensures RunsDo(body, test, r) && Of(r) == t
    decreases body, 3
  {
    if t in Stops(TalliesOf(body)) {
      var w := StopsSplit(TalliesOf(body), t);
      var q := RunFound(body, w);
      r := Join(AfterBreak(q.end), q.calls, q, Skip);
    } else {
      CostsExact(test);
      var c, u := ShiftSplit(GoesOn(TalliesOf(body)), Evaluated(Costs(test)), t);
      var w := GoesOnSplit(TalliesOf(body), c);
      var q := RunFound(body, w);
      var second := EvaluatedFound(Costs(test), PathCounts(test), u);
      BothTally(q, second);
      DoLastRuns(body, test, q, second);
      r := Both(q, second);
    }
  }

  lemma {:induction false} DoMoreFound(body: Stmt, test: Expr, c: nat, rest: Run) returns (r: Run)
    requires c in Plus(GoesOn(TalliesOf(body)), Costs(test)) && RunsDo(body, test, rest)
    ensures RunsDo(body, test, r) && Of(r) == Add(c, Of(rest))
    decreases body, 3
  {
    var q, k := DoRoundFound(body, test, c);
    DoMoreRuns(body, test, q, k, rest);
    var second := Both(Leaf(Normal, k), rest);
    BothTally(Leaf(Normal, k), rest);
    BothTally(q, second);
    AddTwice(Cap(q.calls), Cap(k), Of(rest));
    r := Both(q, second);
  }

  lemma {:induction false} DoRoundFound(body: Stmt, test: Expr, c: nat) returns (q: Run, k: nat)
    requires c in Plus(GoesOn(TalliesOf(body)), Costs(test))
    ensures Runs(body, q) && (q.end == Normal || q.end == Continued) && k in PathCounts(test)
    ensures c == Cap(Cap(q.calls) + Cap(k))
    decreases body, 2
  {
    CostsExact(test);
    var a, b := PlusSplit(GoesOn(TalliesOf(body)), Costs(test), c);
    var w := GoesOnSplit(TalliesOf(body), a);
    q := RunFound(body, w);
    k := CostFound(Costs(test), PathCounts(test), b);
  }

  /** Exact for every statement: loops, try, jumps at any depth, and parts that are skipped. */
  lemma {:induction false} TalliesExact(s: Stmt, t: Tally)
    ensures t in TalliesOf(s) <==> exists r :: Runs(s, r) && Of(r) == t
  {
    if t in TalliesOf(s) {
      var r := RunFound(s, t);
    }
    forall r | Runs(s, r) && Of(r) == t ensures t in TalliesOf(s) {
      RunTallied(s, r);
    }
  }
}

/** On plain code the amended analysis is exact: every state is Alpha of the true counts.  So it
    tells when the code is right. */
module SuperExact {
  import opened Options
  import opened Syntax
  import opened Completions
  import opened Paths
  import opened Jumps
  import opened Outcomes
  import opened SuperCount
  import opened SuperFlow
  import opened SuperSound

  /** Loops that can come to their end and make no super calls, or can go round again, do not return
      bare and are not jumped out of; no super call in a try but in its handler; quiet heads and
      labels; breaks only in clause lists and the blocks directly there, and in quiet loops. */
  predicate Plain(s: Stmt, inClause: bool)
    decreases s, 0
  {
    match s
    case Simple(_) => true
    case Var(_) => true
    case Return(_) => true
    case Throw(_) => true
    case Break => inClause
    case Block(stmts) => forall x :: x in stmts ==> Plain(x, inClause)
    case If(_, thn, els) => Plain(thn, false) && (els.Some? ==> Plain(els.value, false))
    case Switch(head, clauses) =>
      NoSuper(head) && forall c :: c in clauses ==> QuietTest(c) && forall x :: x in c.body ==> Plain(x, true)
    case Try(block, handler, finalizer) =>
      && (forall x :: x in block ==> SuperFree(x) && Plain(x, false))
      && (if handler.Catch?
          then Faultable(block) && NoneSuper(handler.binding) && forall x :: x in handler.body ==> Plain(x, false)
          else Normal in OutList(block))
      && (finalizer.SomeBlock? ==> (forall x :: x in finalizer.body ==> SuperFree(x) && Plain(x, false)) && Passes(OutList(finalizer.body)))
    case Loop(header, body) =>
      && QuietHeader(header) && Normal in Out(s)
      && ((SuperFree(body) && PlainInLoop(body)) ||
          (header.test != [] && Plain(body, false) && Passes(Out(body))))
    case DoWhile(body, test) => SuperFree(body) && NoSuper(test) && Normal in Out(s)
    case Labeled(body) => Plain(body, inClause)
    case Continue => false
  }

  /** The block starts with something that can fault. */
  predicate Faultable(stmts: seq<Stmt>) { stmts != [] && (stmts[0].Simple? || stmts[0].Var?) }

  /** Normal completion, and neither jumps nor bare returns. */
  predicate Passes(out: set<Completion>) { Normal in out && forall c :: c in out ==> !IsJump(c) }

  /** In the body of a quiet loop `break` and `continue` may stand anywhere but in a switch. */
  predicate PlainInLoop(s: Stmt)
    decreases s, 1
  {
    match s
    case Break => true
    case Continue => true
    case Block(stmts) => forall x :: x in stmts ==> PlainInLoop(x)
    case If(_, thn, els) => PlainInLoop(thn) && (els.Some? ==> PlainInLoop(els.value))
    case _ => Plain(s, false)
  }

  /** The call counts of the paths that are alive, broke out, or returned bare. */
  datatype PathSets = PathSets(alive: iset<nat>, broken: iset<nat>, bare: iset<nat>) {
    ghost function Then(next: PathSets): PathSets {
      PathSets(Sumset(alive, next.alive), broken + Sumset(alive, next.broken), bare + Sumset(alive, next.bare))
    }

    ghost function Or(other: PathSets): PathSets {
      PathSets(alive + other.alive, broken + other.broken, bare + other.bare)
    }
  }

  ghost const Idle := PathSets(iset{0}, iset{}, iset{})

  ghost predicate Abstracts(exists_: bool, status: SuperCallStatus, counts: iset<nat>) {
    (exists_ <==> counts != iset{}) && (exists_ ==> status == Alpha(counts))
  }

  ghost predicate Matches(st: PathState, x: PathSets) {
    && Abstracts(st.aliveExists, st.aliveSuper, x.alive)
    && Abstracts(st.broke, st.aliveSuper, x.broken)
    && Abstracts(st.bareExitExists, st.bareExitSuper, x.bare)
    && (!st.bareExitExists ==> st.bareExitSuper == SuperNone)
    && !(st.broke && st.aliveExists)
  }

  ghost function SetsOf(s: Stmt): PathSets {
    PathSets(Counts(s, Normal), Counts(s, Broke), Counts(s, ReturnedVoid))
  }

  ghost function SetsOfList(stmts: seq<Stmt>): PathSets {
    PathSets(CountsList(stmts, Normal), CountsList(stmts, Broke), CountsList(stmts, ReturnedVoid))
  }

  ghost function SetsOfFrom(clauses: seq<Clause>): PathSets {
    PathSets(CountsFrom(clauses, Normal), CountsFrom(clauses, Broke), CountsFrom(clauses, ReturnedVoid))
  }

  // ----- The operations are homomorphisms -----

  lemma AbstractsSumset(e: bool, a: SuperCallStatus, s: iset<nat>, f: bool, b: SuperCallStatus, t: iset<nat>)
    requires Abstracts(e, a, s) && Abstracts(f, b, t)
    ensures Abstracts(e && f, ComposeSuper(a, b), Sumset(s, t))
  {
    SumsetEmpty(s, t);
    if e && f {
      ComposeIsSumset(s, t);
    }
  }

  lemma AbstractsUnion(e: bool, a: SuperCallStatus, s: iset<nat>, f: bool, b: SuperCallStatus, t: iset<nat>)
    requires Abstracts(e, a, s) && Abstracts(f, b, t)
    ensures Abstracts(e || f, if e && f then MergeSuper(a, b) else if e then a else b, s + t)
  {
    if e && f {
      MergeIsUnion(s, t);
    } else if e {
      assert s + t == s;
    } else {
      assert s + t == t;
    }
  }

  lemma ComposeMatches(a: PathState, x: PathSets, b: PathState, y: PathSets)
    requires Matches(a, x) && Matches(b, y)
    ensures Matches(ComposeSequential(a, b), x.Then(y))
  {
    AbstractsSumset(a.aliveExists, a.aliveSuper, x.alive, b.aliveExists, b.aliveSuper, y.alive);
    AbstractsSumset(a.aliveExists, a.aliveSuper, x.alive, b.broke, b.aliveSuper, y.broken);
    AbstractsSumset(a.aliveExists, a.aliveSuper, x.alive, b.bareExitExists, b.bareExitSuper, y.bare);
    AbstractsUnion(a.bareExitExists, a.bareExitSuper, x.bare, a.aliveExists && b.bareExitExists,
                   ComposeSuper(a.aliveSuper, b.bareExitSuper), Sumset(x.alive, y.bare));
    AbstractsUnion(a.broke, a.aliveSuper, x.broken, a.aliveExists && b.broke,
                   ComposeSuper(a.aliveSuper, b.aliveSuper), Sumset(x.alive, y.broken));
  }

  lemma MergeMatches(a: PathState, x: PathSets, b: PathState, y: PathSets)
    requires Matches(a, x) && Matches(b, y) && !a.broke && !b.broke
    ensures Matches(MergeBranches(a, b), x.Or(y))
  {
    AbstractsUnion(a.aliveExists, a.aliveSuper, x.alive, b.aliveExists, b.aliveSuper, y.alive);
    AbstractsUnion(a.bareExitExists, a.bareExitSuper, x.bare, b.bareExitExists, b.bareExitSuper, y.bare);
    assert x.broken + y.broken == iset{};
  }

  lemma IdleMatches()
    ensures Matches(PassThrough, Idle)
  {
    AlphaZero();
  }

  // ----- Equations for the true sets -----

  lemma SetsCons(stmts: seq<Stmt>)
    requires stmts != []
    ensures SetsOfList(stmts) == SetsOf(stmts[0]).Then(SetsOfList(stmts[1..]))
  {
    ListEquation(stmts, Normal);
    ListEquation(stmts, Broke);
    ListEquation(stmts, ReturnedVoid);
    assert iset{} + Sumset(Counts(stmts[0], Normal), CountsList(stmts[1..], Normal)) ==
           Sumset(Counts(stmts[0], Normal), CountsList(stmts[1..], Normal));
  }

  lemma SetsFromCons(clauses: seq<Clause>)
    requires clauses != []
    ensures SetsOfFrom(clauses) == SetsOfList(clauses[0].body).Then(SetsOfFrom(clauses[1..]))
  {
    FromEquation(clauses, Normal);
    FromEquation(clauses, Broke);
    FromEquation(clauses, ReturnedVoid);
    assert iset{} + Sumset(CountsList(clauses[0].body, Normal), CountsFrom(clauses[1..], Normal)) ==
           Sumset(CountsList(clauses[0].body, Normal), CountsFrom(clauses[1..], Normal));
  }

  lemma SetsNil()
    ensures SetsOfList([]) == Idle && SetsOfFrom([]) == Idle
  {
    NilEquation(Normal);
    NilEquation(Broke);
    NilEquation(ReturnedVoid);
  }

  lemma ThenAssociative(x: PathSets, y: PathSets, z: PathSets)
    ensures x.Then(y).Then(z) == x.Then(y.Then(z))
  {
    SumsetAssociative(x.alive, y.alive, z.alive);
    SumsetAssociative(x.alive, y.alive, z.broken);
    SumsetAssociative(x.alive, y.alive, z.bare);
    SumsetDistributes(x.alive, y.broken, Sumset(y.alive, z.broken));
    SumsetDistributes(x.alive, y.bare, Sumset(y.alive, z.bare));
  }

  lemma SumsetDistributes(s: iset<nat>, t: iset<nat>, u: iset<nat>)
    ensures Sumset(s, t + u) == Sumset(s, t) + Sumset(s, u)
  {
    forall k: nat ensures k in Sumset(s, t + u) <==> k in Sumset(s, t) + Sumset(s, u) {
      if k in Sumset(s, t + u) {
        var i: nat :| i in s && i <= k && k - i in t + u;
        if k - i in t {
          SumsetMember(s, t, i, k - i);
        } else {
          SumsetMember(s, u, i, k - i);
        }
      }
      if k in Sumset(s, t) {
        var i: nat :| i in s && i <= k && k - i in t;
        SumsetMember(s, t + u, i, k - i);
      }
      if k in Sumset(s, u) {
        var i: nat :| i in s && i <= k && k - i in u;
        SumsetMember(s, t + u, i, k - i);
      }
    }
  }

  lemma EmptyUnion(s: iset<nat>)
    ensures s + iset{} == s && iset{} + s == s
  {
  }

  lemma EmptySumset(s: iset<nat>)
    ensures Sumset(s, iset{}) == iset{}
  {
    SumsetEmpty(s, iset{});
  }

  lemma IdleFirst(x: PathSets)
    ensures Idle.Then(x) == x
  {
    SumsetZero(x.alive);
    SumsetZero(x.broken);
    SumsetZero(x.bare);
    EmptyUnion(x.broken);
    EmptyUnion(x.bare);
  }

  lemma IdleLast(x: PathSets)
    ensures x.Then(Idle) == x
  {
    SumsetZero(x.alive);
    EmptySumset(x.alive);
    EmptyUnion(x.broken);
    EmptyUnion(x.bare);
  }

  // ----- Exactness of states -----

  lemma {:induction false} StateExact(s: Stmt, inClause: bool)
    requires Plain(s, inClause)
    ensures Matches(StateOf(Amended, s), SetsOf(s)) && (StateOf(Amended, s).broke ==> inClause)
    decreases s, 1
  {
    match s
    case Block(stmts) =>
      ListExact(stmts, inClause);
      BlockCounts(s, Normal);
      BlockCounts(s, Broke);
      BlockCounts(s, ReturnedVoid);
    case If(_, _, _) => IfExact(s);
    case Switch(_, _) => SwitchExact(s);
    case Break => BreakExact();
    case Try(_, _, _) => TryExact(s);
    case Loop(_, body) =>
      if SuperFree(body) && PlainInLoop(body) {
        LoopExact(s);
      } else {
        StateExact(body, false);
        RepeatExact(s);
      }
    case Labeled(body) =>
      StateExact(body, inClause);
      LabelCounts(s);
    case DoWhile(_, _) => DoWhileExact(s);
    case _ => LeafExact(s);
  }

  lemma LabelCounts(s: Stmt)
    requires s.Labeled?
    ensures SetsOf(s) == SetsOf(s.body)
  {
    forall c, k: nat ensures Completes(s, c, k) <==> Completes(s.body, c, k) {
      if Completes(s, c, k) {
        var r :| Runs(s, r) && r.end == c && r.calls == k;
        assert Runs(s.body, r);
      }
      if Completes(s.body, c, k) {
        var r :| Runs(s.body, r) && r.end == c && r.calls == k;
        assert Runs(s, r);
      }
    }
  }

  // Loops that call super

  predicate Repeatable(s: Stmt) { s.Loop? && QuietHeader(s.header) && s.header.test != [] && Passes(Out(s.body)) }

  /** A loop that can call super can call it twice, and need not call it. */
  lemma {:induction false} RepeatExact(s: Stmt)
    requires Repeatable(s) && Matches(StateOf(Amended, s.body), SetsOf(s.body))
    ensures Matches(StateOf(Amended, s), SetsOf(s)) && !StateOf(Amended, s).broke
  {
    RepeatEnds(s);
    NoRounds(s);
    RepeatAlive(s);
    NoCounts(s.body, ReturnedVoid);
  }

  lemma RepeatAlive(s: Stmt)
    requires Repeatable(s) && Matches(StateOf(Amended, s.body), SetsOf(s.body)) && 0 in Counts(s, Normal)
    ensures Alpha(Counts(s, Normal)) == if StateOf(Amended, s.body).aliveSuper == SuperNone then SuperNone else SuperMultiple
  {
    var x := Counts(s.body, Normal);
    NormalCounts(s.body);
    if k :| k in x && k > 0 {
      TwoRounds(s, k);
    } else {
      forall k | k in Counts(s, Normal) ensures k == 0 {
        var r :| Runs(s, r) && r.end == Normal && r.calls == k;
        QuietRepeat(s, r);
      }
    }
  }

  lemma NormalCounts(s: Stmt)
    requires Normal in Out(s)
    ensures Counts(s, Normal) != iset{}
  {
    var r := Reach(s, Normal);
    assert Completes(s, Normal, r.calls);
    assert r.calls in Counts(s, Normal);
  }

  lemma NoCounts(s: Stmt, c: Completion)
    requires c !in Out(s)
    ensures Counts(s, c) == iset{}
  {
    OutExact(s, c);
    assert forall k: nat :: !Completes(s, c, k);
  }

  lemma RepeatEnds(s: Stmt)
    requires Repeatable(s)
    ensures Counts(s, Broke) == iset{} && Counts(s, ReturnedVoid) == iset{}
  {
    LoopCatchesBreaks(s);
    NoCounts(s, Broke);
    NoCounts(s, ReturnedVoid);
  }

  lemma NoRounds(s: Stmt)
    requires Repeatable(s)
    ensures 0 in Counts(s, Normal)
  {
    var i := ReachAll(s.header.init, Normal);
    var e := ReachAll(s.header.test, Normal);
    QuietAll(s.header.init, i);
    QuietAll(s.header.test, e);
    assert Runs(s, Join(Normal, 0, i, e));
    assert Completes(s, Normal, 0);
  }

  lemma {:induction false} TwoRounds(s: Stmt, k: nat)
    requires Repeatable(s) && k in Counts(s.body, Normal)
    ensures 2 * k in Counts(s, Normal)
  {
    var q :| Runs(s.body, q) && q.end == Normal && q.calls == k;
    var i := ReachAll(s.header.init, Normal);
    var e := ReachAll(s.header.test, Normal);
    QuietAll(s.header.init, i);
    QuietAll(s.header.test, e);
    var one := NextRound(s, q, e);
    var two := NextRound(s, q, one);
    assert Runs(s, Join(Normal, 2 * k, i, two));
    assert Completes(s, Normal, 2 * k);
  }

  lemma NextRound(s: Stmt, q: Run, rest: Run) returns (r: Run)
    requires Repeatable(s) && Runs(s.body, q) && q.end == Normal && RunsLoop(s.header, s.body, rest)
    ensures RunsLoop(s.header, s.body, r) && r.end == rest.end && r.calls == q.calls + rest.calls
  {
    var b := ReachAll(s.header.test + s.header.binding, Normal);
    var step := ReachAll(s.header.step, Normal);
    QuietAll(s.header.test + s.header.binding, b);
    QuietAll(s.header.step, step);
    var round := Join(Normal, q.calls, b, q);
    r := Join(rest.end, q.calls + rest.calls, round, Join(rest.end, rest.calls, step, rest));
  }

  lemma QuietRepeat(s: Stmt, r: Run)
    requires Repeatable(s) && (forall k :: k in Counts(s.body, Normal) ==> k == 0) && Runs(s, r) && r.end == Normal
    ensures r.calls == 0
  {
    QuietAll(s.header.init, r.first);
    QuietTurns(s.header, s.body, r.second);
  }

  lemma {:induction false} QuietTurns(header: Header, body: Stmt, r: Run)
    requires QuietHeader(header) && Passes(Out(body)) && forall k :: k in Counts(body, Normal) ==> k == 0
    requires RunsLoop(header, body, r) && r.end == Normal
    ensures r.calls == 0
    decreases r
  {
    if RoundRuns(header, body, r) {
      var q := r.first.second;
      RunEnds(body, q);
      if q.end == Normal {
        assert Completes(body, Normal, q.calls);
        assert q.calls in Counts(body, Normal);
        QuietTurns(header, body, r.second.second);
      }
    } else {
      HeadEnds(header, body, r);
    }
  }

  // Try statements

  ghost predicate Handled(s: Stmt) {
    && s.Try? && (forall x :: x in s.block ==> SuperFree(x))
    && (if s.handler.Catch? then Faultable(s.block) && NoneSuper(s.handler.binding) else Normal in OutList(s.block))
    && (s.finalizer.SomeBlock? ==> (forall x :: x in s.finalizer.body ==> SuperFree(x)) && Passes(OutList(s.finalizer.body)))
  }

  lemma {:induction false} TryExact(s: Stmt)
    requires s.Try? && Plain(s, false)
    ensures Matches(StateOf(Amended, s), SetsOf(s)) && !StateOf(Amended, s).broke
    decreases s, 0
  {
    var a, b := SeqState(Amended, PassThrough, s.block), PassThrough;
    var y := Idle;
    ListExact(s.block, false);
    IdleMatches();
    if s.handler.Catch? {
      b := SeqState(Amended, PassThrough, s.handler.body);
      y := SetsOfList(s.handler.body);
      ListExact(s.handler.body, false);
    }
    MergeMatches(a, SetsOfList(s.block), b, y);
    TrySets(s, y);
    if s.finalizer.SomeBlock? {
      ListExact(s.finalizer.body, false);
      QuietList(s.finalizer.body);
      FinallyKeeps(MergeBranches(a, b), SetsOfList(s.block).Or(y), SeqState(Amended, PassThrough, s.finalizer.body));
    }
  }

  lemma FinallyKeeps(a: PathState, x: PathSets, b: PathState)
    requires Matches(a, x) && !a.broke && Matches(b, Idle) && Alpha(iset{0}) == SuperNone
    ensures Matches(ComposeSequential(a, b), x) && !ComposeSequential(a, b).broke
  {
  }

  lemma QuietList(stmts: seq<Stmt>)
    requires (forall x :: x in stmts ==> SuperFree(x)) && Passes(OutList(stmts))
    ensures SetsOfList(stmts) == Idle && Alpha(iset{0}) == SuperNone
  {
    AlphaZero();
    QuietListCounts(stmts, Normal);
    QuietListCounts(stmts, Broke);
    QuietListCounts(stmts, ReturnedVoid);
  }

  lemma QuietListCounts(stmts: seq<Stmt>, c: Completion)
    requires forall x :: x in stmts ==> SuperFree(x)
    ensures CountsList(stmts, c) == if c in OutList(stmts) then iset{0} else iset{}
  {
    forall k: nat | k in CountsList(stmts, c) ensures k == 0 && c in OutList(stmts) {
      var r :| RunsList(stmts, r) && r.end == c && r.calls == k;
      SuperFreeRunList(stmts, r);
      ListEnds(stmts, r);
    }
    if c in OutList(stmts) {
      var r := ReachList(stmts, c);
      SuperFreeRunList(stmts, r);
      assert CompletesList(stmts, c, 0);
    }
  }

  lemma TrySets(s: Stmt, y: PathSets)
    requires Handled(s) && y == if s.handler.Catch? then SetsOfList(s.handler.body) else Idle
    ensures SetsOf(s) == SetsOfList(s.block).Or(y)
  {
    TryCounts(s, Normal);
    TryCounts(s, Broke);
    TryCounts(s, ReturnedVoid);
  }

  /** The calls of the handler, or of going past a try that has none. */
  ghost function HandlerCounts(h: Handler, c: Completion): iset<nat> {
    if h.Catch? then CountsList(h.body, c) else if c == Normal then iset{0} else iset{}
  }

  lemma TryCounts(s: Stmt, c: Completion)
    requires Handled(s) && (c == Normal || IsJump(c))
    ensures Counts(s, c) == CountsList(s.block, c) + HandlerCounts(s.handler, c)
  {
    forall k: nat ensures k in Counts(s, c) <==> k in CountsList(s.block, c) + HandlerCounts(s.handler, c) {
      if k in Counts(s, c) {
        var r :| Runs(s, r) && r.end == c && r.calls == k;
        TryFrom(s, r);
      }
      if k in CountsList(s.block, c) + HandlerCounts(s.handler, c) {
        var g := GuardedTo(s, c, k);
        var r := FinallyTo(s, g);
        assert Completes(s, c, k);
      }
    }
  }

  lemma TryFrom(s: Stmt, r: Run)
    requires Handled(s) && Runs(s, r) && (r.end == Normal || IsJump(r.end))
    ensures r.calls in CountsList(s.block, r.end) + HandlerCounts(s.handler, r.end)
  {
    if s.finalizer.NoBlock? {
      GuardedFrom(s, r);
    } else {
      ListEnds(s.finalizer.body, r.second);
      SuperFreeRunList(s.finalizer.body, r.second);
      GuardedFrom(s, r.first);
    }
  }

  lemma GuardedFrom(s: Stmt, g: Run)
    requires Handled(s) && RunsGuarded(s, g) && (g.end == Normal || IsJump(g.end))
    ensures g.calls in CountsList(s.block, g.end) + HandlerCounts(s.handler, g.end)
  {
    if RunsList(s.block, g) {
      assert CompletesList(s.block, g.end, g.calls);
    } else {
      SuperFreeRunList(s.block, g.first);
      QuietAll(s.handler.binding, g.second.first);
      assert CompletesList(s.handler.body, g.end, g.second.second.calls);
    }
  }

  lemma GuardedTo(s: Stmt, c: Completion, k: nat) returns (g: Run)
    requires Handled(s) && (c == Normal || IsJump(c)) && k in CountsList(s.block, c) + HandlerCounts(s.handler, c)
    ensures RunsGuarded(s, g) && g.end == c && g.calls == k
  {
    if k in CountsList(s.block, c) {
      g :| RunsList(s.block, g) && g.end == c && g.calls == k;
    } else if s.handler.Catch? {
      var q :| RunsList(s.handler.body, q) && q.end == c && q.calls == k;
      var p := Faults(s.block);
      var b := ReachAll(s.handler.binding, Normal);
      QuietAll(s.handler.binding, b);
      g := Join(c, k, p, Join(c, k, b, q));
    } else {
      g := ReachList(s.block, Normal);
      SuperFreeRunList(s.block, g);
    }
  }

  lemma Faults(stmts: seq<Stmt>) returns (r: Run)
    requires Faultable(stmts)
    ensures RunsList(stmts, r) && r.end == Faulted && r.calls == 0
  {
    r := Leaf(Faulted, 0);
    if stmts[0].Simple? {
      PathCountsNonempty(stmts[0].e);
    } else {
      PathCountsAllNonempty(stmts[0].decls);
    }
    assert Runs(stmts[0], r);
  }

  lemma FinallyTo(s: Stmt, g: Run) returns (r: Run)
    requires Handled(s) && RunsGuarded(s, g)
    ensures Runs(s, r) && r.end == g.end && r.calls == g.calls
  {
    if s.finalizer.NoBlock? {
      r := g;
    } else {
      var f := ReachList(s.finalizer.body, Normal);
      SuperFreeRunList(s.finalizer.body, f);
      r := Join(g.end, g.calls, g, f);
    }
  }

  // Loops without super calls

  /** A state that no call has changed, and whether it is alive and may return bare. */
  predicate Uncalled(st: PathState, out: set<Completion>) {
    && st.aliveSuper == SuperNone && st.bareExitSuper == SuperNone && !(st.broke && st.aliveExists)
    && (st.aliveExists <==> Normal in out) && (st.bareExitExists <==> ReturnedVoid in out)
  }

  lemma {:induction false} LoopExact(s: Stmt)
    requires s.Loop? && Plain(s, false) && SuperFree(s.body) && PlainInLoop(s.body)
    ensures Matches(StateOf(Amended, s), SetsOf(s)) && !StateOf(Amended, s).broke
    decreases s, 0
  {
    AlphaZero();
    InLoopExact(s.body);
    QuietCounts(s, Normal);
    QuietCounts(s, Broke);
    QuietCounts(s, ReturnedVoid);
    LoopCatchesBreaks(s);
  }

  lemma LoopCatchesBreaks(s: Stmt)
    requires s.Loop?
    ensures Broke !in Out(s) && (ReturnedVoid in Out(s) <==> ReturnedVoid in Out(s.body))
  {
    assert Normal in OutAll(s.header.init);
  }

  lemma {:induction false} InLoopExact(s: Stmt)
    requires SuperFree(s) && PlainInLoop(s)
    ensures Uncalled(StateOf(Amended, s), Out(s))
    decreases s, 2
  {
    match s
    case Break =>
    case Continue =>
    case Block(stmts) => InLoopSeqExact(PassThrough, stmts);
    case If(cond, thn, els) =>
      InLoopExact(thn);
      if els.Some? {
        InLoopExact(els.value);
      }
    case _ =>
      StateExact(s, false);
      FreeState(s);
      UncalledExact(s);
  }

  lemma UncalledExact(s: Stmt)
    requires SuperFree(s) && Matches(StateOf(Amended, s), SetsOf(s)) && !StateOf(Amended, s).broke
    requires Unmarked(StateOf(Amended, s))
    ensures Uncalled(StateOf(Amended, s), Out(s))
  {
    AlphaZero();
    QuietCounts(s, Normal);
    QuietCounts(s, ReturnedVoid);
  }

  /** No count in it. */
  predicate Unmarked(st: PathState) { st.aliveSuper == SuperNone && st.bareExitSuper == SuperNone }

  lemma {:induction false} FreeState(s: Stmt)
    requires SuperFree(s)
    ensures Unmarked(StateOf(Amended, s))
    decreases s, 1
  {
    match s
    case Var(decls) => FreeSteps(PassThrough, decls);
    case Block(stmts) => FreeSeq(PassThrough, stmts);
    case If(_, thn, els) =>
      FreeState(thn);
      if els.Some? {
        FreeState(els.value);
      }
    case Switch(_, clauses) =>
      if clauses != [] {
        FreeMerged(clauses, |clauses| - 1);
      }
    case Try(block, handler, finalizer) =>
      FreeSeq(PassThrough, block);
      if handler.Catch? {
        FreeSeq(PassThrough, handler.body);
      }
      if finalizer.SomeBlock? {
        FreeSeq(PassThrough, finalizer.body);
      }
    case Loop(_, body) => FreeState(body);
    case Labeled(body) => FreeState(body);
    case _ =>
  }

  lemma {:induction false} FreeSteps(acc: PathState, es: seq<Expr>)
    requires NoneSuper(es) && Unmarked(acc)
    ensures Unmarked(StepAll(Amended, acc, es))
    decreases es
  {
    if es != [] {
      assert NoSuper(es[0]);
      FreeSteps(StepSuper(acc, Counted(es[0])), es[1..]);
    }
  }

  lemma {:induction false} FreeSeq(acc: PathState, stmts: seq<Stmt>)
    requires (forall x :: x in stmts ==> SuperFree(x)) && Unmarked(acc)
    ensures Unmarked(SeqState(Amended, acc, stmts))
    decreases stmts, 0
  {
    if stmts != [] {
      FreeState(stmts[0]);
      FreeSeq(ComposeSequential(acc, StateOf(Amended, stmts[0])), stmts[1..]);
    }
  }

  lemma {:induction false} FreeEntry(clauses: seq<Clause>, j: nat)
    requires j <= |clauses| && forall c :: c in clauses ==> forall x :: x in c.body ==> SuperFree(x)
    ensures Unmarked(EntryState(Amended, clauses, j))
    decreases clauses, |clauses| - j
  {
    if j < |clauses| {
      FreeSeq(PassThrough, clauses[j].body);
      FreeEntry(clauses, j + 1);
    }
  }

  lemma {:induction false} FreeMerged(clauses: seq<Clause>, k: nat)
    requires k < |clauses| && forall c :: c in clauses ==> forall x :: x in c.body ==> SuperFree(x)
    ensures Unmarked(MergedStates(Amended, clauses, k))
    decreases clauses, |clauses| + k + 1
  {
    FreeEntry(clauses, k);
    if k > 0 {
      FreeMerged(clauses, k - 1);
    }
  }

  lemma {:induction false} InLoopSeqExact(acc: PathState, stmts: seq<Stmt>)
    requires forall x :: x in stmts ==> SuperFree(x) && PlainInLoop(x)
    requires acc.aliveExists && !acc.broke && acc.aliveSuper == SuperNone && acc.bareExitSuper == SuperNone
    ensures var st := SeqState(Amended, acc, stmts);
            && st.aliveSuper == SuperNone && st.bareExitSuper == SuperNone && !(st.broke && st.aliveExists)
            && (st.aliveExists <==> Normal in OutList(stmts))
            && (st.bareExitExists <==> acc.bareExitExists || ReturnedVoid in OutList(stmts))
    decreases stmts, 0
  {
    if stmts != [] {
      InLoopExact(stmts[0]);
      var next := ComposeSequential(acc, StateOf(Amended, stmts[0]));
      if !next.broke && next.aliveExists {
        InLoopSeqExact(next, stmts[1..]);
      }
    }
  }

  lemma BreakExact()
    ensures Matches(StateOf(Amended, Break), SetsOf(Break))
  {
    AlphaZero();
    assert Runs(Break, Leaf(Broke, 0));
    assert Completes(Break, Broke, 0);
    assert Counts(Break, Broke) == iset{0};
  }

  /** It can end, and return bare if its body can, without a super call. */
  lemma DoWhileExact(s: Stmt)
    requires s.DoWhile? && Plain(s, false)
    ensures Matches(StateOf(Amended, s), SetsOf(s)) && !StateOf(Amended, s).broke
  {
    AlphaZero();
    QuietCounts(s, Normal);
    QuietCounts(s, Broke);
    QuietCounts(s, ReturnedVoid);
    assert StateOf(Amended, s) == PassThrough.(bareExitExists := ReturnedVoid in Out(s.body));
  }

  lemma QuietCounts(s: Stmt, c: Completion)
    requires SuperFree(s)
    ensures Counts(s, c) == if c in Out(s) then iset{0} else iset{}
  {
    forall k: nat | k in Counts(s, c) ensures k == 0 && c in Out(s) {
      var r :| Runs(s, r) && r.end == c && r.calls == k;
      SuperFreeRun(s, r);
      RunEnds(s, r);
    }
    if c in Out(s) {
      var r := Reach(s, c);
      SuperFreeRun(s, r);
      assert Completes(s, c, 0);
    }
  }

  lemma LeafExact(s: Stmt)
    requires s.Simple? || s.Var? || s.Return? || s.Throw?
    ensures Matches(StateOf(Amended, s), SetsOf(s)) && !StateOf(Amended, s).broke
  {
    if s.Return? && s.arg.None? {
      AlphaZero();
      assert Runs(s, Leaf(ReturnedVoid, 0));
      assert Completes(s, ReturnedVoid, 0);
      assert Counts(s, ReturnedVoid) == iset{0};
    } else {
      var e := if s.Var? then Compound(s.decls) else if s.Simple? then s.e else if s.Throw? then s.thrown else s.arg.value;
      CountedExact(e);
      PathCountsNonempty(e);
      if s.Var? {
        StepAllCounts(PassThrough, s.decls);
        assert PathCounts(e) == PathCountsAll(s.decls) && Counted(e) == CountedAll(s.decls);
      }
      if s.Simple? || s.Var? {
        forall k: nat ensures Completes(s, Normal, k) <==> k in PathCounts(e) {
          if k in PathCounts(e) {
            assert Runs(s, Leaf(Normal, k));
          }
        }
        assert Counts(s, Normal) == PathCounts(e);
      }
    }
  }

  lemma {:induction false} SeqExact(acc: PathState, x: PathSets, stmts: seq<Stmt>, inClause: bool)
    requires (forall s :: s in stmts ==> Plain(s, inClause)) && Matches(acc, x) && acc.aliveExists
    ensures Matches(SeqState(Amended, acc, stmts), x.Then(SetsOfList(stmts)))
    ensures SeqState(Amended, acc, stmts).broke ==> inClause
    decreases stmts, 0
  {
    if stmts == [] {
      SetsNil();
      IdleLast(x);
    } else {
      var d, y, rest := StateOf(Amended, stmts[0]), SetsOf(stmts[0]), SetsOfList(stmts[1..]);
      var next := ComposeSequential(acc, d);
      StateExact(stmts[0], inClause);
      ComposeMatches(acc, x, d, y);
      SetsCons(stmts);
      ThenAssociative(x, y, rest);
      if next.broke || !next.aliveExists {
        DeadThen(x.Then(y), rest);
      } else {
        SeqExact(next, x.Then(y), stmts[1..], inClause);
      }
    }
  }

  lemma {:induction false} ListExact(stmts: seq<Stmt>, inClause: bool)
    requires forall s :: s in stmts ==> Plain(s, inClause)
    ensures Matches(SeqState(Amended, PassThrough, stmts), SetsOfList(stmts))
    ensures SeqState(Amended, PassThrough, stmts).broke ==> inClause
    decreases stmts, 1
  {
    IdleMatches();
    SeqExact(PassThrough, Idle, stmts, inClause);
    IdleFirst(SetsOfList(stmts));
  }

  lemma DeadThen(x: PathSets, y: PathSets)
    requires x.alive == iset{}
    ensures x.Then(y) == x
  {
    SumsetEmpty(x.alive, y.alive);
    SumsetEmpty(x.alive, y.broken);
    SumsetEmpty(x.alive, y.bare);
    assert x.broken + iset{} == x.broken && x.bare + iset{} == x.bare;
  }

  lemma {:induction false} IfExact(s: Stmt)
    requires s.If? && Plain(s, false)
    ensures Matches(StateOf(Amended, s), SetsOf(s)) && !StateOf(Amended, s).broke
    decreases s, 0
  {
    var a, x := StateOf(Amended, s.thn), SetsOf(s.thn);
    var b := if s.els.Some? then StateOf(Amended, s.els.value) else PassThrough;
    var y := if s.els.Some? then SetsOf(s.els.value) else Idle;
    StateExact(s.thn, false);
    if s.els.Some? {
      StateExact(s.els.value, false);
    }
    IdleMatches();
    MergeMatches(a, x, b, y);
    var cond := StepSuper(PassThrough, Counted(s.cond));
    var c := PathSets(PathCounts(s.cond), iset{}, iset{});
    CountedExact(s.cond);
    PathCountsNonempty(s.cond);
    ComposeMatches(cond, c, MergeBranches(a, b), x.Or(y));
    IfSets(s, c, x, y);
  }

  lemma IfSets(s: Stmt, c: PathSets, x: PathSets, y: PathSets)
    requires s.If? && c == PathSets(PathCounts(s.cond), iset{}, iset{}) && x == SetsOf(s.thn)
    requires y == if s.els.Some? then SetsOf(s.els.value) else Idle
    ensures SetsOf(s) == c.Then(x.Or(y))
  {
    IfEquation(s, Normal);
    IfEquation(s, Broke);
    IfEquation(s, ReturnedVoid);
    assert iset{} + Counts(s, Broke) == Counts(s, Broke);
    assert iset{} + Counts(s, ReturnedVoid) == Counts(s, ReturnedVoid);
  }

  /** The sets of paths entering at clause `j`, seen from after the switch. */
  ghost function EntrySets(clauses: seq<Clause>, j: nat): PathSets
    requires j <= |clauses|
  {
    var x := SetsOfFrom(clauses[j..]);
    PathSets(x.alive + x.broken, iset{}, x.bare)
  }

  lemma {:induction false} EntryExact(clauses: seq<Clause>, j: nat)
    requires j <= |clauses| && forall c :: c in clauses ==> forall x :: x in c.body ==> Plain(x, true)
    ensures Matches(EntryState(Amended, clauses, j), EntrySets(clauses, j)) && !EntryState(Amended, clauses, j).broke
    decreases clauses, |clauses| - j
  {
    if j == |clauses| {
      IdleMatches();
      SetsNil();
      EmptyUnion(iset{0});
    } else {
      ListExact(clauses[j].body, true);
      if !SeqState(Amended, PassThrough, clauses[j].body).aliveExists {
        EntryStops(clauses, j);
      } else {
        EntryExact(clauses, j + 1);
        EntryFalls(clauses, j);
      }
    }
  }

  lemma EntrySetsStep(clauses: seq<Clause>, j: nat)
    requires j < |clauses|
    ensures var x, next := SetsOfList(clauses[j].body), EntrySets(clauses, j + 1);
            && EntrySets(clauses, j).alive == x.Then(next).alive + x.broken
            && EntrySets(clauses, j).bare == x.Then(next).bare
  {
    assert clauses[j..][1..] == clauses[j + 1..];
    SetsFromCons(clauses[j..]);
    EntryEquation(SetsOfList(clauses[j].body), SetsOfFrom(clauses[j + 1..]), EntrySets(clauses, j + 1));
  }

  /** The clause breaks or exits. */
  lemma EntryStops(clauses: seq<Clause>, j: nat)
    requires j < |clauses| && Matches(SeqState(Amended, PassThrough, clauses[j].body), SetsOfList(clauses[j].body))
    requires !SeqState(Amended, PassThrough, clauses[j].body).aliveExists
    ensures Matches(EntryState(Amended, clauses, j), EntrySets(clauses, j)) && !EntryState(Amended, clauses, j).broke
  {
    var x := SetsOfList(clauses[j].body);
    EntrySetsStep(clauses, j);
    DeadThen(x, EntrySets(clauses, j + 1));
    EmptyUnion(x.broken);
  }

  /** The clause can fall through. */
  lemma EntryFalls(clauses: seq<Clause>, j: nat)
    requires j < |clauses| && Matches(SeqState(Amended, PassThrough, clauses[j].body), SetsOfList(clauses[j].body))
    requires SeqState(Amended, PassThrough, clauses[j].body).aliveExists
    requires Matches(EntryState(Amended, clauses, j + 1), EntrySets(clauses, j + 1)) && !EntryState(Amended, clauses, j + 1).broke
    ensures Matches(EntryState(Amended, clauses, j), EntrySets(clauses, j)) && !EntryState(Amended, clauses, j).broke
  {
    var x, next := SetsOfList(clauses[j].body), EntrySets(clauses, j + 1);
    EntrySetsStep(clauses, j);
    ComposeMatches(SeqState(Amended, PassThrough, clauses[j].body), x, EntryState(Amended, clauses, j + 1), next);
    EmptyUnion(x.Then(next).alive);
    assert x.broken == iset{};
  }

  /** Falling through and then leaving is leaving now or falling into what leaves later. */
  lemma EntryEquation(x: PathSets, rest: PathSets, next: PathSets)
    requires next == PathSets(rest.alive + rest.broken, iset{}, rest.bare)
    ensures x.Then(rest).alive + x.Then(rest).broken == x.Then(next).alive + x.broken
    ensures x.Then(rest).bare == x.Then(next).bare
  {
    SumsetDistributes(x.alive, rest.alive, rest.broken);
  }

  ghost function MergedSets(clauses: seq<Clause>, k: nat): PathSets
    requires k < |clauses|
  {
    if k == 0 then EntrySets(clauses, 0) else MergedSets(clauses, k - 1).Or(EntrySets(clauses, k))
  }

  lemma {:induction false} MergedExact(clauses: seq<Clause>, k: nat)
    requires k < |clauses| && forall c :: c in clauses ==> forall x :: x in c.body ==> Plain(x, true)
    ensures Matches(MergedStates(Amended, clauses, k), MergedSets(clauses, k)) && !MergedStates(Amended, clauses, k).broke
    decreases clauses, |clauses| + k + 1
  {
    EntryExact(clauses, k);
    if k > 0 {
      MergedExact(clauses, k - 1);
      MergeMatches(MergedStates(Amended, clauses, k - 1), MergedSets(clauses, k - 1), EntryState(Amended, clauses, k), EntrySets(clauses, k));
    }
  }

  predicate QuietSwitch(s: Stmt) {
    s.Switch? && NoSuper(s.head) && forall c :: c in s.clauses ==> QuietTest(c)
  }

  lemma QuietHeads(s: Stmt, es: seq<Expr>)
    requires QuietSwitch(s)
    requires es == Tests(s.clauses) || exists i :: 0 <= i < |s.clauses| && es == TestsBefore(s.clauses, i)
    ensures PathCountsAll([s.head] + es) == iset{0}
  {
    PathCountsAllNonempty([s.head] + es);
    forall k | k in PathCountsAll([s.head] + es) ensures k == 0 {
      var r := Leaf(Normal, k);
      if es == Tests(s.clauses) {
        QuietHead(s, 0, r);
      } else {
        var i :| 0 <= i < |s.clauses| && es == TestsBefore(s.clauses, i);
        QuietHead(s, i, r);
      }
    }
    var k :| k in PathCountsAll([s.head] + es);
  }

  /** `k` calls are possible on a path that enters at some clause up to `m` and leaves by `c`. */
  ghost predicate LeavesBy(clauses: seq<Clause>, m: int, c: Completion, k: nat) {
    exists i: nat :: i <= m && i < |clauses| && k in Exits(clauses[i..], c)
  }

  lemma SwitchMember(s: Stmt, c: Completion, k: nat)
    requires QuietSwitch(s) && c != Faulted
    ensures k in Counts(s, c) <==>
            LeavesBy(s.clauses, |s.clauses| - 1, c, k) || (c == Normal && !HasDefault(s.clauses) && k == 0)
  {
    SwitchEquation(s, c, k);
    forall i: nat | i < |s.clauses|
      ensures EntersAt(s, i, c, k) <==> k in Exits(s.clauses[i..], c)
    {
      QuietHeads(s, TestsBefore(s.clauses, i));
      SumsetZero(Exits(s.clauses[i..], c));
    }
    QuietHeads(s, Tests(s.clauses));
    if i: nat :| EntersAt(s, i, c, k) {
      assert i <= |s.clauses| - 1 && k in Exits(s.clauses[i..], c);
    }
  }

  ghost function Part(x: PathSets, c: Completion): iset<nat> { if c == Normal then x.alive else x.bare }

  lemma {:induction false} MergedMember(clauses: seq<Clause>, m: nat, c: Completion, k: nat)
    requires m < |clauses| && (c == Normal || c == ReturnedVoid)
    ensures k in Part(MergedSets(clauses, m), c) <==> LeavesBy(clauses, m, c, k)
  {
    if m > 0 {
      MergedMember(clauses, m - 1, c, k);
      LeavesByStep(clauses, m, c, k);
    }
  }

  lemma {:induction false} MergedUnbroken(clauses: seq<Clause>, m: nat)
    requires m < |clauses|
    ensures MergedSets(clauses, m).broken == iset{}
  {
    if m > 0 {
      MergedUnbroken(clauses, m - 1);
      EmptyUnion(iset{});
    }
  }

  lemma LeavesByStep(clauses: seq<Clause>, m: nat, c: Completion, k: nat)
    requires 0 < m < |clauses|
    ensures LeavesBy(clauses, m, c, k) <==> LeavesBy(clauses, m - 1, c, k) || k in Exits(clauses[m..], c)
  {
    if i: nat :| i <= m - 1 && i < |clauses| && k in Exits(clauses[i..], c) {
      assert i <= m;
    }
  }

  lemma SwitchPart(s: Stmt, c: Completion, k: nat)
    requires QuietSwitch(s) && s.clauses != [] && (c == Normal || c == ReturnedVoid)
    ensures k in Counts(s, c) <==>
            k in Part(MergedSets(s.clauses, |s.clauses| - 1), c) || (c == Normal && !HasDefault(s.clauses) && k == 0)
  {
    SwitchMember(s, c, k);
    MergedMember(s.clauses, |s.clauses| - 1, c, k);
  }

  lemma SwitchAlive(s: Stmt)
    requires QuietSwitch(s) && s.clauses != []
    ensures Counts(s, Normal) ==
            MergedSets(s.clauses, |s.clauses| - 1).alive + (if HasDefault(s.clauses) then iset{} else iset{0})
  {
    forall k: nat
      ensures k in Counts(s, Normal) <==>
              k in MergedSets(s.clauses, |s.clauses| - 1).alive || (!HasDefault(s.clauses) && k == 0)
    {
      SwitchPart(s, Normal, k);
    }
  }

  lemma SwitchBare(s: Stmt)
    requires QuietSwitch(s) && s.clauses != []
    ensures Counts(s, ReturnedVoid) == MergedSets(s.clauses, |s.clauses| - 1).bare
  {
    forall k: nat ensures k in Counts(s, ReturnedVoid) <==> k in MergedSets(s.clauses, |s.clauses| - 1).bare {
      SwitchPart(s, ReturnedVoid, k);
    }
  }

  lemma SwitchBroken(s: Stmt)
    requires QuietSwitch(s) && s.clauses != []
    ensures Counts(s, Broke) == MergedSets(s.clauses, |s.clauses| - 1).broken == iset{}
  {
    forall k: nat ensures !Completes(s, Broke, k) {
    }
    MergedUnbroken(s.clauses, |s.clauses| - 1);
  }

  lemma SwitchSets(s: Stmt)
    requires QuietSwitch(s) && s.clauses != []
    ensures var merged := MergedSets(s.clauses, |s.clauses| - 1);
            SetsOf(s) == if HasDefault(s.clauses) then merged else merged.Or(Idle)
  {
    var merged := MergedSets(s.clauses, |s.clauses| - 1);
    SwitchAlive(s);
    SwitchBare(s);
    SwitchBroken(s);
    EmptyUnion(merged.alive);
    EmptyUnion(merged.bare);
    EmptyUnion(merged.broken);
  }

  lemma {:induction false} SwitchExact(s: Stmt)
    requires s.Switch? && Plain(s, false)
    ensures Matches(StateOf(Amended, s), SetsOf(s)) && !StateOf(Amended, s).broke
    decreases s, 0
  {
    IdleMatches();
    if s.clauses == [] {
      EmptySwitch(s);
    } else {
      var n := |s.clauses|;
      MergedExact(s.clauses, n - 1);
      MergeMatches(MergedStates(Amended, s.clauses, n - 1), MergedSets(s.clauses, n - 1), PassThrough, Idle);
      SwitchSets(s);
    }
  }

  lemma EmptySwitch(s: Stmt)
    requires QuietSwitch(s) && s.clauses == []
    ensures SetsOf(s) == Idle
  {
    forall k: nat, c | c != Faulted ensures k in Counts(s, c) <==> c == Normal && k == 0 {
      SwitchMember(s, c, k);
    }
  }

  // ----- The exact constructor status -----

  /** The call counts of the runs a constructor is judged by. */
  ghost function Judged(body: seq<Stmt>): iset<nat> {
    CountsList(body, Normal) + CountsList(body, ReturnedVoid)
  }

  /** The status the runs call for: a constructor that always exits cleanly is fine. */
  ghost function TrueStatus(body: seq<Stmt>): SuperCallStatus {
    if Judged(body) == iset{} then SuperAlways else Alpha(Judged(body))
  }

  /** The amended status is the true one. */
  lemma {:induction false} AmendedExact(body: seq<Stmt>)
    requires forall s :: s in body ==> Plain(s, false)
    ensures AmendedStatus(body) == TrueStatus(body)
  {
    var st, x := SeqState(Amended, PassThrough, body), SetsOfList(body);
    ListExact(body, false);
    AbstractsUnion(st.aliveExists, st.aliveSuper, x.alive, st.bareExitExists, st.bareExitSuper, x.bare);
  }

  // ----- Where the last alive paths are when none is left -----

  /** The calls made by the paths that reach the first statement that cannot complete normally. */
  ghost function Arriving(stmts: seq<Stmt>): iset<nat>
    decreases stmts, 0
  {
    if stmts == [] then iset{}
    else if Normal in Out(stmts[0]) then Sumset(Counts(stmts[0], Normal), Arriving(stmts[1..]))
    else ArrivingIn(stmts[0])
  }

  /** Inside such a statement: in a block or label, past the test of an if, in a switch that is only a
      default clause; elsewhere at its start. */
  ghost function ArrivingIn(s: Stmt): iset<nat>
    decreases s, 1
  {
    match s
    case Block(stmts) => Arriving(stmts)
    case If(cond, _, _) => PathCounts(cond)
    case Labeled(body) => ArrivingIn(body)
    case Switch(_, clauses) => if |clauses| == 1 && clauses[0].Default? then Arriving(clauses[0].body) else iset{0}
    case _ => iset{0}
  }

  lemma AliveIsNormal(stmts: seq<Stmt>, inClause: bool)
    requires forall s :: s in stmts ==> Plain(s, inClause)
    ensures SeqState(Amended, PassThrough, stmts).aliveExists <==> Normal in OutList(stmts)
  {
    ListExact(stmts, inClause);
    OutListExact(stmts, Normal);
    CanListNonempty(stmts, Normal);
  }

  lemma StateAlive(s: Stmt, inClause: bool)
    requires Plain(s, inClause)
    ensures StateOf(Amended, s).aliveExists <==> Normal in Out(s)
  {
    StateExact(s, inClause);
    OutExact(s, Normal);
    if Can(s, Normal) {
      var k :| Completes(s, Normal, k);
      assert k in Counts(s, Normal);
    } else {
      assert forall k: nat :: !Completes(s, Normal, k);
      assert Counts(s, Normal) == iset{};
    }
  }

  /** Then the stale count is Alpha of theirs. */
  lemma {:induction false} SeqStale(acc: PathState, x: iset<nat>, stmts: seq<Stmt>, inClause: bool)
    requires (forall s :: s in stmts ==> Plain(s, inClause)) && acc.aliveExists && !acc.broke
    requires x != iset{} && acc.aliveSuper == Alpha(x)
    ensures var st := SeqState(Amended, acc, stmts);
            !st.aliveExists && !st.broke ==> Arriving(stmts) != iset{} && st.aliveSuper == Alpha(Sumset(x, Arriving(stmts)))
    decreases stmts, 0
  {
    if stmts != [] {
      var s, rest := stmts[0], stmts[1..];
      var next := ComposeSequential(acc, StateOf(Amended, s));
      StateAlive(s, inClause);
      if next.aliveExists && !next.broke {
        StateExact(s, inClause);
        var now := Counts(s, Normal);
        ComposeIsSumset(x, now);
        SumsetEmpty(x, now);
        SeqStale(next, Sumset(x, now), rest, inClause);
        SumsetAssociative(x, now, Arriving(rest));
        SumsetEmpty(now, Arriving(rest));
      } else if !next.aliveExists && !next.broke {
        InStale(s, inClause);
        ComposeIsSumset(x, ArrivingIn(s));
      }
    }
  }

  lemma {:induction false} InStale(s: Stmt, inClause: bool)
    requires Plain(s, inClause) && !StateOf(Amended, s).aliveExists && !StateOf(Amended, s).broke
    ensures ArrivingIn(s) != iset{} && StateOf(Amended, s).aliveSuper == Alpha(ArrivingIn(s))
    decreases s, 1
  {
    AlphaZero();
    match s
    case Block(stmts) => ListStale(stmts, inClause);
    case If(cond, _, _) =>
      CountedExact(cond);
      PathCountsNonempty(cond);
    case Switch(_, clauses) => SwitchStale(s);
    case Try(_, _, finalizer) =>
      if finalizer.SomeBlock? {
        ListExact(finalizer.body, false);
        QuietList(finalizer.body);
      }
    case Labeled(body) => InStale(body, inClause);
    case Var(decls) => StepAllCounts(PassThrough, decls);
    case _ =>
  }

  lemma {:induction false} ListStale(stmts: seq<Stmt>, inClause: bool)
    requires forall s :: s in stmts ==> Plain(s, inClause)
    ensures var st := SeqState(Amended, PassThrough, stmts);
            !st.aliveExists && !st.broke ==> Arriving(stmts) != iset{} && st.aliveSuper == Alpha(Arriving(stmts))
    decreases stmts, 1
  {
    AlphaZero();
    SumsetZero(Arriving(stmts));
    SeqStale(PassThrough, iset{0}, stmts, inClause);
  }

  lemma {:induction false} SwitchStale(s: Stmt)
    requires s.Switch? && Plain(s, false) && !StateOf(Amended, s).aliveExists
    ensures ArrivingIn(s) != iset{} && StateOf(Amended, s).aliveSuper == Alpha(ArrivingIn(s))
    decreases s, 0
  {
    AlphaZero();
    var clauses := s.clauses;
    assert clauses != [] && HasDefault(clauses);
    var c :| c in clauses && c.Default?;
    if |clauses| == 1 {
      assert clauses[0] == c;
      ListStale(c.body, true);
      assert MergedStates(Amended, clauses, 0) == EntryState(Amended, clauses, 0);
      assert EntryState(Amended, clauses, 1) == PassThrough;
    } else {
      assert MergedStates(Amended, clauses, |clauses| - 1) ==
             MergeBranches(MergedStates(Amended, clauses, |clauses| - 2), EntryState(Amended, clauses, |clauses| - 1));
    }
  }
}

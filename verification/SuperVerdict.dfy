/** internal/astflow/super_call.go: when the verdict on a constructor is right, whatever its
    body contains. */
module SuperVerdict {
  import opened Options
  import opened Syntax
  import opened Completions
  import opened Paths
  import opened SuperCount
  import opened SuperFlow
  import opened SuperExact
  import opened Tallies

  predicate IsJudged(end: Completion) { end == Normal || end == ReturnedVoid }

  /** The call counts, two standing for more, that a constructor is judged by. */
  function JudgedCosts(body: seq<Stmt>): set<nat> {
    Ending(Normal, TalliesOfList(body)) + Ending(ReturnedVoid, TalliesOfList(body))
  }

  /** The status they call for. */
  function StatusOf(costs: set<nat>): SuperCallStatus {
    if costs == {} then SuperAlways
    else if 2 in costs then SuperMultiple
    else if 0 in costs && 1 in costs then SuperSome
    else if 1 in costs then SuperAlways
    else SuperNone
  }

  lemma JudgedExact(body: seq<Stmt>)
    ensures forall k :: k in Judged(body) ==> Cap(k) in JudgedCosts(body)
    ensures forall c :: c in JudgedCosts(body) ==> IsCap(c, Judged(body))
  {
    forall k | k in Judged(body) ensures Cap(k) in JudgedCosts(body) {
      var r :| RunsList(body, r) && IsJudged(r.end) && r.calls == k;
      ListTallied(body, r);
      EndingHas(TalliesOfList(body), Of(r));
      assert IsJudged(r.end);
      assert r.end == Normal || r.end == ReturnedVoid;
    }
    forall c | c in JudgedCosts(body) ensures IsCap(c, Judged(body)) {
      var end := if c in Ending(Normal, TalliesOfList(body)) then Normal else ReturnedVoid;
      var r := ListFound(body, Tally(end, c));
      assert CompletesList(body, end, r.calls);
      assert r.calls in Judged(body);
    }
  }

  lemma EndingHas(ts: set<Tally>, t: Tally)
    requires t in ts && t.calls <= 2
    ensures t.calls in Ending(t.end, ts)
  {
    assert Tally(t.end, t.calls) == t && t.calls in Caps;
  }

  /** The true status is computed from the syntax: loops, try and jumps at any depth. */
  lemma {:induction false} TrueStatusExact(body: seq<Stmt>)
    ensures TrueStatus(body) == StatusOf(JudgedCosts(body))
  {
    JudgedExact(body);
    CappedStatus(JudgedCosts(body), Judged(body));
  }

  lemma CappedStatus(caps: set<nat>, counts: iset<nat>)
    requires Capped(caps, counts)
    ensures StatusOf(caps) == if counts == iset{} then SuperAlways else Alpha(counts)
  {
    if caps == {} {
      assert forall k :: k in counts ==> Cap(k) in caps;
    } else {
      var c :| c in caps;
      assert IsCap(c, counts);
    }
    forall k | k == 0 || k == 1 ensures k in caps <==> k in counts {
      if k in caps {
        assert IsCap(k, counts);
      }
      if k in counts {
        assert Cap(k) == k;
      }
    }
    if 2 in caps {
      assert IsCap(2, counts);
    }
    if k :| k in counts && k >= 2 {
      assert Cap(k) == 2;
    }
  }

  /** For any body: every judged run makes a number of super calls that the verdict allows
      exactly when the verdict allows each computed count. */
  lemma {:induction false} VerdictExact(body: seq<Stmt>)
    ensures (forall r :: RunsList(body, r) && IsJudged(r.end) ==> Within(r.calls, ConstructorSuperCallStatus(body))) <==>
            forall k :: k in JudgedCosts(body) ==> Within(k, ConstructorSuperCallStatus(body))
  {
    var verdict := ConstructorSuperCallStatus(body);
    if forall k :: k in JudgedCosts(body) ==> Within(k, verdict) {
      forall r | RunsList(body, r) && IsJudged(r.end) ensures Within(r.calls, verdict) {
        ListTallied(body, r);
        assert Cap(r.calls) in JudgedCosts(body);
      }
    }
    if forall r :: RunsList(body, r) && IsJudged(r.end) ==> Within(r.calls, verdict) {
      forall k | k in JudgedCosts(body) ensures Within(k, verdict) {
        var end := if k in Ending(Normal, TalliesOfList(body)) then Normal else ReturnedVoid;
        var r := ListFound(body, Tally(end, k));
        assert Within(r.calls, verdict);
      }
    }
  }

  // ----- Constructors outside what the analysis follows -----

  /** The body has a judged run with so many calls, which the verdict does not allow. */
  ghost predicate Misjudged(body: seq<Stmt>, verdict: SuperCallStatus, calls: nat) {
    ConstructorSuperCallStatus(body) == verdict && !Within(calls, verdict) &&
    exists r :: RunsList(body, r) && IsJudged(r.end) && r.calls == calls
  }

  const SuperNow: Stmt := Simple(SuperCall([]))

  const OneCall: Run := Leaf(Normal, 1)

  lemma OneCallRuns()
    ensures Runs(SuperNow, OneCall) && InExpr(SuperCall([])) == SuperAlways && 1 in PathCounts(SuperCall([]))
  {
    SumsetMember(iset{0}, iset{1}, 0, 1);
    assert PathCountsAll([]) == iset{0};
  }

  lemma AloneState(acc: PathState, s: Stmt)
    ensures SeqState(AsWritten, acc, [s]) == ComposeSequential(acc, StateOf(AsWritten, s))
  {
    assert [s][1..] == [];
  }

  lemma PairState(s: Stmt, t: Stmt)
    requires StateOf(AsWritten, s).aliveExists && !StateOf(AsWritten, s).broke
    ensures SeqState(AsWritten, PassThrough, [s, t]) ==
            ComposeSequential(ComposeSequential(PassThrough, StateOf(AsWritten, s)), StateOf(AsWritten, t))
  {
    assert [s, t][1..] == [t];
    AloneState(ComposeSequential(PassThrough, StateOf(AsWritten, s)), t);
  }

  /** A constructor of one statement. */
  lemma AloneStatus(s: Stmt)
    ensures ConstructorSuperCallStatus([s]) ==
            Finalize(ComposeSequential(PassThrough, ComposeSequential(PassThrough, StateOf(AsWritten, s))))
  {
    AloneState(PassThrough, s);
  }

  lemma Misjudge(s: Stmt, verdict: SuperCallStatus, r: Run)
    requires ConstructorSuperCallStatus([s]) == verdict && !Within(r.calls, verdict) && Runs(s, r) && IsJudged(r.end)
    ensures Misjudged([s], verdict, r.calls)
  {
    AloneRuns(s, r);
  }

  lemma AloneRuns(s: Stmt, r: Run)
    requires Runs(s, r)
    ensures RunsList([s], if r.end == Normal then Join(Normal, r.calls, r, Skip) else r)
  {
    assert [s][1..] == [];
  }

  lemma PairRuns(s: Stmt, t: Stmt, p: Run, q: Run)
    requires Runs(s, p) && p.end == Normal && Runs(t, q) && q.end != Normal
    ensures RunsList([s, t], Both(p, q))
  {
    AloneRuns(t, q);
    assert [s, t][1..] == [t];
  }

  /** `try { super(); throw x; } catch { super(); }` is SuperAlways, yet calls super twice: the
      catch block is counted as if nothing had run before it. */
  lemma CatchIsUnsound()
    ensures Misjudged([Try([SuperNow, Throw(Atom)], Catch([], [SuperNow]), NoBlock)], SuperAlways, 2)
  {
    CatchStatus(Try([SuperNow, Throw(Atom)], Catch([], [SuperNow]), NoBlock));
    OneCallRuns();
    ThrowRuns(Atom);
    CatchMisjudged(SuperNow, OneCall, Throw(Atom), Leaf(Threw, 0));
  }

  lemma ThrowRuns(e: Expr)
    requires 0 in PathCounts(e)
    ensures Runs(Throw(e), Leaf(Threw, 0))
  {
  }

  lemma CatchMisjudged(now: Stmt, p: Run, thrown: Stmt, q: Run)
    requires Runs(now, p) && p.end == Normal && p.calls == 1 && Runs(thrown, q) && IsThrow(q.end) && q.calls == 0
    requires ConstructorSuperCallStatus([Try([now, thrown], Catch([], [now]), NoBlock)]) == SuperAlways
    ensures Misjudged([Try([now, thrown], Catch([], [now]), NoBlock)], SuperAlways, 2)
  {
    CatchRuns(now, p, thrown, q);
    Misjudge(Try([now, thrown], Catch([], [now]), NoBlock), SuperAlways, Both(Both(p, q), Both(Skip, Both(p, Skip))));
  }

  lemma CatchStatus(s: Stmt)
    requires s == Try([SuperNow, Throw(Atom)], Catch([], [SuperNow]), NoBlock)
    ensures ConstructorSuperCallStatus([s]) == SuperAlways
  {
    OneCallRuns();
    assert StateOf(AsWritten, SuperNow) == PathState(SuperAlways, true, SuperNone, false, false, false);
    assert StateOf(AsWritten, Throw(Atom)) == PathState(SuperNone, false, SuperNone, false, true, false);
    PairState(SuperNow, Throw(Atom));
    AloneState(PassThrough, SuperNow);
    AloneStatus(s);
  }

  lemma CatchRuns(now: Stmt, p: Run, thrown: Stmt, q: Run)
    requires Runs(now, p) && p.end == Normal && Runs(thrown, q) && IsThrow(q.end)
    ensures Runs(Try([now, thrown], Catch([], [now]), NoBlock), Both(Both(p, q), Both(Skip, Both(p, Skip))))
  {
    PairRuns(now, thrown, p, q);
    AloneRuns(now, p);
    BoundRuns(Catch([], [now]), Both(p, Skip));
    CaughtRuns(Try([now, thrown], Catch([], [now]), NoBlock), Both(p, q), Both(Skip, Both(p, Skip)));
  }

  lemma BoundRuns(h: Handler, r: Run)
    requires h.Catch? && h.binding == [] && RunsList(h.body, r)
    ensures RunsCatch(h, Both(Skip, r))
  {
  }

  lemma CaughtRuns(s: Stmt, first: Run, second: Run)
    requires s.Try? && s.handler.Catch? && s.finalizer.NoBlock?
    requires RunsList(s.block, first) && IsThrow(first.end) && RunsCatch(s.handler, second)
    ensures Runs(s, Both(first, second))
  {
    assert RunsGuarded(s, Both(first, second));
  }

  /** `try { return x; } catch { return x; } finally { return; }` is SuperAlways, yet returns bare
      without super: no path is thought to reach the finally block. */
  lemma FinallyIsUnsound()
    ensures Misjudged([Try([Return(Some(Atom))], Catch([], [Return(Some(Atom))]), SomeBlock([Return(None)]))], SuperAlways, 0)
  {
    var s := Try([Return(Some(Atom))], Catch([], [Return(Some(Atom))]), SomeBlock([Return(None)]));
    FinallyStatus(s);
    AloneRuns(Return(Some(Atom)), Leaf(Returned, 0));
    AloneRuns(Return(None), Leaf(ReturnedVoid, 0));
    var r := Join(ReturnedVoid, 0, Leaf(Returned, 0), Leaf(ReturnedVoid, 0));
    assert RunsGuarded(s, r.first);
    Misjudge(s, SuperAlways, r);
  }

  lemma FinallyStatus(s: Stmt)
    requires s == Try([Return(Some(Atom))], Catch([], [Return(Some(Atom))]), SomeBlock([Return(None)]))
    ensures ConstructorSuperCallStatus([s]) == SuperAlways
  {
    AloneState(PassThrough, Return(Some(Atom)));
    AloneState(PassThrough, Return(None));
    AloneStatus(s);
  }

  /** `for (super(); x;) {}` is SuperNone, yet calls super: the head of a loop is not counted. */
  lemma LoopHeadIsUnsound()
    ensures Misjudged([Loop(Header([SuperCall([])], [Atom], [], []), Block([]))], SuperNone, 1)
  {
    var h := Header([SuperCall([])], [Atom], [], []);
    QuietLoop(h);
    OneCallRuns();
    OneCount(h.init);
    OneCount(h.test);
    NoTurns(h, OneCall, Skip);
    Misjudge(Loop(h, Block([])), SuperNone, Both(OneCall, Skip));
  }

  lemma QuietLoop(h: Header)
    ensures ConstructorSuperCallStatus([Loop(h, Block([]))]) == SuperNone
  {
    AloneStatus(Loop(h, Block([])));
    assert StateOf(AsWritten, Block([])) == PassThrough;
  }

  /** The loop is left before its first round. */
  lemma NoTurns(h: Header, first: Run, test: Run)
    requires EvaluatesAll(h.init, first) && first.end == Normal && h.test != [] && EvaluatesAll(h.test, test)
    ensures Runs(Loop(h, Block([])), Both(first, test))
  {
    LoopRuns(Loop(h, Block([])), first, test);
  }

  /** `switch (super()) {}` is SuperNone as well. */
  lemma SwitchHeadIsUnsound()
    ensures Misjudged([Switch(SuperCall([]), [])], SuperNone, 1)
  {
    QuietSwitch(SuperCall([]));
    OneCallRuns();
    HeadRuns(Switch(SuperCall([]), []), OneCall);
    Misjudge(Switch(SuperCall([]), []), SuperNone, Both(OneCall, Skip));
  }

  lemma QuietSwitch(head: Expr)
    ensures ConstructorSuperCallStatus([Switch(head, [])]) == SuperNone
  {
    AloneStatus(Switch(head, []));
  }

  lemma OneCount(es: seq<Expr>)
    requires |es| == 1
    ensures PathCountsAll(es) == PathCounts(es[0])
  {
    var rest := es[1..];
    assert PathCountsAll(es) == Sumset(PathCounts(es[0]), PathCountsAll(rest));
    assert PathCountsAll(rest) == iset{0};
    SumsetZero(PathCounts(es[0]));
  }

  lemma HeadRuns(s: Stmt, r: Run)
    requires s.Switch? && s.clauses == [] && Evaluates(PathCounts(s.head), r) && r.end == Normal
    ensures Runs(s, Both(r, Skip))
  {
    OneCount([s.head] + Tests(s.clauses));
    NoClauseRuns(s, r);
  }

  lemma NoClauseRuns(s: Stmt, r: Run)
    requires s.Switch? && !HasDefault(s.clauses) && Evaluates(PathCountsAll([s.head] + Tests(s.clauses)), r) && r.end == Normal
    ensures Runs(s, Both(r, Skip))
  {
  }

  // Loops that call super, outside what SuperSound allows

  /** `while (x) { if (x) { super(); break; } }` is SuperNone, yet calls super: no path is thought to
      come out of the branch. */
  lemma LoopBreakIsUnsound(h: Header, x: Expr)
    requires Bare(h) && InExpr(x) == SuperNone && 0 in PathCounts(x)
    ensures Misjudged([Loop(h, If(x, Block([SuperNow, Break]), None))], SuperNone, 1)
  {
    CallCompletes();
    BreakStatus(Block([SuperNow, Break]));
    ThenCompletes(SuperNow, Break, 1, Broke);
    BreaksRound(h, x, Block([SuperNow, Break]));
  }

  lemma BreaksRound(h: Header, x: Expr, thn: Stmt)
    requires Bare(h) && InExpr(x) == SuperNone && 0 in PathCounts(x) && Completes(thn, Broke, 1)
    requires StateOf(AsWritten, thn) == PathState(SuperAlways, false, SuperNone, false, false, true)
    ensures Misjudged([Loop(h, If(x, thn, None))], SuperNone, 1)
  {
    BranchesState(If(x, thn, None));
    AloneStatus(Loop(h, If(x, thn, None)));
    BranchCompletes(If(x, thn, None), Broke, 1);
    StopCompletes(h, If(x, thn, None), Broke, 1);
    AloneMisjudged(Loop(h, If(x, thn, None)), SuperNone, Normal, 1);
  }

  lemma BreakStatus(s: Stmt)
    requires s == Block([SuperNow, Break])
    ensures StateOf(AsWritten, s) == PathState(SuperAlways, false, SuperNone, false, false, true)
  {
    OneCallRuns();
    assert StateOf(AsWritten, SuperNow) == PathState(SuperAlways, true, SuperNone, false, false, false);
    PairState(SuperNow, Break);
  }

  lemma BranchesState(s: Stmt)
    requires s.If? && InExpr(s.cond) == SuperNone
    ensures StateOf(AsWritten, s) ==
            ComposeSequential(PassThrough, MergeBranches(StateOf(AsWritten, s.thn),
                                                         if s.els.Some? then StateOf(AsWritten, s.els.value) else PassThrough))
  {
  }

  /** `if (x) { while (x) { if (x) super(); else return; } throw x; } else super();` is SuperSome,
      yet returns bare after two calls: the calls of earlier rounds are counted for the paths that go
      on after the loop, and none comes out of the branch. */
  lemma LoopReturnIsUnsound(h: Header, x: Expr, leave: Stmt)
    requires Bare(h) && InExpr(x) == SuperNone && 0 in PathCounts(x) && leave == Throw(x)
    ensures Misjudged([If(x, Block([Loop(h, If(x, SuperNow, Some(Return(None)))), leave]), Some(SuperNow))], SuperSome, 2)
  {
    CallCompletes();
    LateStatus(h, x, SuperNow, leave);
    ReturnsLater(h, x, SuperNow, leave, SuperSome);
  }

  lemma LateStatus(h: Header, x: Expr, call: Stmt, leave: Stmt)
    requires InExpr(x) == SuperNone && leave == Throw(x) && call == SuperNow
    ensures ConstructorSuperCallStatus([If(x, Block([Loop(h, If(x, call, Some(Return(None)))), leave]), Some(call))]) == SuperSome
  {
    var body := If(x, call, Some(Return(None)));
    CallState(call);
    ReturnState(body);
    PairState(Loop(h, body), leave);
    LeavesState(Loop(h, body), x, leave);
    BranchesState(If(x, Block([Loop(h, body), leave]), Some(call)));
    AloneStatus(If(x, Block([Loop(h, body), leave]), Some(call)));
  }

  lemma CallState(call: Stmt)
    requires call == SuperNow
    ensures StateOf(AsWritten, call) == PathState(SuperAlways, true, SuperNone, false, false, false)
  {
    OneCallRuns();
  }

  lemma ReturnState(s: Stmt)
    requires s.If? && InExpr(s.cond) == SuperNone && s.els == Some(Return(None))
    requires StateOf(AsWritten, s.thn) == PathState(SuperAlways, true, SuperNone, false, false, false)
    ensures StateOf(AsWritten, s) == PathState(SuperAlways, true, SuperNone, true, false, false)
  {
    BranchesState(s);
  }

  lemma LeavesState(s: Stmt, x: Expr, leave: Stmt)
    requires StateOf(AsWritten, s) == PathState(SuperMultiple, true, SuperNone, true, false, false)
    requires leave == Throw(x) && InExpr(x) == SuperNone
    ensures StateOf(AsWritten, Block([s, leave])) == PathState(SuperMultiple, false, SuperNone, true, true, false)
  {
    PairState(s, leave);
  }

  lemma ReturnsLater(h: Header, e: Expr, call: Stmt, leave: Stmt, verdict: SuperCallStatus)
    requires Bare(h) && 0 in PathCounts(e) && Completes(call, Normal, 1) && !Within(2, verdict)
    requires ConstructorSuperCallStatus([If(e, Block([Loop(h, If(e, call, Some(Return(None)))), leave]), Some(call))]) == verdict
    ensures Misjudged([If(e, Block([Loop(h, If(e, call, Some(Return(None)))), leave]), Some(call))], verdict, 2)
  {
    var body := If(e, call, Some(Return(None)));
    ReturnsAtOnce(body);
    BranchCompletes(body, Normal, 1);
    BranchCompletes(body, ReturnedVoid, 0);
    ThirdRound(h, body);
    InBranch(e, Loop(h, body), leave, call, verdict);
  }

  lemma ReturnsAtOnce(s: Stmt)
    requires s.If? && s.els == Some(Return(None))
    ensures Completes(s.els.value, ReturnedVoid, 0)
  {
    assert Runs(s.els.value, Leaf(ReturnedVoid, 0));
  }

  lemma ThirdRound(h: Header, body: Stmt)
    requires Bare(h) && Completes(body, Normal, 1) && Completes(body, ReturnedVoid, 0)
    ensures Completes(Loop(h, body), ReturnedVoid, 2)
  {
    StopCompletes(h, body, ReturnedVoid, 0);
    MoreCompletes(h, body, 1, ReturnedVoid, 0);
    MoreCompletes(h, body, 1, ReturnedVoid, 1);
  }

  lemma InBranch(e: Expr, s: Stmt, leave: Stmt, els: Stmt, verdict: SuperCallStatus)
    requires 0 in PathCounts(e) && Completes(s, ReturnedVoid, 2) && !Within(2, verdict)
    requires ConstructorSuperCallStatus([If(e, Block([s, leave]), Some(els))]) == verdict
    ensures Misjudged([If(e, Block([s, leave]), Some(els))], verdict, 2)
  {
    FirstCompletes(s, leave, ReturnedVoid, 2);
    BranchCompletes(If(e, Block([s, leave]), Some(els)), ReturnedVoid, 2);
    AloneMisjudged(If(e, Block([s, leave]), Some(els)), verdict, ReturnedVoid, 2);
  }

  /** Nothing but a test, which makes no call. */
  ghost predicate Bare(h: Header) {
    h.init == [] && h.test != [] && 0 in PathCountsAll(h.test) && h.binding == [] && h.step == []
  }

  lemma CallCompletes()
    ensures Completes(SuperNow, Normal, 1) && Completes(Break, Broke, 0)
  {
    OneCallRuns();
    assert Runs(Break, Leaf(Broke, 0));
  }

  lemma AloneMisjudged(s: Stmt, verdict: SuperCallStatus, c: Completion, k: nat)
    requires ConstructorSuperCallStatus([s]) == verdict && !Within(k, verdict) && Completes(s, c, k) && IsJudged(c)
    ensures Misjudged([s], verdict, k)
  {
    var r :| Runs(s, r) && r.end == c && r.calls == k;
    Misjudge(s, verdict, r);
  }

  lemma ThenCompletes(s: Stmt, t: Stmt, k: nat, c: Completion)
    requires Completes(s, Normal, k) && Completes(t, c, 0) && c != Normal
    ensures Completes(Block([s, t]), c, k)
  {
    var p :| Runs(s, p) && p.end == Normal && p.calls == k;
    var q :| Runs(t, q) && q.end == c && q.calls == 0;
    PairRuns(s, t, p, q);
    assert Runs(Block([s, t]), Both(p, q));
  }

  lemma FirstCompletes(s: Stmt, t: Stmt, c: Completion, k: nat)
    requires Completes(s, c, k) && c != Normal
    ensures Completes(Block([s, t]), c, k)
  {
    var r :| Runs(s, r) && r.end == c && r.calls == k;
    assert Runs(Block([s, t]), r);
  }

  lemma BranchCompletes(s: Stmt, c: Completion, k: nat)
    requires s.If? && 0 in PathCounts(s.cond) && (Completes(s.thn, c, k) || (s.els.Some? && Completes(s.els.value, c, k)))
    ensures Completes(s, c, k)
  {
    var r: Run :| (Runs(s.thn, r) || (s.els.Some? && Runs(s.els.value, r))) && r.end == c && r.calls == k;
    assert Evaluates(PathCounts(s.cond), Skip);
    assert Runs(s, Both(Skip, r));
  }

  /** A round can end the loop. */
  lemma StopCompletes(h: Header, body: Stmt, c: Completion, k: nat)
    requires Bare(h) && Completes(body, c, k) && c != Normal && c != Continued
    ensures Completes(Loop(h, body), AfterBreak(c), k)
  {
    var q :| Runs(body, q) && q.end == c && q.calls == k;
    var r := Join(AfterBreak(c), k, Both(Skip, q), Skip);
    StopRuns(h, body, q);
    LoopRuns(Loop(h, body), Skip, r);
    assert Runs(Loop(h, body), Both(Skip, r));
  }

  lemma StopRuns(h: Header, body: Stmt, q: Run)
    requires Bare(h) && Runs(body, q) && q.end != Normal && q.end != Continued
    ensures RunsLoop(h, body, Join(AfterBreak(q.end), q.calls, Both(Skip, q), Skip))
  {
    Enters(h);
  }

  /** Or the loop goes on after it. */
  lemma MoreCompletes(h: Header, body: Stmt, k: nat, c: Completion, rest: nat)
    requires Bare(h) && Completes(body, Normal, k) && Completes(Loop(h, body), c, rest)
    ensures Completes(Loop(h, body), c, k + rest)
  {
    var p :| Runs(body, p) && p.end == Normal && p.calls == k;
    var q :| Runs(Loop(h, body), q) && q.end == c && q.calls == rest;
    MoreRuns(h, body, p, q.second);
    LoopRuns(Loop(h, body), Skip, Both(Both(Skip, p), Both(Skip, q.second)));
    assert Runs(Loop(h, body), Both(Skip, Both(Both(Skip, p), Both(Skip, q.second))));
  }

  lemma MoreRuns(h: Header, body: Stmt, p: Run, rest: Run)
    requires Bare(h) && Runs(body, p) && p.end == Normal && RunsLoop(h, body, rest)
    ensures RunsLoop(h, body, Both(Both(Skip, p), Both(Skip, rest)))
  {
    var r := Both(Both(Skip, p), Both(Skip, rest));
    Enters(h);
    assert Chained(r.first) && Chained(r.second) && r.first.second == p && r.second.second == rest;
  }

  lemma Enters(h: Header)
    requires Bare(h)
    ensures EvaluatesAll(h.test + h.binding, Skip) && EvaluatesAll(h.step, Skip)
  {
    assert h.test + h.binding == h.test;
  }
}

/** The collecting semantics: for each statement and completion, the numbers of super
    calls over all runs that complete that way, with one equation per construct. */
module Paths {
  import opened Options
  import opened Syntax
  import opened Completions

  /** Some run of `s` completes with `c` after `k` super calls. */
  ghost predicate Completes(s: Stmt, c: Completion, k: nat) {
    exists r :: Runs(s, r) && r.end == c && r.calls == k
  }

  ghost predicate CompletesList(stmts: seq<Stmt>, c: Completion, k: nat) {
    exists r :: RunsList(stmts, r) && r.end == c && r.calls == k
  }

  ghost predicate CompletesFrom(clauses: seq<Clause>, c: Completion, k: nat) {
    exists r :: RunsFrom(clauses, r) && r.end == c && r.calls == k
  }

  ghost function Counts(s: Stmt, c: Completion): iset<nat> { iset k: nat | Completes(s, c, k) }

  ghost function CountsList(stmts: seq<Stmt>, c: Completion): iset<nat> { iset k: nat | CompletesList(stmts, c, k) }

  ghost function CountsFrom(clauses: seq<Clause>, c: Completion): iset<nat> { iset k: nat | CompletesFrom(clauses, c, k) }

  /** Some run of `s` completes with `c`. */
  ghost predicate Can(s: Stmt, c: Completion) { exists k :: Completes(s, c, k) }

  ghost predicate CanList(stmts: seq<Stmt>, c: Completion) { exists k :: CompletesList(stmts, c, k) }

  lemma CanListNonempty(stmts: seq<Stmt>, c: Completion)
    ensures CanList(stmts, c) <==> CountsList(stmts, c) != iset{}
  {
    assert forall k: nat :: CompletesList(stmts, c, k) ==> k in CountsList(stmts, c);
  }

  // ----- Sumsets -----

  lemma SumsetMember(s: iset<nat>, t: iset<nat>, i: nat, j: nat)
    requires i in s && j in t
    ensures i + j in Sumset(s, t)
  {
    assert i + j - i in t;
    assert IsSum(s, t, i + j);
  }

  lemma SumsetEmpty(s: iset<nat>, t: iset<nat>)
    ensures Sumset(s, t) == iset{} <==> s == iset{} || t == iset{}
  {
    if s != iset{} && t != iset{} {
      var i :| i in s;
      var j :| j in t;
      SumsetMember(s, t, i, j);
    }
  }

  lemma SumsetCommutes(s: iset<nat>, t: iset<nat>)
    ensures Sumset(s, t) == Sumset(t, s)
  {
    forall k: nat, a: iset<nat>, b: iset<nat> | k in Sumset(a, b) ensures k in Sumset(b, a) {
      var i: nat :| i in a && i <= k && k - i in b;
      SumsetMember(b, a, k - i, i);
    }
  }

  lemma SumsetZero(t: iset<nat>)
    ensures Sumset(iset{0}, t) == t && Sumset(t, iset{0}) == t
  {
    forall k: nat ensures k in Sumset(iset{0}, t) <==> k in t {
      if k in t {
        SumsetMember(iset{0}, t, 0, k);
      }
    }
    SumsetCommutes(t, iset{0});
  }

  lemma SumsetAssociative(s: iset<nat>, t: iset<nat>, u: iset<nat>)
    ensures Sumset(Sumset(s, t), u) == Sumset(s, Sumset(t, u))
  {
    forall k: nat ensures k in Sumset(Sumset(s, t), u) <==> k in Sumset(s, Sumset(t, u)) {
      if k in Sumset(Sumset(s, t), u) {
        SumsetRegroups(s, t, u, k);
      }
      if k in Sumset(s, Sumset(t, u)) {
        SumsetCommutes(s, Sumset(t, u));
        SumsetCommutes(t, u);
        SumsetRegroups(u, t, s, k);
        SumsetCommutes(u, Sumset(t, s));
        SumsetCommutes(t, s);
      }
    }
  }

  lemma SumsetRegroups(s: iset<nat>, t: iset<nat>, u: iset<nat>, k: nat)
    requires k in Sumset(Sumset(s, t), u)
    ensures k in Sumset(s, Sumset(t, u))
  {
    var ij: nat :| ij in Sumset(s, t) && ij <= k && k - ij in u;
    var i: nat :| i in s && i <= ij && ij - i in t;
    SumsetMember(t, u, ij - i, k - ij);
    SumsetMember(s, Sumset(t, u), i, k - i);
  }

  lemma {:induction false} PathCountsNonempty(e: Expr)
    ensures PathCounts(e) != iset{}
    decreases e
  {
    match e
    case Atom => assert 0 in PathCounts(e);
    case FunctionLike(heads) => PathCountsAllNonempty(heads);
    case SuperCall(args) =>
      PathCountsAllNonempty(args);
      assert 1 in iset{1 as nat};
      SumsetEmpty(PathCountsAll(args), iset{1});
    case Call(callee, args) =>
      PathCountsNonempty(callee);
      PathCountsAllNonempty(args);
      SumsetEmpty(PathCounts(callee), PathCountsAll(args));
    case Conditional(c, t, f) =>
      PathCountsNonempty(c);
      PathCountsNonempty(t);
      SumsetEmpty(PathCounts(c), PathCounts(t) + PathCounts(f));
    case Logical(l, r) =>
      PathCountsNonempty(l);
      PathCountsNonempty(r);
      SumsetEmpty(PathCounts(l), PathCounts(r) + iset{0});
    case Skipping(first, links) =>
      PathCountsNonempty(first);
      assert 0 in PathCountsLinks(links);
      SumsetEmpty(PathCounts(first), PathCountsLinks(links));
    case Compound(parts) => PathCountsAllNonempty(parts);
  }

  lemma {:induction false} PathCountsAllNonempty(es: seq<Expr>)
    ensures PathCountsAll(es) != iset{}
    decreases es
  {
    if es == [] {
      assert 0 in PathCountsAll(es);
    } else {
      PathCountsNonempty(es[0]);
      PathCountsAllNonempty(es[1..]);
      SumsetEmpty(PathCounts(es[0]), PathCountsAll(es[1..]));
    }
  }

  // ----- One equation per construct -----

  lemma ListEquation(stmts: seq<Stmt>, c: Completion)
    requires stmts != []
    ensures CountsList(stmts, c) ==
            (if c == Normal then iset{} else Counts(stmts[0], c)) +
            Sumset(Counts(stmts[0], Normal), CountsList(stmts[1..], c))
  {
    var rest := stmts[1..];
    forall k: nat
      ensures k in CountsList(stmts, c) <==>
              (c != Normal && k in Counts(stmts[0], c)) || k in Sumset(Counts(stmts[0], Normal), CountsList(rest, c))
    {
      ListEquationAt(stmts, c, k);
    }
  }

  lemma ListEquationAt(stmts: seq<Stmt>, c: Completion, k: nat)
    requires stmts != []
    ensures k in CountsList(stmts, c) <==>
            (c != Normal && k in Counts(stmts[0], c)) ||
            k in Sumset(Counts(stmts[0], Normal), CountsList(stmts[1..], c))
  {
    if k in CountsList(stmts, c) {
      var r :| RunsList(stmts, r) && r.end == c && r.calls == k;
      ListSplits(stmts, r);
    }
    if c != Normal && k in Counts(stmts[0], c) {
      var r :| Runs(stmts[0], r) && r.end == c && r.calls == k;
      assert RunsList(stmts, r);
    }
    if k in Sumset(Counts(stmts[0], Normal), CountsList(stmts[1..], c)) {
      ListJoins(stmts, c, k);
    }
  }

  lemma ListSplits(stmts: seq<Stmt>, r: Run)
    requires stmts != [] && RunsList(stmts, r)
    ensures (r.end != Normal && r.calls in Counts(stmts[0], r.end)) ||
            r.calls in Sumset(Counts(stmts[0], Normal), CountsList(stmts[1..], r.end))
  {
    if !(Runs(stmts[0], r) && r.end != Normal) {
      assert Completes(stmts[0], Normal, r.first.calls);
      assert CompletesList(stmts[1..], r.end, r.second.calls);
      SumsetMember(Counts(stmts[0], Normal), CountsList(stmts[1..], r.end), r.first.calls, r.second.calls);
    }
  }

  lemma ListJoins(stmts: seq<Stmt>, c: Completion, k: nat)
    requires stmts != [] && k in Sumset(Counts(stmts[0], Normal), CountsList(stmts[1..], c))
    ensures k in CountsList(stmts, c)
  {
    var i: nat :| i in Counts(stmts[0], Normal) && i <= k && k - i in CountsList(stmts[1..], c);
    var p :| Runs(stmts[0], p) && p.end == Normal && p.calls == i;
    var q :| RunsList(stmts[1..], q) && q.end == c && q.calls == k - i;
    assert RunsList(stmts, Join(c, k, p, q));
  }

  lemma NilEquation(c: Completion)
    ensures CountsList([], c) == if c == Normal then iset{0} else iset{}
    ensures CountsFrom([], c) == if c == Normal then iset{0} else iset{}
  {
    assert RunsList([], Skip) && RunsFrom([], Skip);
    assert forall k: nat :: k in CountsList([], c) <==> c == Normal && k == 0;
    assert forall k: nat :: k in CountsFrom([], c) <==> c == Normal && k == 0;
  }

  lemma FromEquation(clauses: seq<Clause>, c: Completion)
    requires clauses != []
    ensures CountsFrom(clauses, c) ==
            (if c == Normal then iset{} else CountsList(clauses[0].body, c)) +
            Sumset(CountsList(clauses[0].body, Normal), CountsFrom(clauses[1..], c))
  {
    var body, rest := clauses[0].body, clauses[1..];
    forall k: nat
      ensures k in CountsFrom(clauses, c) <==>
              (c != Normal && k in CountsList(body, c)) || k in Sumset(CountsList(body, Normal), CountsFrom(rest, c))
    {
      FromEquationAt(clauses, c, k);
    }
  }

  lemma FromEquationAt(clauses: seq<Clause>, c: Completion, k: nat)
    requires clauses != []
    ensures k in CountsFrom(clauses, c) <==>
            (c != Normal && k in CountsList(clauses[0].body, c)) ||
            k in Sumset(CountsList(clauses[0].body, Normal), CountsFrom(clauses[1..], c))
  {
    if k in CountsFrom(clauses, c) {
      var r :| RunsFrom(clauses, r) && r.end == c && r.calls == k;
      FromSplits(clauses, r);
    }
    if c != Normal && k in CountsList(clauses[0].body, c) {
      var r :| RunsList(clauses[0].body, r) && r.end == c && r.calls == k;
      assert RunsFrom(clauses, r);
    }
    if k in Sumset(CountsList(clauses[0].body, Normal), CountsFrom(clauses[1..], c)) {
      FromJoins(clauses, c, k);
    }
  }

  lemma FromSplits(clauses: seq<Clause>, r: Run)
    requires clauses != [] && RunsFrom(clauses, r)
    ensures (r.end != Normal && r.calls in CountsList(clauses[0].body, r.end)) ||
            r.calls in Sumset(CountsList(clauses[0].body, Normal), CountsFrom(clauses[1..], r.end))
  {
    if !(RunsList(clauses[0].body, r) && r.end != Normal) {
      assert CompletesList(clauses[0].body, Normal, r.first.calls);
      assert CompletesFrom(clauses[1..], r.end, r.second.calls);
      SumsetMember(CountsList(clauses[0].body, Normal), CountsFrom(clauses[1..], r.end), r.first.calls, r.second.calls);
    }
  }

  lemma FromJoins(clauses: seq<Clause>, c: Completion, k: nat)
    requires clauses != [] && k in Sumset(CountsList(clauses[0].body, Normal), CountsFrom(clauses[1..], c))
    ensures k in CountsFrom(clauses, c)
  {
    var i: nat :| i in CountsList(clauses[0].body, Normal) && i <= k && k - i in CountsFrom(clauses[1..], c);
    var p :| RunsList(clauses[0].body, p) && p.end == Normal && p.calls == i;
    var q :| RunsFrom(clauses[1..], q) && q.end == c && q.calls == k - i;
    assert RunsFrom(clauses, Join(c, k, p, q));
  }

  ghost function ElseCounts(els: Option<Stmt>, c: Completion): iset<nat> {
    if els.Some? then Counts(els.value, c) else if c == Normal then iset{0} else iset{}
  }

  lemma IfEquation(s: Stmt, c: Completion)
    requires s.If? && c != Faulted
    ensures Counts(s, c) == Sumset(PathCounts(s.cond), Counts(s.thn, c) + ElseCounts(s.els, c))
  {
    var branches := Counts(s.thn, c) + ElseCounts(s.els, c);
    forall k: nat ensures k in Counts(s, c) <==> k in Sumset(PathCounts(s.cond), branches) {
      if k in Counts(s, c) {
        var r :| Runs(s, r) && r.end == c && r.calls == k;
        IfSplits(s, r);
      }
      if k in Sumset(PathCounts(s.cond), branches) {
        IfJoins(s, c, k);
      }
    }
  }

  lemma IfSplits(s: Stmt, r: Run)
    requires s.If? && Runs(s, r) && r.end != Faulted
    ensures r.calls in Sumset(PathCounts(s.cond), Counts(s.thn, r.end) + ElseCounts(s.els, r.end))
  {
    assert Chained(r);
    var branches := Counts(s.thn, r.end) + ElseCounts(s.els, r.end);
    assert r.second.calls in branches by {
      if Runs(s.thn, r.second) {
        assert Completes(s.thn, r.end, r.second.calls);
      } else if s.els.Some? {
        assert Completes(s.els.value, r.end, r.second.calls);
      }
    }
    SumsetMember(PathCounts(s.cond), branches, r.first.calls, r.second.calls);
  }

  lemma IfJoins(s: Stmt, c: Completion, k: nat)
    requires s.If? && k in Sumset(PathCounts(s.cond), Counts(s.thn, c) + ElseCounts(s.els, c))
    ensures k in Counts(s, c)
  {
    var branches := Counts(s.thn, c) + ElseCounts(s.els, c);
    var i: nat :| i in PathCounts(s.cond) && i <= k && k - i in branches;
    var q: Run;
    if k - i in Counts(s.thn, c) {
      q :| Runs(s.thn, q) && q.end == c && q.calls == k - i;
    } else if s.els.Some? {
      q :| Runs(s.els.value, q) && q.end == c && q.calls == k - i;
    } else {
      q := Skip;
    }
    assert Runs(s, Join(c, k, Leaf(Normal, i), q));
  }

  /** How control that enters at the first of `clauses` leaves the switch. */
  ghost function Exits(clauses: seq<Clause>, c: Completion): iset<nat> {
    if c == Normal then CountsFrom(clauses, Normal) + CountsFrom(clauses, Broke)
    else if c == Broke then iset{}
    else CountsFrom(clauses, c)
  }

  ghost predicate EntersAt(s: Stmt, i: nat, c: Completion, k: nat)
    requires s.Switch?
  {
    i < |s.clauses| &&
    k in Sumset(PathCountsAll([s.head] + TestsBefore(s.clauses, i)), Exits(s.clauses[i..], c))
  }

  ghost predicate MatchesNone(s: Stmt, c: Completion, k: nat)
    requires s.Switch?
  {
    c == Normal && !HasDefault(s.clauses) && k in PathCountsAll([s.head] + Tests(s.clauses))
  }

  lemma SwitchEquation(s: Stmt, c: Completion, k: nat)
    requires s.Switch? && c != Faulted
    ensures k in Counts(s, c) <==> (exists i: nat :: EntersAt(s, i, c, k)) || MatchesNone(s, c, k)
  {
    if k in Counts(s, c) {
      var r :| Runs(s, r) && r.end == c && r.calls == k;
      SwitchLeaves(s, r);
    }
    if i: nat :| EntersAt(s, i, c, k) {
      SwitchEnters(s, i, c, k);
    }
    if MatchesNone(s, c, k) {
      assert Runs(s, Join(Normal, k, Leaf(Normal, k), Skip));
    }
  }

  lemma SwitchLeaves(s: Stmt, r: Run)
    requires s.Switch? && Runs(s, r) && r.end != Faulted
    ensures (exists i: nat :: EntersAt(s, i, r.end, r.calls)) || MatchesNone(s, r.end, r.calls)
  {
    assert r.Join?;
    if i: nat :| i < |s.clauses| && Evaluates(PathCountsAll([s.head] + TestsBefore(s.clauses, i)), r.first) &&
                 RunsFrom(s.clauses[i..], r.second) {
      var heads := PathCountsAll([s.head] + TestsBefore(s.clauses, i));
      assert r.first.calls in heads;
      assert r.second.calls in CountsFrom(s.clauses[i..], r.second.end);
      assert r.second.calls in Exits(s.clauses[i..], r.end);
      SumsetMember(heads, Exits(s.clauses[i..], r.end), r.first.calls, r.second.calls);
      assert EntersAt(s, i, r.end, r.calls);
    }
  }

  lemma SwitchEnters(s: Stmt, i: nat, c: Completion, k: nat)
    requires s.Switch? && c != Faulted && EntersAt(s, i, c, k)
    ensures k in Counts(s, c)
  {
    var heads := PathCountsAll([s.head] + TestsBefore(s.clauses, i));
    var h: nat :| h in heads && h <= k && k - h in Exits(s.clauses[i..], c);
    var q: Run;
    if k - h in CountsFrom(s.clauses[i..], c) && c != Broke {
      q :| RunsFrom(s.clauses[i..], q) && q.end == c && q.calls == k - h;
    } else {
      q :| RunsFrom(s.clauses[i..], q) && q.end == Broke && q.calls == k - h;
    }
    var r := Join(c, k, Leaf(Normal, h), q);
    assert Evaluates(PathCountsAll([s.head] + TestsBefore(s.clauses, i)), r.first) && RunsFrom(s.clauses[i..], r.second);
    assert Runs(s, r);
  }

  lemma BlockCounts(s: Stmt, c: Completion)
    requires s.Block?
    ensures Counts(s, c) == CountsList(s.stmts, c)
  {
    assert forall r :: Runs(s, r) <==> RunsList(s.stmts, r);
    assert forall k: nat :: Completes(s, c, k) <==> CompletesList(s.stmts, c, k);
  }
}

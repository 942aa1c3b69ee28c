/** internal/astflow/super_call.go: the four-point domain of super-call counts, and the
    counts of expressions. */
module SuperCount {
  import opened Syntax
  import opened Completions
  import opened Paths

  datatype SuperCallStatus = SuperNone | SuperAlways | SuperSome | SuperMultiple

  /** Two counts on the same path. */
  function ComposeSuper(a: SuperCallStatus, b: SuperCallStatus): SuperCallStatus {
    if a == SuperNone then b
    else if b == SuperNone then a
    else SuperMultiple
  }

  /** Two alternative paths. */
  function MergeSuper(a: SuperCallStatus, b: SuperCallStatus): SuperCallStatus {
    if a == b then a
    else if a == SuperMultiple || b == SuperMultiple then SuperMultiple
    else SuperSome
  }

  // ----- What the four points mean -----

  /** The best status for a nonempty set of call counts. */
  ghost function Alpha(counts: iset<nat>): SuperCallStatus {
    if exists k :: k in counts && k >= 2 then SuperMultiple
    else if 0 in counts && 1 in counts then SuperSome
    else if 1 in counts then SuperAlways
    else SuperNone
  }

  predicate Within(k: nat, s: SuperCallStatus) {
    match s
    case SuperNone => k == 0
    case SuperAlways => k == 1
    case SuperSome => k <= 1
    case SuperMultiple => true
  }

  /** Composition is exactly the sumset, and merging exactly the union. */
  lemma ComposeIsSumset(s: iset<nat>, t: iset<nat>)
    requires s != iset{} && t != iset{}
    ensures ComposeSuper(Alpha(s), Alpha(t)) == Alpha(Sumset(s, t))
  {
    if Alpha(s) == SuperNone {
      ZeroIsNeutral(s, t);
    } else if Alpha(t) == SuperNone {
      ZeroIsNeutral(t, s);
    } else {
      TwoPositives(s, t);
    }
  }

  lemma ZeroIsNeutral(z: iset<nat>, s: iset<nat>)
    requires z != iset{} && Alpha(z) == SuperNone
    ensures Alpha(Sumset(z, s)) == Alpha(s) == Alpha(Sumset(s, z))
  {
    OnlyZero(z);
    SumsetZero(s);
  }

  lemma TwoPositives(s: iset<nat>, t: iset<nat>)
    requires s != iset{} && t != iset{} && Alpha(s) != SuperNone && Alpha(t) != SuperNone
    ensures Alpha(Sumset(s, t)) == SuperMultiple
  {
    var i := Positive(s);
    var j := Positive(t);
    SumsetMember(s, t, i, j);
    HasTwo(Sumset(s, t), i + j);
  }

  lemma HasTwo(s: iset<nat>, k: nat)
    requires k in s && k >= 2
    ensures Alpha(s) == SuperMultiple
  {
  }

  lemma OnlyZero(s: iset<nat>)
    requires s != iset{} && Alpha(s) == SuperNone
    ensures s == iset{0}
  {
    forall k | k in s ensures k == 0 {
      assert k < 2 && k != 1;
    }
    var k :| k in s;
  }

  lemma Positive(s: iset<nat>) returns (k: nat)
    requires s != iset{} && Alpha(s) != SuperNone
    ensures k in s && k >= 1
  {
    if 1 in s {
      k := 1;
    } else {
      k :| k in s && k >= 2;
    }
  }

  lemma MergeIsUnion(s: iset<nat>, t: iset<nat>)
    requires s != iset{} && t != iset{}
    ensures MergeSuper(Alpha(s), Alpha(t)) == Alpha(s + t)
  {
    var i :| i in s;
    var j :| j in t;
    if k :| k in s && k >= 2 {
      assert k in s + t;
    }
    if k :| k in t && k >= 2 {
      assert k in s + t;
    }
  }

  lemma AlphaCovers(s: iset<nat>, k: nat)
    requires k in s
    ensures Within(k, Alpha(s))
  {
  }

  // ----- Counting in expressions -----

  /** The scan.  It knows the conditional operators, and takes the links of a chain, the right
      side of a logical assignment and a default value as always evaluated, and the heads of a
      nested function or class as never. */
  function InExpr(e: Expr): SuperCallStatus
    decreases e
  {
    match e
    case Atom => SuperNone
    case FunctionLike(_) => SuperNone
    case SuperCall(args) => ComposeSuper(InExprs(SuperNone, args), SuperAlways)
    case Call(callee, args) => InExprs(ComposeSuper(SuperNone, InExpr(callee)), args)
    case Conditional(c, t, f) => ComposeSuper(InExpr(c), MergeSuper(InExpr(t), InExpr(f)))
    case Logical(l, r) => ComposeSuper(InExpr(l), MergeSuper(InExpr(r), SuperNone))
    case Skipping(first, links) => InLinks(InExpr(first), links)
    case Compound(parts) => InExprs(SuperNone, parts)
  }

  function InExprs(acc: SuperCallStatus, es: seq<Expr>): SuperCallStatus
    decreases es
  {
    if es == [] then acc else InExprs(ComposeSuper(acc, InExpr(es[0])), es[1..])
  }

  function InLinks(acc: SuperCallStatus, links: seq<Link>): SuperCallStatus
    decreases links
  {
    if links == [] then acc else InLinks(InExprs(acc, links[0].parts), links[1..])
  }

  /** The scan as the source runs it, with its accumulator loops. */
  method SuperInExpr(e: Expr) returns (acc: SuperCallStatus)
    ensures acc == InExpr(e)
    decreases e
  {
    match e {
      case Atom => acc := SuperNone;
      case FunctionLike(_) => acc := SuperNone;
      case SuperCall(args) =>
        var argSuper := SuperInAll(SuperNone, args);
        acc := ComposeSuper(argSuper, SuperAlways);
      case Call(callee, args) =>
        var c := SuperInExpr(callee);
        acc := SuperInAll(ComposeSuper(SuperNone, c), args);
      case Conditional(cond, whenTrue, whenFalse) =>
        var c := SuperInExpr(cond);
        var t := SuperInExpr(whenTrue);
        var f := SuperInExpr(whenFalse);
        acc := ComposeSuper(c, MergeSuper(t, f));
      case Logical(left, right) =>
        var l := SuperInExpr(left);
        var r := SuperInExpr(right);
        acc := ComposeSuper(l, MergeSuper(r, SuperNone));
      case Skipping(first, links) =>
        acc := SuperInExpr(first);
        for i := 0 to |links|
          invariant InLinks(acc, links[i..]) == InLinks(InExpr(first), links)
        {
          assert links[i..][0] == links[i] && links[i..][1..] == links[i + 1..];
          acc := SuperInAll(acc, links[i].parts);
        }
      case Compound(parts) =>
        acc := SuperInAll(SuperNone, parts);
    }
  }

  method SuperInAll(start: SuperCallStatus, es: seq<Expr>) returns (acc: SuperCallStatus)
    ensures acc == InExprs(start, es)
    decreases es
  {
    acc := start;
    for i := 0 to |es|
      invariant InExprs(acc, es[i..]) == InExprs(start, es)
    {
      assert es[i..][1..] == es[i + 1..];
      var s := SuperInExpr(es[i]);
      acc := ComposeSuper(acc, s);
    }
  }

  // ----- The true counts -----

  /** The status that minds what is skipped and what is evaluated in a head. */
  function Counted(e: Expr): SuperCallStatus
    decreases e
  {
    match e
    case Atom => SuperNone
    case FunctionLike(heads) => CountedAll(heads)
    case SuperCall(args) => ComposeSuper(CountedAll(args), SuperAlways)
    case Call(callee, args) => ComposeSuper(Counted(callee), CountedAll(args))
    case Conditional(c, t, f) => ComposeSuper(Counted(c), MergeSuper(Counted(t), Counted(f)))
    case Logical(l, r) => ComposeSuper(Counted(l), MergeSuper(Counted(r), SuperNone))
    case Skipping(first, links) => ComposeSuper(Counted(first), CountedLinks(links))
    case Compound(parts) => CountedAll(parts)
  }

  function CountedAll(es: seq<Expr>): SuperCallStatus
    decreases es
  {
    if es == [] then SuperNone else ComposeSuper(Counted(es[0]), CountedAll(es[1..]))
  }

  function CountedLinks(links: seq<Link>): SuperCallStatus
    decreases links
  {
    if links == [] then SuperNone
    else MergeSuper(SuperNone, ComposeSuper(CountedAll(links[0].parts), CountedLinks(links[1..])))
  }

  /** For every expression: Alpha of the counts over all evaluations. */
  lemma {:induction false} CountedExact(e: Expr)
    ensures Counted(e) == Alpha(PathCounts(e))
    decreases e, 0
  {
    match e
    case Atom => AlphaZero();
    case FunctionLike(heads) => AllExact(heads);
    case SuperCall(args) =>
      AllExact(args);
      OneMore(args);
    case Call(callee, args) =>
      CountedExact(callee);
      AllExact(args);
      PathCountsNonempty(callee);
      PathCountsAllNonempty(args);
      ComposeIsSumset(PathCounts(callee), PathCountsAll(args));
    case Conditional(c, t, f) =>
      CountedExact(c);
      CountedExact(t);
      CountedExact(f);
      BranchExact(c, t, f);
    case Logical(l, r) =>
      CountedExact(l);
      CountedExact(r);
      ShortCircuitExact(l, r);
    case Skipping(first, links) =>
      CountedExact(first);
      LinksExact(links);
      PathCountsNonempty(first);
      ComposeIsSumset(PathCounts(first), PathCountsLinks(links));
    case Compound(parts) => AllExact(parts);
  }

  lemma AlphaZero()
    ensures Alpha(iset{0}) == SuperNone && 0 in iset{0 as nat}
  {
  }

  lemma OneMore(args: seq<Expr>)
    ensures ComposeSuper(Alpha(PathCountsAll(args)), SuperAlways) == Alpha(PathCounts(SuperCall(args)))
  {
    PathCountsAllNonempty(args);
    assert 1 in iset{1 as nat} && Alpha(iset{1}) == SuperAlways;
    ComposeIsSumset(PathCountsAll(args), iset{1});
  }

  lemma BranchExact(c: Expr, t: Expr, f: Expr)
    ensures ComposeSuper(Alpha(PathCounts(c)), MergeSuper(Alpha(PathCounts(t)), Alpha(PathCounts(f)))) ==
            Alpha(PathCounts(Conditional(c, t, f)))
  {
    PathCountsNonempty(c);
    PathCountsNonempty(t);
    PathCountsNonempty(f);
    MergeIsUnion(PathCounts(t), PathCounts(f));
    ComposeIsSumset(PathCounts(c), PathCounts(t) + PathCounts(f));
  }

  lemma ShortCircuitExact(l: Expr, r: Expr)
    ensures ComposeSuper(Alpha(PathCounts(l)), MergeSuper(Alpha(PathCounts(r)), SuperNone)) ==
            Alpha(PathCounts(Logical(l, r)))
  {
    PathCountsNonempty(l);
    PathCountsNonempty(r);
    AlphaZero();
    MergeIsUnion(PathCounts(r), iset{0});
    ComposeIsSumset(PathCounts(l), PathCounts(r) + iset{0});
  }

  lemma {:induction false} AllExact(es: seq<Expr>)
    ensures CountedAll(es) == Alpha(PathCountsAll(es))
    decreases es, 0
  {
    if es == [] {
      AlphaZero();
    } else {
      CountedExact(es[0]);
      AllExact(es[1..]);
      PathCountsNonempty(es[0]);
      PathCountsAllNonempty(es[1..]);
      ComposeIsSumset(PathCounts(es[0]), PathCountsAll(es[1..]));
    }
  }

  lemma {:induction false} LinksExact(links: seq<Link>)
    ensures CountedLinks(links) == Alpha(PathCountsLinks(links)) && 0 in PathCountsLinks(links)
    decreases links, 0
  {
    AlphaZero();
    if links != [] {
      var now, rest := PathCountsAll(links[0].parts), PathCountsLinks(links[1..]);
      AllExact(links[0].parts);
      LinksExact(links[1..]);
      PathCountsAllNonempty(links[0].parts);
      ComposeIsSumset(now, rest);
      SumsetEmpty(now, rest);
      MergeIsUnion(iset{0}, Sumset(now, rest));
    }
  }

  // ----- When the scan is exact -----

  /** The scan counts this expression right. */
  predicate Scanned(e: Expr) { InExpr(e) == Counted(e) }

  /** The scan is Alpha of the counts over all evaluations exactly when minding what may be
      skipped, and heads, changes nothing. */
  lemma {:induction false} InExprExact(e: Expr)
    ensures InExpr(e) == Alpha(PathCounts(e)) <==> Scanned(e)
  {
    CountedExact(e);
  }

  /** No head calls super, and nothing the links of `e` hold makes a path's one call. */
  predicate Steady(e: Expr)
    decreases e
  {
    match e
    case Atom => true
    case FunctionLike(heads) => AllSteady(heads) && InExprs(SuperNone, heads) == SuperNone
    case SuperCall(args) => AllSteady(args)
    case Call(callee, args) => Steady(callee) && AllSteady(args)
    case Conditional(c, t, f) => Steady(c) && Steady(t) && Steady(f)
    case Logical(l, r) => Steady(l) && Steady(r)
    case Skipping(first, links) =>
      Steady(first) && LinksSteady(links) && (InExpr(first) != SuperNone || InLinks(SuperNone, links) != SuperAlways)
    case Compound(parts) => AllSteady(parts)
  }

  predicate AllSteady(es: seq<Expr>)
    decreases es
  {
    es == [] || (Steady(es[0]) && AllSteady(es[1..]))
  }

  predicate LinksSteady(links: seq<Link>)
    decreases links
  {
    links == [] || (AllSteady(links[0].parts) && LinksSteady(links[1..]))
  }

  /** The scan counts this expression and every expression in it right. */
  predicate ScannedThroughout(e: Expr)
    decreases e
  {
    Scanned(e) &&
    match e
    case Atom => true
    case FunctionLike(heads) => AllScanned(heads)
    case SuperCall(args) => AllScanned(args)
    case Call(callee, args) => ScannedThroughout(callee) && AllScanned(args)
    case Conditional(c, t, f) => ScannedThroughout(c) && ScannedThroughout(t) && ScannedThroughout(f)
    case Logical(l, r) => ScannedThroughout(l) && ScannedThroughout(r)
    case Skipping(first, links) => ScannedThroughout(first) && LinksScanned(links)
    case Compound(parts) => AllScanned(parts)
  }

  predicate AllScanned(es: seq<Expr>)
    decreases es
  {
    es == [] || (ScannedThroughout(es[0]) && AllScanned(es[1..]))
  }

  predicate LinksScanned(links: seq<Link>)
    decreases links
  {
    links == [] || (AllScanned(links[0].parts) && LinksScanned(links[1..]))
  }

  /** The accumulator is composed with what the rest counts. */
  lemma {:induction false} InExprsFrom(acc: SuperCallStatus, es: seq<Expr>)
    ensures InExprs(acc, es) == ComposeSuper(acc, InExprs(SuperNone, es))
    decreases es
  {
    if es != [] {
      InExprsFrom(ComposeSuper(acc, InExpr(es[0])), es[1..]);
      InExprsFrom(InExpr(es[0]), es[1..]);
    }
  }

  lemma {:induction false} InLinksFrom(acc: SuperCallStatus, links: seq<Link>)
    ensures InLinks(acc, links) == ComposeSuper(acc, InLinks(SuperNone, links))
    decreases links
  {
    if links != [] {
      var now := InExprs(SuperNone, links[0].parts);
      InExprsFrom(acc, links[0].parts);
      InLinksFrom(ComposeSuper(acc, now), links[1..]);
      InLinksFrom(now, links[1..]);
    }
  }

  lemma {:induction false} AllScannedCount(es: seq<Expr>)
    requires AllScanned(es)
    ensures InExprs(SuperNone, es) == CountedAll(es)
    decreases es
  {
    if es != [] {
      AllScannedCount(es[1..]);
      InExprsFrom(InExpr(es[0]), es[1..]);
    }
  }

  /** Skipping links only matters when they make the one call. */
  lemma {:induction false} LinksScannedCount(links: seq<Link>)
    requires LinksScanned(links)
    ensures var always, maybe := InLinks(SuperNone, links), CountedLinks(links);
            maybe == if always == SuperAlways then SuperSome else always
    decreases links
  {
    if links != [] {
      AllScannedCount(links[0].parts);
      LinksScannedCount(links[1..]);
      InLinksFrom(InExprs(SuperNone, links[0].parts), links[1..]);
    }
  }

  /** A syntactic test for the scan being exact on an expression and all it is made of. */
  lemma {:induction false} SteadyExact(e: Expr)
    ensures Steady(e) <==> ScannedThroughout(e)
    decreases e, 0
  {
    match e
    case Atom =>
    case FunctionLike(heads) =>
      AllSteadyExact(heads);
      if AllScanned(heads) { AllScannedCount(heads); }
    case SuperCall(args) =>
      AllSteadyExact(args);
      if AllScanned(args) { AllScannedCount(args); }
    case Call(callee, args) =>
      SteadyExact(callee);
      AllSteadyExact(args);
      InExprsFrom(ComposeSuper(SuperNone, InExpr(callee)), args);
      if AllScanned(args) { AllScannedCount(args); }
    case Conditional(c, t, f) =>
      SteadyExact(c);
      SteadyExact(t);
      SteadyExact(f);
    case Logical(l, r) =>
      SteadyExact(l);
      SteadyExact(r);
    case Skipping(first, links) =>
      SteadyExact(first);
      LinksSteadyExact(links);
      InLinksFrom(InExpr(first), links);
      if LinksScanned(links) { LinksScannedCount(links); }
    case Compound(parts) =>
      AllSteadyExact(parts);
      if AllScanned(parts) { AllScannedCount(parts); }
  }

  lemma {:induction false} AllSteadyExact(es: seq<Expr>)
    ensures AllSteady(es) <==> AllScanned(es)
    decreases es, 0
  {
    if es != [] {
      SteadyExact(es[0]);
      AllSteadyExact(es[1..]);
    }
  }

  lemma {:induction false} LinksSteadyExact(links: seq<Link>)
    ensures LinksSteady(links) <==> LinksScanned(links)
    decreases links, 0
  {
    if links != [] {
      AllSteadyExact(links[0].parts);
      LinksSteadyExact(links[1..]);
    }
  }
}

/** internal/engine/engine.go: one walk over every file, with dispatch by node kind and a cap on errors. */
module LintEngine {
  import opened Options

  type Severity = string

  const SEVERITY_ERROR: Severity := "error"
  const SEVERITY_WARNING: Severity := "warning"

  datatype SourceRange = SourceRange(file: string, startLine: nat, startColumn: nat, endLine: nat, endColumn: nat)

  datatype Diagnostic = Diagnostic(range: SourceRange, ruleID: string, severity: Severity, message: string)

  datatype Node = Node(kind: nat, range: SourceRange, children: seq<Node>)

  datatype File = File(path: string, root: Node)

  /** A call of Context.Report; a report on no node is dropped. */
  datatype Report = Report(node: Option<Node>, message: string)

  /** What a handler does with a node: it reports, and then it may panic. */
  datatype Outcome = Outcome(reports: seq<Report>, panics: bool)

  type Handler = Node -> Outcome

  datatype Rule = Rule(id: string, handlers: map<nat, Handler>)

  datatype Entry = Entry(ruleID: string, severity: Severity, handler: Handler)

  // ----- The naive loop: every node asks every rule -----

  predicate Active(rule: Rule, severities: map<string, Severity>) {
    rule.id in severities && severities[rule.id] != ""
  }

  function Reported(reports: seq<Report>, ruleID: string, severity: Severity): seq<Diagnostic> {
    if reports == [] then []
    else
      (match reports[0].node
       case Some(n) => [Diagnostic(n.range, ruleID, severity, reports[0].message)]
       case None => []) + Reported(reports[1..], ruleID, severity)
  }

  function PanicMessage(ruleID: string): string {
    "rule '" + ruleID + "' panicked while processing this node; remaining files were linted; please report this as a bug"
  }

  /** What one handler adds to the diagnostics: its batch. */
  function Batch(e: Entry, n: Node, path: string): seq<Diagnostic> {
    var outcome := e.handler(n);
    Reported(outcome.reports, e.ruleID, e.severity) +
    if outcome.panics then
      [Diagnostic(n.range.(file := path), "jetlint/rule-panic", SEVERITY_WARNING, PanicMessage(e.ruleID))]
    else []
  }

  function OneRule(rule: Rule, severities: map<string, Severity>, n: Node, path: string): seq<seq<Diagnostic>> {
    if Active(rule, severities) && n.kind in rule.handlers
    then [Batch(Entry(rule.id, severities[rule.id], rule.handlers[n.kind]), n, path)] else []
  }

  function RuleBatches(rules: seq<Rule>, severities: map<string, Severity>, n: Node, path: string): seq<seq<Diagnostic>> {
    if rules == [] then []
    else OneRule(rules[0], severities, n, path) + RuleBatches(rules[1..], severities, n, path)
  }

  function TreeBatches(rules: seq<Rule>, severities: map<string, Severity>, n: Node, path: string): seq<seq<Diagnostic>>
    decreases n, 0
  {
    RuleBatches(rules, severities, n, path) + ForestBatches(rules, severities, n.children, path)
  }

  function ForestBatches(rules: seq<Rule>, severities: map<string, Severity>, ns: seq<Node>, path: string): seq<seq<Diagnostic>>
    decreases ns, 0
  {
    if ns == [] then []
    else TreeBatches(rules, severities, ns[0], path) + ForestBatches(rules, severities, ns[1..], path)
  }

  function AllBatches(rules: seq<Rule>, severities: map<string, Severity>, files: seq<File>): seq<seq<Diagnostic>> {
    if files == [] then []
    else TreeBatches(rules, severities, files[0].root, files[0].path) + AllBatches(rules, severities, files[1..])
  }

  // ----- Which diagnostics the naive loop finds -----

  predicate Holds(root: Node, n: Node) { n == root || exists c :: c in root.children && Holds(c, n) }

  /** The rule reports `d` at `n`, or panics there. */
  ghost predicate Raises(rule: Rule, severity: Severity, n: Node, path: string, d: Diagnostic) {
    n.kind in rule.handlers &&
    var outcome := rule.handlers[n.kind](n);
    || (exists r :: r in outcome.reports && r.node.Some? && d == Diagnostic(r.node.value.range, rule.id, severity, r.message))
    || (outcome.panics && d.range == n.range.(file := path) && d.ruleID == "jetlint/rule-panic" && d.severity == "warning" &&
        d.message == PanicMessage(rule.id))
  }

  /** Some rule that is configured, with a severity that is not empty, raises it. */
  ghost predicate Found(rules: seq<Rule>, severities: map<string, Severity>, n: Node, path: string, d: Diagnostic) {
    exists i :: 0 <= i < |rules| && rules[i].id in severities && severities[rules[i].id] != "" &&
                Raises(rules[i], severities[rules[i].id], n, path, d)
  }

  predicate InBatches(bs: seq<seq<Diagnostic>>, d: Diagnostic) { d in Flatten(bs) }

  lemma {:induction false} ReportedExact(reports: seq<Report>, ruleID: string, severity: Severity, d: Diagnostic)
    ensures d in Reported(reports, ruleID, severity) <==>
            exists r :: r in reports && r.node.Some? && d == Diagnostic(r.node.value.range, ruleID, severity, r.message)
  {
    if reports != [] {
      ReportedExact(reports[1..], ruleID, severity, d);
      assert reports == [reports[0]] + reports[1..];
    }
  }

  lemma OneRuleExact(rule: Rule, severities: map<string, Severity>, n: Node, path: string, d: Diagnostic)
    ensures InBatches(OneRule(rule, severities, n, path), d) <==>
            rule.id in severities && severities[rule.id] != "" && Raises(rule, severities[rule.id], n, path, d)
  {
    if rule.id in severities && n.kind in rule.handlers {
      var e := Entry(rule.id, severities[rule.id], rule.handlers[n.kind]);
      ReportedExact(e.handler(n).reports, rule.id, severities[rule.id], d);
      assert Flatten([Batch(e, n, path)]) == Batch(e, n, path) + Flatten([]);
    }
  }

  lemma {:induction false} InEither(a: seq<seq<Diagnostic>>, b: seq<seq<Diagnostic>>, d: Diagnostic)
    ensures InBatches(a + b, d) <==> InBatches(a, d) || InBatches(b, d)
  {
    if a == [] {
      assert a + b == b;
    } else {
      InEither(a[1..], b, d);
      assert (a + b)[0] == a[0] && (a + b)[1..] == a[1..] + b;
    }
  }

  lemma {:induction false} RulesExact(rules: seq<Rule>, severities: map<string, Severity>, n: Node, path: string, d: Diagnostic)
    ensures InBatches(RuleBatches(rules, severities, n, path), d) <==> Found(rules, severities, n, path, d)
  {
    if rules != [] {
      OneRuleExact(rules[0], severities, n, path, d);
      RulesExact(rules[1..], severities, n, path, d);
      InEither(OneRule(rules[0], severities, n, path), RuleBatches(rules[1..], severities, n, path), d);
      FoundCons(rules, severities, n, path, d);
    }
  }

  lemma FoundCons(rules: seq<Rule>, severities: map<string, Severity>, n: Node, path: string, d: Diagnostic)
    requires rules != []
    ensures Found(rules, severities, n, path, d) <==>
            Found(rules[1..], severities, n, path, d) ||
            (rules[0].id in severities && severities[rules[0].id] != "" && Raises(rules[0], severities[rules[0].id], n, path, d))
  {
    var rest := rules[1..];
    if i :| 0 <= i < |rest| && rest[i].id in severities && severities[rest[i].id] != "" &&
            Raises(rest[i], severities[rest[i].id], n, path, d) {
      assert rules[i + 1] == rest[i];
    }
    if i :| 0 < i < |rules| && rules[i].id in severities && severities[rules[i].id] != "" &&
            Raises(rules[i], severities[rules[i].id], n, path, d) {
      assert rest[i - 1] == rules[i];
    }
  }

  ghost predicate FoundIn(rules: seq<Rule>, severities: map<string, Severity>, root: Node, path: string, d: Diagnostic) {
    exists n :: Holds(root, n) && Found(rules, severities, n, path, d)
  }

  lemma {:induction false} TreeExact(rules: seq<Rule>, severities: map<string, Severity>, n: Node, path: string, d: Diagnostic)
    ensures InBatches(TreeBatches(rules, severities, n, path), d) <==> FoundIn(rules, severities, n, path, d)
    decreases n, 1
  {
    RulesExact(rules, severities, n, path, d);
    ForestExact(rules, severities, n.children, path, d);
    InEither(RuleBatches(rules, severities, n, path), ForestBatches(rules, severities, n.children, path), d);
    if x :| Holds(n, x) && Found(rules, severities, x, path, d) {
      assert x == n || exists c :: c in n.children && FoundIn(rules, severities, c, path, d);
    }
    if c :| c in n.children && FoundIn(rules, severities, c, path, d) {
      var x :| Holds(c, x) && Found(rules, severities, x, path, d);
      assert Holds(n, x);
    }
    assert Holds(n, n);
  }

  lemma {:induction false} ForestExact(rules: seq<Rule>, severities: map<string, Severity>, ns: seq<Node>, path: string, d: Diagnostic)
    ensures InBatches(ForestBatches(rules, severities, ns, path), d) <==>
            exists c :: c in ns && FoundIn(rules, severities, c, path, d)
    decreases ns, 0
  {
    if ns != [] {
      TreeExact(rules, severities, ns[0], path, d);
      ForestExact(rules, severities, ns[1..], path, d);
      InEither(TreeBatches(rules, severities, ns[0], path), ForestBatches(rules, severities, ns[1..], path), d);
      assert ns == [ns[0]] + ns[1..];
    }
  }

  /** Uncapped, the diagnostics are those that some configured rule raises at some node of some file. */
  lemma {:induction false} DiagnosticsExact(rules: seq<Rule>, severities: map<string, Severity>, files: seq<File>, d: Diagnostic)
    ensures d in Flatten(AllBatches(rules, severities, files)) <==>
            exists f, n :: f in files && Holds(f.root, n) && Found(rules, severities, n, f.path, d)
  {
    assert d in Flatten(AllBatches(rules, severities, files)) <==> InBatches(AllBatches(rules, severities, files), d);
    if files != [] {
      TreeExact(rules, severities, files[0].root, files[0].path, d);
      DiagnosticsExact(rules, severities, files[1..], d);
      InEither(TreeBatches(rules, severities, files[0].root, files[0].path), AllBatches(rules, severities, files[1..]), d);
      assert files == [files[0]] + files[1..];
    }
  }

  // ----- The cap -----

  function Errors(ds: seq<Diagnostic>): nat {
    if ds == [] then 0 else (if ds[0].severity == SEVERITY_ERROR then 1 else 0) + Errors(ds[1..])
  }

  function Flatten(bs: seq<seq<Diagnostic>>): seq<Diagnostic> {
    if bs == [] then [] else bs[0] + Flatten(bs[1..])
  }

  predicate Full(cap: nat, done: seq<seq<Diagnostic>>) { cap > 0 && Errors(Flatten(done)) >= cap }

  /** `done` and then the pending batches, one at a time, until the cap is reached. */
  function Feed(done: seq<seq<Diagnostic>>, pending: seq<seq<Diagnostic>>, cap: nat): seq<seq<Diagnostic>>
    decreases |pending|
  {
    if pending == [] || Full(cap, done) then done else Feed(done + [pending[0]], pending[1..], cap)
  }

  lemma {:induction false} FeedInTwo(done: seq<seq<Diagnostic>>, a: seq<seq<Diagnostic>>, b: seq<seq<Diagnostic>>, cap: nat)
    ensures Feed(done, a + b, cap) == Feed(Feed(done, a, cap), b, cap)
    decreases |a|
  {
    if a == [] {
      assert a + b == b;
    } else if !Full(cap, done) {
      assert (a + b)[0] == a[0] && (a + b)[1..] == a[1..] + b;
      FeedInTwo(done + [a[0]], a[1..], b, cap);
    }
  }

  lemma {:induction false} FlattenAppend(bs: seq<seq<Diagnostic>>, b: seq<Diagnostic>)
    ensures Flatten(bs + [b]) == Flatten(bs) + b
  {
    if bs == [] {
      assert bs + [b] == [b];
      assert Flatten([b]) == b + Flatten([]);
    } else {
      FlattenAppend(bs[1..], b);
      assert (bs + [b])[1..] == bs[1..] + [b];
      assert bs[0] + (Flatten(bs[1..]) + b) == (bs[0] + Flatten(bs[1..])) + b;
    }
  }

  lemma {:induction false} ErrorsAppend(a: seq<Diagnostic>, b: seq<Diagnostic>)
    ensures Errors(a + b) == Errors(a) + Errors(b)
  {
    if a == [] {
      assert a + b == b;
    } else {
      ErrorsAppend(a[1..], b);
      assert (a + b)[1..] == a[1..] + b;
    }
  }

  // ----- Dispatch -----

  function OneEntry(rule: Rule, severities: map<string, Severity>, kind: nat): seq<Entry> {
    if Active(rule, severities) && kind in rule.handlers
    then [Entry(rule.id, severities[rule.id], rule.handlers[kind])] else []
  }

  function Entries(rules: seq<Rule>, severities: map<string, Severity>, kind: nat): seq<Entry> {
    if rules == [] then []
    else Entries(rules[..|rules| - 1], severities, kind) + OneEntry(rules[|rules| - 1], severities, kind)
  }

  function Lookup(dispatch: map<nat, seq<Entry>>, kind: nat): seq<Entry> {
    if kind in dispatch then dispatch[kind] else []
  }

  /** Adds one rule's handlers, in whatever order its map yields them. */
  method AddRule(dispatch: map<nat, seq<Entry>>, rule: Rule, severity: Severity) returns (out: map<nat, seq<Entry>>)
    requires forall k :: k in dispatch ==> dispatch[k] != []
    ensures forall k :: k in out ==> out[k] != []
    ensures forall k :: Lookup(out, k) == Lookup(dispatch, k) +
                        if k in rule.handlers then [Entry(rule.id, severity, rule.handlers[k])] else []
  {
    out := dispatch;
    var kinds := rule.handlers.Keys;
    while kinds != {}
      invariant kinds <= rule.handlers.Keys
      invariant forall k :: k in out ==> out[k] != []
      invariant forall k :: Lookup(out, k) == Lookup(dispatch, k) +
                            if k in rule.handlers && k !in kinds then [Entry(rule.id, severity, rule.handlers[k])] else []
      decreases |kinds|
    {
      var kind :| kind in kinds;
      out := out[kind := Lookup(out, kind) + [Entry(rule.id, severity, rule.handlers[kind])]];
      kinds := kinds - {kind};
    }
  }

  method BuildDispatch(rules: seq<Rule>, severities: map<string, Severity>) returns (dispatch: map<nat, seq<Entry>>)
    ensures forall k :: k in dispatch ==> dispatch[k] != []
    ensures forall k :: Lookup(dispatch, k) == Entries(rules, severities, k)
  {
    dispatch := map[];
    for i := 0 to |rules|
      invariant forall k :: k in dispatch ==> dispatch[k] != []
      invariant forall k :: Lookup(dispatch, k) == Entries(rules[..i], severities, k)
    {
      assert rules[..i + 1][..i] == rules[..i];
      if rules[i].id in severities && severities[rules[i].id] != "" {
        dispatch := AddRule(dispatch, rules[i], severities[rules[i].id]);
      }
    }
    assert rules[..|rules|] == rules;
  }

  function EntryBatches(entries: seq<Entry>, n: Node, path: string): seq<seq<Diagnostic>> {
    if entries == [] then [] else [Batch(entries[0], n, path)] + EntryBatches(entries[1..], n, path)
  }

  lemma {:induction false} EntryBatchesAppend(a: seq<Entry>, b: seq<Entry>, n: Node, path: string)
    ensures EntryBatches(a + b, n, path) == EntryBatches(a, n, path) + EntryBatches(b, n, path)
  {
    if a == [] {
      assert a + b == b;
    } else {
      EntryBatchesAppend(a[1..], b, n, path);
      assert (a + b)[0] == a[0] && (a + b)[1..] == a[1..] + b;
      Regroup([Batch(a[0], n, path)], EntryBatches(a[1..], n, path), EntryBatches(b, n, path));
    }
  }

  lemma {:induction false} RuleBatchesAppend(a: seq<Rule>, b: seq<Rule>, severities: map<string, Severity>, n: Node, path: string)
    ensures RuleBatches(a + b, severities, n, path) == RuleBatches(a, severities, n, path) + RuleBatches(b, severities, n, path)
  {
    if a == [] {
      assert a + b == b;
    } else {
      RuleBatchesAppend(a[1..], b, severities, n, path);
      assert (a + b)[0] == a[0] && (a + b)[1..] == a[1..] + b;
      Regroup(OneRule(a[0], severities, n, path), RuleBatches(a[1..], severities, n, path), RuleBatches(b, severities, n, path));
    }
  }

  lemma Regroup<T>(x: seq<T>, y: seq<T>, z: seq<T>)
    ensures x + (y + z) == (x + y) + z
  {
  }

  lemma OneRuleBatches(rule: Rule, severities: map<string, Severity>, n: Node, path: string)
    ensures RuleBatches([rule], severities, n, path) == EntryBatches(OneEntry(rule, severities, n.kind), n, path)
  {
    assert [rule][1..] == [] && OneRule(rule, severities, n, path) + [] == OneRule(rule, severities, n, path);
    if Active(rule, severities) && n.kind in rule.handlers {
      var e := Entry(rule.id, severities[rule.id], rule.handlers[n.kind]);
      assert [e][1..] == [] && EntryBatches([e], n, path) == [Batch(e, n, path)] + EntryBatches([], n, path);
    }
  }

  /** The handlers filed under a kind are those the naive loop over the rules calls, in its order. */
  lemma {:induction false} DispatchIsNaive(rules: seq<Rule>, severities: map<string, Severity>, n: Node, path: string)
    ensures EntryBatches(Entries(rules, severities, n.kind), n, path) == RuleBatches(rules, severities, n, path)
    decreases |rules|
  {
    if rules != [] {
      var before, last := rules[..|rules| - 1], rules[|rules| - 1];
      DispatchIsNaive(before, severities, n, path);
      assert rules == before + [last];
      RuleBatchesAppend(before, [last], severities, n, path);
      OneRuleBatches(last, severities, n, path);
      EntryBatchesAppend(Entries(before, severities, n.kind), OneEntry(last, severities, n.kind), n, path);
    }
  }

  // ----- The engine -----

  /** What the walk's callback shares with Lint. */
  class Collector {
    var diagnostics: seq<Diagnostic>
    var errorCount: nat
    var stopped: bool
    ghost var done: seq<seq<Diagnostic>>
    const cap: nat
    const dispatch: map<nat, seq<Entry>>

    ghost predicate Valid()
      reads this
    {
      diagnostics == Flatten(done) && errorCount == Errors(diagnostics) && (stopped <==> Full(cap, done))
    }

    constructor (cap: nat, dispatch: map<nat, seq<Entry>>)
      ensures Valid() && done == [] && this.cap == cap && this.dispatch == dispatch
    {
      diagnostics, errorCount, stopped, done := [], 0, false, [];
      this.cap, this.dispatch := cap, dispatch;
    }

    method DispatchSafely(e: Entry, n: Node, path: string)
      modifies this`diagnostics
      ensures diagnostics == old(diagnostics) + Batch(e, n, path)
    {
      var outcome := e.handler(n);
      ghost var before := diagnostics;
      for i := 0 to |outcome.reports|
        invariant diagnostics + Reported(outcome.reports[i..], e.ruleID, e.severity) ==
                  before + Reported(outcome.reports, e.ruleID, e.severity)
      {
        var report := outcome.reports[i];
        assert outcome.reports[i..][0] == report && outcome.reports[i..][1..] == outcome.reports[i + 1..];
        if report.node.Some? {
          diagnostics := diagnostics + [Diagnostic(report.node.value.range, e.ruleID, e.severity, report.message)];
        }
      }
      assert outcome.reports[|outcome.reports|..] == [] && outcome.reports[0..] == outcome.reports;
      assert diagnostics == before + Reported(outcome.reports, e.ruleID, e.severity);
      if outcome.panics {
        diagnostics := diagnostics +
          [Diagnostic(n.range.(file := path), "jetlint/rule-panic", SEVERITY_WARNING, PanicMessage(e.ruleID))];
      }
    }

    /** Counts the errors from `before` on. */
    method CountErrors(before: nat)
      requires before <= |diagnostics|
      modifies this`errorCount
      ensures errorCount == old(errorCount) + Errors(diagnostics[before..])
    {
      for i := before to |diagnostics|
        invariant errorCount + Errors(diagnostics[i..]) == old(errorCount) + Errors(diagnostics[before..])
      {
        assert diagnostics[i..][0] == diagnostics[i] && diagnostics[i..][1..] == diagnostics[i + 1..];
        if diagnostics[i].severity == SEVERITY_ERROR {
          errorCount := errorCount + 1;
        }
      }
    }

    method RunEntry(e: Entry, n: Node, path: string)
      requires Valid() && !stopped
      modifies this
      ensures Valid() && done == old(done) + [Batch(e, n, path)]
    {
      var before := |diagnostics|;
      DispatchSafely(e, n, path);
      assert diagnostics[before..] == Batch(e, n, path);
      CountErrors(before);
      ErrorsAppend(old(diagnostics), Batch(e, n, path));
      FlattenAppend(done, Batch(e, n, path));
      done := done + [Batch(e, n, path)];
      if cap > 0 && errorCount >= cap {
        stopped := true;
      }
    }

    method RunEntries(entries: seq<Entry>, n: Node, path: string)
      requires Valid()
      modifies this
      ensures Valid() && done == Feed(old(done), EntryBatches(entries, n, path), cap)
    {
      if stopped {
        return;
      }
      for i := 0 to |entries|
        invariant Valid() && !stopped
        invariant Feed(done, EntryBatches(entries[i..], n, path), cap) == Feed(old(done), EntryBatches(entries, n, path), cap)
      {
        assert entries[i..][0] == entries[i] && entries[i..][1..] == entries[i + 1..];
        RunEntry(entries[i], n, path);
        if stopped {
          return;
        }
      }
    }

    method Visit(n: Node, path: string, ghost rules: seq<Rule>, ghost severities: map<string, Severity>)
      requires Valid() && forall k :: Lookup(dispatch, k) == Entries(rules, severities, k)
      modifies this
      ensures Valid() && done == Feed(old(done), TreeBatches(rules, severities, n, path), cap)
      decreases n, 0
    {
      DispatchIsNaive(rules, severities, n, path);
      FeedInTwo(done, RuleBatches(rules, severities, n, path), ForestBatches(rules, severities, n.children, path), cap);
      if stopped {
        return;
      }
      RunEntries(Lookup(dispatch, n.kind), n, path);
      VisitAll(n.children, path, rules, severities);
    }

    method VisitAll(ns: seq<Node>, path: string, ghost rules: seq<Rule>, ghost severities: map<string, Severity>)
      requires Valid() && forall k :: Lookup(dispatch, k) == Entries(rules, severities, k)
      modifies this
      ensures Valid() && done == Feed(old(done), ForestBatches(rules, severities, ns, path), cap)
      decreases ns, 0
    {
      if ns != [] {
        FeedInTwo(done, TreeBatches(rules, severities, ns[0], path), ForestBatches(rules, severities, ns[1..], path), cap);
        Visit(ns[0], path, rules, severities);
        VisitAll(ns[1..], path, rules, severities);
      }
    }
  }

  class Engine {
    var rules: seq<Rule>
    var severities: map<string, Severity>
    var maxDiagnostics: nat

    constructor (rules: seq<Rule>, severities: map<string, Severity>)
      ensures this.rules == rules && this.severities == severities && maxDiagnostics == 0
    {
      this.rules, this.severities, maxDiagnostics := rules, severities, 0;
    }

    method WithMaxDiagnostics(n: nat) returns (e: Engine)
      modifies this`maxDiagnostics
      ensures e == this && maxDiagnostics == n
    {
      maxDiagnostics := n;
      return this;
    }

    /** The naive loop's batches, in its order, up to the cap. */
    method Lint(files: seq<File>) returns (diagnostics: seq<Diagnostic>)
      ensures diagnostics == Flatten(Feed([], AllBatches(rules, severities, files), maxDiagnostics))
    {
      var dispatch := BuildDispatch(rules, severities);
      if dispatch == map[] {
        NothingToRun(rules, severities, files);
        return [];
      }
      var walk := new Collector(maxDiagnostics, dispatch);
      ghost var all := AllBatches(rules, severities, files);
      for i := 0 to |files|
        invariant walk.Valid() && fresh(walk)
        invariant Feed(walk.done, AllBatches(rules, severities, files[i..]), maxDiagnostics) == Feed([], all, maxDiagnostics)
      {
        assert files[i..][0] == files[i] && files[i..][1..] == files[i + 1..];
        if walk.stopped {
          return walk.diagnostics;
        }
        FeedInTwo(walk.done, TreeBatches(rules, severities, files[i].root, files[i].path),
                  AllBatches(rules, severities, files[i + 1..]), maxDiagnostics);
        walk.Visit(files[i].root, files[i].path, rules, severities);
      }
      return walk.diagnostics;
    }
  }

  lemma {:induction false} NothingToRun(rules: seq<Rule>, severities: map<string, Severity>, files: seq<File>)
    requires forall k :: Entries(rules, severities, k) == []
    ensures AllBatches(rules, severities, files) == []
  {
    if files != [] {
      NothingInTree(rules, severities, files[0].root, files[0].path);
      NothingToRun(rules, severities, files[1..]);
    }
  }

  lemma {:induction false} NothingInTree(rules: seq<Rule>, severities: map<string, Severity>, n: Node, path: string)
    requires forall k :: Entries(rules, severities, k) == []
    ensures TreeBatches(rules, severities, n, path) == []
    decreases n, 1
  {
    DispatchIsNaive(rules, severities, n, path);
    NothingInForest(rules, severities, n.children, path);
  }

  lemma {:induction false} NothingInForest(rules: seq<Rule>, severities: map<string, Severity>, ns: seq<Node>, path: string)
    requires forall k :: Entries(rules, severities, k) == []
    ensures ForestBatches(rules, severities, ns, path) == []
    decreases ns, 0
  {
    if ns != [] {
      NothingInTree(rules, severities, ns[0], path);
      NothingInForest(rules, severities, ns[1..], path);
    }
  }

  // ----- What the cap does to the result -----

  /** The shortest prefix of the batches with `cap` errors, or all of them. */
  lemma {:induction false} CappedIsShortestPrefix(bs: seq<seq<Diagnostic>>, cap: nat) returns (k: nat)
    ensures k <= |bs| && Feed([], bs, cap) == bs[..k]
    ensures k < |bs| ==> Full(cap, bs[..k])
    ensures forall j :: 0 <= j < k ==> !Full(cap, bs[..j])
  {
    k := FeedFrom(bs, 0, cap);
    assert bs[..0] == [] && bs[0..] == bs;
  }

  lemma {:induction false} FeedFrom(bs: seq<seq<Diagnostic>>, i: nat, cap: nat) returns (k: nat)
    requires i <= |bs| && forall j :: 0 <= j < i ==> !Full(cap, bs[..j])
    ensures i <= k <= |bs| && Feed(bs[..i], bs[i..], cap) == bs[..k]
    ensures k < |bs| ==> Full(cap, bs[..k])
    ensures forall j :: 0 <= j < k ==> !Full(cap, bs[..j])
    decreases |bs| - i
  {
    if i == |bs| || Full(cap, bs[..i]) {
      k := i;
    } else {
      assert bs[..i] + [bs[i]] == bs[..i + 1] && bs[i..][1..] == bs[i + 1..];
      k := FeedFrom(bs, i + 1, cap);
    }
  }

  predicate HasError(ds: seq<Diagnostic>) { exists d :: d in ds && d.severity == SEVERITY_ERROR }

  lemma {:induction false} ErrorsCount(ds: seq<Diagnostic>)
    ensures HasError(ds) <==> Errors(ds) > 0
  {
    if ds != [] {
      ErrorsCount(ds[1..]);
      assert ds == [ds[0]] + ds[1..];
    }
  }

  lemma {:induction false} FlattenSplits(bs: seq<seq<Diagnostic>>, k: nat)
    requires k <= |bs|
    ensures Flatten(bs) == Flatten(bs[..k]) + Flatten(bs[k..])
  {
    if k > 0 {
      FlattenSplits(bs[1..], k - 1);
      assert bs[..k][0] == bs[0] && bs[..k][1..] == bs[1..][..k - 1] && bs[k..] == bs[1..][k - 1..];
      assert bs[0] + (Flatten(bs[1..][..k - 1]) + Flatten(bs[k..])) == (bs[0] + Flatten(bs[1..][..k - 1])) + Flatten(bs[k..]);
    } else {
      assert bs[..0] == [] && bs[0..] == bs;
    }
  }

  /** Whether any error is found does not depend on the cap. */
  lemma {:induction false} CapKeepsErrors(bs: seq<seq<Diagnostic>>, cap: nat)
    ensures HasError(Flatten(Feed([], bs, cap))) <==> HasError(Flatten(bs))
  {
    var k := CappedIsShortestPrefix(bs, cap);
    FlattenSplits(bs, k);
    ErrorsCount(Flatten(bs[..k]));
    ErrorsCount(Flatten(bs));
    ErrorsAppend(Flatten(bs[..k]), Flatten(bs[k..]));
    assert k == |bs| ==> bs[..k] == bs;
  }

  // ----- Ignore patterns, which are applied after the capped run -----

  function Kept(ds: seq<Diagnostic>, ignored: string -> bool): seq<Diagnostic> {
    if ds == [] then []
    else
      Kept(ds[..|ds| - 1], ignored) + if ignored(ds[|ds| - 1].range.file) then [] else [ds[|ds| - 1]]
  }

  /** Drops the diagnostics of ignored files in place; the first `len` cells are left. */
  method FilterIgnored(diags: array<Diagnostic>, ignored: string -> bool) returns (len: nat)
    modifies diags
    ensures len <= diags.Length && diags[..len] == Kept(old(diags[..]), ignored)
  {
    ghost var was := diags[..];
    len := 0;
    for i := 0 to diags.Length
      invariant len <= i && diags[..len] == Kept(was[..i], ignored)
      invariant forall j {:trigger diags[j]} :: i <= j < diags.Length ==> diags[j] == was[j]
    {
      assert was[..i + 1][..i] == was[..i];
      var d := diags[i];
      if !ignored(d.range.file) {
        diags[len] := d;
        len := len + 1;
      }
    }
    assert was[..diags.Length] == was;
  }

  /** The process exits with 1 exactly when this holds of the diagnostics. */
  predicate Visible(ds: seq<Diagnostic>, ignored: string -> bool) {
    exists d :: d in ds && d.severity == SEVERITY_ERROR && !ignored(d.range.file)
  }

  lemma {:induction false} KeptMember(ds: seq<Diagnostic>, ignored: string -> bool, d: Diagnostic)
    ensures d in Kept(ds, ignored) <==> d in ds && !ignored(d.range.file)
    decreases |ds|
  {
    if ds != [] {
      KeptMember(ds[..|ds| - 1], ignored, d);
      assert ds == ds[..|ds| - 1] + [ds[|ds| - 1]];
    }
  }

  lemma {:induction false} VisibleIsKeptError(ds: seq<Diagnostic>, ignored: string -> bool)
    ensures HasError(Kept(ds, ignored)) <==> Visible(ds, ignored)
  {
    forall d ensures d in Kept(ds, ignored) <==> d in ds && !ignored(d.range.file) {
      KeptMember(ds, ignored, d);
    }
  }

  function FirstError(bs: seq<seq<Diagnostic>>): (f: nat)
    ensures f <= |bs|
  {
    if bs == [] || Errors(bs[0]) > 0 then 0 else 1 + FirstError(bs[1..])
  }

  lemma {:induction false} ErrorsStart(bs: seq<seq<Diagnostic>>, j: nat)
    requires j <= |bs|
    ensures Errors(Flatten(bs[..j])) > 0 <==> j > FirstError(bs)
  {
    if j > 0 {
      assert bs[..j][0] == bs[0] && bs[..j][1..] == bs[1..][..j - 1];
      ErrorsAppend(bs[0], Flatten(bs[1..][..j - 1]));
      ErrorsStart(bs[1..], j - 1);
    }
  }

  lemma VisibleInEither(a: seq<Diagnostic>, b: seq<Diagnostic>, ignored: string -> bool)
    ensures Visible(a + b, ignored) <==> Visible(a, ignored) || Visible(b, ignored)
  {
    if d :| d in a && d.severity == SEVERITY_ERROR && !ignored(d.range.file) {
      assert d in a + b;
    }
    if d :| d in b && d.severity == SEVERITY_ERROR && !ignored(d.range.file) {
      assert d in a + b;
    }
  }

  predicate SomeVisible(bs: seq<seq<Diagnostic>>, ignored: string -> bool) {
    exists i {:trigger bs[i]} :: 0 <= i < |bs| && Visible(bs[i], ignored)
  }

  lemma SomeVisibleHere(bs: seq<seq<Diagnostic>>, ignored: string -> bool)
    requires bs != []
    ensures SomeVisible(bs, ignored) <==> Visible(bs[0], ignored) || SomeVisible(bs[1..], ignored)
  {
    if i :| 0 <= i < |bs[1..]| && Visible(bs[1..][i], ignored) {
      assert Visible(bs[i + 1], ignored);
    }
    if i :| 0 < i < |bs| && Visible(bs[i], ignored) {
      assert bs[1..][i - 1] == bs[i];
    }
  }

  lemma {:induction false} VisibleSomewhere(bs: seq<seq<Diagnostic>>, ignored: string -> bool)
    ensures Visible(Flatten(bs), ignored) <==> SomeVisible(bs, ignored)
  {
    if bs != [] {
      VisibleSomewhere(bs[1..], ignored);
      VisibleInEither(bs[0], Flatten(bs[1..]), ignored);
      SomeVisibleHere(bs, ignored);
    }
  }

  /** The first batch with an error has one that is not ignored, or every error is ignored. */
  predicate FirstErrorVisible(bs: seq<seq<Diagnostic>>, ignored: string -> bool) {
    var f := FirstError(bs);
    f == |bs| || Visible(bs[f], ignored) || !Visible(Flatten(bs), ignored)
  }

  predicate SameExitCode(bs: seq<seq<Diagnostic>>, ignored: string -> bool, cap: nat) {
    HasError(Kept(Flatten(Feed([], bs, cap)), ignored)) <==> HasError(Kept(Flatten(bs), ignored))
  }

  lemma SameExitCodeIsVisible(bs: seq<seq<Diagnostic>>, ignored: string -> bool, cap: nat)
    ensures SameExitCode(bs, ignored, cap) <==> (Visible(Flatten(Feed([], bs, cap)), ignored) <==> Visible(Flatten(bs), ignored))
  {
    VisibleIsKeptError(Flatten(Feed([], bs, cap)), ignored);
    VisibleIsKeptError(Flatten(bs), ignored);
  }

  lemma {:induction false} FirstErrorDecides(bs: seq<seq<Diagnostic>>, ignored: string -> bool, cap: nat)
    requires FirstErrorVisible(bs, ignored)
    ensures SameExitCode(bs, ignored, cap)
  {
    SameExitCodeIsVisible(bs, ignored, cap);
    var k := CappedIsShortestPrefix(bs, cap);
    assert k == |bs| ==> bs[..k] == bs;
    VisibleSomewhere(bs, ignored);
    VisibleSomewhere(bs[..k], ignored);
    if k < |bs| {
      ErrorsStart(bs, k);
      var f := FirstError(bs);
      assert bs[..k][f] == bs[f];
      forall i | 0 <= i < |bs[..k]| && Visible(bs[..k][i], ignored) ensures Visible(bs[i], ignored) {
      }
    }
  }

  lemma {:induction false} HiddenErrorEscapes(bs: seq<seq<Diagnostic>>, ignored: string -> bool)
    requires !FirstErrorVisible(bs, ignored)
    ensures !SameExitCode(bs, ignored, 1)
  {
    SameExitCodeIsVisible(bs, ignored, 1);
    var f := FirstError(bs);
    var k := CappedIsShortestPrefix(bs, 1);
    ErrorsStart(bs, k);
    ErrorsStart(bs, f + 1);
    assert k == f + 1;
    VisibleSomewhere(bs[..k], ignored);
    forall i | 0 <= i < k ensures !Visible(bs[..k][i], ignored) {
      if i < f {
        QuietBeforeFirst(bs, i);
        ErrorsCount(bs[i]);
      }
    }
  }

  lemma {:induction false} QuietBeforeFirst(bs: seq<seq<Diagnostic>>, i: nat)
    requires i < FirstError(bs)
    ensures Errors(bs[i]) == 0
  {
    if i > 0 {
      QuietBeforeFirst(bs[1..], i - 1);
    }
  }

  /** With ignore patterns, no cap changes the exit code exactly when the first batch that
      has an error has one outside the ignored files, or no error is outside them. */
  lemma {:induction false} ExitCodeExact(bs: seq<seq<Diagnostic>>, ignored: string -> bool)
    ensures (forall cap: nat :: SameExitCode(bs, ignored, cap)) <==> FirstErrorVisible(bs, ignored)
  {
    if FirstErrorVisible(bs, ignored) {
      forall cap: nat ensures SameExitCode(bs, ignored, cap) {
        FirstErrorDecides(bs, ignored, cap);
      }
    } else {
      HiddenErrorEscapes(bs, ignored);
    }
  }

  /** An error in an ignored file stands before the only one that counts: with a cap of one the
      run exits as if there were none. */
  lemma CapHidesError(hidden: Diagnostic, seen: Diagnostic, ignored: string -> bool)
    requires hidden.severity == SEVERITY_ERROR && ignored(hidden.range.file)
    requires seen.severity == SEVERITY_ERROR && !ignored(seen.range.file)
    ensures !SameExitCode([[hidden], [seen]], ignored, 1)
  {
    var bs := [[hidden], [seen]];
    ErrorsCount([hidden]);
    assert seen in bs[1];
    assert Visible(bs[1], ignored) && !Visible(bs[0], ignored);
    VisibleSomewhere(bs, ignored);
    HiddenErrorEscapes(bs, ignored);
  }
}

/** internal/config/config.go: merging the configuration files above a directory. */
module ConfigCascade {
  import opened Options

  type Severity = string

  const OFF: Severity := "off"
  const DEFAULT_MAX_DIAGNOSTICS := 20

  /** A rule's entry; `options` is the raw JSON after it, empty if there is none. */
  datatype RuleEntry = RuleEntry(severity: Severity, options: string)

  datatype FileConfig = FileConfig(rules: map<string, RuleEntry>, maxDiagnostics: Option<int>, ignorePatterns: seq<string>)

  /** A configuration file of the stack; `parsed` is None when it cannot be read or decoded. */
  datatype Source = Source(path: string, dir: string, parsed: Option<FileConfig>)

  datatype IgnoreRule = IgnoreRule(pattern: string, base: string, negate: bool)

  // ----- Loading -----

  predicate ValidSeverity(s: Severity) { s == "error" || s == "warning" || s == OFF }

  predicate ValidConfig(known: set<string>, cfg: FileConfig) {
    (forall id :: id in cfg.rules ==> id in known && ValidSeverity(cfg.rules[id].severity)) &&
    (cfg.maxDiagnostics.Some? ==> cfg.maxDiagnostics.value >= 0)
  }

  predicate Loads(known: set<string>, source: Source) {
    source.parsed.Some? && ValidConfig(known, source.parsed.value)
  }

  method LoadFile(known: set<string>, source: Source) returns (cfg: Option<FileConfig>)
    ensures cfg == if Loads(known, source) then source.parsed else None
    ensures cfg.Some? <==>
            source.parsed.Some? &&
            (forall id :: id in source.parsed.value.rules ==>
               id in known && source.parsed.value.rules[id].severity in {"error", "warning", "off"}) &&
            (source.parsed.value.maxDiagnostics.Some? ==> source.parsed.value.maxDiagnostics.value >= 0)
  {
    if source.parsed.None? {
      return None;
    }
    var entries := source.parsed.value.rules;
    var ids := entries.Keys;
    while ids != {}
      invariant ids <= entries.Keys
      invariant forall id :: id in entries && id !in ids ==> id in known && ValidSeverity(entries[id].severity)
      decreases |ids|
    {
      var id :| id in ids;
      if id !in known || !ValidSeverity(entries[id].severity) {
        return None;
      }
      ids := ids - {id};
    }
    if source.parsed.value.maxDiagnostics.Some? && source.parsed.value.maxDiagnostics.value < 0 {
      return None;
    }
    return source.parsed;
  }

  // ----- What the merged configuration should be -----

  function Lookup<T>(m: map<string, T>, id: string): Option<T> { if id in m then Some(m[id]) else None }

  function ConfigOf(s: Source): FileConfig { if s.parsed.Some? then s.parsed.value else FileConfig(map[], None, []) }

  /** The entry of the deepest of the first `k` files that mentions a rule; the stack is outermost first. */
  function DeepestMention(stack: seq<Source>, k: nat, id: string): Option<RuleEntry>
    requires k <= |stack|
  {
    if k == 0 then None
    else
      var entries := ConfigOf(stack[k - 1]).rules;
      if id in entries then Some(entries[id]) else DeepestMention(stack, k - 1, id)
  }

  function SeverityFrom(mention: Option<RuleEntry>, otherwise: Option<Severity>): Option<Severity> {
    match mention
    case None => otherwise
    case Some(e) => if e.severity == OFF then None else Some(e.severity)
  }

  function OptionsFrom(mention: Option<RuleEntry>, otherwise: Option<string>): Option<string> {
    match mention
    case None => otherwise
    case Some(e) => if e.severity == OFF || e.options == "" then None else Some(e.options)
  }

  function DeepestMax(stack: seq<Source>, k: nat): int
    requires k <= |stack|
  {
    if k == 0 then DEFAULT_MAX_DIAGNOSTICS
    else
      var max := ConfigOf(stack[k - 1]).maxDiagnostics;
      if max.Some? then max.value else DeepestMax(stack, k - 1)
  }

  predicate IsNegation(raw: string) { |raw| > 0 && raw[0] == '!' }

  /** A negation is relative to the outermost directory, any other pattern to its own. */
  function ToRule(raw: string, baseDir: string, rootBase: string): IgnoreRule {
    if IsNegation(raw) then IgnoreRule(raw[1..], rootBase, true) else IgnoreRule(raw, baseDir, false)
  }

  function ToRules(raws: seq<string>, baseDir: string, rootBase: string): seq<IgnoreRule> {
    if raws == [] then []
    else ToRules(raws[..|raws| - 1], baseDir, rootBase) + [ToRule(raws[|raws| - 1], baseDir, rootBase)]
  }

  /** The patterns of the first `k` files, outermost first. */
  function AllRules(stack: seq<Source>, k: nat): seq<IgnoreRule>
    requires k <= |stack|
  {
    if k == 0 then []
    else AllRules(stack, k - 1) + ToRules(ConfigOf(stack[k - 1]).ignorePatterns, stack[k - 1].dir, stack[0].dir)
  }

  function Paths(stack: seq<Source>, k: nat): seq<string>
    requires k <= |stack|
  {
    if k == 0 then [] else Paths(stack, k - 1) + [stack[k - 1].path]
  }

  // ----- Merging -----

  class ResolvedConfig {
    var rules: map<string, Severity>
    var ruleOptions: map<string, string>
    var maxDiagnostics: int
    var sources: seq<string>
    var ignoreRules: seq<IgnoreRule>

    /** Only rules that are on have options. */
    ghost predicate Valid()
      reads this
    {
      ruleOptions.Keys <= rules.Keys
    }

    constructor (defaults: map<string, Severity>)
      ensures Valid() && rules == defaults && ruleOptions == map[] && maxDiagnostics == DEFAULT_MAX_DIAGNOSTICS
      ensures sources == [] && ignoreRules == []
    {
      rules, ruleOptions, maxDiagnostics := defaults, map[], DEFAULT_MAX_DIAGNOSTICS;
      sources, ignoreRules := [], [];
    }

    /** One entry of a child file. */
    method MergeEntry(id: string, entry: RuleEntry)
      requires Valid()
      modifies this`rules, this`ruleOptions
      ensures Valid()
      ensures Lookup(rules, id) == SeverityFrom(Some(entry), None) && Lookup(ruleOptions, id) == OptionsFrom(Some(entry), None)
      ensures forall k :: k != id ==> Lookup(rules, k) == old(Lookup(rules, k))
      ensures forall k :: k != id ==> Lookup(ruleOptions, k) == old(Lookup(ruleOptions, k))
    {
      if entry.severity == OFF {
        rules := rules - {id};
        ruleOptions := ruleOptions - {id};
        return;
      }
      rules := rules[id := entry.severity];
      if |entry.options| > 0 {
        ruleOptions := ruleOptions[id := entry.options];
      } else {
        ruleOptions := ruleOptions - {id};
      }
    }

    /** The entries of a child file, in whatever order its map yields them. */
    method MergeRules(entries: map<string, RuleEntry>)
      requires Valid()
      modifies this`rules, this`ruleOptions
      ensures Valid()
      ensures forall k :: Lookup(rules, k) == SeverityFrom(Lookup(entries, k), old(Lookup(rules, k)))
      ensures forall k :: Lookup(ruleOptions, k) == OptionsFrom(Lookup(entries, k), old(Lookup(ruleOptions, k)))
    {
      var ids := entries.Keys;
      while ids != {}
        invariant Valid() && ids <= entries.Keys
        invariant forall k :: Lookup(rules, k) ==
                              SeverityFrom(if k in ids then None else Lookup(entries, k), old(Lookup(rules, k)))
        invariant forall k :: Lookup(ruleOptions, k) ==
                              OptionsFrom(if k in ids then None else Lookup(entries, k), old(Lookup(ruleOptions, k)))
        decreases |ids|
      {
        var id :| id in ids;
        MergeEntry(id, entries[id]);
        ids := ids - {id};
      }
    }

    method MergePatterns(raws: seq<string>, baseDir: string, rootBase: string)
      modifies this`ignoreRules
      ensures ignoreRules == old(ignoreRules) + ToRules(raws, baseDir, rootBase)
    {
      for i := 0 to |raws|
        invariant ignoreRules == old(ignoreRules) + ToRules(raws[..i], baseDir, rootBase)
      {
        var raw := raws[i];
        var negate := IsNegation(raw);
        var pat := if negate then raw[1..] else raw;
        var base := baseDir;
        if negate {
          base := rootBase;
        }
        ignoreRules := ignoreRules + [IgnoreRule(pat, base, negate)];
        assert raws[..i + 1][..i] == raws[..i];
      }
      assert raws[..|raws|] == raws;
    }

    method MergeFile(child: FileConfig, baseDir: string, rootBase: string)
      requires Valid()
      modifies this`rules, this`ruleOptions, this`maxDiagnostics, this`ignoreRules
      ensures Valid()
      ensures forall k :: Lookup(rules, k) == SeverityFrom(Lookup(child.rules, k), old(Lookup(rules, k)))
      ensures forall k :: Lookup(ruleOptions, k) == OptionsFrom(Lookup(child.rules, k), old(Lookup(ruleOptions, k)))
      ensures maxDiagnostics == if child.maxDiagnostics.Some? then child.maxDiagnostics.value else old(maxDiagnostics)
      ensures ignoreRules == old(ignoreRules) + ToRules(child.ignorePatterns, baseDir, rootBase)
    {
      MergeRules(child.rules);
      if child.maxDiagnostics.Some? {
        maxDiagnostics := child.maxDiagnostics.value;
      }
      MergePatterns(child.ignorePatterns, baseDir, rootBase);
    }
  }

  /** Every rule has the severity and options of the deepest of `k` files that mentions it. */
  ghost predicate Resolves(defaults: map<string, Severity>, stack: seq<Source>, k: nat, r: ResolvedConfig)
    requires k <= |stack|
    reads r
  {
    && r.Valid()
    && (forall id :: Lookup(r.rules, id) == SeverityFrom(DeepestMention(stack, k, id), Lookup(defaults, id)))
    && (forall id :: Lookup(r.ruleOptions, id) == OptionsFrom(DeepestMention(stack, k, id), None))
    && r.maxDiagnostics == DeepestMax(stack, k)
    && r.sources == Paths(stack, k)
    && r.ignoreRules == AllRules(stack, k)
  }

  /** The merge loop: `stack` holds the files found, outermost first. */
  method ResolveCascade(known: set<string>, defaults: map<string, Severity>, stack: seq<Source>)
    returns (resolved: ResolvedConfig?)
    requires forall s :: s in stack ==> s.dir != ""
    ensures resolved != null <==> forall s :: s in stack ==> Loads(known, s)
    ensures resolved != null ==> fresh(resolved) && Resolves(defaults, stack, |stack|, resolved)
  {
    var config := new ResolvedConfig(defaults);
    var rootBase := "";
    for i := 0 to |stack|
      invariant fresh(config) && Resolves(defaults, stack, i, config)
      invariant forall j :: 0 <= j < i ==> Loads(known, stack[j])
      invariant rootBase == if i == 0 then "" else stack[0].dir
    {
      var source := stack[i];
      var cfg := LoadFile(known, source);
      if cfg.None? {
        return null;
      }
      if rootBase == "" {
        rootBase := source.dir;
      }
      MergeNext(config, defaults, stack, i, cfg.value, rootBase);
    }
    return config;
  }

  method MergeNext(config: ResolvedConfig, ghost defaults: map<string, Severity>, stack: seq<Source>, i: nat,
                   cfg: FileConfig, rootBase: string)
    requires i < |stack| && cfg == ConfigOf(stack[i]) && rootBase == stack[0].dir
    requires Resolves(defaults, stack, i, config)
    modifies config
    ensures Resolves(defaults, stack, i + 1, config)
  {
    config.MergeFile(cfg, stack[i].dir, rootBase);
    config.sources := config.sources + [stack[i].path];
  }

  /** The deepest mention is the last file that mentions the rule, and there is one if any file does. */
  lemma {:induction false} DeepestMentionExact(stack: seq<Source>, k: nat, id: string, e: RuleEntry)
    requires k <= |stack|
    ensures DeepestMention(stack, k, id) == Some(e) <==>
            exists i :: 0 <= i < k && Lookup(ConfigOf(stack[i]).rules, id) == Some(e) &&
                        forall j :: i < j < k ==> id !in ConfigOf(stack[j]).rules
    ensures DeepestMention(stack, k, id) == None <==> forall j :: 0 <= j < k ==> id !in ConfigOf(stack[j]).rules
  {
    if k > 0 {
      DeepestMentionExact(stack, k - 1, id, e);
    }
  }

  /** Whether the `i`th file is the last to mention the rule, with this entry. */
  predicate LastMention(stack: seq<Source>, i: nat, id: string, e: RuleEntry) {
    i < |stack| && id in ConfigOf(stack[i]).rules && ConfigOf(stack[i]).rules[id] == e &&
    forall j :: i < j < |stack| ==> id !in ConfigOf(stack[j]).rules
  }

  /** A rule last said to be off is gone, with its options; otherwise it has the severity last said,
      and the options beside it if there are any; a rule that no file mentions keeps its default. */
  lemma ResolvedExact(defaults: map<string, Severity>, stack: seq<Source>, r: ResolvedConfig, id: string)
    requires Resolves(defaults, stack, |stack|, r)
    ensures forall i, e {:trigger LastMention(stack, i, id, e)} :: LastMention(stack, i, id, e) ==>
              && (e.severity == "off" ==> id !in r.rules && id !in r.ruleOptions)
              && (e.severity != "off" ==> id in r.rules && r.rules[id] == e.severity &&
                                          (id in r.ruleOptions <==> e.options != "") &&
                                          (e.options != "" ==> r.ruleOptions[id] == e.options))
    ensures (forall s :: s in stack ==> id !in ConfigOf(s).rules) ==>
              id !in r.ruleOptions && (id in r.rules <==> id in defaults) && (id in defaults ==> r.rules[id] == defaults[id])
  {
    forall i: nat, e | LastMention(stack, i, id, e) ensures DeepestMention(stack, |stack|, id) == Some(e) {
      DeepestMentionExact(stack, |stack|, id, e);
      assert Lookup(ConfigOf(stack[i]).rules, id) == Some(e);
    }
    if forall s :: s in stack ==> id !in ConfigOf(s).rules {
      DeepestMentionExact(stack, |stack|, id, RuleEntry("", ""));
    }
    assert Lookup(r.rules, id) == SeverityFrom(DeepestMention(stack, |stack|, id), Lookup(defaults, id));
    assert Lookup(r.ruleOptions, id) == OptionsFrom(DeepestMention(stack, |stack|, id), None);
  }

  /** How many patterns the first `k` files have. */
  function PatternCount(stack: seq<Source>, k: nat): nat
    requires k <= |stack|
  {
    if k == 0 then 0 else PatternCount(stack, k - 1) + |ConfigOf(stack[k - 1]).ignorePatterns|
  }

  lemma {:induction false} ToRulesAt(raws: seq<string>, baseDir: string, rootBase: string)
    ensures var rules := ToRules(raws, baseDir, rootBase);
            |rules| == |raws| && forall i :: 0 <= i < |raws| ==> rules[i] == ToRule(raws[i], baseDir, rootBase)
  {
    if raws != [] {
      ToRulesAt(raws[..|raws| - 1], baseDir, rootBase);
    }
  }

  /** The `i`th pattern of file `f` stands behind those of the files above it: below the file's
      directory, or with a leading `!`, which is taken off, below the outermost one. */
  lemma {:induction false} IgnoreRulesExact(stack: seq<Source>, k: nat, f: nat, i: nat)
    requires f < k <= |stack| && i < |ConfigOf(stack[f]).ignorePatterns|
    ensures |AllRules(stack, k)| == PatternCount(stack, k) && PatternCount(stack, f) + i < PatternCount(stack, k)
    ensures var raw := ConfigOf(stack[f]).ignorePatterns[i];
            AllRules(stack, k)[PatternCount(stack, f) + i] ==
            if raw != "" && raw[0] == '!' then IgnoreRule(raw[1..], stack[0].dir, true) else IgnoreRule(raw, stack[f].dir, false)
  {
    AllRulesCount(stack, k - 1);
    var before, raws := AllRules(stack, k - 1), ConfigOf(stack[k - 1]).ignorePatterns;
    var last := ToRules(raws, stack[k - 1].dir, stack[0].dir);
    ToRulesAt(raws, stack[k - 1].dir, stack[0].dir);
    if f < k - 1 {
      IgnoreRulesExact(stack, k - 1, f, i);
      assert (before + last)[PatternCount(stack, f) + i] == before[PatternCount(stack, f) + i];
    } else {
      assert (before + last)[|before| + i] == last[i];
    }
  }

  lemma {:induction false} AllRulesCount(stack: seq<Source>, k: nat)
    requires k <= |stack|
    ensures |AllRules(stack, k)| == PatternCount(stack, k)
  {
    if k > 0 {
      AllRulesCount(stack, k - 1);
      ToRulesAt(ConfigOf(stack[k - 1]).ignorePatterns, stack[k - 1].dir, stack[0].dir);
    }
  }

  // ----- Ignoring -----

  /** Paths and globs are compared by Go's library: `rel` is filepath.Rel with its separators
      turned into slashes, `glob` is doublestar.PathMatch. */
  datatype Globs = Globs(rel: (string, string) -> Option<string>, glob: (string, string) -> bool)

  predicate Outside(rel: string) { rel == ".." || (|rel| >= 3 && rel[..3] == "../") }

  function FirstSegment(rel: string): string {
    if rel == "" || rel[0] == '/' then "" else [rel[0]] + FirstSegment(rel[1..])
  }

  /** A path is outside the directory exactly when its first segment is `..`. */
  lemma {:induction false} OutsideExact(rel: string)
    ensures Outside(rel) <==> FirstSegment(rel) == ".."
  {
    if rel != "" && rel[0] != '/' {
      var rest := rel[1..];
      assert FirstSegment(rel) == [rel[0]] + FirstSegment(rest);
      if rest != "" && rest[0] != '/' {
        assert FirstSegment(rest) == [rest[0]] + FirstSegment(rest[1..]);
        assert FirstSegment(rest[1..]) == "" <==> rest[1..] == "" || rest[1] == '/';
      }
    }
  }

  predicate Applies(g: Globs, r: IgnoreRule, path: string) {
    var rel := g.rel(r.base, path);
    rel.Some? && !Outside(rel.value) && g.glob(r.pattern, rel.value)
  }

  method Matches(g: Globs, rules: seq<IgnoreRule>, path: string) returns (ignored: bool)
    ensures ignored <==> exists i :: 0 <= i < |rules| && Applies(g, rules[i], path) && !rules[i].negate &&
                                     forall j :: i < j < |rules| ==> !Applies(g, rules[j], path)
  {
    ignored := false;
    ghost var last := -1;
    for i := 0 to |rules|
      invariant -1 <= last < i && (forall j :: last < j < i ==> !Applies(g, rules[j], path))
      invariant last == -1 ==> !ignored
      invariant last >= 0 ==> Applies(g, rules[last], path) && ignored == !rules[last].negate
    {
      var r := rules[i];
      var rel := g.rel(r.base, path);
      if rel.None? {
        continue;
      }
      if Outside(rel.value) {
        continue;
      }
      if !g.glob(r.pattern, rel.value) {
        continue;
      }
      ignored := !r.negate;
      last := i;
    }
  }
}

/** Which active rules apply to a context, and in what order (`get_applicable_rules` in db/db_agent_rules.py). */
module RuleRanking {
  import RuleCandidates

  /** The fields a scope may state, each with its key in the scope, in the context, and in a label. */
  datatype Field = Languages | FilePatterns | SymbolKinds | Actions | FindingTypes | ModulePrefixes {
    function ScopeKey(): string {
      match this
      case Languages => "languages"
      case FilePatterns => "file_patterns"
      case SymbolKinds => "symbol_kinds"
      case Actions => "actions"
      case FindingTypes => "finding_types"
      case ModulePrefixes => "module_prefixes"
    }

    function ContextKey(): string {
      match this
      case Languages => "language"
      case FilePatterns => "file_path"
      case SymbolKinds => "symbol_kind"
      case Actions => "action"
      case FindingTypes => "finding_type"
      case ModulePrefixes => "module_prefix"
    }

    function Label(): string {
      match this
      case Languages => "language:"
      case FilePatterns => "file:"
      case SymbolKinds => "symbol_kind:"
      case Actions => "action:"
      case FindingTypes => "finding_type:"
      case ModulePrefixes => "module:"
    }
  }

  function Rank(f: Field): (i: nat)
    ensures i < 6 && FieldAt(i) == f
  {
    match f
    case Languages => 0
    case FilePatterns => 1
    case SymbolKinds => 2
    case Actions => 3
    case FindingTypes => 4
    case ModulePrefixes => 5
  }

  function FieldAt(i: nat): Field
    requires i < 6
  {
    match i
    case 0 => Languages
    case 1 => FilePatterns
    case 2 => SymbolKinds
    case 3 => Actions
    case 4 => FindingTypes
    case _ => ModulePrefixes
  }

  type Scope = map<string, seq<string>>
  type Context = map<string, string>

  /** `str.lower` and `fnmatch.fnmatch` are not part of this model. */
  datatype Strings = Strings(lower: string -> string, fnmatch: (string, string) -> bool)

  /** A missing key counts as an empty list. */
  function Listed(scope: Scope, key: string): seq<string> {
    if key in scope then scope[key] else []
  }

  function Given(context: Context, key: string): string {
    if key in context then context[key] else ""
  }

  /******* What it means for a scope to match *******/

  predicate States(scope: Scope, f: Field) {
    Listed(scope, f.ScopeKey()) != []
  }

  /** What the context gives for a field: words are compared in lower case, paths and modules as they are. */
  function Value(str: Strings, context: Context, f: Field): string {
    var v := Given(context, f.ContextKey());
    if f == FilePatterns || f == ModulePrefixes then v else str.lower(v)
  }

  predicate Hits(str: Strings, f: Field, listed: string, value: string) {
    match f
    case FilePatterns => str.fnmatch(value, listed)
    case ModulePrefixes => listed <= value
    case _ => str.lower(listed) == value
  }

  predicate Satisfied(str: Strings, scope: Scope, context: Context, f: Field) {
    var value := Value(str, context, f);
    value != "" && exists l :: l in Listed(scope, f.ScopeKey()) && Hits(str, f, l, value)
  }

  /** Every field the scope states is satisfied by one of its listed values. */
  ghost predicate Matches(str: Strings, scope: Scope, context: Context) {
    forall f: Field :: States(scope, f) ==> Satisfied(str, scope, context, f)
  }

  /** One list of a scope, if it is stated, wants a value and a hit. */
  ghost predicate Allows(scope: Scope, key: string, value: string, hit: string -> bool) {
    key in scope && scope[key] != [] ==> value != "" && exists l :: l in scope[key] && hit(l)
  }

  /** The same, key by key: the context's values against the lists of the scope. */
  lemma MatchesSpelledOut(str: Strings, scope: Scope, context: Context)
    ensures Matches(str, scope, context) <==>
            var language, kind := str.lower(Given(context, "language")), str.lower(Given(context, "symbol_kind"));
            var action, finding := str.lower(Given(context, "action")), str.lower(Given(context, "finding_type"));
            var path, prefix := Given(context, "file_path"), Given(context, "module_prefix");
            && Allows(scope, "languages", language, l => str.lower(l) == language)
            && Allows(scope, "file_patterns", path, l => str.fnmatch(path, l))
            && Allows(scope, "symbol_kinds", kind, l => str.lower(l) == kind)
            && Allows(scope, "actions", action, l => str.lower(l) == action)
            && Allows(scope, "finding_types", finding, l => str.lower(l) == finding)
            && Allows(scope, "module_prefixes", prefix, l => l <= prefix)
  {
    WordAllows(str, scope, context, Languages);
    WordAllows(str, scope, context, SymbolKinds);
    WordAllows(str, scope, context, Actions);
    WordAllows(str, scope, context, FindingTypes);
    TextAllows(str, scope, context);
    MatchesByField(str, scope, context);
  }

  lemma MatchesByField(str: Strings, scope: Scope, context: Context)
    ensures Matches(str, scope, context) <==>
            && FieldAllows(str, scope, context, Languages) && FieldAllows(str, scope, context, FilePatterns)
            && FieldAllows(str, scope, context, SymbolKinds) && FieldAllows(str, scope, context, Actions)
            && FieldAllows(str, scope, context, FindingTypes) && FieldAllows(str, scope, context, ModulePrefixes)
  {
  }

  lemma WordAllows(str: Strings, scope: Scope, context: Context, f: Field)
    requires f != FilePatterns && f != ModulePrefixes
    ensures var word := str.lower(Given(context, f.ContextKey()));
            FieldAllows(str, scope, context, f) <==> Allows(scope, f.ScopeKey(), word, l => str.lower(l) == word)
  {
  }

  lemma TextAllows(str: Strings, scope: Scope, context: Context)
    ensures var path, prefix := Given(context, "file_path"), Given(context, "module_prefix");
            && (FieldAllows(str, scope, context, FilePatterns) <==>
                Allows(scope, "file_patterns", path, l => str.fnmatch(path, l)))
            && (FieldAllows(str, scope, context, ModulePrefixes) <==>
                Allows(scope, "module_prefixes", prefix, l => l <= prefix))
  {
  }

  ghost predicate FieldAllows(str: Strings, scope: Scope, context: Context, f: Field) {
    States(scope, f) ==> Satisfied(str, scope, context, f)
  }

  /** The label of a field, if the scope states it. */
  function LabelIf(scope: Scope, key: string, text: string): seq<string> {
    if key in scope && scope[key] != [] then [text] else []
  }

  function Flat(pieces: seq<seq<string>>): seq<string> {
    if pieces == [] then [] else Flat(pieces[..|pieces| - 1]) + pieces[|pieces| - 1]
  }

  function LabelPieces(str: Strings, scope: Scope, context: Context): (pieces: seq<seq<string>>)
    ensures |pieces| == 6
  {
    [LabelIf(scope, "languages", "language:" + str.lower(Given(context, "language"))),
     LabelIf(scope, "file_patterns", "file:" + Given(context, "file_path")),
     LabelIf(scope, "symbol_kinds", "symbol_kind:" + str.lower(Given(context, "symbol_kind"))),
     LabelIf(scope, "actions", "action:" + str.lower(Given(context, "action"))),
     LabelIf(scope, "finding_types", "finding_type:" + str.lower(Given(context, "finding_type"))),
     LabelIf(scope, "module_prefixes", "module:" + Given(context, "module_prefix"))]
  }

  /** The labels of a match, key by key and in this order; a global rule has one of its own. */
  lemma LabelsSpelledOut(str: Strings, r: Rule, context: Context)
    ensures LabelsOf(str, r, context) ==
            if r.scope == map[] then ["global"] else Flat(LabelPieces(str, r.scope, context))
  {
    LabelsAreFlat(str, r.scope, context, 6);
    assert LabelPieces(str, r.scope, context)[..6] == LabelPieces(str, r.scope, context);
  }

  lemma {:induction false} LabelsAreFlat(str: Strings, scope: Scope, context: Context, n: nat)
    requires n <= 6
    ensures Labels(str, scope, context, n) == Flat(LabelPieces(str, scope, context)[..n])
  {
    if n > 0 {
      LabelsAreFlat(str, scope, context, n - 1);
      FlatStep(LabelPieces(str, scope, context), n);
      PieceAt(str, scope, context, n - 1);
    }
  }

  lemma FlatStep(pieces: seq<seq<string>>, n: nat)
    requires 0 < n <= |pieces|
    ensures Flat(pieces[..n]) == Flat(pieces[..n - 1]) + pieces[n - 1]
  {
    assert pieces[..n][..n - 1] == pieces[..n - 1];
  }

  lemma PieceAt(str: Strings, scope: Scope, context: Context, i: nat)
    requires i < 6
    ensures var f := FieldAt(i);
            LabelPieces(str, scope, context)[i] ==
            if States(scope, f) then [f.Label() + Value(str, context, f)] else []
  {
  }

  /** The labels of the stated fields among the first n. */
  function Labels(str: Strings, scope: Scope, context: Context, n: nat): (labels: seq<string>)
    requires n <= 6
    ensures |labels| <= n
  {
    if n == 0 then []
    else
      var f, before := FieldAt(n - 1), Labels(str, scope, context, n - 1);
      if States(scope, f) then before + [f.Label() + Value(str, context, f)] else before
  }

  /** One field's block of `_match_scope`: its label is added, or the scope does not match. */
  method MatchField(str: Strings, scope: Scope, context: Context, f: Field, before: seq<string>)
    returns (labels: seq<string>, ok: bool)
    ensures ok <==> (States(scope, f) ==> Satisfied(str, scope, context, f))
    ensures labels == if ok && States(scope, f) then before + [f.Label() + Value(str, context, f)] else before
  {
    labels, ok := before, true;
    var listed := Listed(scope, f.ScopeKey());
    if listed != [] {
      var value := Given(context, f.ContextKey());
      if f != FilePatterns && f != ModulePrefixes {
        value := str.lower(value);
      }
      if value == "" || !exists l :: l in listed && Hits(str, f, l, value) {
        return labels, false;
      }
      labels := labels + [f.Label() + value];
    }
  }

  /** `_match_scope` */
  method MatchScope(str: Strings, scope: Scope, context: Context) returns (labels: seq<string>, ok: bool)
    ensures ok <==> Matches(str, scope, context)
    ensures labels == if ok then Labels(str, scope, context, 6) else []
  {
    labels := [];
    Stage(str, scope, context, 0, labels);
    labels, ok := MatchField(str, scope, context, Languages, labels);
    if !ok {
      return [], false;
    }
    Stage(str, scope, context, 1, labels);
    labels, ok := MatchField(str, scope, context, FilePatterns, labels);
    if !ok {
      return [], false;
    }
    Stage(str, scope, context, 2, labels);
    labels, ok := MatchField(str, scope, context, SymbolKinds, labels);
    if !ok {
      return [], false;
    }
    Stage(str, scope, context, 3, labels);
    labels, ok := MatchField(str, scope, context, Actions, labels);
    if !ok {
      return [], false;
    }
    Stage(str, scope, context, 4, labels);
    labels, ok := MatchField(str, scope, context, FindingTypes, labels);
    if !ok {
      return [], false;
    }
    Stage(str, scope, context, 5, labels);
    labels, ok := MatchField(str, scope, context, ModulePrefixes, labels);
    if !ok {
      return [], false;
    }
    SatisfiedToMeans(str, scope, context, 6);
  }

  ghost predicate StageDone(str: Strings, scope: Scope, context: Context, n: nat, labels: seq<string>)
    requires n <= 6
  {
    labels == Labels(str, scope, context, n) && SatisfiedTo(str, scope, context, n)
  }

  /** The stated fields among the first n are satisfied. */
  ghost predicate SatisfiedTo(str: Strings, scope: Scope, context: Context, n: nat)
    requires n <= 6
  {
    n == 0 || (SatisfiedTo(str, scope, context, n - 1)
               && (States(scope, FieldAt(n - 1)) ==> Satisfied(str, scope, context, FieldAt(n - 1))))
  }

  lemma {:induction false} SatisfiedToMeans(str: Strings, scope: Scope, context: Context, n: nat)
    requires n <= 6
    ensures SatisfiedTo(str, scope, context, n) <==>
            forall f: Field :: Rank(f) < n && States(scope, f) ==> Satisfied(str, scope, context, f)
  {
    if n > 0 {
      SatisfiedToMeans(str, scope, context, n - 1);
      assert forall f: Field :: Rank(f) < n <==> Rank(f) < n - 1 || f == FieldAt(n - 1);
    }
  }

  lemma Stage(str: Strings, scope: Scope, context: Context, n: nat, labels: seq<string>)
    requires n < 6 && StageDone(str, scope, context, n, labels)
    ensures var f := FieldAt(n);
            if !States(scope, f) then StageDone(str, scope, context, n + 1, labels)
            else if Satisfied(str, scope, context, f)
            then StageDone(str, scope, context, n + 1, labels + [f.Label() + Value(str, context, f)])
            else !Matches(str, scope, context)
  {
    SatisfiedToMeans(str, scope, context, 6);
  }

  /** A scope that states more fields matches no more contexts: nothing is gained by adding a list where none was. */
  lemma StatingMoreMatchesLess(str: Strings, scope: Scope, context: Context, f: Field, listed: seq<string>)
    requires !States(scope, f) && Matches(str, scope[f.ScopeKey() := listed], context)
    ensures Matches(str, scope, context)
  {
    var more := scope[f.ScopeKey() := listed];
    forall g: Field | States(scope, g) ensures Satisfied(str, scope, context, g) {
      KeysDiffer(f, g);
      assert Listed(scope, g.ScopeKey()) == Listed(more, g.ScopeKey());
      assert States(more, g) && Satisfied(str, more, context, g);
    }
  }

  /** Adding values to a field that is stated already matches no fewer contexts. */
  lemma ListingMoreMatchesMore(str: Strings, scope: Scope, context: Context, f: Field, listed: seq<string>)
    requires States(scope, f) && Matches(str, scope, context)
    ensures Matches(str, scope[f.ScopeKey() := Listed(scope, f.ScopeKey()) + listed], context)
  {
    var more := scope[f.ScopeKey() := Listed(scope, f.ScopeKey()) + listed];
    forall g: Field | States(more, g) ensures Satisfied(str, more, context, g) {
      KeysDiffer(f, g);
      assert Satisfied(str, scope, context, g);
      var l :| l in Listed(scope, g.ScopeKey()) && Hits(str, g, l, Value(str, context, g));
      assert l in Listed(more, g.ScopeKey());
    }
  }

  lemma KeysDiffer(f: Field, g: Field)
    ensures f.ScopeKey() == g.ScopeKey() ==> f == g
  {
    if f != g {
      assert |f.ScopeKey()| != |g.ScopeKey()| || f.ScopeKey()[2] != g.ScopeKey()[2];
    }
  }

  /******* Ranking *******/

  datatype Rule = Rule(id: string, severity: string, scope: Scope, status: RuleCandidates.RuleStatus, updatedAt: real)
  datatype Match = Match(rule: Rule, labels: seq<string>)

  function SeverityOrder(severity: string): nat {
    if severity == "critical" then 4
    else if severity == "error" then 3
    else if severity == "warning" then 2
    else if severity == "info" then 1
    else 0
  }

  /** The sort key of a comes strictly before b's: graver, then more fields matched, then newer. */
  predicate Above(a: Match, b: Match) {
    var s, t := SeverityOrder(a.rule.severity), SeverityOrder(b.rule.severity);
    s > t || (s == t && (|a.labels| > |b.labels|
                         || (|a.labels| == |b.labels| && a.rule.updatedAt > b.rule.updatedAt)))
  }

  /** The severities from the gravest down; everything else comes behind them. */
  const GRAVEST_FIRST := ["critical", "error", "warning", "info"]

  ghost predicate Graver(s: string, t: string) {
    exists i :: 0 <= i < 4 && s == GRAVEST_FIRST[i] && forall j :: 0 <= j <= i ==> t != GRAVEST_FIRST[j]
  }

  lemma GraverIsHigher(s: string, t: string)
    ensures SeverityOrder(s) > SeverityOrder(t) <==> Graver(s, t)
  {
    var g := GRAVEST_FIRST;
    assert g[0] == "critical" && g[1] == "error" && g[2] == "warning" && g[3] == "info";
    assert |"critical"| == 8 && |"error"| == 5 && |"warning"| == 7 && |"info"| == 4;
    assert s in g ==> s == g[4 - SeverityOrder(s)];
  }

  /** Nothing graver comes behind something lighter; within a severity more fields come first, then newer rules. */
  lemma OrderOfSeverities(ms: seq<Match>, i: nat, j: nat)
    requires i < j < |Sort(ms)|
    ensures var a, b := Sort(ms)[i], Sort(ms)[j];
            && !Graver(b.rule.severity, a.rule.severity)
            && (!Graver(a.rule.severity, b.rule.severity) ==>
                  |a.labels| > |b.labels| || (|a.labels| == |b.labels| && a.rule.updatedAt >= b.rule.updatedAt))
  {
    var a, b := Sort(ms)[i], Sort(ms)[j];
    SortSorts(ms);
    GraverIsHigher(a.rule.severity, b.rule.severity);
    GraverIsHigher(b.rule.severity, a.rule.severity);
  }

  predicate SameKey(a: Match, b: Match) {
    !Above(a, b) && !Above(b, a)
  }

  /** `list.sort` with that key: stable, so m goes behind everything it is not strictly above. */
  function Insert(m: Match, sorted: seq<Match>): seq<Match> {
    if sorted == [] then [m]
    else if Above(sorted[0], m) then [sorted[0]] + Insert(m, sorted[1..])
    else [m] + sorted
  }

  function Sort(ms: seq<Match>): seq<Match> {
    if ms == [] then [] else Insert(ms[0], Sort(ms[1..]))
  }

  predicate Ordered(ms: seq<Match>) {
    forall i, j :: 0 <= i < j < |ms| ==> !Above(ms[j], ms[i])
  }

  lemma {:induction false} InsertPermutes(m: Match, sorted: seq<Match>)
    ensures multiset(Insert(m, sorted)) == multiset(sorted) + multiset{m}
  {
    if sorted != [] && Above(sorted[0], m) {
      InsertPermutes(m, sorted[1..]);
      assert sorted == [sorted[0]] + sorted[1..];
    }
  }

  lemma {:induction false} InsertSorts(m: Match, sorted: seq<Match>)
    requires Ordered(sorted)
    ensures Ordered(Insert(m, sorted))
  {
    if sorted == [] {
    } else if Above(sorted[0], m) {
      var rest := sorted[1..];
      InsertSorts(m, rest);
      InsertPermutes(m, rest);
      NoneAboveFirst(sorted, m, Insert(m, rest));
    } else {
      forall j | 0 <= j < |sorted| ensures !Above(sorted[j], m) {
        assert j > 0 ==> !Above(sorted[j], sorted[0]);
      }
    }
  }

  lemma NoneAboveFirst(sorted: seq<Match>, m: Match, done: seq<Match>)
    requires Ordered(sorted) && sorted != [] && Above(sorted[0], m)
    requires multiset(done) == multiset(sorted[1..]) + multiset{m}
    ensures forall j :: 0 <= j < |done| ==> !Above(done[j], sorted[0])
  {
    forall j | 0 <= j < |done| ensures !Above(done[j], sorted[0]) {
      assert done[j] in multiset(done);
      if done[j] != m {
        var k :| 0 <= k < |sorted| - 1 && sorted[1..][k] == done[j];
        assert done[j] == sorted[k + 1];
      }
    }
  }

  lemma {:induction false} SortSorts(ms: seq<Match>)
    ensures Ordered(Sort(ms)) && multiset(Sort(ms)) == multiset(ms)
  {
    if ms != [] {
      SortSorts(ms[1..]);
      InsertSorts(ms[0], Sort(ms[1..]));
      InsertPermutes(ms[0], Sort(ms[1..]));
      assert ms == [ms[0]] + ms[1..];
    }
  }

  /** The elements with the same key as k, in order. */
  function Alike(ms: seq<Match>, k: Match): seq<Match> {
    if ms == [] then []
    else if SameKey(ms[0], k) then [ms[0]] + Alike(ms[1..], k)
    else Alike(ms[1..], k)
  }

  lemma {:induction false} InsertIsStable(m: Match, sorted: seq<Match>, k: Match)
    ensures Alike(Insert(m, sorted), k) == (if SameKey(m, k) then [m] else []) + Alike(sorted, k)
  {
    if sorted != [] && Above(sorted[0], m) {
      InsertIsStable(m, sorted[1..], k);
      assert ([sorted[0]] + Insert(m, sorted[1..]))[1..] == Insert(m, sorted[1..]);
    } else {
      assert ([m] + sorted)[1..] == sorted;
    }
  }

  /** Matches with one key keep the order in which they were scanned. */
  lemma {:induction false} SortIsStable(ms: seq<Match>, k: Match)
    ensures Alike(Sort(ms), k) == Alike(ms, k)
  {
    if ms != [] {
      SortIsStable(ms[1..], k);
      InsertIsStable(ms[0], Sort(ms[1..]), k);
    }
  }

  /******* The query *******/

  const SCAN_LIMIT := 500

  /** The active rules of the table, in its order; the table is given newest first. */
  function ActiveOf(table: seq<Rule>): (rs: seq<Rule>)
    ensures forall r :: r in rs <==> r in table && r.status.Active?
  {
    if table == [] then []
    else if table[0].status.Active? then [table[0]] + ActiveOf(table[1..])
    else ActiveOf(table[1..])
  }

  function Scanned(table: seq<Rule>): seq<Rule> {
    var active := ActiveOf(table);
    if |active| <= SCAN_LIMIT then active else active[..SCAN_LIMIT]
  }

  /** An empty scope is global and counts as one matched field. */
  function LabelsOf(str: Strings, r: Rule, context: Context): seq<string> {
    if r.scope == map[] then ["global"] else Labels(str, r.scope, context, 6)
  }

  ghost function MatchesIn(str: Strings, rules: seq<Rule>, context: Context): seq<Match> {
    if rules == [] then []
    else
      var n := |rules| - 1;
      var before := MatchesIn(str, rules[..n], context);
      if Matches(str, rules[n].scope, context)
      then before + [Match(rules[n], LabelsOf(str, rules[n], context))]
      else before
  }

  /** A rule is among the matches, with its labels, exactly when every field it states is satisfied. */
  lemma {:induction false} MatchesInMeans(str: Strings, rules: seq<Rule>, context: Context, m: Match)
    ensures m in MatchesIn(str, rules, context) <==>
            m.rule in rules && Matches(str, m.rule.scope, context) && m.labels == LabelsOf(str, m.rule, context)
  {
    if rules != [] {
      MatchesInMeans(str, rules[..|rules| - 1], context, m);
      assert rules == rules[..|rules| - 1] + [rules[|rules| - 1]];
    }
  }

  lemma MatchesInStep(str: Strings, rules: seq<Rule>, context: Context, i: nat)
    requires i < |rules|
    ensures var before := MatchesIn(str, rules[..i], context);
            MatchesIn(str, rules[..i + 1], context) ==
            if rules[i].scope == map[] then before + [Match(rules[i], ["global"])]
            else if Matches(str, rules[i].scope, context)
            then before + [Match(rules[i], Labels(str, rules[i].scope, context, 6))]
            else before
  {
    assert rules[..i + 1][..i] == rules[..i];
  }

  /** `get_applicable_rules` */
  method GetApplicableRules(str: Strings, table: seq<Rule>, context: Context, limit: int) returns (r: seq<Match>)
    ensures var all := Sort(MatchesIn(str, Scanned(table), context));
            r == if limit <= 0 then [] else if limit < |all| then all[..limit] else all
  {
    if limit <= 0 {
      return [];
    }
    var rules := Scanned(table);
    var matched: seq<Match> := [];
    for i := 0 to |rules|
      invariant matched == MatchesIn(str, rules[..i], context)
    {
      MatchesInStep(str, rules, context, i);
      if rules[i].scope == map[] {
        matched := matched + [Match(rules[i], ["global"])];
      } else {
        var labels, ok := MatchScope(str, rules[i].scope, context);
        if ok {
          matched := matched + [Match(rules[i], labels)];
        }
      }
    }
    assert rules[..|rules|] == rules;
    var sorted := Sort(matched);
    r := if limit < |sorted| then sorted[..limit] else sorted;
  }

  /**
   What is returned: matches of scanned rules, as many as the limit allows, best first; a match
   that is left out is not strictly above any that is returned.
   */
  lemma BestAreReturned(str: Strings, table: seq<Rule>, context: Context, limit: nat)
    ensures var ms := MatchesIn(str, Scanned(table), context);
            var all := Sort(ms);
            var r := if limit < |all| then all[..limit] else all;
            && |r| == (if limit < |ms| then limit else |ms|)
            && Ordered(r) && multiset(r) <= multiset(ms)
            && forall m, b :: m in multiset(ms) - multiset(r) && b in r ==> !Above(m, b)
  {
    var ms := MatchesIn(str, Scanned(table), context);
    var all := Sort(ms);
    SortSorts(ms);
    assert |all| == |multiset(all)| == |multiset(ms)| == |ms|;
    if limit < |all| {
      FirstAreBest(all, limit);
    }
  }

  lemma FirstAreBest(all: seq<Match>, limit: nat)
    requires Ordered(all) && limit < |all|
    ensures var r := all[..limit];
            && Ordered(r) && multiset(r) <= multiset(all)
            && forall m, b :: m in multiset(all) - multiset(r) && b in r ==> !Above(m, b)
  {
    var r, left := all[..limit], all[limit..];
    assert all == r + left;
    assert multiset(all) - multiset(r) == multiset(left);
    forall m, b | m in left && b in r ensures !Above(m, b) {
      NoneLeftIsAbove(all, limit, m, b);
    }
  }

  lemma NoneLeftIsAbove(all: seq<Match>, limit: nat, m: Match, b: Match)
    requires Ordered(all) && limit < |all| && m in all[limit..] && b in all[..limit]
    ensures !Above(m, b)
  {
    var j :| 0 <= j < |all| - limit && all[limit..][j] == m;
    var i :| 0 <= i < limit && all[..limit][i] == b;
    assert all[limit + j] == m && all[i] == b;
  }

  predicate NewestFirst(table: seq<Rule>) {
    forall i, j :: 0 <= i < j < |table| ==> table[i].updatedAt >= table[j].updatedAt
  }

  lemma {:induction false} ActiveNewestFirst(table: seq<Rule>)
    requires NewestFirst(table)
    ensures NewestFirst(ActiveOf(table))
  {
    if table != [] {
      var rest := ActiveOf(table[1..]);
      ActiveNewestFirst(table[1..]);
      forall j | 0 <= j < |rest| ensures table[0].updatedAt >= rest[j].updatedAt {
        assert rest[j] in table[1..];
        var k :| 0 <= k < |table[1..]| && table[1..][k] == rest[j];
        assert table[k + 1] == rest[j];
      }
    }
  }

  /** An active rule is scanned, or 500 active rules that are no older are; fewer than 501 are all scanned. */
  lemma UnscannedAreOlder(table: seq<Rule>, r: Rule)
    requires NewestFirst(table) && r in table && r.status.Active?
    ensures r in Scanned(table) || (|Scanned(table)| == 500
                                    && forall q :: q in Scanned(table) ==> q.updatedAt >= r.updatedAt)
  {
    var active := ActiveOf(table);
    ActiveNewestFirst(table);
    var k :| 0 <= k < |active| && active[k] == r;
    if k < |Scanned(table)| {
      assert Scanned(table)[k] == r;
    }
  }

  /**
   The match count: a global rule counts like a rule with one stated field, so stating the first
   field gains nothing; a scope with only empty lists also matches everywhere, yet counts none.
   */
  lemma CountOfMatchedFields(str: Strings, r: Rule, context: Context)
    ensures |LabelsOf(str, r, context)| ==
            if r.scope == map[] then 1 else |set f: Field | States(r.scope, f)|
    ensures (forall f: Field :: !States(r.scope, f)) ==> Matches(str, r.scope, context)
  {
    CountOfLabels(str, r.scope, context, 6);
    assert (set f: Field | States(r.scope, f)) == set f: Field | Rank(f) < 6 && States(r.scope, f);
  }

  lemma {:induction false} CountOfLabels(str: Strings, scope: Scope, context: Context, n: nat)
    requires n <= 6
    ensures |Labels(str, scope, context, n)| == |set f: Field | Rank(f) < n && States(scope, f)|
  {
    if n > 0 {
      CountOfLabels(str, scope, context, n - 1);
      StatedStep(scope, n);
    }
  }

  lemma StatedStep(scope: Scope, n: nat)
    requires 0 < n <= 6
    ensures var g, less := FieldAt(n - 1), (set f: Field | Rank(f) < n - 1 && States(scope, f));
            && g !in less
            && (set f: Field | Rank(f) < n && States(scope, f)) == if States(scope, g) then less + {g} else less
  {
    assert Rank(FieldAt(n - 1)) == n - 1;
    assert forall f: Field :: Rank(f) == n - 1 ==> f == FieldAt(n - 1);
  }
}
